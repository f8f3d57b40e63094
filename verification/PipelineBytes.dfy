/** The byte stream of a connection: how `recv` cuts it up, and when the echo is exact. */
module PipelineBytes {
  import opened PipelineMachine
  import opened PipelineOrder
  import opened PipelineProgress
  import opened PipelineSafety
  import opened Sequences

  /** The chunks are non-empty, fit the buffer, decode to the messages, and together with the inbox
      are the bytes that arrived. */
  ghost predicate Framed(s: State, c: nat) {
    c < |s.conns| ==>
      var k := s.conns[c];
      && k.arrived == Flat(k.chunks) + k.inbox
      && |k.chunks| == |k.received|
      && forall i :: 0 <= i < |k.chunks| ==> 1 <= |k.chunks[i]| <= RECV_BUF && IsDecoding(k.chunks[i], k.received[i])
  }

  lemma FramedRecv(s: State, n: nat, m: Msg, c: nat)
    requires REnabled(s, Recv(n, m)) && c < |s.conns| && Framed(s, c)
    ensures Framed(RApply(s, Recv(n, m)), c)
  {
    var k := s.conns[s.reactor.c];
    if c == s.reactor.c {
      DecodesIff(k.inbox[..n], m);
      assert (k.chunks + [k.inbox[..n]])[..|k.chunks|] == k.chunks;
    } else {
      assert SameStream(s, RApply(s, Recv(n, m)), c);
    }
  }

  predicate SameStream(s: State, t: State, c: nat)
    requires c < |s.conns|
  {
    && |t.conns| == |s.conns|
    && t.conns[c].arrived == s.conns[c].arrived && t.conns[c].inbox == s.conns[c].inbox
    && t.conns[c].chunks == s.conns[c].chunks && t.conns[c].received == s.conns[c].received
  }

  /** Only `recv` touches what came in. */
  lemma StreamStaysR(s: State, r: ReactorAct, c: nat)
    requires REnabled(s, r) && !r.Recv? && c < |s.conns|
    ensures SameStream(s, RApply(s, r), c)
  {
    match r { case Wait(_) => case _ => }
  }

  lemma StreamStaysW(s: State, w: nat, k: WorkerAct, c: nat)
    requires WEnabled(s, w, k) && c < |s.conns|
    ensures SameStream(s, WApply(s, w, k), c)
  {
    match k { case Sleep => case Take => case Fetch => case PushRsp => case WriteEvent => }
  }

  lemma FramedR(s: State, r: ReactorAct, c: nat)
    requires REnabled(s, r) && c < |s.conns| && Framed(s, c)
    ensures Framed(RApply(s, r), c)
  {
    if r.Recv? {
      FramedRecv(s, r.n, r.m, c);
    } else {
      StreamStaysR(s, r, c);
    }
  }

  lemma FramedW(s: State, w: nat, k: WorkerAct, c: nat)
    requires WEnabled(s, w, k) && c < |s.conns| && Framed(s, c)
    ensures Framed(WApply(s, w, k), c)
  {
    StreamStaysW(s, w, k, c);
  }

  lemma FramedE(s: State, e: EnvAct, c: nat)
    requires EEnabled(s, e) && c < |s.conns| && Framed(s, c)
    ensures Framed(EApply(s, e), c)
  {
  }

  lemma {:induction false} FramedAfter(poolSize: nat, run: seq<Action>, c: nat)
    requires IsRun(Init(poolSize), run)
    ensures Framed(After(Init(poolSize), run), c)
    decreases |run|
  {
    if run != [] {
      var s, a := After(Init(poolSize), run[..|run| - 1]), run[|run| - 1];
      FramedAfter(poolSize, run[..|run| - 1], c);
      if c < |s.conns| {
        match a {
          case R(r) => FramedR(s, r, c);
          case W(w, k) => FramedW(s, w, k, c);
          case E(e) => FramedE(s, e, c);
        }
      } else {
        match a {
          case R(r) => match r { case Wait(_) => case _ => }
          case W(w, k) =>
          case E(e) =>
        }
      }
    }
  }

  // ----- when the messages are the bytes

  /** Messages built from terminated chunks carry all the bytes exactly when there is no NUL among them. */
  lemma {:induction false} DecodingIsExact(chunks: seq<string>, messages: seq<Msg>)
    requires |chunks| == |messages|
    requires forall i :: 0 <= i < |chunks| ==> Terminated(chunks[i]) && IsDecoding(chunks[i], messages[i])
    ensures |Flat(messages)| <= |Flat(chunks)|
    ensures Flat(messages) == Flat(chunks) <==> NUL !in Flat(chunks)
    ensures NUL in Flat(chunks) ==> |Flat(messages)| < |Flat(chunks)|
    decreases |chunks|
  {
    if chunks != [] {
      var n := |chunks| - 1;
      DecodingIsExact(chunks[..n], messages[..n]);
      assert |messages[n]| == |chunks[n]| <==> NUL !in chunks[n];
    }
  }
}
