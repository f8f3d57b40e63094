/** For which byte strings the echo is exact, whatever the schedule, and for every size of the pool. */
module PipelineEcho {
  import opened PipelineMachine
  import opened PipelineSafety
  import opened PipelineOrder
  import opened PipelineProgress
  import opened PipelineBytes
  import opened Sequences

  // ----- what is known at rest

  /** With everybody at rest, the chunks of a connection are all that arrived, and the messages built from
      them went out, in some order. */
  lemma RestIsFramed(poolSize: nat, s: State, c: nat)
    requires poolSize >= 1 && Reachable(poolSize, s) && AtRest(s) && c < |s.conns|
    ensures multiset(s.conns[c].sent) == multiset(s.conns[c].received)
    ensures Flat(s.conns[c].chunks) == s.conns[c].arrived && Framed(s, c)
    ensures |Flat(s.conns[c].sent)| == |Flat(s.conns[c].received)|
  {
    var run :| Leads(Init(poolSize), run, s);
    RestIsAnswered(poolSize, s, c);
    FramedAfter(poolSize, run, c);
    SameLength(s.conns[c].sent, s.conns[c].received);
  }

  /** With one worker they went out in order. */
  lemma RestIsOrdered(s: State, c: nat)
    requires Reachable(1, s) && AtRest(s) && c < |s.conns|
    ensures s.conns[c].sent == s.conns[c].received
  {
    var k := s.conns[c];
    RestIsAnswered(1, s, c);
    ServedInOrder(1, s, c);
    assert |k.sent| == |multiset(k.sent)| == |multiset(k.received)| == |k.received|;
  }

  /** With one worker, once a connection is at rest and every buffer was terminated, the client got back
      exactly the bytes it sent if and only if it sent no NUL. */
  lemma EchoExactIffNoNul(s: State, c: nat)
    requires Reachable(1, s) && AtRest(s) && c < |s.conns|
    requires forall chunk <- s.conns[c].chunks :: Terminated(chunk)
    ensures Flat(s.conns[c].sent) == s.conns[c].arrived <==> NUL !in s.conns[c].arrived
  {
    RestIsFramed(1, s, c);
    RestIsOrdered(s, c);
    DecodingIsExact(s.conns[c].chunks, s.conns[c].received);
  }

  // ----- reading one byte at a time

  /** The log entries of connection c after an action: what arrived stays, and a chunk may be added. */
  predicate Grew(k: Conn, l: Conn, n: nat) {
    && l.arrived == k.arrived
    && ((l.chunks == k.chunks && l.received == k.received)
        || (n <= |k.inbox| && l.chunks == k.chunks + [k.inbox[..n]] && |l.received| == |k.received| + 1
            && k.received <= l.received))
  }

  /** A thread of the server that receives at most one byte at a time. */
  lemma BytewiseStep(s: State) returns (a: Action)
    requires !AtRest(s)
    ensures (a.R? || a.W?) && Enabled(s, a) && (a.R? && a.r.Recv? ==> a.r.n == 1)
  {
    a := SomeoneMoves(s);
    if a.R? && a.r.Recv? {
      a := R(Recv(1, UpToNul(s.conns[s.reactor.c].inbox[..1])));
    }
  }

  lemma BytewiseGrows(s: State, a: Action, c: nat)
    requires (a.R? || a.W?) && Enabled(s, a) && (a.R? && a.r.Recv? ==> a.r.n == 1) && c < |s.conns|
    ensures |Apply(s, a).conns| == |s.conns| && Grew(s.conns[c], Apply(s, a).conns[c], 1)
  {
    match a {
      case R(r) =>
        if !r.Recv? {
          StreamStaysR(s, r, c);
        }
      case W(w, k) => StreamStaysW(s, w, k, c);
    }
  }

  /** What left connection c, and what is in line to leave it. */
  function Out(s: State, c: nat): seq<Msg>
    requires c < |s.conns|
  {
    s.conns[c].sent + AboutToSend(s, c) + s.conns[c].rsp
  }

  lemma OutAfterShift(s: State, c: nat)
    requires REnabled(s, ShiftRsp) && c < |s.conns|
    ensures Out(RApply(s, ShiftRsp), c) == Out(s, c)
  {
    var q := s.conns[s.reactor.c].rsp;
    assert q != [] ==> q == [q[0]] + q[1..];
    if c != s.reactor.c {
      assert RApply(s, ShiftRsp).conns[c] == s.conns[c];
    }
  }

  lemma OutAfterR(s: State, r: ReactorAct, c: nat)
    requires REnabled(s, r) && c < |s.conns|
    ensures c < |RApply(s, r).conns| && Out(RApply(s, r), c) == Out(s, c)
  {
    match r {
      case ShiftRsp => OutAfterShift(s, c);
      case Send =>
        if c != s.reactor.c {
          assert RApply(s, Send).conns[c] == s.conns[c];
        }
      case Wait(_) =>
      case _ =>
    }
  }

  lemma OutAfterW(s: State, w: nat, k: WorkerAct, c: nat)
    requires WEnabled(s, w, k) && c < |s.conns|
    ensures c < |WApply(s, w, k).conns| && Out(s, c) <= Out(WApply(s, w, k), c)
  {
    match k { case Sleep => case Take => case Fetch => case PushRsp => case WriteEvent => }
  }

  /** What a connection received, byte by byte, beyond what it had; and the line only got longer. */
  ghost predicate Bytewise(k: Conn, l: Conn) {
    && l.arrived == k.arrived && k.chunks <= l.chunks && k.received <= l.received
    && forall i :: |k.chunks| <= i < |l.chunks| ==> |l.chunks[i]| <= 1
  }

  /** From every reachable state the threads can finish with one-byte reads. */
  lemma {:induction false} FinishBytewise(poolSize: nat, s: State, c: nat) returns (t: State)
    requires Reachable(poolSize, s) && c < |s.conns|
    ensures Reachable(poolSize, t) && AtRest(t) && |t.conns| == |s.conns| && Bytewise(s.conns[c], t.conns[c])
    ensures Out(s, c) <= Out(t, c)
    decreases Work(s)
  {
    if AtRest(s) {
      t := s;
    } else {
      var a := BytewiseStep(s);
      WorkDecreases(s, a);
      ReachableStep(poolSize, s, a);
      BytewiseGrows(s, a, c);
      if a.R? {
        OutAfterR(s, a.r, c);
      } else {
        OutAfterW(s, a.w, a.k, c);
      }
      t := FinishBytewise(poolSize, Apply(s, a), c);
    }
  }

  // ----- how the echo fails

  /** A client connected, was registered, and sent these bytes; the reactor is about to receive them. */
  lemma ClientSends(poolSize: nat, bytes: string) returns (run: seq<Action>, s: State, k: Conn)
    requires bytes != ""
    ensures LeadsTo(poolSize, run, s, k) && Reachable(poolSize, s) && s.reactor == InRecv(0)
    ensures s.tasks == [] && forall i :: 0 <= i < poolSize ==> s.workers[i] == Idle
    ensures k.inbox == k.arrived == bytes && k.chunks == [] && k.received == [] && k.rspReg
    ensures k.req == [] && k.rsp == [] && k.sent == []
  {
    run := ClientConnects(poolSize);
    run := ClientRegistered(poolSize, run);
    run, s, k := DataArrives(poolSize, run, Init(poolSize).(conns := [Open]), Open, bytes);
    assert Leads(Init(poolSize), run, s);
  }

  /** A NUL is not echoed, if the bytes are received one at a time. */
  lemma NulIsLost(poolSize: nat, bytes: string) returns (s: State)
    requires poolSize >= 1 && NUL in bytes
    ensures Reachable(poolSize, s) && AtRest(s) && |s.conns| == 1
    ensures s.conns[0].arrived == bytes && |Flat(s.conns[0].sent)| < |bytes|
  {
    var run, first, k := ClientSends(poolSize, bytes);
    s := FinishBytewise(poolSize, first, 0);
    RestIsFramed(poolSize, s, 0);
    DecodingIsExact(s.conns[0].chunks, s.conns[0].received);
  }

  /** A full buffer without NUL is echoed with whatever follows it in memory, here one more byte. */
  lemma FullBufferOverreads(poolSize: nat, bytes: string) returns (s: State)
    requires poolSize >= 1 && NUL !in bytes && |bytes| >= RECV_BUF
    ensures Reachable(poolSize, s) && AtRest(s) && |s.conns| == 1
    ensures s.conns[0].arrived == bytes && |Flat(s.conns[0].sent)| == |bytes| + 1
  {
    var run, first, k := ClientSends(poolSize, bytes);
    var chunk := bytes[..RECV_BUF];
    var a := R(Recv(RECV_BUF, chunk + "x"));
    ReachableStep(poolSize, first, a);
    var second := Apply(first, a);
    assert second.conns[0].chunks == [chunk] && second.conns[0].received == [chunk + "x"];
    s := FinishBytewise(poolSize, second, 0);
    RestIsFramed(poolSize, s, 0);
    OneByteMore(s.conns[0].chunks, s.conns[0].received);
  }

  lemma OneByteMore(chunks: seq<string>, messages: seq<Msg>)
    requires |chunks| == |messages| >= 1 && messages[0] == chunks[0] + "x"
    requires forall i :: 0 <= i < |chunks| ==> IsDecoding(chunks[i], messages[i]) && (i > 0 ==> |chunks[i]| <= 1)
    requires NUL !in Flat(chunks)
    ensures |Flat(messages)| == |Flat(chunks)| + 1
  {
    var c, m := chunks[1..], messages[1..];
    forall i | 0 <= i < |c| ensures Terminated(c[i]) && IsDecoding(c[i], m[i]) {
      assert c[i] == chunks[i + 1] && m[i] == messages[i + 1];
    }
    assert chunks == [chunks[0]] + c && messages == [messages[0]] + m;
    FlatCons(chunks[0], c);
    FlatCons(messages[0], m);
    DecodingIsExact(c, m);
  }

  /** With two workers the bytes from j on can overtake the ones before. */
  lemma Overtaken(poolSize: nat, bytes: string, j: nat) returns (s: State)
    requires poolSize >= 2 && NUL !in bytes && 0 < j < |bytes| < RECV_BUF
    ensures Reachable(poolSize, s) && |s.conns| == 1
    ensures s.conns[0].arrived == bytes && Out(s, 0) == [bytes[j..j + 1]]
  {
    var run, k;
    run, s, k := ClientSends(poolSize, bytes);
    run, s, k := Requests(poolSize, run, s, k, j);
    assert bytes[j..][..1] == bytes[j..j + 1];
    run, s, k := Requests(poolSize, run, s, k, 1);
    run, s, k := TakesRequest(poolSize, run, s, k, 0);
    run, s, k := TakesRequest(poolSize, run, s, k, 1);
    run, s, k := Responds(poolSize, run, s, k, 1, bytes[j..j + 1]);
    assert Leads(Init(poolSize), run, s);
  }

  /** So the echo can start with any byte. */
  lemma OrderIsLost(poolSize: nat, bytes: string, j: nat) returns (s: State)
    requires poolSize >= 2 && NUL !in bytes && 0 < j < |bytes| < RECV_BUF
    ensures Reachable(poolSize, s) && AtRest(s) && |s.conns| == 1
    ensures s.conns[0].arrived == bytes && Flat(s.conns[0].sent) != "" && Flat(s.conns[0].sent)[0] == bytes[j]
  {
    var before := Overtaken(poolSize, bytes, j);
    s := FinishBytewise(poolSize, before, 0);
    ReachableInv(poolSize, s);
    RestHasPool(poolSize, s);
    NothingWaits(s, 0);
    WhoRests(s);
    var sent := s.conns[0].sent;
    assert Out(s, 0) == sent;
    assert sent == [bytes[j..j + 1]] + sent[1..];
    FlatCons(bytes[j..j + 1], sent[1..]);
  }

  lemma RestHasPool(poolSize: nat, s: State)
    requires Reachable(poolSize, s)
    ensures |s.workers| == poolSize
  {
    var run :| Leads(Init(poolSize), run, s);
    PoolSizeAfter(poolSize, run);
  }

  /** Without a worker nothing gets in line to leave. */
  lemma {:induction false} NoWorkerNoReply(run: seq<Action>, c: nat)
    requires IsRun(Init(0), run) && c < |After(Init(0), run).conns|
    ensures Out(After(Init(0), run), c) == []
    decreases |run|
  {
    if run != [] {
      var most, a := run[..|run| - 1], run[|run| - 1];
      var s := After(Init(0), most);
      PoolSizeAfter(0, most);
      if c < |s.conns| {
        NoWorkerNoReply(most, c);
        match a {
          case R(r) => OutAfterR(s, r, c);
          case E(e) => OutAfterE(s, e, c);
          case W(_, _) =>
        }
      } else {
        InvAfter(0, most);
        NewConnection(s, a, c);
      }
    }
  }

  lemma OutAfterE(s: State, e: EnvAct, c: nat)
    requires EEnabled(s, e) && c < |s.conns|
    ensures c < |EApply(s, e).conns| && Out(EApply(s, e), c) == Out(s, c)
  {
  }

  /** So there only the empty string comes back. */
  lemma EmptyIsEchoed(bytes: string)
    ensures EchoesExactly(0, bytes) <==> bytes == ""
  {
    forall s: State, c: nat | Reachable(0, s) && c < |s.conns| ensures Flat(s.conns[c].sent) == "" {
      var run :| Leads(Init(0), run, s);
      NoWorkerNoReply(run, c);
    }
    if bytes != "" {
      var run, first, k := ClientSends(0, bytes);
      var s := FinishBytewise(0, first, 0);
      assert s.conns[0].arrived == bytes && Flat(s.conns[0].sent) != bytes;
    }
  }

  // ----- the exact condition

  /** Whatever the schedule, a client that sends these bytes gets back exactly these bytes. */
  ghost predicate EchoesExactly(poolSize: nat, bytes: string) {
    forall s: State, c: nat ::
      Reachable(poolSize, s) && AtRest(s) && c < |s.conns| && s.conns[c].arrived == bytes ==>
        Flat(s.conns[c].sent) == bytes
  }

  predicate AllEqual(bytes: string) {
    forall i, j :: 0 <= i < j < |bytes| ==> bytes[i] == bytes[j]
  }

  /** Short strings without NUL are cut into chunks that are echoed one by one. */
  lemma ChunksAreMessages(poolSize: nat, s: State, c: nat)
    requires poolSize >= 1 && Reachable(poolSize, s) && AtRest(s) && c < |s.conns|
    requires NUL !in s.conns[c].arrived && |s.conns[c].arrived| < RECV_BUF
    ensures s.conns[c].received == s.conns[c].chunks
    ensures |Flat(s.conns[c].sent)| == |s.conns[c].arrived|
  {
    var k := s.conns[c];
    RestIsFramed(poolSize, s, c);
    forall i | 0 <= i < |k.chunks| ensures k.received[i] == k.chunks[i] {
      PartOfFlat(k.chunks, i);
    }
  }

  /** Equal bytes stay equal in any order. */
  lemma EqualBytesAreEchoed(poolSize: nat, s: State, c: nat)
    requires poolSize >= 1 && Reachable(poolSize, s) && AtRest(s) && c < |s.conns|
    requires NUL !in s.conns[c].arrived && |s.conns[c].arrived| < RECV_BUF && AllEqual(s.conns[c].arrived)
    ensures Flat(s.conns[c].sent) == s.conns[c].arrived
  {
    var k := s.conns[c];
    RestIsFramed(poolSize, s, c);
    ChunksAreMessages(poolSize, s, c);
    forall x | x in Flat(k.sent) ensures x in k.arrived {
      var i := SomePart(k.sent, x);
      assert k.sent[i] in multiset(k.received);
      var j :| 0 <= j < |k.received| && k.received[j] == k.sent[i];
      PartOfFlat(k.chunks, j);
    }
    forall i | 0 <= i < |k.arrived| ensures Flat(k.sent)[i] == k.arrived[i] {
      assert Flat(k.sent)[i] in k.arrived;
    }
  }

  /** What a caller can check before sending. */
  predicate Echoable(poolSize: nat, bytes: string) {
    if poolSize == 0 then bytes == ""
    else NUL !in bytes && |bytes| < RECV_BUF && (poolSize == 1 || AllEqual(bytes))
  }

  /** The echo of a byte string is exact in all resting runs if and only if it has no NUL, cannot fill the
      receive buffer, and either there is one worker or its bytes cannot be told apart. */
  lemma EchoIsExactIff(poolSize: nat, bytes: string)
    ensures EchoesExactly(poolSize, bytes) <==> Echoable(poolSize, bytes)
  {
    if poolSize == 0 {
      EmptyIsEchoed(bytes);
    } else if NUL in bytes {
      var s := NulIsLost(poolSize, bytes);
      assert s.conns[0].arrived == bytes && Flat(s.conns[0].sent) != bytes;
    } else if |bytes| >= RECV_BUF {
      var s := FullBufferOverreads(poolSize, bytes);
      assert s.conns[0].arrived == bytes && Flat(s.conns[0].sent) != bytes;
    } else if poolSize >= 2 && !AllEqual(bytes) {
      var j :| 0 < j < |bytes| && bytes[j] != bytes[0];
      var s := OrderIsLost(poolSize, bytes, j);
      assert s.conns[0].arrived == bytes && Flat(s.conns[0].sent) != bytes;
    } else {
      forall s: State, c: nat |
          Reachable(poolSize, s) && AtRest(s) && c < |s.conns| && s.conns[c].arrived == bytes
        ensures Flat(s.conns[c].sent) == bytes
      {
        if poolSize == 1 {
          RestIsFramed(1, s, c);
          RestIsOrdered(s, c);
          ChunksAreMessages(1, s, c);
        } else {
          EqualBytesAreEchoed(poolSize, s, c);
        }
      }
    }
  }
}
