/** What happens to the messages: nothing is lost, duplicated or delivered to another connection, and
    with a single worker nothing is reordered. */
module PipelineOrder {
  import opened Counting
  import opened PipelineMachine
  import opened PipelineSafety

  // ----- conservation

  /** Message m was received on connection c as often as it sits, for c, in one of the six places. */
  ghost predicate Conserved(s: State, c: nat, m: Msg) {
    c < |s.conns| ==>
      Count(s.conns[c].received, m) ==
        Count(s.conns[c].sent, m)
        + (if s.reactor == Sending(c, m) then 1 else 0)
        + Count(s.conns[c].rsp, m)
        + Count(s.workers, HasMsg(c, m))
        + Count(s.conns[c].req, m)
        + (if s.reactor == GotMsg(c, m) then 1 else 0)
  }

  lemma ShiftConserves(s: State, c: nat, m: Msg)
    requires REnabled(s, ShiftRsp) && c < |s.conns| && Conserved(s, c, m)
    ensures Conserved(RApply(s, ShiftRsp), c, m)
  {
    var q := s.conns[s.reactor.c].rsp;
    if q != [] {
      CountTail(q, m);
      if c != s.reactor.c {
        assert RApply(s, ShiftRsp).conns[c] == s.conns[c];
      }
    }
  }

  lemma FetchConserves(s: State, w: nat, c: nat, m: Msg)
    requires WEnabled(s, w, Fetch) && c < |s.conns| && Conserved(s, c, m)
    ensures Conserved(WApply(s, w, Fetch), c, m)
  {
    CountUpdate(s.workers, w, WApply(s, w, Fetch).workers[w], HasMsg(c, m));
    var q := s.conns[s.workers[w].c].req;
    if q != [] {
      CountTail(q, m);
      if c != s.workers[w].c {
        assert WApply(s, w, Fetch).conns[c] == s.conns[c];
      }
    }
  }

  /** The three steps in which the reactor appends a message to a log or a queue. */
  lemma AppendConserves(s: State, r: ReactorAct, c: nat, m: Msg)
    requires r.Recv? || r.PushReq? || r.Send?
    requires REnabled(s, r) && c < |s.conns| && Conserved(s, c, m)
    ensures Conserved(RApply(s, r), c, m)
  {
    var k := s.conns[s.reactor.c];
    match r {
      case Recv(_, x) => CountSnoc(k.received, x, m);
      case PushReq => CountSnoc(k.req, s.reactor.m, m);
      case Send => CountSnoc(k.sent, s.reactor.m, m);
    }
  }

  lemma AddTaskConserves(s: State, w: nat, c: nat, m: Msg)
    requires REnabled(s, AddTask(w)) && c < |s.conns| && Conserved(s, c, m)
    ensures Conserved(RApply(s, AddTask(w)), c, m)
  {
    if Asleep in s.workers {
      CountUpdate(s.workers, w, Idle, HasMsg(c, m));
    }
  }

  lemma ConservedR(s: State, r: ReactorAct, c: nat, m: Msg)
    requires REnabled(s, r) && c < |s.conns| && Conserved(s, c, m)
    ensures Conserved(RApply(s, r), c, m)
  {
    match r {
      case Recv(_, _) => AppendConserves(s, r, c, m);
      case PushReq => AppendConserves(s, r, c, m);
      case Send => AppendConserves(s, r, c, m);
      case AddTask(w) => AddTaskConserves(s, w, c, m);
      case ShiftRsp => ShiftConserves(s, c, m);
      case Wait(_) =>
      case _ =>
    }
  }

  lemma ConservedW(s: State, w: nat, k: WorkerAct, c: nat, m: Msg)
    requires WEnabled(s, w, k) && c < |s.conns| && Conserved(s, c, m)
    ensures Conserved(WApply(s, w, k), c, m)
  {
    match k {
      case Fetch => FetchConserves(s, w, c, m);
      case PushRsp =>
        CountUpdate(s.workers, w, Pushed(s.workers[w].c), HasMsg(c, m));
        CountSnoc(s.conns[s.workers[w].c].rsp, s.workers[w].m, m);
      case _ =>
        CountUpdate(s.workers, w, WApply(s, w, k).workers[w], HasMsg(c, m));
    }
  }

  lemma ConservedE(s: State, e: EnvAct, c: nat, m: Msg)
    requires EEnabled(s, e) && c < |s.conns| && Conserved(s, c, m)
    ensures Conserved(EApply(s, e), c, m)
  {
    if e.SpuriousWake? {
      CountUpdate(s.workers, e.w, Idle, HasMsg(c, m));
    }
  }

  /** Over every run, on every connection: each message is accounted for, as often as it was received. */
  lemma {:induction false} ConservedAfter(poolSize: nat, run: seq<Action>, c: nat, m: Msg)
    requires IsRun(Init(poolSize), run)
    ensures Conserved(After(Init(poolSize), run), c, m)
    decreases |run|
  {
    if run != [] {
      var s, a := After(Init(poolSize), run[..|run| - 1]), run[|run| - 1];
      ConservedAfter(poolSize, run[..|run| - 1], c, m);
      if c < |s.conns| {
        match a {
          case R(r) => ConservedR(s, r, c, m);
          case W(w, k) => ConservedW(s, w, k, c, m);
          case E(e) => ConservedE(s, e, c, m);
        }
      } else if c < |Apply(s, a).conns| {
        InvAfter(poolSize, run[..|run| - 1]);
        NewConnection(s, a, c);
        CountAbsent(s.workers, HasMsg(c, m));
      }
    }
  }

  /** A connection is new to everybody. */
  lemma NewConnection(s: State, a: Action, c: nat)
    requires WellFormed(s) && Enabled(s, a) && |s.conns| <= c < |Apply(s, a).conns|
    ensures c == |s.conns| && a == E(Connect) && Apply(s, a).conns[c] == FreshConn
    ensures forall w <- s.workers :: w.HasMsg? ==> w.c != c
    ensures !s.reactor.AtWait? && !s.reactor.AtDispatch? && !s.reactor.InAccept? ==> s.reactor.c != c
  {
    match a {
      case R(r) => match r { case Wait(_) => case _ => }
      case W(w, k) =>
      case E(e) =>
    }
    forall w | w in s.workers && w.HasMsg? ensures w.c != c {
      assert WorkerKnown(s, w);
    }
  }

  /** Per-connection conservation: the messages received are those sent, about to be sent, queued as
      responses, held by workers, queued as requests or just received; none crosses connections. */
  lemma Conservation(poolSize: nat, s: State, c: nat, m: Msg)
    requires Reachable(poolSize, s) && c < |s.conns|
    ensures multiset(s.conns[c].received)[m] ==
      multiset(s.conns[c].sent)[m] + multiset(AboutToSend(s, c))[m] + multiset(s.conns[c].rsp)[m]
      + multiset(s.workers)[HasMsg(c, m)] + multiset(s.conns[c].req)[m] + multiset(JustReceived(s, c))[m]
  {
    var run :| Leads(Init(poolSize), run, s);
    ConservedAfter(poolSize, run, c, m);
    CountIsMultiplicity(s.conns[c].received, m);
    CountIsMultiplicity(s.conns[c].sent, m);
    CountIsMultiplicity(s.conns[c].rsp, m);
    CountIsMultiplicity(s.conns[c].req, m);
    CountIsMultiplicity(s.workers, HasMsg(c, m));
  }

  // ----- order, with at most one worker

  /** The message of connection c that the only worker holds. */
  function InHand(s: State, c: nat): seq<Msg> {
    if s.workers != [] && s.workers[0].HasMsg? && s.workers[0].c == c then [s.workers[0].m] else []
  }

  function JustReceived(s: State, c: nat): seq<Msg> {
    if s.reactor.GotMsg? && s.reactor.c == c then [s.reactor.m] else []
  }

  function AboutToSend(s: State, c: nat): seq<Msg> {
    if s.reactor.Sending? && s.reactor.c == c then [s.reactor.m] else []
  }

  /** What went out, followed by what is on its way through the five places, is what came in. */
  predicate InOrder(s: State, c: nat) {
    c < |s.conns| ==>
      var k := s.conns[c];
      k.received == k.sent + AboutToSend(s, c) + k.rsp + InHand(s, c) + k.req + JustReceived(s, c)
  }

  /** The reactor takes a message in. */
  lemma IntakeInOrder(s: State, r: ReactorAct, c: nat)
    requires r.Recv? || r.PushReq?
    requires REnabled(s, r) && c < |s.conns| && InOrder(s, c)
    ensures InOrder(RApply(s, r), c)
  {
    if c != s.reactor.c {
      assert RApply(s, r).conns[c] == s.conns[c];
    }
  }

  lemma ShiftInOrder(s: State, c: nat)
    requires REnabled(s, ShiftRsp) && c < |s.conns| && InOrder(s, c)
    ensures InOrder(RApply(s, ShiftRsp), c)
  {
    var q := s.conns[s.reactor.c].rsp;
    assert q != [] ==> q == [q[0]] + q[1..];
    if c != s.reactor.c {
      assert RApply(s, ShiftRsp).conns[c] == s.conns[c];
    }
  }

  lemma SendInOrder(s: State, c: nat)
    requires REnabled(s, Send) && c < |s.conns| && InOrder(s, c)
    ensures InOrder(RApply(s, Send), c)
  {
    if c != s.reactor.c {
      assert RApply(s, Send).conns[c] == s.conns[c];
    }
  }

  lemma InOrderR(s: State, r: ReactorAct, c: nat)
    requires REnabled(s, r) && c < |s.conns| && InOrder(s, c) && |s.workers| <= 1
    ensures InOrder(RApply(s, r), c)
  {
    match r {
      case Recv(_, _) => IntakeInOrder(s, r, c);
      case PushReq => IntakeInOrder(s, r, c);
      case ShiftRsp => ShiftInOrder(s, c);
      case Send => SendInOrder(s, c);
      case AddTask(_) =>
      case Wait(_) =>
      case _ =>
    }
  }

  lemma FetchInOrder(s: State, w: nat, c: nat)
    requires WEnabled(s, w, Fetch) && c < |s.conns| && InOrder(s, c) && |s.workers| <= 1
    ensures InOrder(WApply(s, w, Fetch), c)
  {
    var q := s.conns[s.workers[w].c].req;
    assert q != [] ==> q == [q[0]] + q[1..];
    if c != s.workers[w].c {
      assert WApply(s, w, Fetch).conns[c] == s.conns[c];
    }
  }

  lemma PushRspInOrder(s: State, w: nat, c: nat)
    requires WEnabled(s, w, PushRsp) && c < |s.conns| && InOrder(s, c) && |s.workers| <= 1
    ensures InOrder(WApply(s, w, PushRsp), c)
  {
    if c != s.workers[w].c {
      assert WApply(s, w, PushRsp).conns[c] == s.conns[c];
    }
  }

  lemma InOrderW(s: State, w: nat, k: WorkerAct, c: nat)
    requires WEnabled(s, w, k) && c < |s.conns| && InOrder(s, c) && |s.workers| <= 1
    ensures InOrder(WApply(s, w, k), c)
  {
    match k {
      case Fetch => FetchInOrder(s, w, c);
      case PushRsp => PushRspInOrder(s, w, c);
      case Sleep =>
      case Take =>
      case WriteEvent =>
    }
  }

  lemma InOrderE(s: State, e: EnvAct, c: nat)
    requires EEnabled(s, e) && c < |s.conns| && InOrder(s, c) && |s.workers| <= 1
    ensures InOrder(EApply(s, e), c)
  {
  }

  /** With a pool of one worker (or none) every connection is served first in, first out. */
  lemma {:induction false} InOrderAfter(poolSize: nat, run: seq<Action>, c: nat)
    requires IsRun(Init(poolSize), run) && poolSize <= 1
    ensures InOrder(After(Init(poolSize), run), c)
    ensures |After(Init(poolSize), run).workers| == poolSize
    decreases |run|
  {
    if run != [] {
      var s, a := After(Init(poolSize), run[..|run| - 1]), run[|run| - 1];
      InOrderAfter(poolSize, run[..|run| - 1], c);
      PoolSizeStays(s, a);
      if c < |s.conns| {
        match a {
          case R(r) => InOrderR(s, r, c);
          case W(w, k) => InOrderW(s, w, k, c);
          case E(e) => InOrderE(s, e, c);
        }
      } else if c < |Apply(s, a).conns| {
        InvAfter(poolSize, run[..|run| - 1]);
        NewConnection(s, a, c);
      }
    }
  }

  /** The same, for every reachable state. */
  lemma ServedInOrder(poolSize: nat, s: State, c: nat)
    requires Reachable(poolSize, s) && poolSize <= 1 && c < |s.conns|
    ensures s.conns[c].received ==
      s.conns[c].sent + AboutToSend(s, c) + s.conns[c].rsp + InHand(s, c) + s.conns[c].req + JustReceived(s, c)
  {
    var run :| Leads(Init(poolSize), run, s);
    InOrderAfter(poolSize, run, c);
  }

  lemma PoolSizeStays(s: State, a: Action)
    requires Enabled(s, a)
    ensures |Apply(s, a).workers| == |s.workers|
  {
    match a {
      case R(r) => match r { case AddTask(_) => case _ => }
      case W(w, k) => match k { case Sleep => case Take => case Fetch => case PushRsp => case WriteEvent => }
      case E(e) =>
    }
  }

  // ----- two workers are enough to reorder

  /** One more action of a run that led to s. */
  lemma Extend(poolSize: nat, run: seq<Action>, s: State, a: Action) returns (longer: seq<Action>)
    requires IsRun(Init(poolSize), run) && After(Init(poolSize), run) == s && Enabled(s, a)
    ensures IsRun(Init(poolSize), longer) && After(Init(poolSize), longer) == Apply(s, a)
  {
    RunSnoc(Init(poolSize), run, a);
    longer := run + [a];
  }

  const Open := FreshConn.(sockReg := true, rspReg := true)

  /** A client connects and is accepted. */
  lemma ClientConnects(poolSize: nat) returns (run: seq<Action>)
    ensures IsRun(Init(poolSize), run)
    ensures After(Init(poolSize), run) == Init(poolSize).(conns := [FreshConn], reactor := Accepted(0))
  {
    var s := Init(poolSize);
    run := Extend(poolSize, [], s, E(Connect));
    s := EApply(s, Connect);
    run := Extend(poolSize, run, s, R(Wait([Listen])));
    s := RApply(s, Wait([Listen]));
    run := Extend(poolSize, run, s, R(NextEvent));
    s := RApply(s, NextEvent);
    run := Extend(poolSize, run, s, R(AcceptOne));
  }

  /** The accepted client is registered, and the reactor goes back to epoll_wait. */
  lemma ClientRegistered(poolSize: nat, before: seq<Action>) returns (run: seq<Action>)
    requires IsRun(Init(poolSize), before)
    requires After(Init(poolSize), before) == Init(poolSize).(conns := [FreshConn], reactor := Accepted(0))
    ensures IsRun(Init(poolSize), run)
    ensures After(Init(poolSize), run) == Init(poolSize).(conns := [Open])
  {
    var s := Init(poolSize).(conns := [FreshConn], reactor := Accepted(0));
    run := Extend(poolSize, before, s, R(AddSock));
    s := RApply(s, AddSock);
    run := Extend(poolSize, run, s, R(AddRsp));
    s := Init(poolSize).(conns := [Open], reactor := InAccept);
    run := Extend(poolSize, run, s, R(AcceptNone));
    run := Extend(poolSize, run, s.(reactor := AtDispatch), R(NextEvent));
  }

  /** A run that ends in s, where k is the only connection. */
  ghost predicate LeadsTo(poolSize: nat, run: seq<Action>, s: State, k: Conn) {
    IsRun(Init(poolSize), run) && After(Init(poolSize), run) == s && s.conns == [k] && |s.workers| == poolSize
  }

  /** Bytes arrive on the connection, and the reactor enters its handler. */
  lemma DataArrives(poolSize: nat, run: seq<Action>, s: State, k: Conn, bytes: string)
    returns (longer: seq<Action>, t: State, l: Conn)
    requires LeadsTo(poolSize, run, s, k)
    requires k.sockReg && s.reactor == AtWait && s.batch == [] && bytes != ""
    ensures LeadsTo(poolSize, longer, t, l)
    ensures t.reactor == InRecv(0) && t.batch == [] && t.workers == s.workers && t.tasks == s.tasks
    ensures l == k.(inbox := k.inbox + bytes, arrived := k.arrived + bytes, sockEdge := false)
  {
    longer := Extend(poolSize, run, s, E(Arrive(0, bytes)));
    var s1 := EApply(s, Arrive(0, bytes));
    longer := Extend(poolSize, longer, s1, R(Wait([Sock(0)])));
    var s2 := RApply(s1, Wait([Sock(0)]));
    l := k.(inbox := k.inbox + bytes, arrived := k.arrived + bytes, sockEdge := false);
    assert s2.conns == [l];
    longer := Extend(poolSize, longer, s2, R(NextEvent));
    t := RApply(s2, NextEvent);
  }

  /** The reactor turns the first n bytes of the inbox into a request. */
  lemma Requests(poolSize: nat, run: seq<Action>, s: State, k: Conn, n: nat)
    returns (longer: seq<Action>, t: State, l: Conn)
    requires LeadsTo(poolSize, run, s, k) && s.reactor == InRecv(0) && Asleep !in s.workers
    requires 1 <= n <= |k.inbox| && n < RECV_BUF && NUL !in k.inbox[..n]
    ensures LeadsTo(poolSize, longer, t, l)
    ensures t.reactor == InRecv(0) && t.batch == s.batch && t.workers == s.workers && t.tasks == s.tasks + [0]
    ensures l.inbox == k.inbox[n..] && l.req == k.req + [k.inbox[..n]] && l.received == k.received + [k.inbox[..n]]
    ensures l.rsp == k.rsp && l.sent == k.sent && l.rspReg == k.rspReg && l.arrived == k.arrived
  {
    var m := k.inbox[..n];
    DecodesIff(m, m);
    longer := Extend(poolSize, run, s, R(Recv(n, m)));
    var s1 := RApply(s, Recv(n, m));
    longer := Extend(poolSize, longer, s1, R(PushReq));
    var s2 := RApply(s1, PushReq);
    longer := Extend(poolSize, longer, s2, R(AddTask(0)));
    t := RApply(s2, AddTask(0));
    l := t.conns[0];
  }

  /** An idle worker takes the first task and the first request. */
  lemma TakesRequest(poolSize: nat, run: seq<Action>, s: State, k: Conn, w: nat)
    returns (longer: seq<Action>, t: State, l: Conn)
    requires LeadsTo(poolSize, run, s, k)
    requires w < poolSize && s.workers[w] == Idle && s.tasks != [] && s.tasks[0] == 0 && k.req != []
    ensures LeadsTo(poolSize, longer, t, l)
    ensures t.reactor == s.reactor && t.batch == s.batch && t.tasks == s.tasks[1..]
    ensures t.workers == s.workers[w := HasMsg(0, k.req[0])]
    ensures l == k.(req := k.req[1..])
  {
    longer := Extend(poolSize, run, s, W(w, Take));
    var s1 := WApply(s, w, Take);
    longer := Extend(poolSize, longer, s1, W(w, Fetch));
    t := WApply(s1, w, Fetch);
    l := t.conns[0];
  }

  /** A worker delivers its response. */
  lemma Responds(poolSize: nat, run: seq<Action>, s: State, k: Conn, w: nat, m: Msg)
    returns (longer: seq<Action>, t: State, l: Conn)
    requires LeadsTo(poolSize, run, s, k)
    requires k.rspReg && w < poolSize && s.workers[w] == HasMsg(0, m)
    ensures LeadsTo(poolSize, longer, t, l)
    ensures t.reactor == s.reactor && t.batch == s.batch
    ensures l == k.(rsp := k.rsp + [m], counter := k.counter + 1, rspEdge := true)
  {
    longer := Extend(poolSize, run, s, W(w, PushRsp));
    var s1 := WApply(s, w, PushRsp);
    longer := Extend(poolSize, longer, s1, W(w, WriteEvent));
    t := WApply(s1, w, WriteEvent);
    l := t.conns[0];
  }

  /** The reactor leaves an empty socket and enters the response handler. */
  lemma EntersRspHandler(poolSize: nat, run: seq<Action>, s: State, k: Conn)
    returns (longer: seq<Action>, t: State, l: Conn)
    requires LeadsTo(poolSize, run, s, k)
    requires s.reactor == InRecv(0) && s.batch == [] && k.inbox == "" && k.rspEdge
    ensures LeadsTo(poolSize, longer, t, l)
    ensures t.reactor == InRsp(0) && l == k.(rspEdge := false)
  {
    longer := Extend(poolSize, run, s, R(RecvNone));
    longer := Extend(poolSize, longer, s.(reactor := AtDispatch), R(NextEvent));
    var s1 := s.(reactor := AtWait);
    longer := Extend(poolSize, longer, s1, R(Wait([Rsp(0)])));
    var s2 := RApply(s1, Wait([Rsp(0)]));
    l := k.(rspEdge := false);
    assert s2.conns == [l];
    longer := Extend(poolSize, longer, s2, R(NextEvent));
    t := RApply(s2, NextEvent);
  }

  lemma SendsOne(poolSize: nat, run: seq<Action>, s: State, k: Conn)
    returns (longer: seq<Action>, t: State, l: Conn)
    requires LeadsTo(poolSize, run, s, k)
    requires s.reactor == InRsp(0) && k.counter > 0 && k.rsp != []
    ensures LeadsTo(poolSize, longer, t, l)
    ensures l.sent == k.sent + [k.rsp[0]] && l.received == k.received
  {
    longer := Extend(poolSize, run, s, R(ReadUnit));
    var s1 := RApply(s, ReadUnit);
    longer := Extend(poolSize, longer, s1, R(ShiftRsp));
    var s2 := RApply(s1, ShiftRsp);
    longer := Extend(poolSize, longer, s2, R(Send));
    t := RApply(s2, Send);
    l := t.conns[0];
  }

  /** The client asks "a", then "b"; the reactor is about to find the socket empty. */
  lemma TwoRequests(poolSize: nat) returns (run: seq<Action>, s: State, k: Conn)
    ensures LeadsTo(poolSize, run, s, k)
    ensures s.reactor == InRecv(0) && s.batch == [] && s.tasks == [0, 0]
    ensures forall i :: 0 <= i < poolSize ==> s.workers[i] == Idle
    ensures k.inbox == "" && k.req == k.received && k.rsp == [] && k.sent == [] && k.rspReg
    ensures |k.received| == 2 && k.received[0] == "a" && k.received[1] == "b"
  {
    run := ClientConnects(poolSize);
    run := ClientRegistered(poolSize, run);
    run, s, k := DataArrives(poolSize, run, Init(poolSize).(conns := [Open]), Open, "ab");
    run, s, k := Requests(poolSize, run, s, k, 1);
    run, s, k := Requests(poolSize, run, s, k, 1);
  }

  /** With two workers, the second request can be answered first. */
  lemma Overtaking(poolSize: nat) returns (run: seq<Action>, s: State, k: Conn)
    requires poolSize >= 2
    ensures LeadsTo(poolSize, run, s, k)
    ensures |k.received| == 2 && k.received[0] == "a" && k.sent == ["b"]
  {
    run, s, k := TwoRequests(poolSize);
    run, s, k := TakesRequest(poolSize, run, s, k, 0);
    run, s, k := TakesRequest(poolSize, run, s, k, 1);
    run, s, k := Responds(poolSize, run, s, k, 1, "b");
    run, s, k := EntersRspHandler(poolSize, run, s, k);
    run, s, k := SendsOne(poolSize, run, s, k);
  }

  /** Whatever the scheduler and the clients do, replies leave in the order of the requests. */
  ghost predicate RepliesInOrder(poolSize: nat) {
    forall s: State, c: nat :: Reachable(poolSize, s) && c < |s.conns| ==> s.conns[c].sent <= s.conns[c].received
  }

  /** Replies keep the order of the requests exactly when the pool has at most one worker. */
  lemma OrderIffOneWorker(poolSize: nat)
    ensures RepliesInOrder(poolSize) <==> poolSize <= 1
  {
    if poolSize <= 1 {
      forall s: State, c: nat | Reachable(poolSize, s) && c < |s.conns|
        ensures s.conns[c].sent <= s.conns[c].received
      {
        ServedInOrder(poolSize, s, c);
      }
    } else {
      var run, s, k := Overtaking(poolSize);
      assert Leads(Init(poolSize), run, s);
      assert s.conns[0].sent[0] != s.conns[0].received[0];
    }
  }
}
