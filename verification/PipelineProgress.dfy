/** Once the clients fall silent, the server comes to rest, and at rest every message is answered. */
module PipelineProgress {
  import opened Counting
  import opened PipelineMachine
  import opened PipelineSafety
  import opened PipelineOrder

  /** Everything but new clients, new bytes and spurious wakeups. */
  predicate Quiet(a: Action) {
    a.R? || a.W? || (a.E? && a.e.DropStale?)
  }

  // ----- a measure that every quiet action decreases

  function Bit(b: bool): nat {
    if b then 1 else 0
  }

  function ConnWork(k: Conn): nat {
    15 * |k.inbox| + 3 * k.counter + 4 * Bit(k.sockEdge) + 4 * Bit(k.rspEdge)
  }

  function ConnsWork(ks: seq<Conn>): nat {
    if ks == [] then 0 else ConnWork(ks[0]) + ConnsWork(ks[1..])
  }

  function WorkerWork(p: Worker): nat {
    match p
    case Asleep => 0
    case Idle => 1
    case Pushed(_) => 9
    case HasMsg(_, _) => 10
    case HasTask(_) => 11
  }

  function WorkersWork(ps: seq<Worker>): nat {
    if ps == [] then 0 else WorkerWork(ps[0]) + WorkersWork(ps[1..])
  }

  function ReactorWork(r: Reactor): nat {
    match r
    case AtWait => 0
    case AtDispatch => 1
    case InAccept => 2
    case InRecv(_) => 2
    case InRsp(_) => 2
    case Sending(_, _) => 3
    case TookUnit(_) => 4
    case AddedSock(_) => 7
    case Accepted(_) => 12
    case PushedReq(_) => 15
    case GotMsg(_, _) => 16
  }

  /** The work left in a state. */
  function Work(s: State): nat {
    ConnsWork(s.conns) + WorkersWork(s.workers) + ReactorWork(s.reactor)
    + 2 * |s.batch| + 11 * |s.tasks| + 11 * |s.backlog| + 4 * Bit(s.listenEdge)
  }

  lemma {:induction false} ConnsWorkUpdate(ks: seq<Conn>, i: nat, k: Conn)
    requires i < |ks|
    ensures ConnsWork(ks[i := k]) == ConnsWork(ks) - ConnWork(ks[i]) + ConnWork(k)
  {
    if i > 0 {
      assert ks[i := k][1..] == ks[1..][i - 1 := k];
      ConnsWorkUpdate(ks[1..], i - 1, k);
    }
  }

  lemma {:induction false} WorkersWorkUpdate(ps: seq<Worker>, i: nat, p: Worker)
    requires i < |ps|
    ensures WorkersWork(ps[i := p]) == WorkersWork(ps) - WorkerWork(ps[i]) + WorkerWork(p)
  {
    if i > 0 {
      assert ps[i := p][1..] == ps[1..][i - 1 := p];
      WorkersWorkUpdate(ps[1..], i - 1, p);
    }
  }

  /** Clearing the edge of a pending event takes four units off. */
  lemma ClearOne(s: State, e: Event)
    requires Pending(s, e)
    ensures ConnsWork(ClearEdges(s, [e]).conns) + 4 * Bit(ClearEdges(s, [e]).listenEdge)
            == ConnsWork(s.conns) + 4 * Bit(s.listenEdge) - 4
  {
    var t := ClearEdges(s, [e]);
    match e {
      case Listen => assert t.conns == s.conns;
      case Sock(c) =>
        assert t.conns == s.conns[c := s.conns[c].(sockEdge := false)];
        ConnsWorkUpdate(s.conns, c, s.conns[c].(sockEdge := false));
      case Rsp(c) =>
        assert t.conns == s.conns[c := s.conns[c].(rspEdge := false)];
        ConnsWorkUpdate(s.conns, c, s.conns[c].(rspEdge := false));
    }
  }

  lemma ClearTwice(s: State, first: Event, rest: seq<Event>)
    ensures ClearEdges(ClearEdges(s, [first]), rest) == ClearEdges(s, [first] + rest)
  {
    assert forall e :: e in [first] + rest <==> e == first || e in rest;
    assert ClearEdges(ClearEdges(s, [first]), rest).conns == ClearEdges(s, [first] + rest).conns;
  }

  lemma {:induction false} ClearAll(s: State, evs: seq<Event>)
    requires forall i :: 0 <= i < |evs| ==> Pending(s, evs[i])
    requires forall i, j :: 0 <= i < j < |evs| ==> evs[i] != evs[j]
    ensures ConnsWork(ClearEdges(s, evs).conns) + 4 * Bit(ClearEdges(s, evs).listenEdge)
            == ConnsWork(s.conns) + 4 * Bit(s.listenEdge) - 4 * |evs|
    decreases |evs|
  {
    if evs == [] {
      assert ClearEdges(s, evs).conns == s.conns;
    } else {
      var first, rest := evs[0], evs[1..];
      var t := ClearEdges(s, [first]);
      ClearOne(s, first);
      forall i | 0 <= i < |rest| ensures Pending(t, rest[i]) {
        assert rest[i] == evs[i + 1] && Pending(s, rest[i]) && rest[i] != first;
      }
      ClearAll(t, rest);
      ClearTwice(s, first, rest);
      assert evs == [first] + rest;
    }
  }

  /** A step that changes one connection and the reactor decreases the work if it does so for those two. */
  lemma ConnMove(s: State, c: nat, k: Conn, r: Reactor)
    requires c < |s.conns|
    requires ConnWork(k) + ReactorWork(r) < ConnWork(s.conns[c]) + ReactorWork(s.reactor)
    ensures Work(SetConn(s, c, k).(reactor := r)) < Work(s)
  {
    ConnsWorkUpdate(s.conns, c, k);
  }

  lemma WorkConn(s: State, r: ReactorAct)
    requires r.AddSock? || r.AddRsp? || r.Recv? || r.PushReq? || r.ReadUnit? || r.Send?
    requires REnabled(s, r)
    ensures Work(RApply(s, r)) < Work(s)
  {
    var c, t := s.reactor.c, RApply(s, r);
    match r { case AddSock => case AddRsp => case Recv(_, _) => case PushReq => case ReadUnit => case Send => }
    ConnMove(s, c, t.conns[c], t.reactor);
    assert t == SetConn(s, c, t.conns[c]).(reactor := t.reactor);
  }

  lemma WorkR(s: State, r: ReactorAct)
    requires REnabled(s, r)
    ensures Work(RApply(s, r)) < Work(s)
  {
    if r.AddSock? || r.AddRsp? || r.Recv? || r.PushReq? || r.ReadUnit? || r.Send? {
      WorkConn(s, r);
    } else {
      match r {
        case Wait(evs) => ClearAll(s, evs);
        case AddTask(w) =>
          if Asleep in s.workers {
            WorkersWorkUpdate(s.workers, w, Idle);
          }
        case ShiftRsp =>
          var k := s.conns[s.reactor.c];
          if k.rsp != [] {
            ConnMove(s, s.reactor.c, k.(rsp := k.rsp[1..]), Sending(s.reactor.c, k.rsp[0]));
          }
        case _ =>
      }
    }
  }

  /** A step that changes one connection and one worker decreases the work if it does so for those two. */
  lemma WorkerMove(s: State, w: nat, p: Worker, c: nat, k: Conn)
    requires w < |s.workers| && c < |s.conns|
    requires ConnWork(k) + WorkerWork(p) < ConnWork(s.conns[c]) + WorkerWork(s.workers[w])
    ensures Work(SetConn(SetWorker(s, w, p), c, k)) < Work(s)
  {
    WorkersWorkUpdate(s.workers, w, p);
    ConnsWorkUpdate(s.conns, c, k);
  }

  lemma WorkTask(s: State, w: nat, k: WorkerAct)
    requires WEnabled(s, w, k) && !k.Sleep? && !k.Take?
    ensures Work(WApply(s, w, k)) < Work(s)
  {
    var c := s.workers[w].c;
    var t := WApply(s, w, k);
    WorkerMove(s, w, t.workers[w], c, t.conns[c]);
    assert t == SetConn(SetWorker(s, w, t.workers[w]), c, t.conns[c]);
  }

  lemma WorkW(s: State, w: nat, k: WorkerAct)
    requires WEnabled(s, w, k)
    ensures Work(WApply(s, w, k)) < Work(s)
  {
    match k {
      case Sleep => WorkersWorkUpdate(s.workers, w, Asleep);
      case Take => WorkersWorkUpdate(s.workers, w, HasTask(s.tasks[0]));
      case _ => WorkTask(s, w, k);
    }
  }

  lemma {:induction false} WorkDecreases(s: State, a: Action)
    requires Quiet(a) && Enabled(s, a)
    ensures Work(Apply(s, a)) < Work(s)
  {
    match a {
      case R(r) => WorkR(s, r);
      case W(w, k) => WorkW(s, w, k);
      case E(e) => ClearOne(s, e.e);
    }
  }

  /** A run of quiet actions is no longer than the work left where it starts. */
  lemma {:induction false} QuietRunsEnd(s: State, run: seq<Action>, t: State)
    requires Leads(s, run, t) && forall a <- run :: Quiet(a)
    ensures |run| + Work(t) <= Work(s)
    decreases |run|
  {
    if run != [] {
      QuietRunsEnd(s, run[..|run| - 1], After(s, run[..|run| - 1]));
      WorkDecreases(After(s, run[..|run| - 1]), run[|run| - 1]);
    }
  }

  // ----- rest

  /** Neither the reactor nor a worker can move. */
  ghost predicate AtRest(s: State) {
    && (forall r: ReactorAct :: !REnabled(s, r))
    && (forall w: nat, k: WorkerAct :: !WEnabled(s, w, k))
  }

  /** The reactor can always move, except in epoll_wait without a pending edge. */
  lemma ReactorCanMove(s: State, e: Event) returns (r: ReactorAct)
    requires Inv(s) && (s.reactor == AtWait ==> Pending(s, e))
    ensures REnabled(s, r)
  {
    match s.reactor {
      case AtWait => r := Wait([e]);
      case AtDispatch => r := NextEvent;
      case InAccept => r := if s.backlog == [] then AcceptNone else AcceptOne;
      case Accepted(c) => r := AddSock;
      case AddedSock(c) => r := AddRsp;
      case InRecv(c) =>
        var inbox := s.conns[c].inbox;
        r := if inbox == "" then RecvNone else Recv(1, UpToNul(inbox[..1]));
      case GotMsg(c, m) => r := PushReq;
      case PushedReq(c) =>
        var w: nat := 0;
        if Asleep in s.workers {
          w :| w < |s.workers| && s.workers[w] == Asleep;
        }
        r := AddTask(w);
      case InRsp(c) => r := if s.conns[c].counter == 0 then ReadNone else ReadUnit;
      case TookUnit(c) => r := ShiftRsp;
      case Sending(c, m) => r := Send;
    }
  }

  /** A worker can always move, except when it is asleep. */
  lemma WorkerCanMove(s: State, w: nat) returns (k: WorkerAct)
    requires Inv(s) && w < |s.workers| && s.workers[w] != Asleep
    ensures WEnabled(s, w, k)
  {
    assert WorkerKnown(s, s.workers[w]);
    match s.workers[w] {
      case Idle => k := if s.tasks == [] then Sleep else Take;
      case HasTask(c) => k := Fetch;
      case HasMsg(c, m) => k := PushRsp;
      case Pushed(c) => k := WriteEvent;
    }
  }

  lemma WhoRests(s: State)
    requires Inv(s) && AtRest(s)
    ensures s.reactor == AtWait && (forall e :: !Pending(s, e))
    ensures forall i :: 0 <= i < |s.workers| ==> s.workers[i] == Asleep
  {
    if s.reactor != AtWait {
      var r := ReactorCanMove(s, Listen);
      assert false;
    }
    forall e ensures !Pending(s, e) {
      if Pending(s, e) {
        var r := ReactorCanMove(s, e);
        assert false;
      }
    }
    forall i: nat | i < |s.workers| ensures s.workers[i] == Asleep {
      if s.workers[i] != Asleep {
        var k := WorkerCanMove(s, i);
        assert false;
      }
    }
  }

  lemma OnlySleepers(ws: seq<Worker>, p: Worker)
    requires (forall i :: 0 <= i < |ws| ==> ws[i] == Asleep) && p != Asleep
    ensures Count(ws, p) == 0
  {
    CountAbsent(ws, p);
  }

  /** At rest, with a worker in the pool: nothing waits anywhere. */
  lemma NothingWaits(s: State, c: nat)
    requires Inv(s) && AtRest(s) && s.workers != [] && c < |s.conns|
    ensures s.backlog == [] && s.tasks == []
    ensures s.conns[c].inbox == "" && s.conns[c].req == [] && s.conns[c].rsp == []
  {
    WhoRests(s);
    OnlySleepers(s.workers, Idle);
    OnlySleepers(s.workers, HasTask(c));
    OnlySleepers(s.workers, Pushed(c));
    assert s.workers[0] in s.workers;
    assert !Pending(s, Listen) && !Pending(s, Sock(c)) && !Pending(s, Rsp(c));
    assert RequestsAt(s, c) && ResponsesAt(s, c) && SockSeen(s, c) && RspSeen(s, c) && Registration(s, c);
  }

  // ----- the promises of the server, over all runs

  /** Everything received on connection c was sent back on connection c, as often as it came. */
  ghost predicate Answered(k: Conn) {
    k.inbox == "" && multiset(k.sent) == multiset(k.received)
  }

  lemma RestIsAnswered(poolSize: nat, s: State, c: nat)
    requires poolSize >= 1 && Reachable(poolSize, s) && AtRest(s) && c < |s.conns|
    ensures Answered(s.conns[c])
  {
    var run :| Leads(Init(poolSize), run, s);
    InvAfter(poolSize, run);
    PoolSizeAfter(poolSize, run);
    NothingWaits(s, c);
    WhoRests(s);
    var k := s.conns[c];
    forall m: Msg ensures multiset(k.sent)[m] == multiset(k.received)[m] {
      ConservedAfter(poolSize, run, c, m);
      OnlySleepers(s.workers, HasMsg(c, m));
      CountIsMultiplicity(k.sent, m);
      CountIsMultiplicity(k.received, m);
    }
  }

  lemma {:induction false} PoolSizeAfter(poolSize: nat, run: seq<Action>)
    requires IsRun(Init(poolSize), run)
    ensures |After(Init(poolSize), run).workers| == poolSize
    decreases |run|
  {
    if run != [] {
      PoolSizeAfter(poolSize, run[..|run| - 1]);
      PoolSizeStays(After(Init(poolSize), run[..|run| - 1]), run[|run| - 1]);
    }
  }

  /** Unless all are at rest, a thread of the server can move. */
  lemma SomeoneMoves(s: State) returns (a: Action)
    requires !AtRest(s)
    ensures (a.R? || a.W?) && Enabled(s, a)
  {
    if r: ReactorAct :| REnabled(s, r) {
      a := R(r);
    } else {
      var w: nat, k: WorkerAct :| WEnabled(s, w, k);
      a := W(w, k);
    }
  }

  /** While some message is unanswered, a thread of the server can move. */
  lemma NeverStuck(poolSize: nat, s: State, c: nat) returns (a: Action)
    requires poolSize >= 1 && Reachable(poolSize, s) && c < |s.conns| && !Answered(s.conns[c])
    ensures (a.R? || a.W?) && Enabled(s, a)
  {
    if AtRest(s) {
      RestIsAnswered(poolSize, s, c);
    }
    a := SomeoneMoves(s);
  }

  /** From every reachable state the threads can finish: some quiet continuation, no longer than the
      work left, ends at rest with every connection answered. */
  lemma {:induction false} CanFinish(poolSize: nat, s: State) returns (rest: seq<Action>, t: State)
    requires poolSize >= 1 && Reachable(poolSize, s)
    ensures Leads(s, rest, t) && Reachable(poolSize, t) && |rest| <= Work(s)
    ensures forall a <- rest :: Quiet(a)
    ensures AtRest(t) && forall k <- t.conns :: Answered(k)
    decreases Work(s)
  {
    if AtRest(s) {
      rest, t := [], s;
      forall c: nat | c < |s.conns| ensures Answered(s.conns[c]) {
        RestIsAnswered(poolSize, s, c);
      }
    } else {
      var a := SomeoneMoves(s);
      WorkDecreases(s, a);
      ReachableStep(poolSize, s, a);
      rest, t := CanFinish(poolSize, Apply(s, a));
      LeadsCons(s, a, rest, t);
      rest := [a] + rest;
    }
  }
}
