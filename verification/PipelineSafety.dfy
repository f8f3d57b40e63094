/** What every step of the pipeline keeps, and what therefore holds after every run. */
module PipelineSafety {
  import opened Counting
  import opened PipelineMachine

  // ----- where a connection may be mentioned

  predicate Known(s: State, c: nat) {
    c < |s.conns| && s.conns[c].rspReg
  }

  predicate EventKnown(s: State, e: Event) {
    match e
    case Listen => true
    case Sock(c) => Known(s, c)
    case Rsp(c) => Known(s, c)
  }

  predicate WorkerKnown(s: State, w: Worker) {
    match w
    case Idle => true
    case Asleep => true
    case HasTask(c) => Known(s, c)
    case HasMsg(c, _) => Known(s, c)
    case Pushed(c) => Known(s, c)
  }

  predicate ReactorKnown(s: State) {
    match s.reactor
    case AtWait => s.batch == []
    case AtDispatch => true
    case InAccept => true
    case Accepted(c) => c < |s.conns| && !s.conns[c].sockReg && c !in s.backlog
    case AddedSock(c) => c < |s.conns| && s.conns[c].sockReg && !s.conns[c].rspReg
    case InRecv(c) => Known(s, c)
    case GotMsg(c, _) => Known(s, c)
    case PushedReq(c) => Known(s, c)
    case InRsp(c) => Known(s, c)
    case TookUnit(c) => Known(s, c)
    case Sending(c, _) => Known(s, c)
  }

  /** A connection is registered in the order accept, socket, eventfd, and waits in the backlog or
      at the reactor until then. */
  predicate Registration(s: State, c: nat)
    requires c < |s.conns|
  {
    var k := s.conns[c];
    && (k.sockEdge ==> k.sockReg)
    && (k.rspEdge ==> k.rspReg)
    && (k.rspReg ==> k.sockReg)
    && (k.sockReg && !k.rspReg ==> s.reactor == AddedSock(c))
    && (k.sockReg ==> c !in s.backlog)
    && (!k.sockReg ==> c in s.backlog || s.reactor == Accepted(c))
  }

  /** Everything mentioned by a queue, a worker or a fetched event is a registered connection. */
  ghost predicate Mentions(s: State) {
    && (forall i :: 0 <= i < |s.tasks| ==> Known(s, s.tasks[i]))
    && (forall i :: 0 <= i < |s.workers| ==> WorkerKnown(s, s.workers[i]))
    && (forall i :: 0 <= i < |s.batch| ==> EventKnown(s, s.batch[i]))
  }

  ghost predicate BacklogOk(s: State) {
    && (forall i :: 0 <= i < |s.backlog| ==> s.backlog[i] < |s.conns|)
    && (forall i, j :: 0 <= i < j < |s.backlog| ==> s.backlog[i] != s.backlog[j])
  }

  ghost predicate WellFormed(s: State) {
    && ReactorKnown(s)
    && Mentions(s)
    && BacklogOk(s)
    && (forall c: nat :: c < |s.conns| ==> Registration(s, c))
  }

  // ----- the invariants proper

  /** Every queued request has exactly one task that will fetch it. */
  ghost predicate RequestsAt(s: State, c: nat) {
    c < |s.conns| ==>
      |s.conns[c].req| ==
      Count(s.tasks, c) + Count(s.workers, HasTask(c)) + (if s.reactor == PushedReq(c) then 1 else 0)
  }

  /** Every queued response has exactly one eventfd unit: in the counter, about to be written, or just taken. */
  ghost predicate ResponsesAt(s: State, c: nat) {
    c < |s.conns| ==>
      |s.conns[c].rsp| == s.conns[c].counter + Count(s.workers, Pushed(c)) + (if s.reactor == TookUnit(c) then 1 else 0)
  }

  predicate InRspHandler(s: State, c: nat) {
    match s.reactor
    case InRsp(d) => c == d
    case TookUnit(d) => c == d
    case Sending(d, _) => c == d
    case _ => false
  }

  predicate InSockHandler(s: State, c: nat) {
    match s.reactor
    case InRecv(d) => c == d
    case GotMsg(d, _) => c == d
    case PushedReq(d) => c == d
    case _ => false
  }

  predicate InListenHandler(s: State) {
    s.reactor.InAccept? || s.reactor.Accepted? || s.reactor.AddedSock?
  }

  /** Connections waiting to be accepted will be accepted without a further arrival. */
  predicate ListenSeen(s: State) {
    s.backlog != [] ==> s.listenEdge || Listen in s.batch || InListenHandler(s)
  }

  /** Bytes waiting in a registered socket will be received without a further arrival. */
  predicate SockSeen(s: State, c: nat)
    requires c < |s.conns|
  {
    s.conns[c].sockReg && s.conns[c].inbox != "" ==>
      s.conns[c].sockEdge || Sock(c) in s.batch || InSockHandler(s, c)
  }

  /** A positive eventfd counter will be drained without a further write. */
  predicate RspSeen(s: State, c: nat)
    requires c < |s.conns|
  {
    s.conns[c].counter > 0 ==> s.conns[c].rspEdge || Rsp(c) in s.batch || InRspHandler(s, c)
  }

  /** Work conserving: while a worker sleeps, every queued task has an awake worker heading for it. */
  ghost predicate NoLostNotify(s: State) {
    Asleep in s.workers ==> |s.tasks| <= Count(s.workers, Idle)
  }

  ghost predicate Inv(s: State) {
    && WellFormed(s)
    && ListenSeen(s)
    && NoLostNotify(s)
    && (forall c: nat :: c < |s.conns| ==> RequestsAt(s, c) && ResponsesAt(s, c) && SockSeen(s, c) && RspSeen(s, c))
  }

  // ----- well-formedness, actor by actor

  lemma KnownR(s: State, r: ReactorAct, c: nat)
    requires REnabled(s, r) && Known(s, c)
    ensures Known(RApply(s, r), c)
  {
    match r { case Wait(_) => case _ => }
  }

  lemma KnownW(s: State, w: nat, k: WorkerAct, c: nat)
    requires WEnabled(s, w, k) && Known(s, c)
    ensures Known(WApply(s, w, k), c)
  {
  }

  lemma KnownE(s: State, e: EnvAct, c: nat)
    requires EEnabled(s, e) && Known(s, c)
    ensures Known(EApply(s, e), c)
  {
  }

  lemma ReactorR(s: State, r: ReactorAct)
    requires WellFormed(s) && REnabled(s, r)
    ensures ReactorKnown(RApply(s, r))
  {
    match r {
      case AcceptOne =>
        assert s.backlog[0] in s.backlog && Registration(s, s.backlog[0]);
      case AddSock =>
        assert Registration(s, s.reactor.c);
      case NextEvent =>
        assert s.batch != [] ==> EventKnown(s, s.batch[0]);
      case _ =>
    }
  }

  lemma ReactorW(s: State, w: nat, k: WorkerAct)
    requires WellFormed(s) && WEnabled(s, w, k)
    ensures ReactorKnown(WApply(s, w, k))
  {
    match k { case Sleep => case Take => case Fetch => case PushRsp => case WriteEvent => }
  }

  lemma ReactorE(s: State, e: EnvAct)
    requires WellFormed(s) && EEnabled(s, e)
    ensures ReactorKnown(EApply(s, e))
  {
  }

  lemma MentionsR(s: State, r: ReactorAct)
    requires WellFormed(s) && REnabled(s, r)
    ensures Mentions(RApply(s, r))
  {
    var s' := RApply(s, r);
    forall c: nat | Known(s, c) ensures Known(s', c) { KnownR(s, r, c); }
    if r.Wait? {
      forall i | 0 <= i < |r.evs| ensures EventKnown(s, r.evs[i]) {
        assert Pending(s, r.evs[i]);
        assert !r.evs[i].Listen? ==> Registration(s, r.evs[i].c);
      }
    }
  }

  lemma MentionsW(s: State, w: nat, k: WorkerAct)
    requires WellFormed(s) && WEnabled(s, w, k)
    ensures Mentions(WApply(s, w, k))
  {
    var s' := WApply(s, w, k);
    forall c: nat | Known(s, c) ensures Known(s', c) { KnownW(s, w, k, c); }
    assert WorkerKnown(s, s.workers[w]);
  }

  lemma MentionsE(s: State, e: EnvAct)
    requires WellFormed(s) && EEnabled(s, e)
    ensures Mentions(EApply(s, e))
  {
    var s' := EApply(s, e);
    forall c: nat | Known(s, c) ensures Known(s', c) { KnownE(s, e, c); }
  }

  lemma RegistrationR(s: State, r: ReactorAct, c: nat)
    requires WellFormed(s) && REnabled(s, r) && c < |s.conns|
    ensures Registration(RApply(s, r), c)
  {
    assert Registration(s, c);
    match r { case Wait(_) => case AcceptOne => case _ => }
  }

  lemma RegistrationW(s: State, w: nat, k: WorkerAct, c: nat)
    requires WellFormed(s) && WEnabled(s, w, k) && c < |s.conns|
    ensures Registration(WApply(s, w, k), c)
  {
    assert Registration(s, c);
    match k { case Sleep => case Take => case Fetch => case PushRsp => case WriteEvent => }
  }

  lemma RegistrationE(s: State, e: EnvAct, c: nat)
    requires WellFormed(s) && EEnabled(s, e) && c < |EApply(s, e).conns|
    ensures Registration(EApply(s, e), c)
  {
    assert c < |s.conns| ==> Registration(s, c);
  }

  lemma WellFormedStep(s: State, a: Action)
    requires WellFormed(s) && Enabled(s, a)
    ensures WellFormed(Apply(s, a))
  {
    match a {
      case R(r) =>
        ReactorR(s, r);
        MentionsR(s, r);
        BacklogR(s, r);
        forall c: nat | c < |s.conns| ensures Registration(RApply(s, r), c) { RegistrationR(s, r, c); }
      case W(w, k) =>
        ReactorW(s, w, k);
        MentionsW(s, w, k);
        BacklogW(s, w, k);
        forall c: nat | c < |s.conns| ensures Registration(WApply(s, w, k), c) { RegistrationW(s, w, k, c); }
      case E(e) =>
        ReactorE(s, e);
        MentionsE(s, e);
        BacklogE(s, e);
        forall c: nat | c < |EApply(s, e).conns| ensures Registration(EApply(s, e), c) { RegistrationE(s, e, c); }
    }
  }

  lemma BacklogR(s: State, r: ReactorAct)
    requires BacklogOk(s) && REnabled(s, r)
    ensures BacklogOk(RApply(s, r))
  {
    match r { case AcceptOne => case Wait(_) => case _ => }
  }

  lemma BacklogW(s: State, w: nat, k: WorkerAct)
    requires BacklogOk(s) && WEnabled(s, w, k)
    ensures BacklogOk(WApply(s, w, k))
  {
    match k { case Sleep => case Take => case Fetch => case PushRsp => case WriteEvent => }
  }

  lemma BacklogE(s: State, e: EnvAct)
    requires BacklogOk(s) && EEnabled(s, e)
    ensures BacklogOk(EApply(s, e))
  {
  }

  // ----- one task per queued request

  lemma RequestsR(s: State, r: ReactorAct, c: nat)
    requires REnabled(s, r) && c < |s.conns| && RequestsAt(s, c)
    ensures RequestsAt(RApply(s, r), c)
  {
    match r {
      case AddTask(w) =>
        CountSnoc(s.tasks, s.reactor.c, c);
        if Asleep in s.workers {
          CountUpdate(s.workers, w, Idle, HasTask(c));
        }
      case _ =>
    }
  }

  lemma RequestsW(s: State, w: nat, k: WorkerAct, c: nat)
    requires WEnabled(s, w, k) && c < |s.conns| && RequestsAt(s, c)
    ensures RequestsAt(WApply(s, w, k), c)
  {
    CountUpdate(s.workers, w, WApply(s, w, k).workers[w], HasTask(c));
    match k { case Sleep => case Take => case Fetch => case PushRsp => case WriteEvent => }
  }

  lemma RequestsE(s: State, e: EnvAct, c: nat)
    requires WellFormed(s) && EEnabled(s, e) && c < |EApply(s, e).conns| && RequestsAt(s, c)
    ensures RequestsAt(EApply(s, e), c)
  {
    match e {
      case SpuriousWake(w) => CountUpdate(s.workers, w, Idle, HasTask(c));
      case Connect =>
        if c == |s.conns| {
          CountAbsent(s.tasks, c);
          CountAbsent(s.workers, HasTask(c));
        }
      case _ =>
    }
  }

  // ----- one unit per queued response

  lemma ResponsesR(s: State, r: ReactorAct, c: nat)
    requires REnabled(s, r) && c < |s.conns| && ResponsesAt(s, c)
    ensures ResponsesAt(RApply(s, r), c)
  {
    match r {
      case AddTask(w) =>
        if Asleep in s.workers {
          CountUpdate(s.workers, w, Idle, Pushed(c));
        }
      case _ =>
    }
  }

  lemma ResponsesW(s: State, w: nat, k: WorkerAct, c: nat)
    requires WEnabled(s, w, k) && c < |s.conns| && ResponsesAt(s, c)
    ensures ResponsesAt(WApply(s, w, k), c)
  {
    CountUpdate(s.workers, w, WApply(s, w, k).workers[w], Pushed(c));
    match k { case Sleep => case Take => case Fetch => case PushRsp => case WriteEvent => }
  }

  lemma ResponsesE(s: State, e: EnvAct, c: nat)
    requires WellFormed(s) && EEnabled(s, e) && c < |EApply(s, e).conns| && ResponsesAt(s, c)
    ensures ResponsesAt(EApply(s, e), c)
  {
    match e {
      case SpuriousWake(w) => CountUpdate(s.workers, w, Idle, Pushed(c));
      case Connect =>
        if c == |s.conns| {
          CountAbsent(s.workers, Pushed(c));
        }
      case _ =>
    }
  }

  // ----- edges

  /** Fetching moves edges to the batch; dispatching moves the first of them to its handler. */
  lemma EdgesFetched(s: State, r: ReactorAct, c: nat)
    requires (r.Wait? || r.NextEvent?) && ReactorKnown(s) && REnabled(s, r)
    requires c < |s.conns| && SockSeen(s, c) && RspSeen(s, c)
    ensures SockSeen(RApply(s, r), c) && RspSeen(RApply(s, r), c)
  {
    if r.NextEvent? {
      assert s.batch != [] ==> s.batch == [s.batch[0]] + s.batch[1..];
    }
  }

  lemma SockSeenR(s: State, r: ReactorAct, c: nat)
    requires WellFormed(s) && REnabled(s, r) && !r.Wait? && !r.NextEvent? && c < |s.conns| && SockSeen(s, c)
    ensures SockSeen(RApply(s, r), c)
  {
    match r { case AddSock => case AddRsp => case Recv(_, _) => case RecvNone => case _ => }
  }

  lemma RspSeenR(s: State, r: ReactorAct, c: nat)
    requires WellFormed(s) && ResponsesAt(s, c) && REnabled(s, r) && !r.Wait? && !r.NextEvent?
    requires c < |s.conns| && RspSeen(s, c)
    ensures RspSeen(RApply(s, r), c)
  {
    match r { case AddRsp => case ReadUnit => case ReadNone => case ShiftRsp => case _ => }
  }

  lemma EdgesR(s: State, r: ReactorAct, c: nat)
    requires WellFormed(s) && ResponsesAt(s, c) && REnabled(s, r) && c < |s.conns| && SockSeen(s, c) && RspSeen(s, c)
    ensures SockSeen(RApply(s, r), c) && RspSeen(RApply(s, r), c)
  {
    if r.Wait? || r.NextEvent? {
      EdgesFetched(s, r, c);
    } else {
      SockSeenR(s, r, c);
      RspSeenR(s, r, c);
    }
  }

  lemma EdgesW(s: State, w: nat, k: WorkerAct, c: nat)
    requires WellFormed(s) && WEnabled(s, w, k) && c < |s.conns| && SockSeen(s, c) && RspSeen(s, c)
    ensures SockSeen(WApply(s, w, k), c) && RspSeen(WApply(s, w, k), c)
  {
    assert WorkerKnown(s, s.workers[w]);
    match k { case Sleep => case Take => case Fetch => case PushRsp => case WriteEvent => }
  }

  lemma EdgesE(s: State, e: EnvAct, c: nat)
    requires WellFormed(s) && EEnabled(s, e) && c < |EApply(s, e).conns|
    requires c < |s.conns| ==> SockSeen(s, c) && RspSeen(s, c)
    ensures SockSeen(EApply(s, e), c) && RspSeen(EApply(s, e), c)
  {
  }

  lemma ListenStep(s: State, a: Action)
    requires WellFormed(s) && ListenSeen(s) && Enabled(s, a)
    ensures ListenSeen(Apply(s, a))
  {
    match a {
      case R(r) => match r { case Wait(_) => case NextEvent => case _ => }
      case W(w, k) =>
      case E(e) =>
    }
  }

  // ----- wakeups

  lemma NotifyR(s: State, r: ReactorAct)
    requires NoLostNotify(s) && REnabled(s, r)
    ensures NoLostNotify(RApply(s, r))
  {
    match r {
      case AddTask(w) =>
        if Asleep in s.workers {
          CountUpdate(s.workers, w, Idle, Idle);
        }
      case _ =>
    }
  }

  lemma NotifyW(s: State, w: nat, k: WorkerAct)
    requires NoLostNotify(s) && WEnabled(s, w, k)
    ensures NoLostNotify(WApply(s, w, k))
  {
    CountUpdate(s.workers, w, WApply(s, w, k).workers[w], Idle);
    match k { case Sleep => case Take => case Fetch => case PushRsp => case WriteEvent => }
  }

  lemma NotifyE(s: State, e: EnvAct)
    requires NoLostNotify(s) && EEnabled(s, e)
    ensures NoLostNotify(EApply(s, e))
  {
    if e.SpuriousWake? {
      CountUpdate(s.workers, e.w, Idle, Idle);
    }
  }

  lemma {:induction false} InvStep(s: State, a: Action)
    requires Inv(s) && Enabled(s, a)
    ensures Inv(Apply(s, a))
  {
    var s' := Apply(s, a);
    WellFormedStep(s, a);
    ListenStep(s, a);
    match a {
      case R(r) => NotifyR(s, r);
      case W(w, k) => NotifyW(s, w, k);
      case E(e) => NotifyE(s, e);
    }
    forall c: nat | c < |s'.conns|
      ensures RequestsAt(s', c) && ResponsesAt(s', c) && SockSeen(s', c) && RspSeen(s', c)
    {
      match a {
        case R(r) => RequestsR(s, r, c); ResponsesR(s, r, c); EdgesR(s, r, c);
        case W(w, k) => RequestsW(s, w, k, c); ResponsesW(s, w, k, c); EdgesW(s, w, k, c);
        case E(e) => RequestsE(s, e, c); ResponsesE(s, e, c); EdgesE(s, e, c);
      }
    }
  }

  /** The invariant holds after every run, for every pool size. */
  lemma {:induction false} InvAfter(poolSize: nat, run: seq<Action>)
    requires IsRun(Init(poolSize), run)
    ensures Inv(After(Init(poolSize), run))
    decreases |run|
  {
    if run != [] {
      InvAfter(poolSize, run[..|run| - 1]);
      InvStep(After(Init(poolSize), run[..|run| - 1]), run[|run| - 1]);
    } else {
      InvInit(poolSize);
    }
  }

  lemma InvInit(poolSize: nat)
    ensures Inv(Init(poolSize))
  {
  }

  // ----- the promises, in every reachable state

  lemma ReachableInv(poolSize: nat, s: State)
    requires Reachable(poolSize, s)
    ensures Inv(s)
  {
    var run :| Leads(Init(poolSize), run, s);
    InvAfter(poolSize, run);
  }

  /** "req queue is empty" and "rsp queue is empty" are never reached. */
  lemma EarlyReturnsUnreachable(poolSize: nat, s: State)
    requires Reachable(poolSize, s)
    ensures s.reactor.TookUnit? ==> s.reactor.c < |s.conns| && s.conns[s.reactor.c].rsp != []
    ensures forall w <- s.workers :: w.HasTask? ==> w.c < |s.conns| && s.conns[w.c].req != []
  {
    ReachableInv(poolSize, s);
    if s.reactor.TookUnit? {
      assert ResponsesAt(s, s.reactor.c);
    }
    forall w | w in s.workers && w.HasTask? ensures w.c < |s.conns| && s.conns[w.c].req != [] {
      assert WorkerKnown(s, w) && RequestsAt(s, w.c);
      CountAbsent(s.workers, w);
    }
  }

  /** Whenever an eventfd counter is positive, a registered socket has bytes or a client waits to be
      accepted, the reactor will look at it without a further event: an edge is pending, fetched, or
      being handled. */
  lemma NoLostWakeup(poolSize: nat, s: State, c: nat)
    requires Reachable(poolSize, s) && c < |s.conns|
    ensures s.conns[c].counter > 0 ==> Pending(s, Rsp(c)) || Rsp(c) in s.batch || InRspHandler(s, c)
    ensures s.conns[c].sockReg && s.conns[c].inbox != "" ==>
      Pending(s, Sock(c)) || Sock(c) in s.batch || InSockHandler(s, c)
    ensures s.backlog != [] ==> Pending(s, Listen) || Listen in s.batch || InListenHandler(s)
  {
    ReachableInv(poolSize, s);
    assert SockSeen(s, c) && RspSeen(s, c);
  }

  /** Both accounts balance on every connection, and no task waits while too many workers sleep. */
  lemma Accounts(poolSize: nat, s: State, c: nat)
    requires Reachable(poolSize, s) && c < |s.conns|
    ensures |s.conns[c].req| ==
      multiset(s.tasks)[c] + multiset(s.workers)[HasTask(c)] + (if s.reactor == PushedReq(c) then 1 else 0)
    ensures |s.conns[c].rsp| ==
      s.conns[c].counter + multiset(s.workers)[Pushed(c)] + (if s.reactor == TookUnit(c) then 1 else 0)
    ensures Asleep in s.workers ==> |s.tasks| <= multiset(s.workers)[Idle]
  {
    ReachableInv(poolSize, s);
    assert RequestsAt(s, c) && ResponsesAt(s, c);
    CountIsMultiplicity(s.tasks, c);
    CountIsMultiplicity(s.workers, HasTask(c));
    CountIsMultiplicity(s.workers, Pushed(c));
    CountIsMultiplicity(s.workers, Idle);
  }
}
