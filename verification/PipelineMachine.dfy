/**
 The single-reactor, multi-worker echo server as an interleaving step system.

 A state holds what the reactor thread, the pool workers and the kernel share.  A program counter of
 the reactor or of a worker stands for the point in the code just before its next atomic action: a
 system call, or one operation on a mutex-protected queue.  `Enabled` and `Apply` give the steps; a
 run is a sequence of actions, chosen by an arbitrary scheduler and an arbitrary network.
 */
module PipelineMachine {

  /** A message as the queues carry it: a C++ string. */
  type Msg = string

  const NUL: char := '\0'
  /** Size of the stack buffer that `recv` fills. */
  const RECV_BUF := 1024
  /** Capacity of the array handed to `epoll_wait`. */
  const MAX_EVENTS := 10

  /** What an epoll event points at: the listening socket, a client socket or a client's eventfd. */
  datatype Event = Listen | Sock(c: nat) | Rsp(c: nat)

  datatype Worker =
    | Idle                    // on its way to the emptiness check in SafeQueue::shift
    | Asleep                  // inside the condition variable's wait
    | HasTask(c: nat)         // popped a task, before shift_no_wait on the request queue
    | HasMsg(c: nat, m: Msg)  // holds a message, before the push to the response queue
    | Pushed(c: nat)          // pushed the response, before the write to the eventfd

  datatype Reactor =
    | AtWait                   // before epoll_wait
    | AtDispatch               // at the head of the loop over the fetched events
    | InAccept                 // before accept
    | Accepted(c: nat)         // before EPOLL_CTL_ADD of the client socket
    | AddedSock(c: nat)        // before EPOLL_CTL_ADD of the eventfd
    | InRecv(c: nat)           // before recv
    | GotMsg(c: nat, m: Msg)   // before the push to the request queue
    | PushedReq(c: nat)        // before addQueue
    | InRsp(c: nat)            // before read of the eventfd
    | TookUnit(c: nat)         // took one unit, before shift_no_wait on the response queue
    | Sending(c: nat, m: Msg)  // before send

  /** One connection: its kernel objects, its two queues, and logs of what went in and out. */
  datatype Conn = Conn(
    inbox: string,       // bytes that arrived and were not received yet
    sockReg: bool,       // the socket is registered with epoll
    sockEdge: bool,      // an edge of the socket is pending
    rspReg: bool,        // the eventfd is registered with epoll
    rspEdge: bool,       // an edge of the eventfd is pending
    counter: nat,        // the eventfd counter
    req: seq<Msg>,       // request queue
    rsp: seq<Msg>,       // response queue
    arrived: string,     // log: every byte that arrived
    chunks: seq<string>, // log: the byte chunks returned by recv
    received: seq<Msg>,  // log: the messages built from them
    sent: seq<Msg>)      // log: the messages handed to send

  /** The whole system; a connection is identified by its index in `conns`. */
  datatype State = State(
    conns: seq<Conn>,
    backlog: seq<nat>,     // connections waiting to be accepted
    listenEdge: bool,      // an edge of the listening socket is pending
    tasks: seq<nat>,       // the pool's task queue: the connection each task serves
    workers: seq<Worker>,
    reactor: Reactor,
    batch: seq<Event>)     // fetched events not handled yet

  /** Atomic actions of the reactor thread. */
  datatype ReactorAct =
    | Wait(evs: seq<Event>) | NextEvent
    | AcceptNone | AcceptOne | AddSock | AddRsp
    | RecvNone | Recv(n: nat, m: Msg) | PushReq | AddTask(wake: nat)
    | ReadNone | ReadUnit | ShiftRsp | Send

  /** Atomic actions of a worker. */
  datatype WorkerAct = Sleep | Take | Fetch | PushRsp | WriteEvent

  /** What happens around the program: wakeups out of nowhere, clients, and the kernel forgetting an
      edge whose descriptor is no longer readable. */
  datatype EnvAct = SpuriousWake(w: nat) | Connect | Arrive(c: nat, bytes: string) | DropStale(e: Event)

  datatype Action = R(r: ReactorAct) | W(w: nat, k: WorkerAct) | E(e: EnvAct)

  const FreshConn := Conn("", false, false, false, false, 0, [], [], "", [], [], [])

  /** The state after `pool.start()` and the registration of the listening socket. */
  function Init(poolSize: nat): State {
    State([], [], false, [], seq(poolSize, _ => Idle), AtWait, [])
  }

  // ----- strings as the handler builds them

  /** The bytes before the first NUL. */
  function UpToNul(s: string): string {
    if s == "" || s[0] == NUL then "" else [s[0]] + UpToNul(s[1..])
  }

  /** `std::string msg(buf)` reads up to the first NUL.  A chunk that fills the buffer and has no NUL
      is not terminated, so whatever follows in memory, up to a NUL, is read too. */
  predicate DecodesTo(chunk: string, m: Msg) {
    if Terminated(chunk) then m == UpToNul(chunk) else chunk <= m && NUL !in m
  }

  /** The buffer holds a terminator: the zeroes behind a short chunk, or a NUL in the chunk. */
  predicate Terminated(chunk: string) {
    |chunk| < RECV_BUF || NUL in chunk
  }

  /** m is all of s, or what is before the first NUL in it. */
  predicate IsCString(s: string, m: Msg) {
    m <= s && NUL !in m && (m == s || s[|m|] == NUL)
  }

  /** What that means: m has no NUL; it is the chunk, or what is before the first NUL in it; if there is no
      terminator, it starts with the chunk. */
  predicate IsDecoding(chunk: string, m: Msg) {
    if Terminated(chunk) then IsCString(chunk, m) else chunk <= m && NUL !in m
  }

  /** What is there to be read, from the start of the buffer to its end or, without a terminator, beyond. */
  function InMemory(chunk: string, memory: string): string {
    if Terminated(chunk) then chunk else chunk + memory
  }

  lemma {:induction false} UpToNulStops(s: string)
    ensures IsCString(s, UpToNul(s))
  {
    if s != "" {
      UpToNulStops(s[1..]);
      assert s == [s[0]] + s[1..];
    }
  }

  /** A prefix without NUL does not reach beyond one that stops at a NUL or at the end. */
  lemma NoFurther(chunk: string, a: string, b: string)
    requires a <= chunk && NUL !in a && IsCString(chunk, b)
    ensures |a| <= |b|
  {
    assert forall i :: 0 <= i < |a| ==> a[i] == chunk[i] != NUL;
  }

  /** The handler builds exactly the strings that this describes. */
  lemma DecodesIff(chunk: string, m: Msg)
    ensures DecodesTo(chunk, m) <==> IsDecoding(chunk, m)
  {
    var u := UpToNul(chunk);
    UpToNulStops(chunk);
    if Terminated(chunk) && IsDecoding(chunk, m) {
      NoFurther(chunk, u, m);
      NoFurther(chunk, m, u);
      assert m == chunk[..|m|] && u == chunk[..|u|];
    }
  }

  // ----- the epoll instance

  predicate Pending(s: State, e: Event) {
    match e
    case Listen => s.listenEdge
    case Sock(c) => c < |s.conns| && s.conns[c].sockEdge
    case Rsp(c) => c < |s.conns| && s.conns[c].rspEdge
  }

  predicate Ready(s: State, e: Event) {
    match e
    case Listen => s.backlog != []
    case Sock(c) => c < |s.conns| && s.conns[c].inbox != ""
    case Rsp(c) => c < |s.conns| && s.conns[c].counter > 0
  }

  /** Clears the edges of the given events, as fetching an edge-triggered event does. */
  function ClearEdges(s: State, evs: seq<Event>): State {
    s.(listenEdge := s.listenEdge && Listen !in evs,
       conns := seq(|s.conns|, c requires 0 <= c < |s.conns| =>
         s.conns[c].(sockEdge := s.conns[c].sockEdge && Sock(c) !in evs,
                     rspEdge := s.conns[c].rspEdge && Rsp(c) !in evs)))
  }

  function SetConn(s: State, c: nat, k: Conn): State
    requires c < |s.conns|
  {
    s.(conns := s.conns[c := k])
  }

  // ----- steps of the reactor thread

  /** An edge-triggered fetch: distinct pending events leave the ready list. */
  predicate CanWait(s: State, evs: seq<Event>) {
    && s.reactor == AtWait && 1 <= |evs| <= MAX_EVENTS
    && (forall i :: 0 <= i < |evs| ==> Pending(s, evs[i]))
    && (forall i, j :: 0 <= i < j < |evs| ==> evs[i] != evs[j])
  }

  function DoWait(s: State, evs: seq<Event>): State {
    ClearEdges(s, evs).(batch := evs, reactor := AtDispatch)
  }

  /** The loop over the fetched events: call the next one's handler, or go back to epoll_wait. */
  function DoNextEvent(s: State): State {
    if s.batch == [] then s.(reactor := AtWait)
    else s.(batch := s.batch[1..], reactor := Handler(s.batch[0]))
  }

  function Handler(e: Event): Reactor {
    match e
    case Listen => InAccept
    case Sock(c) => InRecv(c)
    case Rsp(c) => InRsp(c)
  }

  function DoAcceptOne(s: State): State
    requires s.backlog != []
  {
    s.(backlog := s.backlog[1..], reactor := Accepted(s.backlog[0]))
  }

  /** Registering a socket that is already readable queues an event at once. */
  function DoAddSock(s: State, c: nat): State
    requires c < |s.conns|
  {
    SetConn(s, c, s.conns[c].(sockReg := true, sockEdge := s.conns[c].inbox != "")).(reactor := AddedSock(c))
  }

  function DoAddRsp(s: State, c: nat): State
    requires c < |s.conns|
  {
    SetConn(s, c, s.conns[c].(rspReg := true, rspEdge := s.conns[c].counter > 0)).(reactor := InAccept)
  }

  function DoRecv(s: State, c: nat, n: nat, m: Msg): State
    requires c < |s.conns| && n <= |s.conns[c].inbox|
  {
    var k := s.conns[c];
    SetConn(s, c, k.(inbox := k.inbox[n..],
                     chunks := k.chunks + [k.inbox[..n]],
                     received := k.received + [m])).(reactor := GotMsg(c, m))
  }

  function DoPushReq(s: State, c: nat, m: Msg): State
    requires c < |s.conns|
  {
    SetConn(s, c, s.conns[c].(req := s.conns[c].req + [m])).(reactor := PushedReq(c))
  }

  /** `addQueue`: the push notifies under the queue's mutex, so one sleeper, if there is one, wakes up. */
  function DoAddTask(s: State, c: nat, w: nat): State
    requires Asleep in s.workers ==> w < |s.workers|
  {
    s.(tasks := s.tasks + [c],
       workers := if Asleep in s.workers then s.workers[w := Idle] else s.workers,
       reactor := InRecv(c))
  }

  function DoReadUnit(s: State, c: nat): State
    requires c < |s.conns| && s.conns[c].counter > 0
  {
    SetConn(s, c, s.conns[c].(counter := s.conns[c].counter - 1)).(reactor := TookUnit(c))
  }

  /** On an empty queue the handler returns early: "rsp queue is empty". */
  function DoShiftRsp(s: State, c: nat): State
    requires c < |s.conns|
  {
    var k := s.conns[c];
    if k.rsp == [] then s.(reactor := AtDispatch)
    else SetConn(s, c, k.(rsp := k.rsp[1..])).(reactor := Sending(c, k.rsp[0]))
  }

  function DoSend(s: State, c: nat, m: Msg): State
    requires c < |s.conns|
  {
    SetConn(s, c, s.conns[c].(sent := s.conns[c].sent + [m])).(reactor := InRsp(c))
  }

  // ----- steps of worker w

  function SetWorker(s: State, w: nat, p: Worker): State
    requires w < |s.workers|
  {
    s.(workers := s.workers[w := p])
  }

  function DoTake(s: State, w: nat): State
    requires w < |s.workers| && s.tasks != []
  {
    SetWorker(s, w, HasTask(s.tasks[0])).(tasks := s.tasks[1..])
  }

  /** On an empty queue the task returns early: "req queue is empty". */
  function DoFetch(s: State, w: nat, c: nat): State
    requires w < |s.workers| && c < |s.conns|
  {
    var k := s.conns[c];
    if k.req == [] then SetWorker(s, w, Idle)
    else SetConn(SetWorker(s, w, HasMsg(c, k.req[0])), c, k.(req := k.req[1..]))
  }

  function DoPushRsp(s: State, w: nat, c: nat, m: Msg): State
    requires w < |s.workers| && c < |s.conns|
  {
    SetConn(SetWorker(s, w, Pushed(c)), c, s.conns[c].(rsp := s.conns[c].rsp + [m]))
  }

  /** The write adds one to the counter and raises an edge of the eventfd. */
  function DoWriteEvent(s: State, w: nat, c: nat): State
    requires w < |s.workers| && c < |s.conns|
  {
    SetConn(SetWorker(s, w, Idle), c, s.conns[c].(counter := s.conns[c].counter + 1, rspEdge := s.conns[c].rspReg))
  }

  // ----- steps of the environment

  function DoConnect(s: State): State {
    s.(conns := s.conns + [FreshConn], backlog := s.backlog + [|s.conns|], listenEdge := true)
  }

  function DoArrive(s: State, c: nat, bytes: string): State
    requires c < |s.conns|
  {
    var k := s.conns[c];
    SetConn(s, c, k.(inbox := k.inbox + bytes, arrived := k.arrived + bytes, sockEdge := k.sockReg))
  }

  // ----- the step relation

  predicate REnabled(s: State, r: ReactorAct) {
    match r
    case Wait(evs) => CanWait(s, evs)
    case NextEvent => s.reactor == AtDispatch
    case AcceptNone => s.reactor == InAccept && s.backlog == []
    case AcceptOne => s.reactor == InAccept && s.backlog != []
    case AddSock => s.reactor.Accepted? && s.reactor.c < |s.conns|
    case AddRsp => s.reactor.AddedSock? && s.reactor.c < |s.conns|
    case RecvNone => s.reactor.InRecv? && s.reactor.c < |s.conns| && s.conns[s.reactor.c].inbox == ""
    case Recv(n, m) =>
      && s.reactor.InRecv? && s.reactor.c < |s.conns|
      && var inbox := s.conns[s.reactor.c].inbox;
         1 <= n <= |inbox| && n <= RECV_BUF && DecodesTo(inbox[..n], m)
    case PushReq => s.reactor.GotMsg? && s.reactor.c < |s.conns|
    case AddTask(w) => s.reactor.PushedReq? && (Asleep in s.workers ==> w < |s.workers| && s.workers[w] == Asleep)
    case ReadNone => s.reactor.InRsp? && s.reactor.c < |s.conns| && s.conns[s.reactor.c].counter == 0
    case ReadUnit => s.reactor.InRsp? && s.reactor.c < |s.conns| && s.conns[s.reactor.c].counter > 0
    case ShiftRsp => s.reactor.TookUnit? && s.reactor.c < |s.conns|
    case Send => s.reactor.Sending? && s.reactor.c < |s.conns|
  }

  function RApply(s: State, r: ReactorAct): State
    requires REnabled(s, r)
  {
    match r
    case Wait(evs) => DoWait(s, evs)
    case NextEvent => DoNextEvent(s)
    case AcceptNone => s.(reactor := AtDispatch)
    case AcceptOne => DoAcceptOne(s)
    case AddSock => DoAddSock(s, s.reactor.c)
    case AddRsp => DoAddRsp(s, s.reactor.c)
    case RecvNone => s.(reactor := AtDispatch)
    case Recv(n, m) => DoRecv(s, s.reactor.c, n, m)
    case PushReq => DoPushReq(s, s.reactor.c, s.reactor.m)
    case AddTask(w) => DoAddTask(s, s.reactor.c, w)
    case ReadNone => s.(reactor := AtDispatch)
    case ReadUnit => DoReadUnit(s, s.reactor.c)
    case ShiftRsp => DoShiftRsp(s, s.reactor.c)
    case Send => DoSend(s, s.reactor.c, s.reactor.m)
  }

  predicate WEnabled(s: State, w: nat, k: WorkerAct) {
    && w < |s.workers|
    && match k
       case Sleep => s.workers[w] == Idle && s.tasks == []
       case Take => s.workers[w] == Idle && s.tasks != []
       case Fetch => s.workers[w].HasTask? && s.workers[w].c < |s.conns|
       case PushRsp => s.workers[w].HasMsg? && s.workers[w].c < |s.conns|
       case WriteEvent => s.workers[w].Pushed? && s.workers[w].c < |s.conns|
  }

  function WApply(s: State, w: nat, k: WorkerAct): State
    requires WEnabled(s, w, k)
  {
    match k
    case Sleep => SetWorker(s, w, Asleep)
    case Take => DoTake(s, w)
    case Fetch => DoFetch(s, w, s.workers[w].c)
    case PushRsp => DoPushRsp(s, w, s.workers[w].c, s.workers[w].m)
    case WriteEvent => DoWriteEvent(s, w, s.workers[w].c)
  }

  predicate EEnabled(s: State, e: EnvAct) {
    match e
    case SpuriousWake(w) => w < |s.workers| && s.workers[w] == Asleep
    case Connect => true
    case Arrive(c, bytes) => c < |s.conns| && bytes != ""
    case DropStale(ev) => Pending(s, ev) && !Ready(s, ev)
  }

  function EApply(s: State, e: EnvAct): State
    requires EEnabled(s, e)
  {
    match e
    case SpuriousWake(w) => SetWorker(s, w, Idle)
    case Connect => DoConnect(s)
    case Arrive(c, bytes) => DoArrive(s, c, bytes)
    case DropStale(ev) => ClearEdges(s, [ev])
  }

  predicate Enabled(s: State, a: Action) {
    match a
    case R(r) => REnabled(s, r)
    case W(w, k) => WEnabled(s, w, k)
    case E(e) => EEnabled(s, e)
  }

  function Apply(s: State, a: Action): State
    requires Enabled(s, a)
  {
    match a
    case R(r) => RApply(s, r)
    case W(w, k) => WApply(s, w, k)
    case E(e) => EApply(s, e)
  }

  // ----- runs

  /** The actions can be taken one after the other from `s`. */
  predicate IsRun(s: State, run: seq<Action>)
    decreases |run|, 0
  {
    run == [] || (IsRun(s, run[..|run| - 1]) && Enabled(After(s, run[..|run| - 1]), run[|run| - 1]))
  }

  /** The state at the end of a run. */
  function After(s: State, run: seq<Action>): State
    requires IsRun(s, run)
    decreases |run|, 1
  {
    if run == [] then s else Apply(After(s, run[..|run| - 1]), run[|run| - 1])
  }

  /** The run leads from s to t. */
  ghost predicate Leads(s: State, run: seq<Action>, t: State) {
    IsRun(s, run) && After(s, run) == t
  }

  /** Some run of the server with this many workers leads to s. */
  ghost predicate Reachable(poolSize: nat, s: State) {
    exists run :: Leads(Init(poolSize), run, s)
  }

  lemma RunSnoc(s: State, run: seq<Action>, a: Action)
    requires IsRun(s, run) && Enabled(After(s, run), a)
    ensures IsRun(s, run + [a]) && After(s, run + [a]) == Apply(After(s, run), a)
  {
    assert (run + [a])[..|run|] == run;
  }

  lemma ReachableStep(poolSize: nat, s: State, a: Action)
    requires Reachable(poolSize, s) && Enabled(s, a)
    ensures Reachable(poolSize, Apply(s, a))
  {
    var run :| Leads(Init(poolSize), run, s);
    RunSnoc(Init(poolSize), run, a);
    assert Leads(Init(poolSize), run + [a], Apply(s, a));
  }

  lemma LeadsSnoc(s: State, run: seq<Action>, t: State, a: Action)
    requires Leads(s, run, t) && Enabled(t, a)
    ensures Leads(s, run + [a], Apply(t, a))
  {
    RunSnoc(s, run, a);
  }

  lemma LeadsLast(s: State, run: seq<Action>, t: State) returns (most: seq<Action>, mid: State, last: Action)
    requires Leads(s, run, t) && run != []
    ensures run == most + [last] && Leads(s, most, mid) && Enabled(mid, last) && t == Apply(mid, last)
  {
    most, last := run[..|run| - 1], run[|run| - 1];
    mid := After(s, most);
  }

  /** A run may also be read from its first action on. */
  lemma {:induction false} LeadsCons(s: State, a: Action, run: seq<Action>, t: State)
    requires Enabled(s, a) && Leads(Apply(s, a), run, t)
    ensures Leads(s, [a] + run, t)
    decreases |run|
  {
    if run == [] {
      LeadsSnoc(s, [], s, a);
      assert [a] + run == [] + [a];
    } else {
      var most, mid, last := LeadsLast(Apply(s, a), run, t);
      LeadsCons(s, a, most, mid);
      LeadsSnoc(s, [a] + most, mid, last);
      assert [a] + run == ([a] + most) + [last];
    }
  }
}
