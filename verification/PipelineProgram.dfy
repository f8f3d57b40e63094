/**
 The server's threads written as they are in the source: loops over system calls and queue operations.
 Between any two atomic actions of a thread the other threads, the clients and the kernel may take any
 number of theirs.  The methods show that this code only ever makes runs of the step system, so that
 what is proved about all runs holds of it, and that each handler leaves through EAGAIN.
 */
module PipelineProgram {
  import opened PipelineMachine
  import opened PipelineSafety
  import opened PipelineProgress
  import opened Sequences

  datatype Thread = TheReactor | TheWorker(w: nat)

  predicate Of(a: Action, t: Thread) {
    if t.TheReactor? then a.R? else a.W? && a.w == t.w
  }

  /** What one thread did in a run. */
  function Mine(run: seq<Action>, me: Thread): seq<Action> {
    if run == [] then []
    else Mine(run[..|run| - 1], me) + if Of(run[|run| - 1], me) then [run[|run| - 1]] else []
  }

  lemma MineSnoc(run: seq<Action>, a: Action, me: Thread)
    ensures Mine(run + [a], me) == Mine(run, me) + if Of(a, me) then [a] else []
  {
    assert (run + [a])[..|run|] == run;
  }

  // ----- what a handler does, action by action

  /** One turn of the loop in the event's handler. */
  predicate Round(e: Event, a: Action, b: Action, c: Action) {
    match e
    case Listen => a == R(AcceptOne) && b == R(AddSock) && c == R(AddRsp)
    case Sock(_) => a.R? && a.r.Recv? && b == R(PushReq) && c.R? && c.r.AddTask?
    case Rsp(_) => a == R(ReadUnit) && b == R(ShiftRsp) && c == R(Send)
  }

  predicate Rounds(e: Event, trace: seq<Action>) {
    trace == [] ||
      var n := |trace| - 3;
      n >= 0 && Rounds(e, trace[..n]) && Round(e, trace[n], trace[n + 1], trace[n + 2])
  }

  /** EAGAIN. */
  function Drained(e: Event): Action {
    match e
    case Listen => R(AcceptNone)
    case Sock(_) => R(RecvNone)
    case Rsp(_) => R(ReadNone)
  }

  /** A whole call of the event's handler: complete turns of its loop, then EAGAIN. */
  predicate IsHandling(e: Event, trace: seq<Action>) {
    trace != [] && trace[|trace| - 1] == Drained(e) && Rounds(e, trace[..|trace| - 1])
  }

  /** The loop over the fetched events gets to the next one and calls its handler. */
  predicate IsCall(e: Event, trace: seq<Action>) {
    trace != [] && trace[0] == R(NextEvent) && IsHandling(e, trace[1..])
  }

  /** One call for each event, in order. */
  predicate AreCalls(evs: seq<Event>, traces: seq<seq<Action>>)
    decreases |evs|
  {
    if evs == [] then traces == []
    else
      var n := |evs| - 1;
      |traces| == |evs| && AreCalls(evs[..n], traces[..n]) && IsCall(evs[n], traces[n])
  }

  lemma AddCall(evs: seq<Event>, traces: seq<seq<Action>>, trace: seq<Action>)
    requires |traces| < |evs| && AreCalls(evs[..|traces|], traces) && IsCall(evs[|traces|], trace)
    ensures AreCalls(evs[..|traces| + 1], traces + [trace]) && Flat(traces + [trace]) == Flat(traces) + trace
  {
    var n, all := |traces|, traces + [trace];
    assert all[..n] == traces && all[n] == trace;
    assert evs[..n + 1][..n] == evs[..n];
  }

  // ----- what the main loop does, turn by turn

  /** One turn of the loop in `main`: what had happened before it and the state it found; the events it
      fetched, none if it blocked; and the calls of their handlers. */
  datatype LoopTurn = LoopTurn(before: seq<Action>, at: State, evs: seq<Event>, calls: seq<seq<Action>>)

  /** It blocks only with no event pending, else it handles each of the events it fetched, in order. */
  ghost predicate IsLoopTurn(poolSize: nat, t: LoopTurn) {
    && Leads(Init(poolSize), t.before, t.at) && t.at.reactor == AtWait && AreCalls(t.evs, t.calls)
    && if t.evs == [] then forall e :: !Pending(t.at, e) else CanWait(t.at, t.evs)
  }

  /** What the reactor does in a turn. */
  function Done(t: LoopTurn): seq<Action> {
    if t.evs == [] then [] else [R(Wait(t.evs))] + Flat(t.calls) + [R(NextEvent)]
  }

  function AllDone(turns: seq<LoopTurn>): seq<Action> {
    if turns == [] then [] else AllDone(turns[..|turns| - 1]) + Done(turns[|turns| - 1])
  }

  /** The turns follow each other: each starts after what the reactor had done in those before it, and the
      last one ends with what it did in all of them. */
  ghost predicate AreLoopTurns(poolSize: nat, mine: seq<Action>, turns: seq<LoopTurn>, run: seq<Action>) {
    && Mine(run, TheReactor) == mine + AllDone(turns)
    && forall i | 0 <= i < |turns| ::
         && IsLoopTurn(poolSize, turns[i]) && turns[i].before <= run
         && Mine(turns[i].before, TheReactor) == mine + AllDone(turns[..i])
  }

  lemma AddLoopTurn(poolSize: nat, mine: seq<Action>, turns: seq<LoopTurn>, t: LoopTurn, run: seq<Action>)
    requires AreLoopTurns(poolSize, mine, turns, t.before) && IsLoopTurn(poolSize, t) && t.before <= run
    requires Mine(run, TheReactor) == Mine(t.before, TheReactor) + Done(t)
    ensures AreLoopTurns(poolSize, mine, turns + [t], run)
  {
    var all, n := turns + [t], |turns|;
    assert all[..n] == turns;
    Associative(mine, AllDone(turns), Done(t));
    forall i | 0 <= i < |all|
      ensures IsLoopTurn(poolSize, all[i]) && all[i].before <= run
      ensures Mine(all[i].before, TheReactor) == mine + AllDone(all[..i])
    {
      if i < n {
        assert all[..i] == turns[..i] && all[i] == turns[i];
      }
    }
  }

  /** The parts of a turn that fetched something, put together. */
  lemma TurnDone(mine: seq<Action>, t: LoopTurn)
    requires t.evs != []
    ensures mine + [R(Wait(t.evs))] + Flat(t.calls) + [R(NextEvent)] == mine + Done(t)
  {
  }

  /** Others may act between two turns. */
  lemma LaterLoopTurns(poolSize: nat, mine: seq<Action>, turns: seq<LoopTurn>, run: seq<Action>, later: seq<Action>)
    requires AreLoopTurns(poolSize, mine, turns, run)
    requires run <= later && Mine(later, TheReactor) == Mine(run, TheReactor)
    ensures AreLoopTurns(poolSize, mine, turns, later)
  {
  }

  /** A worker goes to sleep n times. */
  function Naps(w: nat, n: nat): seq<Action> {
    if n == 0 then [] else Naps(w, n - 1) + [W(w, Sleep)]
  }

  /** A worker takes one task and runs it to the end. */
  function Task(w: nat): seq<Action> {
    [W(w, Take)] + [W(w, Fetch), W(w, PushRsp), W(w, WriteEvent)]
  }

  lemma AddRound(e: Event, trace: seq<Action>, a: Action, b: Action, c: Action)
    requires Rounds(e, trace) && Round(e, a, b, c)
    ensures Rounds(e, trace + [a, b, c])
  {
    assert (trace + [a, b, c])[..|trace|] == trace;
  }

  lemma EndHandling(e: Event, before: seq<Action>, trace: seq<Action>)
    requires Rounds(e, trace)
    ensures IsHandling(e, trace + [Drained(e)])
    ensures before + trace + [Drained(e)] == before + (trace + [Drained(e)])
  {
    assert (trace + [Drained(e)])[..|trace|] == trace;
  }

  lemma OneMoreNap(mine: seq<Action>, w: nat, n: nat)
    ensures mine + Naps(w, n) + [W(w, Sleep)] == mine + Naps(w, n + 1)
  {
    Associative(mine, Naps(w, n), [W(w, Sleep)]);
  }

  lemma TaskDone(mine: seq<Action>, w: nat)
    ensures mine + [W(w, Take)] + [W(w, Fetch), W(w, PushRsp), W(w, WriteEvent)] == mine + Task(w)
  {
  }

  // ----- what other threads cannot change under a thread's feet

  /** On a connection, everybody but the reactor only appends: bytes, responses, units. */
  predicate Appended(k: Conn, l: Conn) {
    && l.sent == k.sent && l.received == k.received && l.chunks == k.chunks
    && k.inbox <= l.inbox && k.rsp <= l.rsp && k.counter <= l.counter
  }

  predicate Outside(s: State, t: State) {
    && t.reactor == s.reactor && t.batch == s.batch && |s.conns| <= |t.conns|
    && forall c :: 0 <= c < |s.conns| ==> Appended(s.conns[c], t.conns[c])
  }

  lemma FrameReactor(s: State, a: Action)
    requires Enabled(s, a) && !a.R?
    ensures Outside(s, Apply(s, a))
  {
    match a {
      case W(w, k) => WorkerAppends(s, w, k);
      case E(e) =>
    }
  }

  lemma WorkerAppends(s: State, w: nat, k: WorkerAct)
    requires WEnabled(s, w, k)
    ensures Outside(s, WApply(s, w, k))
  {
    match k { case Sleep => case Take => case Fetch => case PushRsp => case WriteEvent => }
  }

  /** A worker moves by itself, except that it may be woken up. */
  predicate SameWorker(s: State, t: State, w: nat) {
    w < |s.workers| == |t.workers| && (t.workers[w] == s.workers[w] || (s.workers[w] == Asleep && t.workers[w] == Idle))
  }

  lemma FrameWorker(s: State, a: Action, w: nat)
    requires Enabled(s, a) && !Of(a, TheWorker(w)) && w < |s.workers|
    ensures SameWorker(s, Apply(s, a), w)
  {
    match a {
      case R(r) => match r { case AddTask(_) => case Wait(_) => case _ => }
      case W(_, k) => match k { case Sleep => case Take => case Fetch => case PushRsp => case WriteEvent => }
      case E(e) =>
    }
  }

  // ----- what a worker did to one message

  /** Between `from` and `upto`, at point p of the run and in state s, action a was taken. */
  ghost predicate Performed(poolSize: nat, from: seq<Action>, upto: seq<Action>, a: Action, p: seq<Action>, s: State) {
    from <= p && p + [a] <= upto && Leads(Init(poolSize), p, s)
  }

  /** Worker w took m, the first request of connection c. */
  ghost predicate Fetched(poolSize: nat, from: seq<Action>, upto: seq<Action>, w: nat, c: nat, m: Msg) {
    exists p: seq<Action>, s: State ::
      && Performed(poolSize, from, upto, W(w, Fetch), p, s) && w < |s.workers| && s.workers[w] == HasTask(c)
      && c < |s.conns| && s.conns[c].req != [] && s.conns[c].req[0] == m
  }

  /** Worker w queued m as a response of connection c. */
  ghost predicate Delivered(poolSize: nat, from: seq<Action>, upto: seq<Action>, w: nat, c: nat, m: Msg) {
    exists p: seq<Action>, s: State ::
      Performed(poolSize, from, upto, W(w, PushRsp), p, s) && w < |s.workers| && s.workers[w] == HasMsg(c, m)
  }

  ghost predicate Moved(poolSize: nat, from: seq<Action>, upto: seq<Action>, w: nat, c: nat, m: Msg) {
    Fetched(poolSize, from, upto, w, c, m) && Delivered(poolSize, from, upto, w, c, m)
  }

  lemma WiderFetched(poolSize: nat, from: seq<Action>, upto: seq<Action>, from': seq<Action>, upto': seq<Action>,
        w: nat, c: nat, m: Msg)
    requires from' <= from && upto <= upto' && Fetched(poolSize, from, upto, w, c, m)
    ensures Fetched(poolSize, from', upto', w, c, m)
  {
    var p: seq<Action>, s: State :|
      && Performed(poolSize, from, upto, W(w, Fetch), p, s) && w < |s.workers| && s.workers[w] == HasTask(c)
      && c < |s.conns| && s.conns[c].req != [] && s.conns[c].req[0] == m;
    assert Performed(poolSize, from', upto', W(w, Fetch), p, s);
  }

  lemma WiderDelivered(poolSize: nat, from: seq<Action>, upto: seq<Action>, from': seq<Action>, upto': seq<Action>,
        w: nat, c: nat, m: Msg)
    requires from' <= from && upto <= upto' && Delivered(poolSize, from, upto, w, c, m)
    ensures Delivered(poolSize, from', upto', w, c, m)
  {
    var p: seq<Action>, s: State :|
      Performed(poolSize, from, upto, W(w, PushRsp), p, s) && w < |s.workers| && s.workers[w] == HasMsg(c, m);
    assert Performed(poolSize, from', upto', W(w, PushRsp), p, s);
  }

  class Server {
    const poolSize: nat
    var st: State
    /** What the scheduler will offer the other threads, the clients and the kernel: arbitrary. */
    var script: seq<Action>
    /** Everything that happened so far. */
    ghost var run: seq<Action>

    ghost predicate Valid()
      reads this
    {
      Leads(Init(poolSize), run, st)
    }

    constructor (poolSize: nat, script: seq<Action>)
      ensures Valid() && st == Init(poolSize) && this.poolSize == poolSize && this.script == script && run == []
    {
      this.poolSize := poolSize;
      this.script := script;
      st := Init(poolSize);
      run := [];
    }

    /** One atomic action. */
    method Do(a: Action)
      requires Valid() && Enabled(st, a)
      modifies this`st, this`run
      ensures Valid() && st == Apply(old(st), a) && run == old(run) + [a]
      ensures forall me: Thread :: Mine(run, me) == Mine(old(run), me) + if Of(a, me) then [a] else []
    {
      RunSnoc(Init(poolSize), run, a);
      forall me: Thread {
        MineSnoc(run, a, me);
      }
      run := run + [a];
      st := Apply(st, a);
    }

    /** The next thing that others do, if they do anything more. */
    method Offer(me: Thread)
      requires Valid() && script != []
      modifies this
      ensures Valid() && old(run) <= run && Mine(run, me) == Mine(old(run), me)
      ensures script == old(script)[1..]
      ensures var a := old(script)[0]; run == old(run) + if !Of(a, me) && Enabled(old(st), a) then [a] else []
      ensures me.TheReactor? ==> Outside(old(st), st)
      ensures me.TheWorker? && me.w < |old(st).workers| ==> SameWorker(old(st), st, me.w)
    {
      var a := script[0];
      script := script[1..];
      if !Of(a, me) && Enabled(st, a) {
        if me.TheReactor? {
          FrameReactor(st, a);
        } else if me.w < |st.workers| {
          FrameWorker(st, a, me.w);
        }
        Do(a);
      }
    }

    /** Any number of actions of everybody but `me`. */
    method Interfere(me: Thread)
      requires Valid()
      modifies this
      ensures Valid() && old(run) <= run && Mine(run, me) == Mine(old(run), me)
      ensures |script| <= |old(script)| && (|script| == |old(script)| ==> st == old(st))
      ensures me.TheReactor? ==> Outside(old(st), st)
      ensures me.TheWorker? && me.w < |old(st).workers| ==> SameWorker(old(st), st, me.w)
    {
      var stop :| 0 <= stop <= |script|;
      while |script| > stop
        invariant Valid() && old(run) <= run && Mine(run, me) == Mine(old(run), me)
        invariant stop <= |script| <= |old(script)| && (|script| == |old(script)| ==> st == old(st))
        invariant me.TheReactor? ==> Outside(old(st), st)
        invariant me.TheWorker? && me.w < |old(st).workers| ==> SameWorker(old(st), st, me.w)
      {
        Offer(me);
      }
    }

    // ----- the reactor thread

    /** One atomic action of the reactor, and whatever the others do until its next one. */
    method React(r: ReactorAct)
      requires Valid() && REnabled(st, r)
      modifies this
      ensures Valid() && ReactorKnown(st) && Outside(RApply(old(st), r), st)
      ensures old(run) <= run && Mine(run, TheReactor) == Mine(old(run), TheReactor) + [R(r)]
      ensures |script| < |old(script)| || (|script| == |old(script)| && Work(st) < Work(old(st)))
    {
      WorkDecreases(st, R(r));
      Do(R(r));
      Interfere(TheReactor);
      InvAfter(poolSize, run);
    }

    /** A unit in the counter stands for a response in the queue. */
    lemma ResponseIsThere(c: nat)
      requires Valid() && c < |st.conns| && st.conns[c].counter > 0
      ensures st.conns[c].rsp != []
    {
      InvAfter(poolSize, run);
      assert ResponsesAt(st, c);
    }

    /** A unit off the counter, and the first response off the queue: shift_no_wait does not find it empty. */
    method TakeResponse(c: nat)
      requires Valid() && st.reactor == InRsp(c) && ReactorKnown(st) && st.conns[c].counter > 0
      modifies this
      ensures Valid() && ReactorKnown(st) && st.batch == old(st).batch && old(run) <= run
      ensures old(st).conns[c].rsp != [] && st.reactor == Sending(c, old(st).conns[c].rsp[0])
      ensures st.conns[c].sent == old(st).conns[c].sent
      ensures Mine(run, TheReactor) == Mine(old(run), TheReactor) + [R(ReadUnit), R(ShiftRsp)]
      ensures |script| < |old(script)| || (|script| == |old(script)| && Work(st) < Work(old(st)))
    {
      ResponseIsThere(c);
      React(ReadUnit);
      React(ShiftRsp);
    }

    /** One turn of the loop in `rsp_handler`: a unit, the first response, and that one is sent. */
    method RespondOnce(c: nat)
      requires Valid() && st.reactor == InRsp(c) && ReactorKnown(st) && st.conns[c].counter > 0
      modifies this
      ensures Valid() && st.reactor == InRsp(c) && ReactorKnown(st) && st.batch == old(st).batch && old(run) <= run
      ensures old(st).conns[c].rsp != []
      ensures st.conns[c].sent == old(st).conns[c].sent + [old(st).conns[c].rsp[0]]
      ensures Mine(run, TheReactor) == Mine(old(run), TheReactor) + [R(ReadUnit), R(ShiftRsp), R(Send)]
      ensures |script| < |old(script)| || (|script| == |old(script)| && Work(st) < Work(old(st)))
    {
      TakeResponse(c);
      React(Send);
    }

    /** The same, as one more turn of a trace. */
    method RespondRound(c: nat, ghost before: seq<Action>, ghost trace: seq<Action>)
      returns (ghost longer: seq<Action>)
      requires Valid() && st.reactor == InRsp(c) && ReactorKnown(st) && st.conns[c].counter > 0
      requires Mine(run, TheReactor) == before + trace && Rounds(Rsp(c), trace)
      modifies this
      ensures Valid() && st.reactor == InRsp(c) && ReactorKnown(st) && st.batch == old(st).batch && old(run) <= run
      ensures Mine(run, TheReactor) == before + longer && Rounds(Rsp(c), longer)
      ensures |script| < |old(script)| || (|script| == |old(script)| && Work(st) < Work(old(st)))
    {
      RespondOnce(c);
      AddRound(Rsp(c), trace, R(ReadUnit), R(ShiftRsp), R(Send));
      longer := trace + [R(ReadUnit), R(ShiftRsp), R(Send)];
    }

    /** `rsp_handler`: take units off the eventfd and send one response for each, until EAGAIN. */
    method RspHandler(c: nat) returns (ghost trace: seq<Action>)
      requires Valid() && st.reactor == InRsp(c) && ReactorKnown(st)
      modifies this
      ensures Valid() && st.reactor == AtDispatch && st.batch == old(st).batch && old(run) <= run
      ensures Mine(run, TheReactor) == Mine(old(run), TheReactor) + trace && IsHandling(Rsp(c), trace)
      ensures c < |st.conns| && st.conns[c].counter == 0
    {
      trace := [];
      while st.conns[c].counter != 0
        invariant Valid() && st.reactor == InRsp(c) && ReactorKnown(st)
        invariant st.batch == old(st).batch && old(run) <= run
        invariant Mine(run, TheReactor) == Mine(old(run), TheReactor) + trace && Rounds(Rsp(c), trace)
        decreases |script|, Work(st)
      {
        trace := RespondRound(c, Mine(old(run), TheReactor), trace);
      }
      Do(R(ReadNone));
      EndHandling(Rsp(c), Mine(old(run), TheReactor), trace);
      trace := trace + [R(ReadNone)];
    }

    /** The string built from the receive buffer; after an unterminated chunk, whatever is in memory. */
    method Decode(chunk: string, memory: string) returns (m: Msg)
      ensures IsDecoding(chunk, m) && IsCString(InMemory(chunk, memory), m)
    {
      m := if Terminated(chunk) then UpToNul(chunk) else chunk + UpToNul(memory);
      DecodesIff(chunk, m);
      UpToNulStops(memory);
    }

    /** `recv` and the string built from the buffer: the first bytes of the inbox become a message. */
    method Receive(c: nat, memory: string) returns (ghost n: nat, ghost m: Msg)
      requires Valid() && st.reactor == InRecv(c) && ReactorKnown(st) && st.conns[c].inbox != ""
      modifies this
      ensures Valid() && st.reactor == GotMsg(c, m) && ReactorKnown(st) && st.batch == old(st).batch && old(run) <= run
      ensures 1 <= n <= |old(st).conns[c].inbox| && IsDecoding(old(st).conns[c].inbox[..n], m)
      ensures IsCString(InMemory(old(st).conns[c].inbox[..n], memory), m)
      ensures st.conns[c].received == old(st).conns[c].received + [m]
      ensures st.conns[c].chunks == old(st).conns[c].chunks + [old(st).conns[c].inbox[..n]]
      ensures Mine(run, TheReactor) == Mine(old(run), TheReactor) + [R(Recv(n, m))]
      ensures |script| < |old(script)| || (|script| == |old(script)| && Work(st) < Work(old(st)))
    {
      var size :| 1 <= size <= |st.conns[c].inbox| && size <= RECV_BUF;
      var msg := Decode(st.conns[c].inbox[..size], memory);
      n, m := size, msg;
      DecodesIff(st.conns[c].inbox[..size], msg);
      React(Recv(size, msg));
    }

    /** The message becomes a request, and a task is posted for it. */
    method Post(c: nat) returns (ghost w: nat)
      requires Valid() && st.reactor.GotMsg? && st.reactor.c == c && ReactorKnown(st)
      modifies this
      ensures Valid() && st.reactor == InRecv(c) && ReactorKnown(st) && st.batch == old(st).batch && old(run) <= run
      ensures st.conns[c].received == old(st).conns[c].received && st.conns[c].chunks == old(st).conns[c].chunks
      ensures Mine(run, TheReactor) == Mine(old(run), TheReactor) + [R(PushReq), R(AddTask(w))]
      ensures |script| < |old(script)| || (|script| == |old(script)| && Work(st) < Work(old(st)))
    {
      React(PushReq);
      var sleeper := Sleeper();
      w := sleeper;
      React(AddTask(sleeper));
    }

    /** One turn of the loop in `data_handler_by_worker`. */
    method RequestOnce(c: nat, memory: string) returns (ghost n: nat, ghost m: Msg, ghost w: nat)
      requires Valid() && st.reactor == InRecv(c) && ReactorKnown(st) && st.conns[c].inbox != ""
      modifies this
      ensures Valid() && st.reactor == InRecv(c) && ReactorKnown(st) && st.batch == old(st).batch && old(run) <= run
      ensures 1 <= n <= |old(st).conns[c].inbox| && IsDecoding(old(st).conns[c].inbox[..n], m)
      ensures IsCString(InMemory(old(st).conns[c].inbox[..n], memory), m)
      ensures st.conns[c].received == old(st).conns[c].received + [m]
      ensures st.conns[c].chunks == old(st).conns[c].chunks + [old(st).conns[c].inbox[..n]]
      ensures Mine(run, TheReactor) == Mine(old(run), TheReactor) + [R(Recv(n, m)), R(PushReq), R(AddTask(w))]
      ensures |script| < |old(script)| || (|script| == |old(script)| && Work(st) < Work(old(st)))
    {
      n, m := Receive(c, memory);
      w := Post(c);
    }

    /** The same, as one more turn of a trace. */
    method RequestRound(c: nat, memory: string, ghost before: seq<Action>, ghost trace: seq<Action>)
      returns (ghost longer: seq<Action>)
      requires Valid() && st.reactor == InRecv(c) && ReactorKnown(st) && st.conns[c].inbox != ""
      requires Mine(run, TheReactor) == before + trace && Rounds(Sock(c), trace)
      modifies this
      ensures Valid() && st.reactor == InRecv(c) && ReactorKnown(st) && st.batch == old(st).batch && old(run) <= run
      ensures Mine(run, TheReactor) == before + longer && Rounds(Sock(c), longer)
      ensures |script| < |old(script)| || (|script| == |old(script)| && Work(st) < Work(old(st)))
    {
      ghost var n, m, w;
      n, m, w := RequestOnce(c, memory);
      AddRound(Sock(c), trace, R(Recv(n, m)), R(PushReq), R(AddTask(w)));
      longer := trace + [R(Recv(n, m)), R(PushReq), R(AddTask(w))];
    }

    /** Some sleeping worker, if there is one: the one that notify_one picks. */
    method Sleeper() returns (w: nat)
      ensures Asleep in st.workers ==> w < |st.workers| && st.workers[w] == Asleep
    {
      w := 0;
      if Asleep in st.workers {
        w :| w < |st.workers| && st.workers[w] == Asleep;
      }
    }

    /** `data_handler_by_worker`: receive chunks, queue each as a request and post a task for it, until EAGAIN. */
    method SockHandler(c: nat, memory: string) returns (ghost trace: seq<Action>)
      requires Valid() && st.reactor == InRecv(c) && ReactorKnown(st)
      modifies this
      ensures Valid() && st.reactor == AtDispatch && st.batch == old(st).batch && old(run) <= run
      ensures Mine(run, TheReactor) == Mine(old(run), TheReactor) + trace && IsHandling(Sock(c), trace)
      ensures c < |st.conns| && st.conns[c].inbox == ""
    {
      trace := [];
      while st.conns[c].inbox != ""
        invariant Valid() && st.reactor == InRecv(c) && ReactorKnown(st)
        invariant st.batch == old(st).batch && old(run) <= run
        invariant Mine(run, TheReactor) == Mine(old(run), TheReactor) + trace && Rounds(Sock(c), trace)
        decreases |script|, Work(st)
      {
        trace := RequestRound(c, memory, Mine(old(run), TheReactor), trace);
      }
      Do(R(RecvNone));
      EndHandling(Sock(c), Mine(old(run), TheReactor), trace);
      trace := trace + [R(RecvNone)];
    }

    /** One turn of the loop in `connection_handler`: accept, register the socket, register the eventfd. */
    method AcceptOnce()
      requires Valid() && st.reactor == InAccept && st.backlog != []
      modifies this
      ensures Valid() && st.reactor == InAccept && st.batch == old(st).batch && old(run) <= run
      ensures Mine(run, TheReactor) == Mine(old(run), TheReactor) + [R(AcceptOne), R(AddSock), R(AddRsp)]
      ensures |script| < |old(script)| || (|script| == |old(script)| && Work(st) < Work(old(st)))
    {
      React(AcceptOne);
      React(AddSock);
      React(AddRsp);
    }

    /** `connection_handler`: accept clients and register their socket and eventfd, until EAGAIN. */
    method ConnectionHandler() returns (ghost trace: seq<Action>)
      requires Valid() && st.reactor == InAccept
      modifies this
      ensures Valid() && st.reactor == AtDispatch && st.batch == old(st).batch && old(run) <= run
      ensures Mine(run, TheReactor) == Mine(old(run), TheReactor) + trace && IsHandling(Listen, trace)
      ensures st.backlog == []
    {
      trace := [];
      while st.backlog != []
        invariant Valid() && st.reactor == InAccept && st.batch == old(st).batch && old(run) <= run
        invariant Mine(run, TheReactor) == Mine(old(run), TheReactor) + trace && Rounds(Listen, trace)
        decreases |script|, Work(st)
      {
        AcceptOnce();
        AddRound(Listen, trace, R(AcceptOne), R(AddSock), R(AddRsp));
        trace := trace + [R(AcceptOne), R(AddSock), R(AddRsp)];
      }
      Do(R(AcceptNone));
      EndHandling(Listen, Mine(old(run), TheReactor), trace);
      trace := trace + [R(AcceptNone)];
    }

    /** `epoll_wait`: some of the pending events, at most as many as the array holds; none means it blocks. */
    method EpollWait() returns (evs: seq<Event>)
      requires st.reactor == AtWait
      ensures evs == [] <==> forall e :: !Pending(st, e)
      ensures evs != [] ==> CanWait(st, evs)
    {
      var ready := if st.listenEdge then [Listen] else [];
      for c := 0 to |st.conns|
        invariant forall i :: 0 <= i < |ready| ==> Pending(st, ready[i]) && (ready[i].Listen? || ready[i].c < c)
        invariant forall i, j :: 0 <= i < j < |ready| ==> ready[i] != ready[j]
        invariant st.listenEdge ==> Listen in ready
        invariant forall d: nat | d < c ::
          (Pending(st, Sock(d)) ==> Sock(d) in ready) && (Pending(st, Rsp(d)) ==> Rsp(d) in ready)
      {
        if st.conns[c].sockEdge {
          ready := ready + [Sock(c)];
        }
        if st.conns[c].rspEdge {
          ready := ready + [Rsp(c)];
        }
      }
      if ready == [] {
        forall e ensures !Pending(st, e) {
          match e { case Listen => case Sock(_) => case Rsp(_) => }
        }
        return [];
      }
      var lo :| 0 <= lo < |ready|;
      var hi :| lo < hi <= |ready| && hi - lo <= MAX_EVENTS;
      evs := ready[lo..hi];
      assert Pending(st, evs[0]);
    }

    /** `rev->callback(ev)`. */
    method Callback(e: Event, memory: string) returns (ghost handling: seq<Action>)
      requires Valid() && st.reactor == Handler(e) && ReactorKnown(st)
      modifies this
      ensures Valid() && st.reactor == AtDispatch && st.batch == old(st).batch && old(run) <= run
      ensures Mine(run, TheReactor) == Mine(old(run), TheReactor) + handling && IsHandling(e, handling)
    {
      match e {
        case Listen => handling := ConnectionHandler();
        case Sock(c) => handling := SockHandler(c, memory);
        case Rsp(c) => handling := RspHandler(c);
      }
    }

    /** The next fetched event: call its handler. */
    method HandleNext(memory: string) returns (ghost trace: seq<Action>)
      requires Valid() && st.reactor == AtDispatch && st.batch != []
      modifies this
      ensures Valid() && st.reactor == AtDispatch && st.batch == old(st).batch[1..] && old(run) <= run
      ensures Mine(run, TheReactor) == Mine(old(run), TheReactor) + trace && IsCall(old(st).batch[0], trace)
    {
      var e := st.batch[0];
      React(NextEvent);
      ghost var handling;
      handling := Callback(e, memory);
      trace := [R(NextEvent)] + handling;
      assert trace[1..] == handling;
      Associative(Mine(old(run), TheReactor), [R(NextEvent)], handling);
    }

    /** The loop over the fetched events. */
    method HandleAll(memory: string) returns (ghost traces: seq<seq<Action>>)
      requires Valid() && st.reactor == AtDispatch
      modifies this
      ensures Valid() && st.reactor == AtDispatch && st.batch == [] && old(run) <= run
      ensures AreCalls(old(st).batch, traces)
      ensures Mine(run, TheReactor) == Mine(old(run), TheReactor) + Flat(traces)
    {
      traces := [];
      ghost var evs := st.batch;
      while st.batch != []
        invariant Valid() && st.reactor == AtDispatch && old(run) <= run
        invariant |traces| <= |evs| && st.batch == evs[|traces|..] && AreCalls(evs[..|traces|], traces)
        invariant Mine(run, TheReactor) == Mine(old(run), TheReactor) + Flat(traces)
        decreases |st.batch|
      {
        ghost var trace;
        trace := HandleNext(memory);
        AddCall(evs, traces, trace);
        Associative(Mine(old(run), TheReactor), Flat(traces), trace);
        traces := traces + [trace];
      }
      assert evs[..|traces|] == evs;
    }

    /** No event is left: the loop ends. */
    method LeaveBatch()
      requires Valid() && st.reactor == AtDispatch && st.batch == []
      modifies this`st, this`run
      ensures Valid() && st.reactor == AtWait && old(run) <= run
      ensures Mine(run, TheReactor) == Mine(old(run), TheReactor) + [R(NextEvent)]
    {
      Do(R(NextEvent));
    }

    /** One turn of the loop in `main`: wait, then call the handler of each fetched event, in order, once.
        With no event pending the reactor blocks and does nothing. */
    method Turn(memory: string) returns (blocked: bool, ghost t: LoopTurn)
      requires Valid() && st.reactor == AtWait
      modifies this
      ensures Valid() && st.reactor == AtWait && old(run) <= run
      ensures t.before == old(run) && t.at == old(st) && IsLoopTurn(poolSize, t)
      ensures blocked <==> t.evs == []
      ensures blocked ==> run == old(run) && st == old(st)
      ensures Mine(run, TheReactor) == Mine(old(run), TheReactor) + Done(t)
    {
      var fetched := EpollWait();
      blocked := fetched == [];
      t := LoopTurn(run, st, fetched, []);
      if !blocked {
        React(Wait(fetched));
        ghost var calls;
        calls := HandleAll(memory);
        LeaveBatch();
        t := t.(calls := calls);
        TurnDone(Mine(old(run), TheReactor), t);
      }
    }

    /** At the wait, everything readable has a pending edge. */
    lemma NothingStranded()
      requires Valid() && st.reactor == AtWait
      ensures st.backlog != [] ==> st.listenEdge
      ensures forall k <- st.conns :: (k.counter > 0 ==> k.rspEdge) && (k.sockReg && k.inbox != "" ==> k.sockEdge)
    {
      InvAfter(poolSize, run);
      forall k | k in st.conns
        ensures (k.counter > 0 ==> k.rspEdge) && (k.sockReg && k.inbox != "" ==> k.sockEdge)
      {
        var c: nat :| c < |st.conns| && st.conns[c] == k;
        NoLostWakeup(poolSize, st, c);
      }
    }

    /** Any number of turns of `main`: each waits and handles what it fetched.  Whenever the reactor is about
        to wait, everything readable has a pending edge: no connection, no bytes, no response is stranded. */
    method EventLoop(n: nat, memory: string) returns (blocked: bool, ghost turns: seq<LoopTurn>)
      requires Valid() && st.reactor == AtWait
      modifies this
      ensures Valid() && st.reactor == AtWait && old(run) <= run
      ensures |turns| == n && AreLoopTurns(poolSize, Mine(old(run), TheReactor), turns, run)
      ensures blocked <==> n > 0 && turns[n - 1].evs == []
      ensures blocked ==> forall e :: !Pending(st, e)
      ensures st.backlog != [] ==> st.listenEdge
      ensures forall k <- st.conns :: (k.counter > 0 ==> k.rspEdge) && (k.sockReg && k.inbox != "" ==> k.sockEdge)
    {
      blocked, turns := false, [];
      for i := 0 to n
        invariant Valid() && st.reactor == AtWait && old(run) <= run
        invariant |turns| == i && AreLoopTurns(poolSize, Mine(old(run), TheReactor), turns, run)
        invariant blocked <==> i > 0 && turns[i - 1].evs == []
        invariant blocked ==> forall e :: !Pending(st, e)
      {
        ghost var before := run;
        Interfere(TheReactor);
        LaterLoopTurns(poolSize, Mine(old(run), TheReactor), turns, before, run);
        ghost var t;
        blocked, t := Turn(memory);
        AddLoopTurn(poolSize, Mine(old(run), TheReactor), turns, t, run);
        turns := turns + [t];
      }
      NothingStranded();
    }

    // ----- a worker thread

    /** One atomic action of worker w, and whatever the others do until its next one. */
    method Act(w: nat, k: WorkerAct)
      requires Valid() && WEnabled(st, w, k)
      modifies this
      ensures Valid() && SameWorker(WApply(old(st), w, k), st, w) && WorkerKnown(st, st.workers[w])
      ensures old(run) + [W(w, k)] <= run && Mine(run, TheWorker(w)) == Mine(old(run), TheWorker(w)) + [W(w, k)]
      ensures |script| <= |old(script)| && (|script| == |old(script)| ==> st == WApply(old(st), w, k))
    {
      Do(W(w, k));
      Interfere(TheWorker(w));
      InvAfter(poolSize, run);
      assert WorkerKnown(st, st.workers[w]);
    }

    /** `cond_.wait`: sleep until woken.  The worker is left asleep only if nobody does anything any more. */
    method WaitForTask(w: nat)
      requires Valid() && WEnabled(st, w, Sleep)
      modifies this
      ensures Valid() && w < |st.workers| && (st.workers[w] == Idle || (st.workers[w] == Asleep && script == []))
      ensures old(run) <= run && Mine(run, TheWorker(w)) == Mine(old(run), TheWorker(w)) + [W(w, Sleep)]
      ensures |script| < |old(script)| || (|script| == |old(script)| && st.workers[w] == Asleep)
    {
      Do(W(w, Sleep));
      while st.workers[w] == Asleep && script != []
        invariant Valid() && w < |st.workers| && (st.workers[w] == Idle || st.workers[w] == Asleep)
        invariant old(run) <= run && Mine(run, TheWorker(w)) == Mine(old(run), TheWorker(w)) + [W(w, Sleep)]
        invariant |script| < |old(script)| || (|script| == |old(script)| && st.workers[w] == Asleep)
        decreases |script|
      {
        Offer(TheWorker(w));
      }
    }

    /** Sleep until there is a task, then take it.  False if the worker is left asleep for ever. */
    method TakeTask(w: nat) returns (done: bool, ghost naps: nat)
      requires Valid() && w < |st.workers| && st.workers[w] == Idle
      modifies this
      ensures Valid() && w < |st.workers| && WorkerKnown(st, st.workers[w]) && old(run) <= run
      ensures if done then st.workers[w].HasTask? else st.workers[w] == Asleep && script == []
      ensures Mine(run, TheWorker(w)) ==
              Mine(old(run), TheWorker(w)) + Naps(w, naps) + if done then [W(w, Take)] else []
      ensures !done ==> naps > 0
    {
      naps := 0;
      ghost var mine := Mine(run, TheWorker(w));
      while st.tasks == []
        invariant Valid() && w < |st.workers| && st.workers[w] == Idle && old(run) <= run
        invariant Mine(run, TheWorker(w)) == mine + Naps(w, naps)
        decreases |script|
      {
        WaitForTask(w);
        OneMoreNap(mine, w, naps);
        naps := naps + 1;
        if st.workers[w] == Asleep {
          return false, naps;
        }
      }
      Act(w, Take);
      done := true;
    }

    /** The request of a task is still there: shift_no_wait does not find the queue empty. */
    lemma RequestIsThere(w: nat)
      requires Valid() && w < |st.workers| && st.workers[w].HasTask?
      ensures st.workers[w].c < |st.conns| && st.conns[st.workers[w].c].req != []
    {
      EarlyReturnsUnreachable(poolSize, st);
      assert st.workers[w] in st.workers;
    }

    /** The first request of the task's connection leaves the queue, into the worker's hands. */
    method FetchRequest(w: nat) returns (ghost c: nat, ghost m: Msg)
      requires Valid() && w < |st.workers| && st.workers[w].HasTask? && WorkerKnown(st, st.workers[w])
      modifies this
      ensures Valid() && w < |st.workers| && WorkerKnown(st, st.workers[w]) && old(run) <= run
      ensures Mine(run, TheWorker(w)) == Mine(old(run), TheWorker(w)) + [W(w, Fetch)]
      ensures old(st).workers[w] == HasTask(c) && st.workers[w] == HasMsg(c, m)
      ensures Fetched(poolSize, old(run), run, w, c, m)
    {
      RequestIsThere(w);
      c, m := st.workers[w].c, st.conns[st.workers[w].c].req[0];
      ghost var p, s := run, st;
      Act(w, Fetch);
      assert Performed(poolSize, p, run, W(w, Fetch), p, s);
    }

    /** The message in the worker's hands becomes the next response, and the eventfd is written. */
    method PushResponse(w: nat, ghost c: nat, ghost m: Msg)
      requires Valid() && w < |st.workers| && WorkerKnown(st, st.workers[w]) && st.workers[w] == HasMsg(c, m)
      modifies this
      ensures Valid() && w < |st.workers| && st.workers[w] == Idle && old(run) <= run
      ensures Mine(run, TheWorker(w)) == Mine(old(run), TheWorker(w)) + [W(w, PushRsp), W(w, WriteEvent)]
      ensures Delivered(poolSize, old(run), run, w, c, m)
    {
      ghost var p, s := run, st;
      Act(w, PushRsp);
      Do(W(w, WriteEvent));
      assert Performed(poolSize, p, run, W(w, PushRsp), p, s);
    }

    /** `data_handler`: the first request m of the task's connection c becomes its next response, and the
        eventfd is written. */
    method DataHandler(w: nat) returns (ghost c: nat, ghost m: Msg)
      requires Valid() && w < |st.workers| && st.workers[w].HasTask? && WorkerKnown(st, st.workers[w])
      modifies this
      ensures Valid() && w < |st.workers| && st.workers[w] == Idle && old(run) <= run
      ensures Mine(run, TheWorker(w)) ==
              Mine(old(run), TheWorker(w)) + [W(w, Fetch), W(w, PushRsp), W(w, WriteEvent)]
      ensures old(st).workers[w] == HasTask(c) && Moved(poolSize, old(run), run, w, c, m)
    {
      c, m := FetchRequest(w);
      ghost var middle := run;
      PushResponse(w, c, m);
      WiderFetched(poolSize, old(run), middle, old(run), run, w, c, m);
      WiderDelivered(poolSize, middle, run, old(run), run, w, c, m);
    }

    /** One turn of `run_worker`: block in `shift` until there is a task, then run `data_handler`, which
        moves exactly one message.  False if the worker is left asleep for ever. */
    method RunTask(w: nat) returns (done: bool, ghost naps: nat, ghost c: nat, ghost m: Msg)
      requires Valid() && w < |st.workers| && st.workers[w] == Idle
      modifies this
      ensures Valid() && w < |st.workers| && st.workers[w] == (if done then Idle else Asleep) && old(run) <= run
      ensures Mine(run, TheWorker(w)) == Mine(old(run), TheWorker(w)) + Naps(w, naps) + if done then Task(w) else []
      ensures !done ==> naps > 0 && script == []
      ensures done ==> Moved(poolSize, old(run), run, w, c, m)
    {
      c, m := 0, "";
      done, naps := TakeTask(w);
      if done {
        ghost var middle := run;
        c, m := DataHandler(w);
        TaskDone(Mine(old(run), TheWorker(w)) + Naps(w, naps), w);
        WiderFetched(poolSize, middle, run, old(run), run, w, c, m);
        WiderDelivered(poolSize, middle, run, old(run), run, w, c, m);
      }
    }
  }
}
