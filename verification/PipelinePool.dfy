/**
 The pipeline's task queue and its pool of workers are the atomic queue that the locked one refines: the
 reactor is its producer, the workers are its consumers.
 */
module PipelinePool {
  import opened PipelineMachine
  import opened Sequences
  import Q = QueueRefinement

  /** What the queue knows of a worker: heading for it, asleep in it, or busy with a task it got. */
  function AbsWorker(p: Worker): Q.AThread {
    match p
    case Idle => Q.Awake
    case Asleep => Q.Asleep
    case HasTask(c) => Q.Has(c)
    case HasMsg(c, _) => Q.Has(c)
    case Pushed(c) => Q.Has(c)
  }

  function AbsWorkers(ws: seq<Worker>): (r: seq<Q.AThread>)
    ensures |r| == |ws|
  {
    seq(|ws|, i requires 0 <= i < |ws| => AbsWorker(ws[i]))
  }

  /** Thread 0 is the reactor, with the tasks it will still post; thread i + 1 is worker i. */
  function AbsPool(ws: seq<Worker>, later: seq<int>): seq<Q.AThread> {
    [Q.Producer(later)] + AbsWorkers(ws)
  }

  /** The task that an action posts. */
  function Posts(s: State, a: Action): seq<int>
    requires Enabled(s, a)
  {
    if a.R? && a.r.AddTask? then [s.reactor.c] else []
  }

  /** The tasks that a run posts. */
  ghost function Posted(poolSize: nat, run: seq<Action>): seq<int>
    requires IsRun(Init(poolSize), run)
    decreases |run|
  {
    if run == [] then []
    else
      var most := run[..|run| - 1];
      Posted(poolSize, most) + Posts(After(Init(poolSize), most), run[|run| - 1])
  }

  /** The state as the queue sees it. */
  ghost predicate Shows(t: Q.AState, s: State, later: seq<int>) {
    t.q == s.tasks && t.threads == AbsPool(s.workers, later)
  }

  /** What the action is to the queue, if anything. */
  function Image(s: State, a: Action): Q.Option<(nat, Q.AAct)>
    requires Enabled(s, a)
  {
    match a
    case R(r) => if r.AddTask? then Q.Some((0, Q.APush(r.wake + 1))) else Q.None
    case E(e) => if e.SpuriousWake? then Q.Some((e.w + 1, Q.AWake)) else Q.None
    case W(w, k) =>
      match k
      case Sleep => Q.Some((w + 1, Q.ASleep))
      case Take => Q.Some((w + 1, Q.ATake))
      case Fetch => if s.conns[s.workers[w].c].req == [] then Q.Some((w + 1, Q.AFinish)) else Q.None
      case PushRsp => Q.None
      case WriteEvent => Q.Some((w + 1, Q.AFinish))
  }

  lemma PoolUpdate(ws: seq<Worker>, later: seq<int>, w: nat, p: Worker)
    requires w < |ws|
    ensures AbsPool(ws[w := p], later) == AbsPool(ws, later)[w + 1 := AbsWorker(p)]
  {
    assert AbsWorkers(ws[w := p]) == AbsWorkers(ws)[w := AbsWorker(p)];
  }

  lemma SleepersAgree(ws: seq<Worker>, later: seq<int>)
    ensures Q.Asleep in AbsPool(ws, later) <==> Asleep in ws
  {
    if Asleep in ws {
      var i :| 0 <= i < |ws| && ws[i] == Asleep;
      assert AbsPool(ws, later)[i + 1] == Q.Asleep;
    }
    if Q.Asleep in AbsPool(ws, later) {
      var i :| 0 <= i < |ws| + 1 && AbsPool(ws, later)[i] == Q.Asleep;
      assert AbsWorker(ws[i - 1]) == Q.Asleep;
    }
  }

  /** The log entries that an action adds. */
  predicate Logged(t: Q.AState, t': Q.AState, s: State, s': State, posts: seq<int>) {
    && Values(t'.pushed) == Values(t.pushed) + posts
    && (Values(t.popped) + s.tasks == Values(t.pushed) ==> Values(t'.popped) + s'.tasks == Values(t'.pushed))
  }

  lemma PostIsPush(s: State, r: ReactorAct, t: Q.AState, later: seq<int>)
    requires REnabled(s, r) && r.AddTask? && Shows(t, s, [s.reactor.c] + later)
    ensures Q.AEnabled(t, 0, Q.APush(r.wake + 1))
    ensures var t' := Q.AApply(t, 0, Q.APush(r.wake + 1));
      Shows(t', RApply(s, r), later) && Logged(t, t', s, RApply(s, r), [s.reactor.c])
  {
    var c: int, all := s.reactor.c, [s.reactor.c] + later;
    SleepersAgree(s.workers, all);
    LogSnoc(t.pushed, Entry(0, c), 0);
    assert all[0] == c && all[1..] == later;
    assert AbsPool(s.workers, all)[0 := Q.Producer(later)] == AbsPool(s.workers, later);
    if Asleep in s.workers {
      assert AbsPool(s.workers, all)[r.wake + 1] == Q.Asleep;
      PoolUpdate(s.workers, later, r.wake, Idle);
    }
  }

  lemma TakeIsTake(s: State, w: nat, t: Q.AState, later: seq<int>)
    requires WEnabled(s, w, Take) && Shows(t, s, later)
    ensures Q.AEnabled(t, w + 1, Q.ATake)
    ensures var t' := Q.AApply(t, w + 1, Q.ATake);
      Shows(t', WApply(s, w, Take), later) && Logged(t, t', s, WApply(s, w, Take), [])
  {
    var c: int := s.tasks[0];
    assert t.threads[w + 1] == AbsWorker(s.workers[w]);
    PoolUpdate(s.workers, later, w, HasTask(s.tasks[0]));
    LogSnoc(t.popped, Entry(w + 1, c), 0);
    assert s.tasks == [s.tasks[0]] + s.tasks[1..];
    assert Values(t.popped) + s.tasks == (Values(t.popped) + [c]) + s.tasks[1..];
  }

  /** The other actions of a worker that the queue sees: to sleep, or done with a task. */
  lemma WorkerMoves(s: State, w: nat, k: WorkerAct, t: Q.AState, later: seq<int>)
    requires WEnabled(s, w, k) && !k.Take? && Image(s, W(w, k)).Some? && Shows(t, s, later)
    ensures var i := Image(s, W(w, k)).value;
      && Q.AEnabled(t, i.0, i.1)
      && var t' := Q.AApply(t, i.0, i.1);
         Shows(t', WApply(s, w, k), later) && Logged(t, t', s, WApply(s, w, k), [])
  {
    assert t.threads[w + 1] == AbsWorker(s.workers[w]);
    PoolUpdate(s.workers, later, w, if k.Sleep? then Asleep else Idle);
    match k { case Sleep => case Fetch => case WriteEvent => }
  }

  lemma WakeIsWake(s: State, w: nat, t: Q.AState, later: seq<int>)
    requires EEnabled(s, SpuriousWake(w)) && Shows(t, s, later)
    ensures Q.AEnabled(t, w + 1, Q.AWake)
    ensures var t' := Q.AApply(t, w + 1, Q.AWake);
      Shows(t', EApply(s, SpuriousWake(w)), later) && Logged(t, t', s, EApply(s, SpuriousWake(w)), [])
  {
    assert t.threads[w + 1] == AbsWorker(s.workers[w]);
    PoolUpdate(s.workers, later, w, Idle);
  }

  /** Everything else leaves the queue and what it knows of the pool alone. */
  lemma OthersAreInvisible(s: State, a: Action, later: seq<int>)
    requires Enabled(s, a) && Image(s, a).None?
    ensures Apply(s, a).tasks == s.tasks && AbsPool(Apply(s, a).workers, later) == AbsPool(s.workers, later)
  {
    match a {
      case R(r) => match r { case Wait(_) => case _ => }
      case E(e) =>
      case W(w, k) =>
        match k {
          case Fetch => PoolUpdate(s.workers, later, w, Apply(s, a).workers[w]);
          case PushRsp => PoolUpdate(s.workers, later, w, Apply(s, a).workers[w]);
        }
        assert AbsPool(s.workers, later)[w + 1] == AbsWorker(s.workers[w]);
    }
  }

  /** One action of the pipeline is one atomic action of the queue, or none. */
  lemma StepIsQueueStep(s: State, a: Action, t: Q.AState, later: seq<int>)
    requires Enabled(s, a) && Image(s, a).Some? && Shows(t, s, Posts(s, a) + later)
    ensures var i := Image(s, a).value;
      && Q.AEnabled(t, i.0, i.1)
      && var t' := Q.AApply(t, i.0, i.1);
         Shows(t', Apply(s, a), later) && Logged(t, t', s, Apply(s, a), Posts(s, a))
  {
    match a {
      case R(r) => PostIsPush(s, r, t, later);
      case E(e) =>
        assert Posts(s, a) + later == later;
        WakeIsWake(s, e.w, t, later);
      case W(w, k) =>
        assert Posts(s, a) + later == later;
        if k.Take? {
          TakeIsTake(s, w, t, later);
        } else {
          WorkerMoves(s, w, k, t, later);
        }
    }
  }

  /** The atomic queue before anything: the reactor has these tasks to post, the workers head for the queue. */
  ghost function Start(poolSize: nat, todo: seq<int>): Q.AState {
    Q.AState([], AbsPool(Init(poolSize).workers, todo), [], [])
  }

  /** Every run of the pipeline, projected to its task queue and its pool, is a run of the atomic queue on
      the tasks that it posts: the queue, who sleeps, who heads for it and who has which task are the same,
      and tasks are taken in the order in which they were posted. */
  lemma {:induction false} RunIsQueueRun(poolSize: nat, run: seq<Action>, later: seq<int>)
    returns (coarse: seq<(nat, Q.AAct)>)
    requires IsRun(Init(poolSize), run)
    ensures var first := Start(poolSize, Posted(poolSize, run) + later);
      && Q.AIsRun(first, coarse)
      && var t := Q.AAfter(first, coarse);
         && Shows(t, After(Init(poolSize), run), later)
         && Values(t.pushed) == Posted(poolSize, run)
         && Values(t.popped) + After(Init(poolSize), run).tasks == Posted(poolSize, run)
    decreases |run|
  {
    if run == [] {
      coarse := [];
      assert Posted(poolSize, run) + later == later;
    } else {
      var most, a := run[..|run| - 1], run[|run| - 1];
      var s := After(Init(poolSize), most);
      var posts := Posts(s, a);
      coarse := RunIsQueueRun(poolSize, most, posts + later);
      Associative(Posted(poolSize, most), posts, later);
      var first := Start(poolSize, Posted(poolSize, run) + later);
      if Image(s, a).Some? {
        var i := Image(s, a).value;
        StepIsQueueStep(s, a, Q.AAfter(first, coarse), later);
        Q.ARunSnoc(first, coarse, i.0, i.1);
        coarse := coarse + [i];
      } else {
        assert posts + later == later;
        OthersAreInvisible(s, a, later);
      }
    }
  }
}
