/**
 With the notify under the lock, as in `SafeQueue`, the queue behaves as if each push with its wakeup,
 each test with the pop, the wait or the return that follows it, were one atomic action.  This is the
 grain at which the pipeline's queues are modelled.
 */
module QueueRefinement {
  import opened BlockingQueue
  import opened Sequences

  datatype Option<T> = None | Some(value: T)

  datatype AThread = Producer(todo: seq<int>) | Awake | Asleep | Missed | Has(v: int)

  datatype AState = AState(q: seq<int>, threads: seq<AThread>, pushed: seq<Entry>, popped: seq<Entry>)

  datatype AAct = APush(wake: nat) | ATake | ASleep | AMiss | AFinish | AWake

  predicate AEnabled(s: AState, t: nat, a: AAct) {
    && t < |s.threads|
    && match a
       case APush(w) =>
         && s.threads[t].Producer? && s.threads[t].todo != []
         && (Asleep in s.threads ==> w < |s.threads| && s.threads[w] == Asleep)
       case ATake => s.threads[t] == Awake && s.q != []
       case ASleep => s.threads[t] == Awake && s.q == []
       case AMiss => s.threads[t] == Awake && s.q == []
       case AFinish => s.threads[t].Has? || s.threads[t].Missed?
       case AWake => s.threads[t] == Asleep
  }

  function AApply(s: AState, t: nat, a: AAct): AState
    requires AEnabled(s, t, a)
  {
    match a
    case APush(w) =>
      var v, rest := s.threads[t].todo[0], s.threads[t].todo[1..];
      var us := s.threads[t := Producer(rest)];
      AState(s.q + [v], if Asleep in s.threads then us[w := Awake] else us, s.pushed + [Entry(t, v)], s.popped)
    case ATake => AState(s.q[1..], s.threads[t := Has(s.q[0])], s.pushed, s.popped + [Entry(t, s.q[0])])
    case ASleep => s.(threads := s.threads[t := Asleep])
    case AMiss => s.(threads := s.threads[t := Missed])
    case AFinish => s.(threads := s.threads[t := Awake])
    case AWake => s.(threads := s.threads[t := Awake])
  }

  // ----- what an observer of whole operations sees

  /** A push takes effect when it notifies, a pop when it takes the value. */
  function AbsThread(p: Thread): AThread {
    match p
    case PLock(todo, _) => Producer(todo)
    case PHolds(todo) => Producer(todo)
    case PLoaded(todo, _) => Producer(todo)
    case PPushed(v, todo) => Producer([v] + todo)
    case PNotified(todo) => Producer(todo)
    case PReleased(todo) => Producer(todo)
    case CLock(_) => Awake
    case CHolds => Awake
    case CEmpty => Awake
    case CFull => Awake
    case CFront(_) => Awake
    case CWaits => Asleep
    case CMissed => Missed
    case CPopped(v) => Has(v)
    case CBusy(v) => Has(v)
  }

  function AbsThreads(ts: seq<Thread>): (r: seq<AThread>)
    ensures |r| == |ts|
  {
    seq(|ts|, i requires 0 <= i < |ts| => AbsThread(ts[i]))
  }

  /** Some thread is between push and notify. */
  predicate MidPush(ts: seq<Thread>) {
    exists p <- ts :: p.PPushed?
  }

  function ButLast<T>(xs: seq<T>): seq<T> {
    if xs == [] then [] else xs[..|xs| - 1]
  }

  /** What is pushed but not announced does not count yet. */
  function Announced<T>(s: State, xs: seq<T>): seq<T> {
    if MidPush(s.threads) then ButLast(xs) else xs
  }

  function Abs(s: State): AState {
    AState(Announced(s, s.q), AbsThreads(s.threads), Announced(s, s.pushed), s.popped)
  }

  // ----- every step of the fine system is an atomic step or invisible

  /** The thread in its critical section is the only one that can be between push and notify. */
  lemma OnlyHolderIsMidPush(s: State, t: nat)
    requires Mutex(s) && t < |s.threads| && Holds(s.threads[t])
    ensures MidPush(s.threads) <==> s.threads[t].PPushed?
  {
    if MidPush(s.threads) {
      var i :| 0 <= i < |s.threads| && s.threads[i].PPushed?;
      if i != t {
        Alone(s, t, i);
      }
    }
  }

  /** What was just pushed is still last in the queue and in the log: nobody else gets there before
      the notify. */
  predicate JustPushed(s: State) {
    forall i :: 0 <= i < |s.threads| && s.threads[i].PPushed? ==>
      && s.q != [] && s.q[|s.q| - 1] == s.threads[i].v
      && s.pushed != [] && s.pushed[|s.pushed| - 1] == Entry(i, s.threads[i].v)
  }

  /** Only a store gets a thread between push and notify. */
  lemma NoNewPush(s: State, t: nat, a: Act, i: nat)
    requires Enabled(s, t, a) && !a.Store? && i < |Apply(s, t, a).threads| && Apply(s, t, a).threads[i].PPushed?
    ensures i < |s.threads| && s.threads[i] == Apply(s, t, a).threads[i]
  {
    match a { case Cas(_) => case Notify(_) => case Release => case Test => case _ => }
  }

  /** Whoever writes the queue is alone in the critical section. */
  lemma JustPushedWrite(s: State, t: nat, a: Act)
    requires Inv(s) && Enabled(s, t, a) && (a.Store? || a.Pop?)
    ensures JustPushed(Apply(s, t, a))
  {
    var s' := Apply(s, t, a);
    forall i | 0 <= i < |s'.threads| && s'.threads[i].PPushed? ensures a.Store? && i == t {
      if i != t {
        Alone(s, t, i);
      }
    }
  }

  lemma JustPushedStep(s: State, t: nat, a: Act)
    requires Inv(s) && JustPushed(s) && Enabled(s, t, a)
    ensures JustPushed(Apply(s, t, a))
  {
    if a.Store? || a.Pop? {
      JustPushedWrite(s, t, a);
    } else {
      var s' := Apply(s, t, a);
      QueueStays(s, t, a);
      forall i | 0 <= i < |s'.threads| && s'.threads[i].PPushed?
        ensures i < |s.threads| && s.threads[i] == s'.threads[i]
      {
        NoNewPush(s, t, a, i);
      }
    }
  }

  lemma AbsUpdate(ts: seq<Thread>, t: nat, p: Thread)
    requires t < |ts|
    ensures AbsThreads(ts[t := p]) == AbsThreads(ts)[t := AbsThread(p)]
  {
  }

  lemma AbsSame(ts: seq<Thread>, t: nat, p: Thread)
    requires t < |ts| && AbsThread(p) == AbsThread(ts[t])
    ensures AbsThreads(ts[t := p]) == AbsThreads(ts)
  {
  }

  lemma SleepersAgree(ts: seq<Thread>)
    ensures Asleep in AbsThreads(ts) <==> CWaits in ts
  {
    if CWaits in ts {
      var i :| 0 <= i < |ts| && ts[i] == CWaits;
      assert AbsThreads(ts)[i] == Asleep;
    }
  }

  /** The atomic action that a fine step performs, if any. */
  function Image(s: State, t: nat, a: Act): Option<AAct>
    requires Enabled(s, t, a)
  {
    match a
    case Notify(w) => Some(APush(w))
    case Sleep => Some(ASleep)
    case GiveUp => Some(AMiss)
    case Pop => Some(ATake)
    case Finish => Some(AFinish)
    case Wake => Some(AWake)
    case _ => None
  }

  // the notify is the push

  lemma NotifyThreads(s: State, t: nat, w: nat)
    requires !s.late && Enabled(s, t, Notify(w))
    ensures var us := AbsThreads(s.threads)[t := Producer(s.threads[t].todo)];
      AbsThreads(Apply(s, t, Notify(w)).threads) == if CWaits in s.threads then us[w := Awake] else us
  {
    var q := PNotified(s.threads[t].todo);
    AbsUpdate(s.threads, t, q);
    if CWaits in s.threads {
      AbsUpdate(s.threads[t := q], w, CLock(Try(false)));
    }
  }

  /** After the notify nobody is between push and notify. */
  lemma NotifyEndsPush(s: State, t: nat, w: nat)
    requires Mutex(s) && !s.late && Enabled(s, t, Notify(w))
    ensures !MidPush(Apply(s, t, Notify(w)).threads)
  {
    var ts := Apply(s, t, Notify(w)).threads;
    if MidPush(ts) {
      var i :| 0 <= i < |ts| && ts[i].PPushed?;
      NoNewPush(s, t, Notify(w), i);
      if i != t {
        Alone(s, t, i);
      }
    }
  }

  /** The queue and the log, before and after. */
  lemma NotifyQueue(s: State, t: nat, w: nat)
    requires Inv(s) && JustPushed(s) && !s.late && Enabled(s, t, Notify(w))
    ensures var s', v := Apply(s, t, Notify(w)), s.threads[t].v;
      && Announced(s', s'.q) == Announced(s, s.q) + [v]
      && Announced(s', s'.pushed) == Announced(s, s.pushed) + [Entry(t, v)]
      && s'.popped == s.popped
  {
    NotifyEndsPush(s, t, w);
    QueueStays(s, t, Notify(w));
    assert MidPush(s.threads);
    assert s.q == ButLast(s.q) + [s.threads[t].v];
    assert s.pushed == ButLast(s.pushed) + [Entry(t, s.threads[t].v)];
  }

  /** The same sleepers, and the producer with the value that it is about to announce. */
  lemma NotifyEnabled(s: State, t: nat, w: nat)
    requires !s.late && Enabled(s, t, Notify(w))
    ensures AEnabled(Abs(s), t, APush(w)) && Abs(s).threads[t] == Producer([s.threads[t].v] + s.threads[t].todo)
    ensures Asleep in Abs(s).threads <==> CWaits in s.threads
  {
    SleepersAgree(s.threads);
  }

  lemma NotifyIsPush(s: State, t: nat, w: nat)
    requires Inv(s) && JustPushed(s) && !s.late && Enabled(s, t, Notify(w))
    ensures AEnabled(Abs(s), t, APush(w))
    ensures Abs(Apply(s, t, Notify(w))) == AApply(Abs(s), t, APush(w))
  {
    NotifyQueue(s, t, w);
    NotifyEnabled(s, t, w);
    NotifyThreads(s, t, w);
  }

  // the pop is the take

  /** A step of one thread that is not between push and notify before or after. */
  lemma SameMidPush(ts: seq<Thread>, t: nat, p: Thread)
    requires t < |ts| && p.PPushed? == ts[t].PPushed?
    ensures MidPush(ts[t := p]) == MidPush(ts)
  {
    var u := ts[t := p];
    if MidPush(ts) {
      var i :| 0 <= i < |ts| && ts[i].PPushed?;
      assert u[i].PPushed?;
    }
    if i :| 0 <= i < |u| && u[i].PPushed? {
      assert ts[i].PPushed?;
    }
  }

  /** The queue and the logs, before and after. */
  lemma PopQueue(s: State, t: nat)
    requires Inv(s) && Enabled(s, t, Pop)
    ensures var s', v := Popped(s, t), s.threads[t].v;
      && s.q[0] == v && Announced(s, s.q) == s.q && Announced(s', s'.q) == s.q[1..]
      && Announced(s, s.pushed) == Announced(s', s'.pushed) == s.pushed
      && s'.popped == s.popped + [Entry(t, v)]
  {
    assert Sees(s.threads[t], s.q);
    OnlyHolderIsMidPush(s, t);
    SameMidPush(s.threads, t, CPopped(s.threads[t].v));
  }

  /** The thread pops the value that it found in front: test, front and pop are one take. */
  lemma PopIsTake(s: State, t: nat)
    requires Inv(s) && Enabled(s, t, Pop)
    ensures AEnabled(Abs(s), t, ATake) && Abs(Apply(s, t, Pop)) == AApply(Abs(s), t, ATake)
  {
    PopQueue(s, t);
    AbsUpdate(s.threads, t, CPopped(s.threads[t].v));
    assert Apply(s, t, Pop) == Popped(s, t);
  }

  // the wait is the sleep, the return the miss

  /** A step of one thread that does not touch the queue. */
  lemma OnlyThread(s: State, t: nat, p: Thread, flag: bool)
    requires t < |s.threads| && p.PPushed? == s.threads[t].PPushed?
    ensures var s' := SetThread(s, t, p).(flag := flag);
      Abs(s') == Abs(s).(threads := Abs(s).threads[t := AbsThread(p)])
  {
    SameMidPush(s.threads, t, p);
    AbsUpdate(s.threads, t, p);
  }

  /** The queue is still as empty as the test found it: test and wait, or test and return, are one. */
  lemma LeavesEmpty(s: State, t: nat, a: Act)
    requires Inv(s) && Enabled(s, t, a) && (a.Sleep? || a.GiveUp?)
    ensures AEnabled(Abs(s), t, Image(s, t, a).value)
    ensures Abs(Apply(s, t, a)) == AApply(Abs(s), t, Image(s, t, a).value)
  {
    assert Sees(s.threads[t], s.q);
    OnlyThread(s, t, if a.Sleep? then CWaits else CMissed, false);
  }

  lemma FinishOrWake(s: State, t: nat, a: Act)
    requires (a.Finish? || a.Wake?) && Enabled(s, t, a)
    ensures AEnabled(Abs(s), t, Image(s, t, a).value)
    ensures Abs(Apply(s, t, a)) == AApply(Abs(s), t, Image(s, t, a).value)
  {
    OnlyThread(s, t, CLock(Try(false)), s.flag);
  }

  // everything else is invisible

  lemma StoreQueue(s: State, t: nat)
    requires Inv(s) && Enabled(s, t, Store)
    ensures var s' := Stored(s, t);
      && Announced(s', s'.q) == Announced(s, s.q) && Announced(s', s'.pushed) == Announced(s, s.pushed)
  {
    var s' := Stored(s, t);
    assert Sees(s.threads[t], s.q);
    OnlyHolderIsMidPush(s, t);
    assert s'.threads[t].PPushed? && s'.threads[t] in s'.threads;
    assert ButLast(s'.q) == s.q && ButLast(s'.pushed) == s.pushed;
  }

  lemma StoredIsProducer(todo: seq<int>)
    requires todo != []
    ensures AbsThread(PPushed(todo[0], todo[1..])) == Producer(todo)
  {
    assert [todo[0]] + todo[1..] == todo;
  }

  lemma StoreThreads(s: State, t: nat)
    requires t < |s.threads| && s.threads[t].PLoaded? && s.threads[t].todo != []
    ensures AbsThreads(Stored(s, t).threads) == AbsThreads(s.threads)
  {
    var todo := s.threads[t].todo;
    StoredIsProducer(todo);
    AbsSame(s.threads, t, PPushed(todo[0], todo[1..]));
  }

  lemma StoreIsInvisible(s: State, t: nat)
    requires Inv(s) && Enabled(s, t, Store)
    ensures Abs(Apply(s, t, Store)) == Abs(s)
  {
    StoreQueue(s, t);
    StoreThreads(s, t);
  }

  /** Spinning, reading the queue and releasing the lock are invisible. */
  predicate Silent(a: Act) {
    a.Cas? || a.Reset? || a.Release? || a.Load? || a.Test? || a.Front?
  }

  lemma SilentThread(s: State, t: nat, a: Act)
    requires Shape(s) && !s.late && Enabled(s, t, a) && Silent(a)
    ensures var s' := Apply(s, t, a);
      && s'.threads == s.threads[t := s'.threads[t]]
      && AbsThread(s'.threads[t]) == AbsThread(s.threads[t])
      && s'.threads[t].PPushed? == s.threads[t].PPushed?
      && s'.q == s.q && s'.pushed == s.pushed && s'.popped == s.popped
  {
    assert WellFormed(s, s.threads[t]);
    match a { case Cas(_) => case Reset => case Release => case Load => case Test => case Front => }
  }

  lemma OthersAreInvisible(s: State, t: nat, a: Act)
    requires Inv(s) && !s.late && Enabled(s, t, a) && Silent(a)
    ensures Abs(Apply(s, t, a)) == Abs(s)
  {
    var p := Apply(s, t, a).threads[t];
    SilentThread(s, t, a);
    SameMidPush(s.threads, t, p);
    AbsSame(s.threads, t, p);
  }

  /** Refinement, one step. */
  lemma {:induction false} StepRefines(s: State, t: nat, a: Act)
    requires Inv(s) && JustPushed(s) && !s.late && Enabled(s, t, a)
    ensures var i := Image(s, t, a);
      if i.None? then Abs(Apply(s, t, a)) == Abs(s)
      else AEnabled(Abs(s), t, i.value) && Abs(Apply(s, t, a)) == AApply(Abs(s), t, i.value)
  {
    match a {
      case Notify(w) => NotifyIsPush(s, t, w);
      case Pop => PopIsTake(s, t);
      case Sleep => LeavesEmpty(s, t, a);
      case GiveUp => LeavesEmpty(s, t, a);
      case Finish => FinishOrWake(s, t, a);
      case Wake => FinishOrWake(s, t, a);
      case Store => StoreIsInvisible(s, t);
      case _ => OthersAreInvisible(s, t, a);
    }
  }

  // ----- runs

  predicate AIsRun(s: AState, run: seq<(nat, AAct)>)
    decreases |run|, 0
  {
    run == [] ||
      (AIsRun(s, run[..|run| - 1]) && AEnabled(AAfter(s, run[..|run| - 1]), run[|run| - 1].0, run[|run| - 1].1))
  }

  function AAfter(s: AState, run: seq<(nat, AAct)>): AState
    requires AIsRun(s, run)
    decreases |run|, 1
  {
    if run == [] then s else AApply(AAfter(s, run[..|run| - 1]), run[|run| - 1].0, run[|run| - 1].1)
  }

  /** What the refinement rests on. */
  ghost predicate Sound(s: State) {
    Inv(s) && JustPushed(s) && !s.late
  }

  lemma SoundStep(s: State, t: nat, a: Act)
    requires Sound(s) && Enabled(s, t, a)
    ensures Sound(Apply(s, t, a))
  {
    InvStep(s, t, a);
    JustPushedStep(s, t, a);
    match a { case Notify(_) => case Cas(_) => case _ => }
  }

  lemma ARunSnoc(s: AState, run: seq<(nat, AAct)>, t: nat, a: AAct)
    requires AIsRun(s, run) && AEnabled(AAfter(s, run), t, a)
    ensures AIsRun(s, run + [(t, a)]) && AAfter(s, run + [(t, a)]) == AApply(AAfter(s, run), t, a)
  {
    assert (run + [(t, a)])[..|run|] == run;
  }

  /** Refinement: every run of the fine system, seen through whole operations, is a run of the atomic
      one with the same values pushed and popped. */
  lemma {:induction false} RunRefines(s: State, run: seq<Step>) returns (coarse: seq<(nat, AAct)>)
    requires Initial(s) && !s.late && IsRun(s, run)
    ensures Sound(After(s, run))
    ensures AIsRun(Abs(s), coarse) && AAfter(Abs(s), coarse) == Abs(After(s, run))
    decreases |run|
  {
    if run == [] {
      InvInitial(s);
      coarse := [];
    } else {
      var r := After(s, run[..|run| - 1]);
      var (t, a) := run[|run| - 1];
      coarse := RunRefines(s, run[..|run| - 1]);
      StepRefines(r, t, a);
      SoundStep(r, t, a);
      var i := Image(r, t, a);
      if i.Some? {
        ARunSnoc(Abs(s), coarse, t, i.value);
        coarse := coarse + [(t, i.value)];
      }
    }
  }
}
