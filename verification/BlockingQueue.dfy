/**
 A queue guarded by a lock and a condition variable, at the grain of single operations: the weak
 compare-and-swap of the spin lock, reading and writing the queue in a push, the emptiness test, the
 wait, reading the front, the pop, the notify, the release.  Nothing but the lock keeps these apart.
 Any number of producers and consumers run it.  With `late` the notify comes after the release of the
 lock, as in `provider`; without it the notify comes under the lock, as in `SafeQueue::push`.
 */
module BlockingQueue {
  import opened Sequences

  /** Where a thread is in `SpinLock::lock`. */
  datatype Spin =
    | Try(want: bool)    // before compare_exchange_weak
    | Failed(seen: bool) // after a failed one, before the expected value is reset

  datatype Thread =
    // a producer, with the values it still has to push
    | PLock(todo: seq<int>, spin: Spin)         // acquiring the lock, or finished when todo is empty
    | PHolds(todo: seq<int>)                    // holds the lock, before the push
    | PLoaded(todo: seq<int>, seen: seq<int>)   // in the push: read the queue, before writing it back longer
    | PPushed(v: int, todo: seq<int>)           // holds the lock, pushed v, before what comes next
    | PNotified(todo: seq<int>)                 // holds the lock, notified, before the release
    | PReleased(todo: seq<int>)                 // released the lock, before the notify
    // a consumer
    | CLock(spin: Spin)                         // acquiring the lock, at first or after a wakeup
    | CHolds                                    // holds the lock, before the emptiness test
    | CEmpty                                    // found the queue empty, before the wait or the return
    | CWaits                                    // asleep in the condition variable
    | CMissed                                   // returned without a value, as `shift_no_wait` does
    | CFull                                     // found the queue not empty, before reading the front
    | CFront(v: int)                            // read the front, before the pop
    | CPopped(v: int)                           // holds the lock and a value, before the release
    | CBusy(v: int)                             // handling the value

  datatype State = State(
    late: bool,         // the notify comes after the release
    flag: bool,         // the spin lock
    q: seq<int>,
    threads: seq<Thread>,
    pushed: seq<Entry>, // log
    popped: seq<Entry>) // log

  datatype Act =
    | Cas(spurious: bool) // one compare_exchange_weak, which may fail for no reason
    | Reset               // put the expected value back to false
    | Load | Store        // the two halves of a push
    | Notify(w: nat) | Release
    | Test                // the emptiness test
    | Sleep | GiveUp      // what follows when it succeeds: release and wait, or release and return
    | Front | Pop         // what follows when it fails
    | Finish
    | Wake                // a spurious wakeup

  predicate Acquiring(p: Thread) {
    (p.PLock? && p.todo != []) || p.CLock?
  }

  function Acquired(p: Thread): Thread
    requires Acquiring(p)
  {
    if p.PLock? then PHolds(p.todo) else CHolds
  }

  /** `flag_.compare_exchange_weak`: success, the new flag, the value it leaves as expected. */
  function CompareExchangeWeak(flag: bool, want: bool, spurious: bool): (bool, bool, bool) {
    if flag == want && !spurious then (true, true, want) else (false, flag, flag)
  }

  /** notify_one picks some sleeper, if there is one. */
  predicate CanNotify(s: State, p: Thread, w: nat) {
    && (if s.late then p.PReleased? else p.PPushed?)
    && (CWaits in s.threads ==> w < |s.threads| && s.threads[w] == CWaits)
  }

  predicate Enabled(s: State, t: nat, a: Act) {
    && t < |s.threads|
    && var p := s.threads[t];
       match a
       case Cas(_) => Acquiring(p) && p.spin.Try?
       case Reset => Acquiring(p) && p.spin.Failed?
       case Load => p.PHolds?
       case Store => p.PLoaded? && p.todo != []
       case Notify(w) => CanNotify(s, p, w)
       case Release => (if s.late then p.PPushed? else p.PNotified?) || p.CPopped?
       case Test => p.CHolds?
       case Sleep => p.CEmpty?
       case GiveUp => p.CEmpty?
       case Front => p.CFull? && s.q != []
       case Pop => p.CFront? && s.q != []
       case Finish => p.CBusy? || p.CMissed?
       case Wake => p.CWaits?
  }

  function SetThread(s: State, t: nat, p: Thread): State
    requires t < |s.threads|
  {
    s.(threads := s.threads[t := p])
  }

  /** notify_one: a sleeper, if there is one, goes to reacquire the lock. */
  function Notified(s: State, w: nat): State
    requires CWaits in s.threads ==> w < |s.threads|
  {
    if CWaits in s.threads then SetThread(s, w, CLock(Try(false))) else s
  }

  /** The push writes back what it read, and its value. */
  function Stored(s: State, t: nat): State
    requires t < |s.threads| && s.threads[t].PLoaded? && s.threads[t].todo != []
  {
    var p := s.threads[t];
    SetThread(s, t, PPushed(p.todo[0], p.todo[1..]))
      .(q := p.seen + [p.todo[0]], pushed := s.pushed + [Entry(t, p.todo[0])])
  }

  /** The thread keeps the value it read; the pop removes whatever is in front by then. */
  function Popped(s: State, t: nat): State
    requires t < |s.threads| && s.threads[t].CFront? && s.q != []
  {
    var v := s.threads[t].v;
    SetThread(s, t, CPopped(v)).(q := s.q[1..], popped := s.popped + [Entry(t, v)])
  }

  function Apply(s: State, t: nat, a: Act): State
    requires Enabled(s, t, a)
  {
    var p := s.threads[t];
    match a
    case Cas(spurious) =>
      var (ok, flag, seen) := CompareExchangeWeak(s.flag, p.spin.want, spurious);
      SetThread(s, t, if ok then Acquired(p) else p.(spin := Failed(seen))).(flag := flag)
    case Reset => SetThread(s, t, p.(spin := Try(false)))
    case Load => SetThread(s, t, PLoaded(p.todo, s.q))
    case Store => Stored(s, t)
    case Notify(w) =>
      var u := SetThread(s, t, if s.late then PLock(p.todo, Try(false)) else PNotified(p.todo));
      Notified(u, w)
    case Release =>
      SetThread(s, t, if p.PPushed? then PReleased(p.todo)
                      else if p.PNotified? then PLock(p.todo, Try(false))
                      else CBusy(p.v)).(flag := false)
    case Test => SetThread(s, t, if s.q == [] then CEmpty else CFull)
    case Sleep => SetThread(s, t, CWaits).(flag := false)
    case GiveUp => SetThread(s, t, CMissed).(flag := false)
    case Front => SetThread(s, t, CFront(s.q[0]))
    case Pop => Popped(s, t)
    case Finish => SetThread(s, t, CLock(Try(false)))
    case Wake => SetThread(s, t, CLock(Try(false)))
  }

  // ----- runs

  type Step = (nat, Act)

  /** Threads about to start: producers with their values, consumers. */
  predicate Initial(s: State) {
    && !s.flag && s.q == [] && s.pushed == [] && s.popped == []
    && forall p <- s.threads :: (p.PLock? || p.CLock?) && p.spin == Try(false)
  }

  predicate IsRun(s: State, run: seq<Step>)
    decreases |run|, 0
  {
    run == [] ||
      (IsRun(s, run[..|run| - 1]) && var (t, a) := run[|run| - 1]; Enabled(After(s, run[..|run| - 1]), t, a))
  }

  function After(s: State, run: seq<Step>): State
    requires IsRun(s, run)
    decreases |run|, 1
  {
    if run == [] then s
    else var (t, a) := run[|run| - 1]; Apply(After(s, run[..|run| - 1]), t, a)
  }

  // ----- what is counted

  predicate Holds(p: Thread) {
    || p.PHolds? || p.PLoaded? || p.PPushed? || p.PNotified?
    || p.CHolds? || p.CEmpty? || p.CFull? || p.CFront? || p.CPopped?
  }

  function HoldsLock(p: Thread): nat {
    if Holds(p) then 1 else 0
  }

  /** An awake consumer on its way to a value: to the emptiness test, or past it. */
  function Heading(p: Thread): nat {
    if p.CLock? || p.CHolds? || p.CFull? || p.CFront? then 1 else 0
  }

  /** A producer between its push and its notify. */
  function Owes(p: Thread): nat {
    if p.PPushed? || p.PReleased? then 1 else 0
  }

  ghost function Total(ts: seq<Thread>, f: Thread -> nat): nat {
    if ts == [] then 0 else f(ts[0]) + Total(ts[1..], f)
  }

  lemma {:induction false} TotalUpdate(ts: seq<Thread>, i: nat, p: Thread, f: Thread -> nat)
    requires i < |ts|
    ensures Total(ts[i := p], f) == Total(ts, f) - f(ts[i]) + f(p)
  {
    if i > 0 {
      assert ts[i := p][1..] == ts[1..][i - 1 := p];
      TotalUpdate(ts[1..], i - 1, p, f);
    }
  }

  lemma {:induction false} TotalAtLeast(ts: seq<Thread>, i: nat, f: Thread -> nat)
    requires i < |ts|
    ensures Total(ts, f) >= f(ts[i])
  {
    if i > 0 {
      TotalAtLeast(ts[1..], i - 1, f);
    }
  }

  lemma {:induction false} TotalZero(ts: seq<Thread>, f: Thread -> nat)
    requires forall p <- ts :: f(p) == 0
    ensures Total(ts, f) == 0
  {
    if ts != [] {
      TotalZero(ts[1..], f);
    }
  }

  // ----- invariants

  /** A compare-and-swap is only tried with the value false; only a producer with work takes the lock;
      a producer's way through its critical section depends on the variant. */
  predicate WellFormed(s: State, p: Thread) {
    match p
    case PLock(todo, spin) => if spin.Try? then spin.want == false else todo != []
    case CLock(spin) => spin.Try? ==> spin.want == false
    case PHolds(todo) => todo != []
    case PLoaded(todo, _) => todo != []
    case PNotified(_) => !s.late
    case PReleased(_) => s.late
    case _ => true
  }

  ghost predicate Shape(s: State) {
    forall i :: 0 <= i < |s.threads| ==> WellFormed(s, s.threads[i])
  }

  /** The flag is up exactly while one thread is between its successful swap and its release. */
  ghost predicate Mutex(s: State) {
    Total(s.threads, HoldsLock) == if s.flag then 1 else 0
  }

  /** What a thread found out about the queue under the lock. */
  predicate Sees(p: Thread, q: seq<int>) {
    match p
    case PLoaded(_, seen) => seen == q
    case CEmpty => q == []
    case CFull => q != []
    case CFront(v) => q != [] && q[0] == v
    case _ => true
  }

  /** It is still so: the lock keeps everybody else away from the queue. */
  ghost predicate Current(s: State) {
    forall i :: 0 <= i < |s.threads| ==> Sees(s.threads[i], s.q)
  }

  /** First in, first out. */
  predicate Fifo(s: State) {
    Values(s.pushed) == Values(s.popped) + s.q
  }

  /** While a consumer sleeps, each queued value has an awake consumer heading for it or a notify due. */
  ghost predicate WorkConserving(s: State) {
    CWaits in s.threads ==> |s.q| <= Total(s.threads, Heading) + Total(s.threads, Owes)
  }

  ghost predicate Inv(s: State) {
    Shape(s) && Mutex(s) && Current(s) && Fifo(s) && WorkConserving(s)
  }

  lemma ShapeStep(s: State, t: nat, a: Act)
    requires Shape(s) && Enabled(s, t, a)
    ensures Shape(Apply(s, t, a))
  {
    assert WellFormed(s, s.threads[t]);
    if a.Notify? {
      NotifyKeepsShape(s, t, a.w);
    } else {
      match a { case Cas(_) => case Release => case Test => case _ => }
    }
  }

  lemma NotifyKeepsShape(s: State, t: nat, w: nat)
    requires Shape(s) && Enabled(s, t, Notify(w))
    ensures Shape(Apply(s, t, Notify(w)))
  {
    assert WellFormed(s, s.threads[t]);
  }

  lemma NotifyKeepsMutex(s: State, t: nat, w: nat)
    requires Mutex(s) && Enabled(s, t, Notify(w))
    ensures Mutex(Apply(s, t, Notify(w)))
  {
    var p := s.threads[t];
    var q := if s.late then PLock(p.todo, Try(false)) else PNotified(p.todo);
    TotalUpdate(s.threads, t, q, HoldsLock);
    if CWaits in s.threads {
      TotalUpdate(s.threads[t := q], w, CLock(Try(false)), HoldsLock);
    }
  }

  lemma MutexStep(s: State, t: nat, a: Act)
    requires Shape(s) && Mutex(s) && Enabled(s, t, a)
    ensures Mutex(Apply(s, t, a))
  {
    assert WellFormed(s, s.threads[t]);
    TotalAtLeast(s.threads, t, HoldsLock);
    if a.Notify? {
      NotifyKeepsMutex(s, t, a.w);
    } else {
      TotalUpdate(s.threads, t, Apply(s, t, a).threads[t], HoldsLock);
      match a { case Cas(_) => case Release => case Sleep => case GiveUp => case _ => }
    }
  }

  /** While t is in its critical section, no other thread is. */
  lemma Alone(s: State, t: nat, i: nat)
    requires Mutex(s) && t < |s.threads| && i < |s.threads| && i != t && Holds(s.threads[t])
    ensures !Holds(s.threads[i])
  {
    if i < t {
      TotalTwo(s.threads, i, t, HoldsLock);
    } else {
      TotalTwo(s.threads, t, i, HoldsLock);
    }
  }

  /** Writing the queue invalidates nobody's knowledge, since only the holder of the lock has any. */
  lemma WriterKeepsCurrent(s: State, t: nat, a: Act)
    requires Mutex(s) && Current(s) && Enabled(s, t, a) && (a.Store? || a.Pop?)
    ensures Current(Apply(s, t, a))
  {
    var s' := Apply(s, t, a);
    forall i | 0 <= i < |s'.threads| ensures Sees(s'.threads[i], s'.q) {
      if i != t {
        Alone(s, t, i);
      }
    }
  }

  lemma CurrentStep(s: State, t: nat, a: Act)
    requires Mutex(s) && Current(s) && Enabled(s, t, a)
    ensures Current(Apply(s, t, a))
  {
    assert Sees(s.threads[t], s.q);
    match a {
      case Store => WriterKeepsCurrent(s, t, a);
      case Pop => WriterKeepsCurrent(s, t, a);
      case Notify(_) =>
      case Cas(_) =>
      case Release =>
      case _ =>
    }
  }

  lemma StoreKeepsFifo(s: State, t: nat)
    requires Current(s) && Fifo(s) && Enabled(s, t, Store)
    ensures Fifo(Apply(s, t, Store))
  {
    var v := s.threads[t].todo[0];
    assert Sees(s.threads[t], s.q);
    LogSnoc(s.pushed, Entry(t, v), t);
    assert Values(s.pushed) + [v] == Values(s.popped) + (s.q + [v]);
  }

  lemma PopKeepsFifo(s: State, t: nat)
    requires Current(s) && Fifo(s) && Enabled(s, t, Pop)
    ensures Fifo(Apply(s, t, Pop))
  {
    var v := s.threads[t].v;
    assert Sees(s.threads[t], s.q);
    LogSnoc(s.popped, Entry(t, v), t);
    assert s.q == [v] + s.q[1..];
    assert Values(s.popped) + s.q == (Values(s.popped) + [v]) + s.q[1..];
  }

  /** Apart from the two writes a step leaves the queue and the logs alone. */
  lemma QueueStays(s: State, t: nat, a: Act)
    requires Enabled(s, t, a) && !a.Store? && !a.Pop?
    ensures var s' := Apply(s, t, a); s'.q == s.q && s'.pushed == s.pushed && s'.popped == s.popped
  {
    match a { case Notify(_) => case Cas(_) => case _ => }
  }

  lemma FifoStep(s: State, t: nat, a: Act)
    requires Current(s) && Fifo(s) && Enabled(s, t, a)
    ensures Fifo(Apply(s, t, a))
  {
    match a {
      case Store => StoreKeepsFifo(s, t);
      case Pop => PopKeepsFifo(s, t);
      case _ => QueueStays(s, t, a);
    }
  }

  lemma NotifyConserves(s: State, t: nat, w: nat)
    requires WorkConserving(s) && Enabled(s, t, Notify(w))
    ensures WorkConserving(Apply(s, t, Notify(w)))
  {
    var p := s.threads[t];
    var q := if s.late then PLock(p.todo, Try(false)) else PNotified(p.todo);
    TotalUpdate(s.threads, t, q, Heading);
    TotalUpdate(s.threads, t, q, Owes);
    if CWaits in s.threads {
      TotalUpdate(s.threads[t := q], w, CLock(Try(false)), Heading);
      TotalUpdate(s.threads[t := q], w, CLock(Try(false)), Owes);
    } else {
      assert CWaits !in s.threads[t := q];
    }
  }

  /** A consumer goes to sleep only on a queue that is still empty. */
  lemma WorkConservingStep(s: State, t: nat, a: Act)
    requires Current(s) && WorkConserving(s) && Enabled(s, t, a)
    ensures WorkConserving(Apply(s, t, a))
  {
    if a.Notify? {
      NotifyConserves(s, t, a.w);
    } else {
      assert Sees(s.threads[t], s.q);
      var p := Apply(s, t, a).threads[t];
      TotalUpdate(s.threads, t, p, Heading);
      TotalUpdate(s.threads, t, p, Owes);
      match a { case Cas(_) => case Release => case Test => case Sleep => case _ => }
    }
  }

  lemma {:induction false} InvStep(s: State, t: nat, a: Act)
    requires Inv(s) && Enabled(s, t, a)
    ensures Inv(Apply(s, t, a))
  {
    ShapeStep(s, t, a);
    MutexStep(s, t, a);
    CurrentStep(s, t, a);
    FifoStep(s, t, a);
    WorkConservingStep(s, t, a);
  }

  lemma InvInitial(s: State)
    requires Initial(s)
    ensures Inv(s)
  {
    TotalZero(s.threads, HoldsLock);
  }

  lemma {:induction false} InvAfter(s: State, run: seq<Step>)
    requires Initial(s) && IsRun(s, run)
    ensures Inv(After(s, run))
    decreases |run|
  {
    if run == [] {
      InvInitial(s);
    } else {
      InvAfter(s, run[..|run| - 1]);
      InvStep(After(s, run[..|run| - 1]), run[|run| - 1].0, run[|run| - 1].1);
    }
  }

  // ----- the promises, over all runs of all thread populations

  lemma {:induction false} TotalTwo(ts: seq<Thread>, i: nat, j: nat, f: Thread -> nat)
    requires i < j < |ts|
    ensures Total(ts, f) >= f(ts[i]) + f(ts[j])
  {
    if i == 0 {
      TotalAtLeast(ts[1..], j - 1, f);
    } else {
      TotalTwo(ts[1..], i - 1, j - 1, f);
    }
  }

  lemma {:induction false} SomeHolder(ts: seq<Thread>) returns (i: nat)
    requires Total(ts, HoldsLock) > 0
    ensures i < |ts| && Holds(ts[i])
  {
    if Holds(ts[0]) {
      i := 0;
    } else {
      i := SomeHolder(ts[1..]);
      i := i + 1;
    }
  }

  /** Mutual exclusion, for any interleaving and any spurious failures of the weak swap. */
  lemma MutualExclusion(s: State, run: seq<Step>)
    requires Initial(s) && IsRun(s, run)
    ensures var r := After(s, run);
      && (r.flag <==> exists i :: 0 <= i < |r.threads| && Holds(r.threads[i]))
      && forall i, j :: 0 <= i < j < |r.threads| ==> !(Holds(r.threads[i]) && Holds(r.threads[j]))
  {
    var r := After(s, run);
    InvAfter(s, run);
    if r.flag {
      var i := SomeHolder(r.threads);
    }
    forall i | 0 <= i < |r.threads| && Holds(r.threads[i]) ensures r.flag {
      TotalAtLeast(r.threads, i, HoldsLock);
    }
    forall i, j | 0 <= i < j < |r.threads| ensures !(Holds(r.threads[i]) && Holds(r.threads[j])) {
      TotalTwo(r.threads, i, j, HoldsLock);
    }
  }

  /** Values leave in the order in which they entered, each once. */
  lemma {:induction false} FirstInFirstOut(s: State, run: seq<Step>)
    requires Initial(s) && IsRun(s, run)
    ensures Values(After(s, run).pushed) == Values(After(s, run).popped) + After(s, run).q
  {
    InvAfter(s, run);
  }

  /** Notify under the lock or after it, spurious wakeups or not: a sleeping consumer is not needed. */
  lemma SleepersAreNotNeeded(s: State, run: seq<Step>)
    requires Initial(s) && IsRun(s, run) && CWaits in After(s, run).threads
    ensures |After(s, run).q| <= Total(After(s, run).threads, Heading) + Total(After(s, run).threads, Owes)
  {
    InvAfter(s, run);
  }
}
