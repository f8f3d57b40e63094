/** The blocking queue drains: apart from spinning, every step brings rest closer, and at rest every
    value has been pushed and popped. */
module QueueProgress {
  import opened BlockingQueue
  import opened Counting
  import opened Sequences

  /** A step that is neither a failing swap nor a spurious wakeup nor a return without a value. */
  predicate Productive(s: State, t: nat, a: Act)
    requires Enabled(s, t, a)
  {
    match a
    case Wake => false
    case GiveUp => false
    case Cas(spurious) => !spurious && s.flag == s.threads[t].spin.want
    case _ => true
  }

  function SpinWork(spin: Spin): nat {
    if spin.Failed? then 1 else 0
  }

  function ThreadWork(p: Thread): nat {
    match p
    case PLock(todo, spin) => 15 * |todo| + SpinWork(spin)
    case PHolds(todo) => if todo == [] then 0 else 15 * |todo| - 1
    case PLoaded(todo, _) => if todo == [] then 0 else 15 * |todo| - 2
    case PPushed(_, todo) => 15 * |todo| + 6
    case PReleased(todo) => 15 * |todo| + 5
    case PNotified(todo) => 15 * |todo| + 1
    case CWaits => 0
    case CEmpty => 1
    case CFront(_) => 1
    case CFull => 2
    case CHolds => 3
    case CLock(spin) => 4 + SpinWork(spin)
    case CBusy(_) => 5
    case CMissed => 5
    case CPopped(_) => 6
  }

  ghost function Work(s: State): nat {
    Total(s.threads, ThreadWork) + 6 * |s.q|
  }

  lemma NotifyWork(s: State, t: nat, w: nat)
    requires Shape(s) && Enabled(s, t, Notify(w))
    ensures Work(Apply(s, t, Notify(w))) < Work(s)
  {
    var p := s.threads[t];
    var q := if s.late then PLock(p.todo, Try(false)) else PNotified(p.todo);
    TotalUpdate(s.threads, t, q, ThreadWork);
    if CWaits in s.threads {
      TotalUpdate(s.threads[t := q], w, CLock(Try(false)), ThreadWork);
    }
  }

  /** The work of the moving thread, together with the queue, decreases. */
  lemma ThreadStep(s: State, t: nat, a: Act)
    requires Shape(s) && Current(s) && Enabled(s, t, a) && Productive(s, t, a) && !a.Notify?
    ensures var s' := Apply(s, t, a);
      s'.threads == s.threads[t := s'.threads[t]] &&
      ThreadWork(s'.threads[t]) + 6 * |s'.q| < ThreadWork(s.threads[t]) + 6 * |s.q|
  {
    assert WellFormed(s, s.threads[t]) && Sees(s.threads[t], s.q);
    match a { case Cas(_) => case Reset => case Release => case Test => case Store => case Pop => case _ => }
  }

  lemma ProductiveStepsEnd(s: State, t: nat, a: Act)
    requires Shape(s) && Current(s) && Enabled(s, t, a) && Productive(s, t, a)
    ensures Work(Apply(s, t, a)) < Work(s)
  {
    if a.Notify? {
      NotifyWork(s, t, a.w);
    } else {
      ThreadStep(s, t, a);
      TotalUpdate(s.threads, t, Apply(s, t, a).threads[t], ThreadWork);
    }
  }

  /** No thread can do anything but spin. */
  ghost predicate AtRest(s: State) {
    forall t: nat, a: Act :: Enabled(s, t, a) ==> !Productive(s, t, a)
  }

  /** What each thread can do next, if it is not asleep, finished or kept out by the lock. */
  lemma CanMove(s: State, t: nat) returns (a: Act)
    requires Inv(s) && t < |s.threads|
    requires !s.threads[t].CWaits? && s.threads[t] != PLock([], Try(false))
    requires s.flag ==> Holds(s.threads[t])
    ensures Enabled(s, t, a) && Productive(s, t, a)
  {
    var p := s.threads[t];
    assert WellFormed(s, p) && Sees(p, s.q);
    var w: nat := 0;
    if CWaits in s.threads {
      w :| w < |s.threads| && s.threads[w] == CWaits;
    }
    match p {
      case PLock(_, spin) => a := if spin.Try? then Cas(false) else Reset;
      case CLock(spin) => a := if spin.Try? then Cas(false) else Reset;
      case PHolds(_) => a := Load;
      case PLoaded(_, _) => a := Store;
      case PPushed(_, _) => a := if s.late then Release else Notify(w);
      case PReleased(_) => a := Notify(w);
      case PNotified(_) => a := Release;
      case CHolds => a := Test;
      case CEmpty => a := Sleep;
      case CMissed => a := Finish;
      case CFull => a := Front;
      case CFront(_) => a := Pop;
      case CPopped(_) => a := Release;
      case CBusy(_) => a := Finish;
    }
  }

  /** At rest every producer has finished, every consumer sleeps and the lock is free. */
  lemma WhoRests(s: State)
    requires Inv(s) && AtRest(s)
    ensures !s.flag
    ensures forall t: nat :: t < |s.threads| ==> s.threads[t].CWaits? || s.threads[t] == PLock([], Try(false))
  {
    if s.flag {
      var h := SomeHolder(s.threads);
      var a := CanMove(s, h);
      assert false;
    }
    forall t: nat | t < |s.threads| ensures s.threads[t].CWaits? || s.threads[t] == PLock([], Try(false)) {
      if !s.threads[t].CWaits? && s.threads[t] != PLock([], Try(false)) {
        var a := CanMove(s, t);
        assert false;
      }
    }
  }

  lemma ConsumersStay(s: State, t: nat, a: Act, c: nat)
    requires Enabled(s, t, a) && c < |s.threads|
    ensures c < |Apply(s, t, a).threads|
    ensures IsConsumer(Apply(s, t, a).threads[c]) == IsConsumer(s.threads[c])
  {
    match a { case Cas(_) => case Notify(_) => case Release => case Test => case _ => }
  }

  predicate IsConsumer(p: Thread) {
    || p.CLock? || p.CHolds? || p.CEmpty? || p.CWaits? || p.CMissed?
    || p.CFull? || p.CFront? || p.CPopped? || p.CBusy?
  }

  lemma {:induction false} ConsumerAfter(s: State, run: seq<Step>, c: nat)
    requires IsRun(s, run) && c < |s.threads| && IsConsumer(s.threads[c])
    ensures c < |After(s, run).threads| && IsConsumer(After(s, run).threads[c])
    decreases |run|
  {
    if run != [] {
      ConsumerAfter(s, run[..|run| - 1], c);
      ConsumersStay(After(s, run[..|run| - 1]), run[|run| - 1].0, run[|run| - 1].1, c);
    }
  }

  // ----- every value arrives once

  /** The values a thread still has to push. */
  function Todo(p: Thread): seq<int> {
    match p
    case PLock(todo, _) => todo
    case PHolds(todo) => todo
    case PLoaded(todo, _) => todo
    case PPushed(_, todo) => todo
    case PNotified(todo) => todo
    case PReleased(todo) => todo
    case _ => []
  }

  ghost function Due(x: int): Thread -> nat {
    (p: Thread) => Count(Todo(p), x)
  }

  lemma NotifyOwesTheSame(s: State, t: nat, w: nat, x: int)
    requires Enabled(s, t, Notify(w))
    ensures Total(Apply(s, t, Notify(w)).threads, Due(x)) == Total(s.threads, Due(x))
  {
    var p := s.threads[t];
    var q := if s.late then PLock(p.todo, Try(false)) else PNotified(p.todo);
    TotalUpdate(s.threads, t, q, Due(x));
    assert Todo(q) == Todo(p) && Todo(CWaits) == Todo(CLock(Try(false)));
    assert Due(x)(q) == Due(x)(p) && Due(x)(CWaits) == Due(x)(CLock(Try(false)));
    if CWaits in s.threads {
      TotalUpdate(s.threads[t := q], w, CLock(Try(false)), Due(x));
    }
  }

  /** Apart from a push, nobody's outstanding values change. */
  lemma TodoStays(s: State, t: nat, a: Act, me: nat)
    requires Enabled(s, t, a) && !a.Store? && me < |s.threads|
    ensures me < |Apply(s, t, a).threads| && Todo(Apply(s, t, a).threads[me]) == Todo(s.threads[me])
  {
    match a { case Cas(_) => case Notify(_) => case Release => case Test => case _ => }
  }

  /** Only a notify moves a second thread. */
  lemma OneMoves(s: State, t: nat, a: Act)
    requires Enabled(s, t, a) && !a.Notify?
    ensures Apply(s, t, a).threads == s.threads[t := Apply(s, t, a).threads[t]]
  {
    match a { case Cas(_) => case _ => }
  }

  lemma StoreDue(s: State, t: nat, x: int)
    requires Enabled(s, t, Store)
    ensures Count(Values(Stored(s, t).pushed), x) + Total(Stored(s, t).threads, Due(x))
         == Count(Values(s.pushed), x) + Total(s.threads, Due(x))
  {
    var v := s.threads[t].todo[0];
    TotalUpdate(s.threads, t, Stored(s, t).threads[t], Due(x));
    CountTail(s.threads[t].todo, x);
    LogSnoc(s.pushed, Entry(t, v), t);
    CountSnoc(Values(s.pushed), v, x);
  }

  /** What was pushed and what is still to push make up what there was to push at first. */
  lemma DueStep(s: State, t: nat, a: Act, x: int)
    requires Enabled(s, t, a)
    ensures Count(Values(Apply(s, t, a).pushed), x) + Total(Apply(s, t, a).threads, Due(x))
         == Count(Values(s.pushed), x) + Total(s.threads, Due(x))
  {
    match a {
      case Store => StoreDue(s, t, x);
      case Notify(w) =>
        NotifyOwesTheSame(s, t, w, x);
        QueueStays(s, t, a);
      case Pop => TotalUpdate(s.threads, t, CPopped(s.threads[t].v), Due(x));
      case _ =>
        TotalUpdate(s.threads, t, Apply(s, t, a).threads[t], Due(x));
        TodoStays(s, t, a, t);
        QueueStays(s, t, a);
        OneMoves(s, t, a);
    }
  }

  lemma {:induction false} DueAfter(s: State, run: seq<Step>, x: int)
    requires Initial(s) && IsRun(s, run)
    ensures Count(Values(After(s, run).pushed), x) + Total(After(s, run).threads, Due(x)) == Total(s.threads, Due(x))
    decreases |run|
  {
    if run != [] {
      DueAfter(s, run[..|run| - 1], x);
      DueStep(After(s, run[..|run| - 1]), run[|run| - 1].0, run[|run| - 1].1, x);
    }
  }

  lemma StoreOwnOrder(s: State, t: nat, me: nat)
    requires Enabled(s, t, Store) && me < |s.threads|
    ensures var s' := Stored(s, t);
      By(s'.pushed, me) + Todo(s'.threads[me]) == By(s.pushed, me) + Todo(s.threads[me])
  {
    var todo, s' := s.threads[t].todo, Stored(s, t);
    LogSnoc(s.pushed, Entry(t, todo[0]), me);
    if me == t {
      assert s'.threads[me] == PPushed(todo[0], todo[1..]);
      calc {
        By(s'.pushed, me) + Todo(s'.threads[me]);
        (By(s.pushed, me) + [todo[0]]) + todo[1..];
        By(s.pushed, me) + todo;
      }
    } else {
      assert s'.threads[me] == s.threads[me];
      assert By(s'.pushed, me) == By(s.pushed, me);
    }
  }

  /** A thread's own part of the log, followed by what it still has to push, never changes. */
  lemma OwnOrderStep(s: State, t: nat, a: Act, me: nat)
    requires Enabled(s, t, a) && me < |s.threads|
    ensures me < |Apply(s, t, a).threads|
    ensures By(Apply(s, t, a).pushed, me) + Todo(Apply(s, t, a).threads[me]) == By(s.pushed, me) + Todo(s.threads[me])
  {
    match a {
      case Store => StoreOwnOrder(s, t, me);
      case Pop => TodoStays(s, t, a, me);
      case _ =>
        TodoStays(s, t, a, me);
        QueueStays(s, t, a);
    }
  }

  /** Every producer's values are pushed in its own order, each once. */
  lemma {:induction false} OwnOrder(s: State, run: seq<Step>, me: nat)
    requires Initial(s) && IsRun(s, run) && me < |s.threads|
    ensures me < |After(s, run).threads|
    ensures By(After(s, run).pushed, me) + Todo(After(s, run).threads[me]) == Todo(s.threads[me])
    decreases |run|
  {
    if run != [] {
      OwnOrder(s, run[..|run| - 1], me);
      OwnOrderStep(After(s, run[..|run| - 1]), run[|run| - 1].0, run[|run| - 1].1, me);
    }
  }

  /** At rest, with a consumer around, nothing is queued and nothing is left to push. */
  lemma NothingLeft(s: State, c: nat, x: int)
    requires Inv(s) && AtRest(s) && c < |s.threads| && IsConsumer(s.threads[c])
    ensures s.q == [] && Total(s.threads, Due(x)) == 0
    ensures forall p <- s.threads :: p.PLock? ==> p.todo == []
  {
    WhoRests(s);
    assert s.threads[c] == CWaits;
    TotalZero(s.threads, Heading);
    TotalZero(s.threads, Owes);
    TotalZero(s.threads, Due(x));
  }

  /** With a consumer around: once nothing but spinning is left to do, all producers are done, and what
      was popped is what was pushed, in that order, and each value as often as producers had it at first. */
  lemma RestMeansDrained(s: State, run: seq<Step>, c: nat, x: int)
    requires Initial(s) && IsRun(s, run) && AtRest(After(s, run))
    requires c < |s.threads| && s.threads[c].CLock?
    ensures After(s, run).q == [] && Values(After(s, run).popped) == Values(After(s, run).pushed)
    ensures forall p <- After(s, run).threads :: p.PLock? ==> p.todo == []
    ensures Count(Values(After(s, run).popped), x) == Total(s.threads, Due(x))
  {
    InvAfter(s, run);
    ConsumerAfter(s, run, c);
    NothingLeft(After(s, run), c, x);
    DueAfter(s, run, x);
  }
}
