/**
 The code of the spin lock, of `SafeQueue` and of `provider` and `consumer` as loops over atomic
 operations, with any number of operations of the other threads in between.  The methods show that this
 code only makes runs of the step system, and what each operation achieves.
 */
module QueueProgram {
  import opened BlockingQueue
  import opened Sequences

  /** A step of this thread; a spurious wakeup just happens to it. */
  predicate Of(step: Step, me: nat) {
    step.0 == me && step.1 != Wake
  }

  /** What one thread did in a run. */
  function Mine(run: seq<Step>, me: nat): seq<Act> {
    if run == [] then []
    else Mine(run[..|run| - 1], me) + if Of(run[|run| - 1], me) then [run[|run| - 1].1] else []
  }

  lemma MineSnoc(run: seq<Step>, step: Step, me: nat)
    ensures Mine(run + [step], me) == Mine(run, me) + if Of(step, me) then [step.1] else []
  {
    assert (run + [step])[..|run|] == run;
  }

  // ----- what an operation does, step by step

  /** Failed swaps, each followed by its reset; the bits say which of them failed for no reason. */
  function Spinning(bits: seq<bool>): seq<Act> {
    if bits == [] then [] else Spinning(bits[..|bits| - 1]) + [Cas(bits[|bits| - 1]), Reset]
  }

  /** `lock`: swaps that fail, then, if it ever succeeds, the one that does. */
  function Locking(bits: seq<bool>, got: bool): seq<Act> {
    Spinning(bits) + if got then [Cas(false)] else []
  }

  /** The push under the lock, and the notify before or after the release. */
  function Pushing(late: bool, w: nat): seq<Act> {
    [Load, Store] + if late then [Release, Notify(w)] else [Notify(w), Release]
  }

  /** One whole push: how long the thread spun for the lock, and whom it notified. */
  datatype PushTurn = PushTurn(bits: seq<bool>, w: nat)

  function Pushes(late: bool, turns: seq<PushTurn>): seq<Act> {
    if turns == [] then []
    else
      var t := turns[|turns| - 1];
      Pushes(late, turns[..|turns| - 1]) + (Locking(t.bits, true) + Pushing(late, t.w))
  }

  /** Turns of the wait loop: lock, find the queue empty, sleep; `naps` are the bits of the locks. */
  function Napping(naps: seq<seq<bool>>): seq<Act> {
    if naps == [] then []
    else Napping(naps[..|naps| - 1]) + (Locking(naps[|naps| - 1], true) + [Test, Sleep])
  }

  /** The first outcomes of h are these bits, no hiccup once it is used up; h' is what is left. */
  predicate Drawn(h: seq<bool>, bits: seq<bool>, h': seq<bool>) {
    && h' == h[(if |bits| < |h| then |bits| else |h|)..]
    && forall i :: 0 <= i < |bits| ==> bits[i] == (i < |h| && h[i])
  }

  lemma DrawOne(h: seq<bool>, bits: seq<bool>, left: seq<bool>)
    requires Drawn(h, bits, left)
    ensures Drawn(h, bits + [left != [] && left[0]], if left == [] then [] else left[1..])
  {
    if left != [] {
      assert left[0] == h[|bits|];
    }
  }

  lemma SpinMore(before: seq<Act>, bits: seq<bool>, bit: bool)
    ensures before + Spinning(bits) + [Cas(bit), Reset] == before + Spinning(bits + [bit])
  {
    assert (bits + [bit])[..|bits|] == bits;
    Associative(before, Spinning(bits), [Cas(bit), Reset]);
  }

  lemma LockAtLast(before: seq<Act>, bits: seq<bool>)
    ensures before + Spinning(bits) + [Cas(false)] == before + Locking(bits, true)
  {
    Associative(before, Spinning(bits), [Cas(false)]);
  }

  lemma OnePush(before: seq<Act>, late: bool, turns: seq<PushTurn>, bits: seq<bool>, w: nat)
    ensures before + Pushes(late, turns) + (Locking(bits, true) + Pushing(late, w)) ==
            before + Pushes(late, turns + [PushTurn(bits, w)])
  {
    assert (turns + [PushTurn(bits, w)])[..|turns|] == turns;
    Associative(before, Pushes(late, turns), Locking(bits, true) + Pushing(late, w));
  }

  lemma OneOffTheList(pushed: seq<int>, todo: seq<int>)
    requires todo != []
    ensures pushed + todo == (pushed + [todo[0]]) + todo[1..]
  {
  }

  lemma OneNap(before: seq<Act>, naps: seq<seq<bool>>, bits: seq<bool>)
    ensures before + Napping(naps) + (Locking(bits, true) + [Test, Sleep]) == before + Napping(naps + [bits])
  {
    assert (naps + [bits])[..|naps|] == naps;
    Associative(before, Napping(naps), Locking(bits, true) + [Test, Sleep]);
  }

  // ----- what other threads cannot change

  /** The thread's own part of the logs is as it was; the logs only grew. */
  predicate SameLogs(s: State, s': State, me: nat) {
    && By(s'.pushed, me) == By(s.pushed, me) && By(s'.popped, me) == By(s.popped, me)
    && s.pushed <= s'.pushed && s.popped <= s'.popped
  }

  /** Thread `me` has not moved, except that it may have been woken. */
  predicate Same(s: State, s': State, me: nat) {
    && me < |s.threads| == |s'.threads| && s'.late == s.late
    && (s'.threads[me] == s.threads[me] || (s.threads[me].CWaits? && s'.threads[me] == CLock(Try(false))))
    && SameLogs(s, s', me)
  }

  lemma OthersLogs(s: State, t: nat, a: Act, me: nat)
    requires Enabled(s, t, a) && !Of((t, a), me)
    ensures SameLogs(s, Apply(s, t, a), me)
  {
    match a {
      case Store => LogSnoc(s.pushed, Entry(t, s.threads[t].todo[0]), me);
      case Pop => LogSnoc(s.popped, Entry(t, s.threads[t].v), me);
      case _ => QueueStays(s, t, a);
    }
  }

  lemma Frame(s: State, t: nat, a: Act, me: nat)
    requires Enabled(s, t, a) && !Of((t, a), me) && me < |s.threads|
    ensures Same(s, Apply(s, t, a), me)
  {
    OthersLogs(s, t, a, me);
    match a { case Cas(_) => case Notify(_) => case Release => case Test => case Wake => case _ => }
  }

  /** A swap takes the free lock, or changes nothing but what it expects, which the reset restores. */
  lemma SwapOutcome(s: State, t: nat, spurious: bool)
    requires t < |s.threads| && Acquiring(s.threads[t]) && s.threads[t].spin == Try(false)
    ensures var s' := Apply(s, t, Cas(spurious));
      if !spurious && !s.flag then s' == SetThread(s, t, Acquired(s.threads[t])).(flag := true)
      else Enabled(s', t, Reset) && Apply(s', t, Reset) == s
  {
    var p, s' := s.threads[t], Apply(s, t, Cas(spurious));
    if spurious || s.flag {
      assert s' == SetThread(s, t, p.(spin := Failed(s.flag)));
      assert s.threads[t := p.(spin := Failed(s.flag))][t := p] == s.threads;
    }
  }

  class Monitor {
    ghost const start: State
    var st: State
    /** What the scheduler will offer the other threads, and which wakeups happen for no reason: arbitrary. */
    var script: seq<Step>
    /** Which of the next weak swaps fail for no reason: arbitrary; none do once this is used up. */
    var hiccups: seq<bool>
    ghost var run: seq<Step>

    ghost predicate Valid()
      reads this
    {
      Initial(start) && IsRun(start, run) && After(start, run) == st
    }

    /** The lock is free, nobody else will do anything, and no swap will fail for no reason. */
    predicate Quiet()
      reads this
    {
      !st.flag && script == [] && hiccups == []
    }

    /** The lock is taken and nobody else will do anything: whoever tries to take it spins for ever. */
    predicate Stuck()
      reads this
    {
      st.flag && script == []
    }

    constructor (start: State, script: seq<Step>, hiccups: seq<bool>)
      requires Initial(start)
      ensures Valid() && st == start && this.script == script && this.hiccups == hiccups && run == []
    {
      this.start := start;
      this.script := script;
      this.hiccups := hiccups;
      st := start;
      run := [];
    }

    /** One atomic operation of thread t. */
    method Do(t: nat, a: Act)
      requires Valid() && Enabled(st, t, a)
      modifies this`st, this`run
      ensures Valid() && st == Apply(old(st), t, a) && run == old(run) + [(t, a)]
      ensures forall me: nat :: Mine(run, me) == Mine(old(run), me) + if Of((t, a), me) then [a] else []
    {
      forall me: nat {
        MineSnoc(run, (t, a), me);
      }
      assert (run + [(t, a)])[..|run|] == run;
      run := run + [(t, a)];
      st := Apply(st, t, a);
    }

    /** The next thing that others do, if they do anything more. */
    method Offer(me: nat)
      requires Valid() && me < |st.threads| && script != []
      modifies this`st, this`run, this`script
      ensures Valid() && Same(old(st), st, me) && script == old(script)[1..] && Mine(run, me) == Mine(old(run), me)
      ensures var (t, a) := old(script)[0];
        run == old(run) + if !Of((t, a), me) && Enabled(old(st), t, a) then [(t, a)] else []
    {
      var (t, a) := script[0];
      script := script[1..];
      if !Of((t, a), me) && Enabled(st, t, a) {
        Frame(st, t, a, me);
        Do(t, a);
      }
    }

    /** Any number of operations of the other threads. */
    method Interfere(me: nat)
      requires Valid() && me < |st.threads|
      modifies this`st, this`run, this`script
      ensures Valid() && Same(old(st), st, me) && Mine(run, me) == Mine(old(run), me)
      ensures |script| <= |old(script)| && (|script| == |old(script)| ==> st == old(st) && script == old(script))
    {
      var stop :| 0 <= stop <= |script|;
      while |script| > stop
        invariant Valid() && Same(old(st), st, me) && Mine(run, me) == Mine(old(run), me)
        invariant stop <= |script| <= |old(script)|
        invariant |script| == |old(script)| ==> st == old(st) && script == old(script)
      {
        Offer(me);
      }
    }

    /** Whether the next weak swap fails for no reason. */
    method NextHiccup() returns (spurious: bool)
      modifies this`hiccups
      ensures spurious <==> old(hiccups) != [] && old(hiccups)[0]
      ensures hiccups == if old(hiccups) == [] then [] else old(hiccups)[1..]
    {
      spurious := hiccups != [] && hiccups[0];
      hiccups := if hiccups == [] then [] else hiccups[1..];
    }

    /** One turn of the loop in `SpinLock::lock`: a swap, and if it failed the reset.  It fails exactly if
        there is a hiccup or the lock is taken. */
    method TrySwap(me: nat) returns (got: bool, spurious: bool)
      requires Valid() && me < |st.threads| && Acquiring(st.threads[me]) && st.threads[me].spin == Try(false)
      modifies this`st, this`run, this`hiccups
      ensures Valid() && me < |st.threads|
      ensures got <==> !spurious && !old(st).flag
      ensures st == if got then SetThread(old(st), me, Acquired(old(st).threads[me])).(flag := true) else old(st)
      ensures Mine(run, me) == Mine(old(run), me) + if got then [Cas(false)] else [Cas(spurious), Reset]
      ensures spurious <==> old(hiccups) != [] && old(hiccups)[0]
      ensures hiccups == if old(hiccups) == [] then [] else old(hiccups)[1..]
    {
      spurious := NextHiccup();
      SwapOutcome(st, me, spurious);
      got := !spurious && !st.flag;
      Do(me, Cas(spurious));
      if !got {
        Do(me, Reset);
      }
    }

    /** The same after any interference, as one more turn of the loop. */
    method TryOnce(me: nat, ghost before: seq<Act>, ghost first: seq<bool>, ghost bits: seq<bool>)
      returns (got: bool, spurious: bool)
      requires Valid() && me < |st.threads| && Acquiring(st.threads[me]) && st.threads[me].spin == Try(false)
      requires Mine(run, me) == before + Spinning(bits) && Drawn(first, bits, hiccups)
      modifies this
      ensures Valid() && me < |st.threads| == |old(st).threads| && st.late == old(st).late && SameLogs(old(st), st, me)
      ensures st.threads[me] == if got then Acquired(old(st).threads[me]) else old(st).threads[me]
      ensures Mine(run, me) == before + if got then Locking(bits, true) else Spinning(bits + [spurious])
      ensures Drawn(first, bits + [spurious], hiccups) && (got ==> !spurious)
      ensures !got && !spurious ==> st.flag
      ensures |script| <= |old(script)| && (|script| == |old(script)| ==> st.q == old(st).q && script == old(script))
      ensures old(Quiet()) ==> got
    {
      DrawOne(first, bits, hiccups);
      Interfere(me);
      got, spurious := TrySwap(me);
      if got {
        LockAtLast(before, bits);
      } else {
        SpinMore(before, bits, spurious);
      }
    }

    /** The same, and if the lock was taken, something that others do.  It is no use to go on if they do
        nothing any more. */
    method SpinOnce(me: nat, ghost before: seq<Act>, ghost first: seq<bool>, ghost bits: seq<bool>)
      returns (got: bool, stuck: bool, spurious: bool)
      requires Valid() && me < |st.threads| && Acquiring(st.threads[me]) && st.threads[me].spin == Try(false)
      requires Mine(run, me) == before + Spinning(bits) && Drawn(first, bits, hiccups)
      modifies this
      ensures Valid() && me < |st.threads| == |old(st).threads| && st.late == old(st).late && SameLogs(old(st), st, me)
      ensures st.threads[me] == if got then Acquired(old(st).threads[me]) else old(st).threads[me]
      ensures Mine(run, me) == before + if got then Locking(bits, true) else Spinning(bits + [spurious])
      ensures Drawn(first, bits + [spurious], hiccups) && (got || stuck ==> !spurious)
      ensures if stuck then !got && Stuck() else got || |script| + |hiccups| < |old(script)| + |old(hiccups)|
      ensures |script| <= |old(script)| && (|script| == |old(script)| ==> st.q == old(st).q && script == old(script))
      ensures old(Quiet()) ==> got
    {
      stuck := false;
      got, spurious := TryOnce(me, before, first, bits);
      if !got && !spurious {
        if script == [] {
          stuck := true;
        } else {
          Offer(me);
        }
      }
    }

    /** `SpinLock::lock`: try until the swap succeeds.  It fails only if the thread would spin for ever. */
    method Lock(me: nat) returns (got: bool, ghost bits: seq<bool>)
      requires Valid() && me < |st.threads| && Acquiring(st.threads[me]) && st.threads[me].spin == Try(false)
      modifies this
      ensures Valid() && me < |st.threads| == |old(st).threads| && st.late == old(st).late && SameLogs(old(st), st, me)
      ensures st.threads[me] == if got then Acquired(old(st).threads[me]) else old(st).threads[me]
      ensures Mine(run, me) == Mine(old(run), me) + Locking(bits, got)
      ensures Drawn(old(hiccups), if got then bits + [false] else bits, hiccups)
      ensures !got ==> Stuck() && bits != [] && !bits[|bits| - 1]
      ensures old(Quiet()) ==> got
      ensures |script| <= |old(script)| && (|script| == |old(script)| ==> st.q == old(st).q && script == old(script))
    {
      bits := [];
      ghost var before := Mine(run, me);
      while true
        invariant Valid() && me < |st.threads| == |old(st).threads| && st.threads[me] == old(st).threads[me]
        invariant st.late == old(st).late && SameLogs(old(st), st, me)
        invariant Mine(run, me) == before + Spinning(bits) && Drawn(old(hiccups), bits, hiccups)
        invariant |script| <= |old(script)|
        invariant |script| == |old(script)| ==> st.q == old(st).q && script == old(script)
        invariant old(Quiet()) ==> Quiet()
        decreases |script| + |hiccups|
      {
        var stuck, spurious;
        got, stuck, spurious := SpinOnce(me, before, old(hiccups), bits);
        if got {
          return;
        }
        bits := bits + [spurious];
        if stuck {
          return;
        }
      }
    }

    /** One operation of the thread, and any number of operations of the others after it. */
    method Act(me: nat, a: Act)
      requires Valid() && Enabled(st, me, a) && !a.Notify? && !a.Sleep? && !a.Wake?
      modifies this`st, this`run, this`script
      ensures Valid() && Same(Apply(old(st), me, a), st, me) && |script| <= |old(script)|
      ensures |script| == |old(script)| ==> st == Apply(old(st), me, a) && script == old(script)
      ensures Mine(run, me) == Mine(old(run), me) + [a]
    {
      Do(me, a);
      Interfere(me);
    }

    /** Some sleeping consumer, if there is one: the one that notify_one picks. */
    method Sleeper() returns (w: nat)
      ensures CWaits in st.threads ==> w < |st.threads| && st.threads[w] == CWaits
    {
      w := 0;
      if CWaits in st.threads {
        w :| 0 <= w < |st.threads| && st.threads[w] == CWaits;
      }
    }

    /** notify_one, at the place that the variant gives it. */
    method NotifyOne(me: nat) returns (ghost w: nat)
      requires Valid() && me < |st.threads|
      requires if st.late then st.threads[me].PReleased? else st.threads[me].PPushed?
      modifies this`st, this`run
      ensures Valid() && me < |st.threads| == |old(st).threads| && st.late == old(st).late
      ensures SameLogs(old(st), st, me) && Mine(run, me) == Mine(old(run), me) + [Notify(w)]
      ensures st.threads[me] ==
        if st.late then PLock(old(st).threads[me].todo, Try(false)) else PNotified(old(st).threads[me].todo)
    {
      var sleeper := Sleeper();
      Do(me, Notify(sleeper));
      w := sleeper;
    }

    /** A producer releases the lock, before or after its notify. */
    method Unlock(me: nat)
      requires Valid() && me < |st.threads|
      requires if st.late then st.threads[me].PPushed? else st.threads[me].PNotified?
      modifies this`st, this`run, this`script
      ensures Valid() && me < |st.threads| == |old(st).threads| && st.late == old(st).late
      ensures SameLogs(old(st), st, me) && Mine(run, me) == Mine(old(run), me) + [Release]
      ensures st.threads[me] ==
        if st.late then PReleased(old(st).threads[me].todo) else PLock(old(st).threads[me].todo, Try(false))
    {
      Act(me, Release);
    }

    /** After the push: notify and release, in the order of the variant. */
    method Announce(me: nat) returns (ghost w: nat)
      requires Valid() && me < |st.threads| && st.threads[me].PPushed?
      modifies this`st, this`run, this`script
      ensures Valid() && me < |st.threads| == |old(st).threads| && st.late == old(st).late
      ensures st.threads[me] == PLock(old(st).threads[me].todo, Try(false)) && SameLogs(old(st), st, me)
      ensures Mine(run, me) ==
              Mine(old(run), me) + if old(st).late then [Release, Notify(w)] else [Notify(w), Release]
    {
      if st.late {
        Unlock(me);
        w := NotifyOne(me);
      } else {
        w := NotifyOne(me);
        Interfere(me);
        Unlock(me);
      }
    }

    /** The first half of a push: read the queue. */
    method ReadQueue(me: nat)
      requires Valid() && me < |st.threads| && st.threads[me].PHolds?
      modifies this`st, this`run, this`script
      ensures Valid() && me < |st.threads| == |old(st).threads| && st.late == old(st).late
      ensures st.threads[me].PLoaded? && st.threads[me].todo == old(st).threads[me].todo
      ensures SameLogs(old(st), st, me) && Mine(run, me) == Mine(old(run), me) + [Load]
    {
      Act(me, Load);
    }

    /** The second half: write it back with the value. */
    method WriteQueue(me: nat)
      requires Valid() && me < |st.threads| && st.threads[me].PLoaded? && st.threads[me].todo != []
      modifies this`st, this`run, this`script
      ensures Valid() && me < |st.threads| == |old(st).threads| && st.late == old(st).late
      ensures var todo := old(st).threads[me].todo;
        && st.threads[me] == PPushed(todo[0], todo[1..])
        && By(st.pushed, me) == By(old(st).pushed, me) + [todo[0]]
        && By(st.popped, me) == By(old(st).popped, me)
      ensures Mine(run, me) == Mine(old(run), me) + [Store]
    {
      LogSnoc(st.pushed, Entry(me, st.threads[me].todo[0]), me);
      Act(me, Store);
    }

    /** The push proper, under the lock. */
    method Push(me: nat)
      requires Valid() && me < |st.threads| && st.threads[me].PHolds? && st.threads[me].todo != []
      modifies this`st, this`run, this`script
      ensures Valid() && me < |st.threads| == |old(st).threads| && st.late == old(st).late
      ensures var todo := old(st).threads[me].todo;
        && st.threads[me] == PPushed(todo[0], todo[1..])
        && By(st.pushed, me) == By(old(st).pushed, me) + [todo[0]]
        && By(st.popped, me) == By(old(st).popped, me)
      ensures Mine(run, me) == Mine(old(run), me) + [Load, Store]
    {
      ReadQueue(me);
      WriteQueue(me);
    }

    /** The critical section of a push. */
    method PushLocked(me: nat) returns (ghost w: nat)
      requires Valid() && me < |st.threads| && st.threads[me].PHolds? && st.threads[me].todo != []
      modifies this`st, this`run, this`script
      ensures Valid() && me < |st.threads| && st.late == old(st).late
      ensures st.threads[me] == PLock(old(st).threads[me].todo[1..], Try(false))
      ensures By(st.pushed, me) == By(old(st).pushed, me) + [old(st).threads[me].todo[0]]
      ensures Mine(run, me) == Mine(old(run), me) + Pushing(old(st).late, w)
    {
      Interfere(me);
      Push(me);
      w := Announce(me);
    }

    /** `SafeQueue::push`, or one turn of `provider`: lock, push, announce.  The thread itself pushes the
        first of its values, once, and nothing else.  It fails only if it would spin for ever. */
    method PushOne(me: nat) returns (done: bool, ghost bits: seq<bool>, ghost w: nat)
      requires Valid() && me < |st.threads|
      requires st.threads[me].PLock? && st.threads[me].todo != [] && st.threads[me].spin == Try(false)
      modifies this
      ensures Valid() && me < |st.threads| && st.late == old(st).late
      ensures st.threads[me] == if done then PLock(old(st).threads[me].todo[1..], Try(false)) else old(st).threads[me]
      ensures By(st.pushed, me) == By(old(st).pushed, me) + if done then [old(st).threads[me].todo[0]] else []
      ensures Mine(run, me) ==
              Mine(old(run), me) + if done then Locking(bits, true) + Pushing(old(st).late, w) else Locking(bits, false)
      ensures !done ==> Stuck() && bits != []
      ensures old(Quiet()) ==> done
    {
      w := 0;
      done, bits := Lock(me);
      if done {
        w := PushLocked(me);
        Associative(Mine(old(run), me), Locking(bits, true), Pushing(st.late, w));
      }
    }

    /** The same, as one more turn of `provider`. */
    method ProvideOne(me: nat, ghost before: seq<Act>, ghost turns: seq<PushTurn>)
      returns (done: bool, ghost bits: seq<bool>, ghost w: nat)
      requires Valid() && me < |st.threads|
      requires st.threads[me].PLock? && st.threads[me].todo != [] && st.threads[me].spin == Try(false)
      requires Mine(run, me) == before + Pushes(st.late, turns)
      modifies this
      ensures Valid() && me < |st.threads| && st.late == old(st).late
      ensures st.threads[me] == if done then PLock(old(st).threads[me].todo[1..], Try(false)) else old(st).threads[me]
      ensures By(old(st).pushed, me) + old(st).threads[me].todo == By(st.pushed, me) + st.threads[me].todo
      ensures Mine(run, me) == before +
        if done then Pushes(st.late, turns + [PushTurn(bits, w)]) else Pushes(st.late, turns) + Locking(bits, false)
      ensures !done ==> Stuck() && bits != []
    {
      OneOffTheList(By(st.pushed, me), st.threads[me].todo);
      done, bits, w := PushOne(me);
      if done {
        OnePush(before, st.late, turns, bits, w);
      } else {
        Associative(before, Pushes(st.late, turns), Locking(bits, false));
      }
    }

    /** `provider`: push all values, in order, each once.  It stops earlier only if it would spin for ever:
        then it pushed some of them, in order, and has the rest. */
    method Provide(me: nat) returns (done: bool, ghost turns: seq<PushTurn>, ghost stuck: seq<bool>)
      requires Valid() && me < |st.threads| && st.threads[me].PLock? && st.threads[me].spin == Try(false)
      modifies this
      ensures Valid() && me < |st.threads| && st.threads[me].PLock? && st.threads[me].spin == Try(false)
      ensures By(old(st).pushed, me) + old(st).threads[me].todo == By(st.pushed, me) + st.threads[me].todo
      ensures |turns| == |old(st).threads[me].todo| - |st.threads[me].todo|
      ensures Mine(run, me) ==
              Mine(old(run), me) + (Pushes(old(st).late, turns) + if done then [] else Locking(stuck, false))
      ensures if done then st.threads[me].todo == [] else Stuck() && stuck != []
    {
      turns, stuck := [], [];
      ghost var before, late := Mine(run, me), st.late;
      while st.threads[me].todo != []
        invariant Valid() && me < |st.threads| && st.threads[me].PLock? && st.threads[me].spin == Try(false)
        invariant By(old(st).pushed, me) + old(st).threads[me].todo == By(st.pushed, me) + st.threads[me].todo
        invariant |turns| == |old(st).threads[me].todo| - |st.threads[me].todo| && st.late == late
        invariant Mine(run, me) == before + Pushes(late, turns)
        decreases |st.threads[me].todo|
      {
        ghost var bits, w;
        done, bits, w := ProvideOne(me, before, turns);
        if !done {
          stuck := bits;
          return;
        }
        turns := turns + [PushTurn(bits, w)];
      }
      done := true;
    }

    /** The emptiness test, under the lock.  Its outcome still holds when the thread acts on it. */
    method TestQueue(me: nat)
      requires Valid() && me < |st.threads| && st.threads[me] == CHolds
      modifies this`st, this`run, this`script
      ensures Valid() && me < |st.threads| && SameLogs(old(st), st, me) && |script| <= |old(script)|
      ensures st.threads[me] == if st.q == [] then CEmpty else CFull
      ensures |script| == |old(script)| ==> st.q == old(st).q && script == old(script)
      ensures Mine(run, me) == Mine(old(run), me) + [Test]
    {
      Interfere(me);
      Act(me, Test);
      StillThere(me);
    }

    /** Lock, then test. */
    method LockAndTest(me: nat) returns (done: bool, ghost bits: seq<bool>)
      requires Valid() && me < |st.threads| && st.threads[me] == CLock(Try(false))
      modifies this
      ensures Valid() && me < |st.threads| && SameLogs(old(st), st, me) && |script| <= |old(script)|
      ensures st.threads[me] == if !done then CLock(Try(false)) else if st.q == [] then CEmpty else CFull
      ensures Mine(run, me) == Mine(old(run), me) + if done then Locking(bits, true) + [Test] else Locking(bits, false)
      ensures !done ==> Stuck() && bits != []
      ensures old(Quiet()) ==> done && st.q == old(st).q
    {
      done, bits := Lock(me);
      if done {
        TestQueue(me);
        Associative(Mine(old(run), me), Locking(bits, true), [Test]);
      }
    }

    /** `wait`: release and sleep, until woken, or for good if nobody does anything any more. */
    method SleepOnEmpty(me: nat)
      requires Valid() && me < |st.threads| && st.threads[me] == CEmpty
      modifies this`st, this`run, this`script
      ensures Valid() && me < |st.threads| && SameLogs(old(st), st, me) && |script| <= |old(script)|
      ensures || (st.threads[me] == CWaits && script == [])
              || (st.threads[me] == CLock(Try(false)) && |script| < |old(script)|)
      ensures Mine(run, me) == Mine(old(run), me) + [Sleep]
    {
      Do(me, Sleep);
      while st.threads[me] == CWaits && script != []
        invariant Valid() && me < |st.threads| && SameLogs(old(st), st, me) && |script| <= |old(script)|
        invariant st.threads[me] == CWaits || (st.threads[me] == CLock(Try(false)) && |script| < |old(script)|)
        invariant Mine(run, me) == Mine(old(run), me) + [Sleep]
        decreases |script|
      {
        Offer(me);
      }
    }

    /** One turn of the wait loop: lock and test; if the queue is empty, sleep. */
    method AwaitOnce(me: nat, ghost before: seq<Act>, ghost naps: seq<seq<bool>>)
      returns (locked: bool, ghost bits: seq<bool>)
      requires Valid() && me < |st.threads| && st.threads[me] == CLock(Try(false))
      requires Mine(run, me) == before + Napping(naps)
      modifies this
      ensures Valid() && me < |st.threads| && SameLogs(old(st), st, me)
      ensures old(Quiet()) && old(st).q != [] ==> st.threads[me] == CFull
      ensures if !locked then st.threads[me] == CLock(Try(false)) && Stuck() && bits != []
        else || (st.threads[me] == CFull && st.q != [])
             || (st.threads[me] == CWaits && script == [])
             || (st.threads[me] == CLock(Try(false)) && |script| < |old(script)|)
      ensures Mine(run, me) ==
        if !locked then before + Napping(naps) + Locking(bits, false)
        else if st.threads[me] == CFull then before + Napping(naps) + (Locking(bits, true) + [Test])
        else before + Napping(naps + [bits])
    {
      locked, bits := LockAndTest(me);
      if locked && st.threads[me] == CEmpty {
        SleepOnEmpty(me);
        Associative(before + Napping(naps), Locking(bits, true) + [Test], [Sleep]);
        Associative(Locking(bits, true), [Test], [Sleep]);
        OneNap(before, naps, bits);
      }
    }

    /** Lock and wait until the queue is not empty.  Others may act between the test and the wait, and
        between the test and the return.  It fails only if the thread would spin or sleep for ever. */
    method AwaitValue(me: nat) returns (ready: bool, ghost naps: seq<seq<bool>>, ghost bits: seq<bool>)
      requires Valid() && me < |st.threads| && st.threads[me] == CLock(Try(false))
      modifies this
      ensures Valid() && me < |st.threads| && SameLogs(old(st), st, me)
      ensures if ready then st.threads[me] == CFull && st.q != []
              else if st.threads[me] == CWaits then script == [] && naps != []
              else st.threads[me] == CLock(Try(false)) && Stuck() && bits != []
      ensures Mine(run, me) ==
        Mine(old(run), me) + Napping(naps) +
          if ready then Locking(bits, true) + [Test] else if st.threads[me] == CWaits then [] else Locking(bits, false)
      ensures old(Quiet()) && old(st).q != [] ==> ready
    {
      naps, bits := [], [];
      ghost var before := Mine(run, me);
      while true
        invariant Valid() && me < |st.threads| && st.threads[me] == CLock(Try(false)) && SameLogs(old(st), st, me)
        invariant Mine(run, me) == before + Napping(naps)
        invariant old(Quiet()) && old(st).q != [] ==> Quiet() && st.q != []
        decreases |script|
      {
        ready, bits := AwaitOnce(me, before, naps);
        if !ready || st.threads[me].CFull? {
          return;
        }
        naps := naps + [bits];
        if st.threads[me].CWaits? {
          return false, naps, bits;
        }
      }
    }

    /** What the thread found out under the lock still holds, whatever the others did since. */
    lemma StillThere(me: nat)
      requires Valid() && me < |st.threads|
      ensures Sees(st.threads[me], st.q)
    {
      InvAfter(start, run);
    }

    /** `q.front()`. */
    method ReadFront(me: nat) returns (v: int)
      requires Valid() && me < |st.threads| && st.threads[me] == CFull
      modifies this`st, this`run, this`script
      ensures Valid() && me < |st.threads| && st.threads[me] == CFront(v) && st.q != []
      ensures SameLogs(old(st), st, me) && Mine(run, me) == Mine(old(run), me) + [Front]
    {
      StillThere(me);
      v := st.q[0];
      Act(me, Front);
      StillThere(me);
    }

    /** `q.pop()`. */
    method RemoveFront(me: nat)
      requires Valid() && me < |st.threads| && st.threads[me].CFront? && st.q != []
      modifies this`st, this`run, this`script
      ensures Valid() && me < |st.threads| && st.threads[me] == CPopped(old(st).threads[me].v)
      ensures By(st.popped, me) == By(old(st).popped, me) + [old(st).threads[me].v]
      ensures Mine(run, me) == Mine(old(run), me) + [Pop]
    {
      LogSnoc(st.popped, Entry(me, st.threads[me].v), me);
      Act(me, Pop);
    }

    /** The pop proper, under the lock, after the test: read the front, pop, release. */
    method Take(me: nat) returns (v: int)
      requires Valid() && me < |st.threads| && st.threads[me] == CFull
      modifies this`st, this`run, this`script
      ensures Valid() && me < |st.threads|
      ensures st.threads[me] == CBusy(v)
      ensures By(st.popped, me) == By(old(st).popped, me) + [v]
      ensures Mine(run, me) == Mine(old(run), me) + [Front, Pop, Release]
    {
      v := ReadFront(me);
      RemoveFront(me);
      Do(me, Release);
    }

    /** `SafeQueue::shift`, or one turn of `consumer`: sleep while the queue is empty, then pop.  The
        thread itself takes exactly the value returned.  It fails only if it would spin or sleep for ever. */
    method Shift(me: nat) returns (done: bool, v: int, ghost naps: seq<seq<bool>>, ghost bits: seq<bool>)
      requires Valid() && me < |st.threads| && st.threads[me] == CLock(Try(false))
      modifies this
      ensures Valid() && me < |st.threads|
      ensures By(st.popped, me) == By(old(st).popped, me) + if done then [v] else []
      ensures if done then st.threads[me] == CBusy(v)
              else if st.threads[me] == CWaits then script == [] && naps != []
              else st.threads[me] == CLock(Try(false)) && Stuck() && bits != []
      ensures Mine(run, me) == Mine(old(run), me) + Napping(naps) +
        if done then Locking(bits, true) + [Test] + [Front, Pop, Release]
        else if st.threads[me] == CWaits then [] else Locking(bits, false)
      ensures old(Quiet()) && old(st).q != [] ==> done
    {
      v := 0;
      done, naps, bits := AwaitValue(me);
      if done {
        v := Take(me);
        Associative(Mine(old(run), me) + Napping(naps), Locking(bits, true) + [Test], [Front, Pop, Release]);
      }
    }

    /** `SafeQueue::shift_no_wait`: pop, or return at once from an empty queue.  It fails only if it would
        spin for ever. */
    method ShiftNoWait(me: nat) returns (done: bool, taken: bool, v: int, ghost bits: seq<bool>)
      requires Valid() && me < |st.threads| && st.threads[me] == CLock(Try(false))
      modifies this
      ensures Valid() && me < |st.threads| && (taken ==> done)
      ensures By(st.popped, me) == By(old(st).popped, me) + if taken then [v] else []
      ensures st.threads[me] == if taken then CBusy(v) else if done then CMissed else CLock(Try(false))
      ensures done && !taken ==> st.q == []
      ensures !done ==> Stuck() && bits != []
      ensures Mine(run, me) == Mine(old(run), me) +
        if !done then Locking(bits, false)
        else Locking(bits, true) + [Test] + if taken then [Front, Pop, Release] else [GiveUp]
      ensures old(Quiet()) ==> done && taken == (old(st).q != [])
    {
      taken, v := false, 0;
      done, bits := LockAndTest(me);
      if !done {
        return;
      }
      if st.threads[me].CFull? {
        taken := true;
        v := Take(me);
        Associative(Mine(old(run), me), Locking(bits, true) + [Test], [Front, Pop, Release]);
      } else {
        Do(me, GiveUp);
        Associative(Mine(old(run), me), Locking(bits, true) + [Test], [GiveUp]);
      }
    }
  }
}
