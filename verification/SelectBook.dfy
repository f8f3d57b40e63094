/**
 The three things `AddFd` and `RemoveFd` keep in step: a bitmap, an ordered set and a cached maximum.
 Here as values, and over arbitrary sequences of calls.
 */
module SelectBook {

  datatype Book = Book(bits: set<nat>, fds: set<nat>, maxFd: nat)

  datatype Op = Add(fd: nat) | Remove(fd: nat)

  /** The largest member, 0 if there is none. */
  ghost function MaxOf(s: set<nat>): (m: nat)
    ensures s == {} ==> m == 0
    ensures s != {} ==> m in s && forall x <- s :: x <= m
  {
    if s == {} then 0
    else
      var x :| x in s;
      var rest := MaxOf(s - {x});
      assert s == (s - {x}) + {x};
      if x > rest then x else if s == {x} then x else rest
  }

  ghost function AddTo(b: Book, fd: nat): Book {
    Book(b.bits + {fd}, b.fds + {fd}, if fd > b.maxFd then fd else b.maxFd)
  }

  ghost function RemoveFrom(b: Book, fd: nat): Book {
    var left := b.fds - {fd};
    Book(b.bits - {fd}, left, if fd >= b.maxFd && left != {} then MaxOf(left) else b.maxFd)
  }

  /** An erased iterator must point into the set. */
  ghost predicate Legal(ops: seq<Op>)
    decreases |ops|, 0
  {
    ops == [] ||
      (Legal(ops[..|ops| - 1]) && (ops[|ops| - 1].Remove? ==> ops[|ops| - 1].fd in Run(ops[..|ops| - 1]).fds))
  }

  ghost function Run(ops: seq<Op>): Book
    requires Legal(ops)
    decreases |ops|, 1
  {
    if ops == [] then Book({}, {}, 0)
    else
      var b := Run(ops[..|ops| - 1]);
      match ops[|ops| - 1]
      case Add(fd) => AddTo(b, fd)
      case Remove(fd) => RemoveFrom(b, fd)
  }

  /** After any sequence of calls the bitmap has the members of the set and the cached maximum is an
      upper bound, so `select(max_fd + 1, ...)` looks at every watched descriptor. */
  lemma {:induction false} MaxIsUpperBound(ops: seq<Op>)
    requires Legal(ops)
    ensures Run(ops).bits == Run(ops).fds
    ensures forall fd <- Run(ops).fds :: fd <= Run(ops).maxFd
    decreases |ops|
  {
    if ops != [] {
      MaxIsUpperBound(ops[..|ops| - 1]);
    }
  }

  /** The longest prefix that leaves the set empty. */
  ghost function LastEmpty(ops: seq<Op>): (n: nat)
    requires Legal(ops)
    ensures n <= |ops|
    decreases |ops|
  {
    if Run(ops).fds == {} then |ops| else LastEmpty(ops[..|ops| - 1])
  }

  lemma {:induction false} PrefixLegal(ops: seq<Op>, n: nat)
    requires Legal(ops) && n <= |ops|
    ensures Legal(ops[..n])
    decreases |ops|
  {
    if n < |ops| {
      PrefixLegal(ops[..|ops| - 1], n);
      assert ops[..|ops| - 1][..n] == ops[..n];
    } else {
      assert ops[..n] == ops;
    }
  }

  /** What was cached when the set was last empty. */
  ghost function Stale(ops: seq<Op>): nat
    requires Legal(ops)
    decreases |ops|
  {
    if Run(ops).fds == {} then Run(ops).maxFd else Stale(ops[..|ops| - 1])
  }

  /** Since the set was last empty, a descriptor at least as large as the value cached then was added. */
  ghost predicate Refreshed(ops: seq<Op>)
    requires Legal(ops)
  {
    exists i :: LastEmpty(ops) <= i < |ops| && ops[i].Add? && ops[i].fd >= Stale(ops)
  }

  /** Exactly when the cached maximum is the maximum: it goes stale only by emptying the set. */
  lemma {:induction false} MaxIsExactIffRefreshed(ops: seq<Op>)
    requires Legal(ops) && Run(ops).fds != {}
    ensures Run(ops).maxFd == MaxOf(Run(ops).fds) <==> Refreshed(ops)
  {
    Cached(ops);
  }

  lemma {:induction false} Cached(ops: seq<Op>)
    requires Legal(ops)
    ensures Refreshed(ops) ==> Run(ops).maxFd == MaxOf(Run(ops).fds)
    ensures !Refreshed(ops) ==> Run(ops).maxFd == Stale(ops) && forall fd <- Run(ops).fds :: fd < Stale(ops)
    decreases |ops|
  {
    if ops != [] && Run(ops).fds != {} {
      var before := ops[..|ops| - 1];
      Cached(before);
      MaxIsUpperBound(before);
      RefreshedSnoc(ops);
      if Refreshed(ops) {
        var b := Run(ops);
        assert b.maxFd in b.fds && forall fd <- b.fds :: fd <= b.maxFd;
      }
    } else {
      assert LastEmpty(ops) == |ops|;
    }
  }

  /** How the last call bears on `Refreshed`. */
  lemma RefreshedSnoc(ops: seq<Op>)
    requires Legal(ops) && ops != [] && Run(ops).fds != {}
    ensures var before, op := ops[..|ops| - 1], ops[|ops| - 1];
      && Stale(ops) == Stale(before)
      && (Refreshed(ops) <==> Refreshed(before) || (op.Add? && op.fd >= Stale(ops)))
      && (Run(before).fds == {} ==> !Refreshed(before))
  {
    var before := ops[..|ops| - 1];
    assert LastEmpty(ops) == LastEmpty(before);
    if i :| LastEmpty(before) <= i < |before| && before[i].Add? && before[i].fd >= Stale(before) {
      assert ops[i] == before[i];
    }
    if i :| LastEmpty(ops) <= i < |ops| && ops[i].Add? && ops[i].fd >= Stale(ops) {
      assert i < |before| ==> before[i] == ops[i];
    }
    if ops[|ops| - 1].Add? && ops[|ops| - 1].fd >= Stale(ops) {
      assert LastEmpty(ops) <= |ops| - 1;
    }
  }

  /** An emptied set keeps its maximum, and a smaller descriptor does not displace it. */
  lemma StaleExample()
    ensures Legal([Add(5), Remove(5), Add(3)])
    ensures Run([Add(5), Remove(5), Add(3)]) == Book({3}, {3}, 5)
  {
    var a, ab, abc := [Add(5)], [Add(5), Remove(5)], [Add(5), Remove(5), Add(3)];
    assert a[..0] == [] && ab[..1] == a && abc[..2] == ab;
    assert Run(a) == Book({5}, {5}, 5);
    assert Run(ab) == Book({}, {}, 5);
  }
}
