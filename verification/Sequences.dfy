/** Concatenation, and logs of who contributed what. */
module Sequences {

  /** The parts one after the other. */
  function Flat<T>(parts: seq<seq<T>>): seq<T> {
    if parts == [] then [] else Flat(parts[..|parts| - 1]) + parts[|parts| - 1]
  }

  lemma {:induction false} FlatCons<T>(head: seq<T>, tail: seq<seq<T>>)
    ensures Flat([head] + tail) == head + Flat(tail)
    decreases |tail|
  {
    var all := [head] + tail;
    if tail == [] {
      assert all[..0] == [];
    } else {
      assert all[..|all| - 1] == [head] + tail[..|tail| - 1];
      FlatCons(head, tail[..|tail| - 1]);
    }
  }

  /** A part is not longer than the whole, and has no other elements. */
  lemma {:induction false} PartOfFlat<T>(parts: seq<seq<T>>, i: nat)
    requires i < |parts|
    ensures |parts[i]| <= |Flat(parts)| && forall x <- parts[i] :: x in Flat(parts)
  {
    if i < |parts| - 1 {
      PartOfFlat(parts[..|parts| - 1], i);
    }
  }

  /** An element of the whole is in some part. */
  lemma {:induction false} SomePart<T>(parts: seq<seq<T>>, x: T) returns (i: nat)
    requires x in Flat(parts)
    ensures i < |parts| && x in parts[i]
  {
    var n := |parts| - 1;
    if x in parts[n] {
      i := n;
    } else {
      i := SomePart(parts[..n], x);
    }
  }

  function Without<T>(s: seq<T>, i: nat): (r: seq<T>)
    requires i < |s|
    ensures |r| == |s| - 1
  {
    s[..i] + s[i + 1..]
  }

  lemma {:induction false} FlatWithout<T>(parts: seq<seq<T>>, i: nat)
    requires i < |parts|
    ensures |Flat(parts)| == |Flat(Without(parts, i))| + |parts[i]|
  {
    var n := |parts| - 1;
    if i == n {
      assert Without(parts, i) == parts[..n];
    } else {
      FlatWithout(parts[..n], i);
      assert Without(parts, i)[..n - 1] == Without(parts[..n], i);
      assert Without(parts, i)[n - 1] == parts[n];
    }
  }

  lemma MultisetWithout<T>(s: seq<T>, i: nat)
    requires i < |s|
    ensures multiset(Without(s, i)) == multiset(s) - multiset{s[i]}
  {
    assert s == s[..i] + [s[i]] + s[i + 1..];
  }

  /** Putting the parts in another order keeps the length. */
  lemma {:induction false} SameLength<T>(a: seq<seq<T>>, b: seq<seq<T>>)
    requires multiset(a) == multiset(b)
    ensures |Flat(a)| == |Flat(b)|
    decreases |a|
  {
    assert |a| == |multiset(a)| == |multiset(b)| == |b|;
    if a != [] {
      var n := |a| - 1;
      assert a[n] in multiset(b);
      var i :| 0 <= i < |b| && b[i] == a[n];
      MultisetWithout(a, n);
      MultisetWithout(b, i);
      assert Without(a, n) == a[..n];
      SameLength(a[..n], Without(b, i));
      FlatWithout(b, i);
    }
  }

  lemma Associative<T>(a: seq<T>, b: seq<T>, c: seq<T>)
    ensures (a + b) + c == a + (b + c)
  {
  }

  /** One contribution to a log. */
  datatype Entry = Entry(who: nat, value: int)

  /** The values of a log. */
  function Values(log: seq<Entry>): (r: seq<int>)
    ensures |r| == |log|
  {
    if log == [] then [] else Values(log[..|log| - 1]) + [log[|log| - 1].value]
  }

  /** The values that t contributed, in order. */
  function By(log: seq<Entry>, t: nat): seq<int> {
    if log == [] then []
    else By(log[..|log| - 1], t) + if log[|log| - 1].who == t then [log[|log| - 1].value] else []
  }

  lemma LogSnoc(log: seq<Entry>, e: Entry, t: nat)
    ensures Values(log + [e]) == Values(log) + [e.value]
    ensures By(log + [e], t) == By(log, t) + if e.who == t then [e.value] else []
  {
    assert (log + [e])[..|log|] == log;
  }
}
