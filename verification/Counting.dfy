/** Occurrences of a value in a sequence. */
module Counting {

  /** How often x occurs in s. */
  ghost function Count<T>(s: seq<T>, x: T): nat {
    if s == [] then 0 else (if s[0] == x then 1 else 0) + Count(s[1..], x)
  }

  lemma {:induction false} CountUpdate<T>(s: seq<T>, i: nat, v: T, x: T)
    requires i < |s|
    ensures Count(s[i := v], x) == Count(s, x) - (if x == s[i] then 1 else 0) + (if x == v then 1 else 0)
  {
    if i > 0 {
      assert s[i := v][1..] == s[1..][i - 1 := v];
      CountUpdate(s[1..], i - 1, v, x);
    }
  }

  lemma {:induction false} CountSnoc<T>(s: seq<T>, v: T, x: T)
    ensures Count(s + [v], x) == Count(s, x) + (if x == v then 1 else 0)
  {
    if s != [] {
      assert (s + [v])[1..] == s[1..] + [v];
      CountSnoc(s[1..], v, x);
    }
  }

  lemma CountTail<T>(s: seq<T>, x: T)
    requires s != []
    ensures Count(s[1..], x) == Count(s, x) - (if s[0] == x then 1 else 0)
  {
  }

  lemma {:induction false} CountAbsent<T>(s: seq<T>, x: T)
    ensures Count(s, x) == 0 <==> x !in s
  {
    if s != [] {
      CountAbsent(s[1..], x);
    }
  }

  lemma {:induction false} CountIsMultiplicity<T>(s: seq<T>, x: T)
    ensures Count(s, x) == multiset(s)[x]
  {
    if s != [] {
      assert s == [s[0]] + s[1..];
      CountIsMultiplicity(s[1..], x);
    }
  }

  /** A set has two elements, or more. */
  lemma TwoOrMore<T>(s: set<T>)
    ensures |s| >= 2 <==> exists x, y :: x in s && y in s && x != y
  {
    if |s| >= 2 {
      var x :| x in s;
      assert |s - {x}| == |s| - 1;
      var y :| y in s - {x};
    }
    if x, y :| x in s && y in s && x != y {
      assert s == {x, y} + (s - {x, y});
    }
  }

  lemma {:induction false} SubsetSize<T>(a: set<T>, b: set<T>)
    requires a <= b
    ensures |a| <= |b|
  {
    if a != {} {
      var x :| x in a;
      SubsetSize(a - {x}, b - {x});
    }
  }
}
