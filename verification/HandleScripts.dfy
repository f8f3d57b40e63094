/** Scripts of handle operations, and what they mean for sharing, deletion and leaks. */
module HandleScripts {
  import Counting

  datatype Op =
    | Make
    | Adopt(value: int, name: string)  // a new integer
    | Readopt(cell: nat, name: string) // a raw pointer that was adopted before
    | CopyOf(source: nat)
    | Assignment(left: nat, right: nat)
    | Drop(handle: nat)
    | Write(through: nat, value: int)  // set_val

  const NULL := -1

  /** What each handle points at, how many blocks were made, which of them were deleted, the integer of
      each block, and how often each integer was deleted. */
  datatype Sharing = Sharing(at: seq<int>, made: nat, gone: set<int>, cell: seq<nat>, frees: seq<nat>) {
    ghost predicate WellFormed() {
      && (forall i | 0 <= i < |at| :: NULL <= at[i] < made)
      && (forall n <- gone :: 0 <= n < made && n !in at)
      && |cell| == made && (forall n | 0 <= n < made :: cell[n] < |frees|)
    }

    /** The deleted blocks of an integer. */
    ghost function DeletedFor(k: nat): set<int> {
      set n | n in gone && 0 <= n < |cell| && cell[n] == k
    }

    /** Each integer was deleted once for each of its deleted blocks. */
    ghost predicate CountsFrees() {
      forall k: nat | k < |frees| :: frees[k] == |DeletedFor(k)|
    }

    /** The i-th handle is the only one on its block. */
    ghost predicate Sole(i: nat)
      requires i < |at|
    {
      at[i] != NULL && forall k | 0 <= k < |at| :: k != i ==> at[k] != at[i]
    }

    /** The integer that the i-th handle reads. */
    ghost function CellOf(i: nat): int {
      if i < |at| && 0 <= at[i] < |cell| then cell[at[i]] else NULL
    }

    /** A block that no handle reaches any more and that was not deleted. */
    ghost predicate Leaked(n: int) {
      0 <= n < made && n !in at && n !in gone
    }

    /** Deleting block n deletes its integer. */
    ghost function Delete(n: int): Sharing {
      this.(gone := gone + {n},
            frees := if 0 <= n < |cell| && cell[n] < |frees| then frees[cell[n] := frees[cell[n]] + 1] else frees)
    }
  }

  const Nothing := Sharing([], 0, {}, [], [])

  /** The intended meaning of a script.  Operations on handles or integers that do not exist, and copies of
      null handles and writes through them, are skipped. */
  ghost function Step(s: Sharing, op: Op): Sharing {
    match op
    case Make => s.(at := s.at + [NULL])
    case Adopt(_, _) =>
      s.(at := s.at + [s.made], made := s.made + 1, cell := s.cell + [|s.frees|], frees := s.frees + [0])
    case Readopt(k, _) =>
      if k < |s.frees| then s.(at := s.at + [s.made], made := s.made + 1, cell := s.cell + [k]) else s
    case CopyOf(i) => if i < |s.at| && s.at[i] != NULL then s.(at := s.at + [s.at[i]]) else s
    case Assignment(i, j) =>
      if i < |s.at| && j < |s.at| then
        (if s.Sole(i) && s.at[i] != s.at[j] then s.Delete(s.at[i]) else s).(at := s.at[i := s.at[j]])
      else s
    case Drop(i) => if i < |s.at| then s.(at := s.at[..i] + s.at[i + 1..]) else s
    case Write(_, _) => s
  }

  ghost function Meaning(script: seq<Op>): Sharing {
    if script == [] then Nothing else Step(Meaning(script[..|script| - 1]), script[|script| - 1])
  }

  // ----- when everything is reclaimed

  lemma {:induction false} MeaningIsWellFormed(script: seq<Op>)
    ensures Meaning(script).WellFormed()
  {
    if script != [] {
      MeaningIsWellFormed(script[..|script| - 1]);
      StepKeepsWellFormed(Meaning(script[..|script| - 1]), script[|script| - 1]);
    }
  }

  lemma StepKeepsWellFormed(s: Sharing, op: Op)
    requires s.WellFormed()
    ensures Step(s, op).WellFormed()
  {
    var t := Step(s, op);
    forall n <- t.gone
      ensures 0 <= n < t.made && n !in t.at
    {
      assert forall i | 0 <= i < |t.at| :: t.at[i] == NULL || t.at[i] == s.made || t.at[i] in s.at;
    }
  }

  /** The operation destroys the last handle to a block. */
  ghost predicate DropsLast(s: Sharing, op: Op) {
    op.Drop? && op.handle < |s.at| && s.Sole(op.handle)
  }

  /** One operation leaks a block exactly if it drops the block's last handle; nothing leaked comes back. */
  lemma StepLeaks(s: Sharing, op: Op, n: int)
    requires s.WellFormed()
    ensures Step(s, op).Leaked(n) <==> s.Leaked(n) || (DropsLast(s, op) && n == s.at[op.handle])
  {
    var t := Step(s, op);
    if n < 0 {
      return;
    }
    match op {
      case Make => assert n in t.at <==> n == NULL || n in s.at;
      case Adopt(_, _) => assert n in t.at <==> n == s.made || n in s.at;
      case Readopt(k, _) => assert n in t.at <==> (k < |s.frees| && n == s.made) || n in s.at;
      case CopyOf(i) => assert n in t.at <==> n in s.at;
      case Assignment(i, j) =>
        if i < |s.at| && j < |s.at| {
          AfterAssignment(s, i, j, n);
        }
      case Drop(i) =>
        if i < |s.at| {
          AfterDrop(s, i, n);
        }
      case Write(_, _) =>
    }
  }

  lemma AfterAssignment(s: Sharing, i: nat, j: nat, n: int)
    requires i < |s.at| && j < |s.at| && n != NULL
    ensures n in s.at[i := s.at[j]] <==> n in s.at && (n == s.at[i] && s.Sole(i) ==> n == s.at[j])
  {
    var at := s.at[i := s.at[j]];
    if n in s.at && (n == s.at[i] && s.Sole(i) ==> n == s.at[j]) {
      var k :| 0 <= k < |s.at| && s.at[k] == n && (k != i || s.at[j] == n);
      assert at[k] == n;
    }
  }

  lemma AfterDrop(s: Sharing, i: nat, n: int)
    requires i < |s.at| && n != NULL
    ensures n in s.at[..i] + s.at[i + 1..] <==> n in s.at && !(n == s.at[i] && s.Sole(i))
  {
    var at := s.at[..i] + s.at[i + 1..];
    if n in s.at && !(n == s.at[i] && s.Sole(i)) {
      var k :| 0 <= k < |s.at| && s.at[k] == n && k != i;
      assert at[if k < i then k else k - 1] == n;
    }
  }

  ghost predicate AllReclaimed(s: Sharing) {
    forall n | 0 <= n < s.made :: !s.Leaked(n)
  }

  /** The i-th operation of the script destroys the last handle to a block. */
  ghost predicate DropsLastAt(script: seq<Op>, i: nat)
    requires i < |script|
  {
    DropsLast(Meaning(script[..i]), script[i])
  }

  ghost predicate NeverDropsLast(script: seq<Op>) {
    forall i: nat | i < |script| :: !DropsLastAt(script, i)
  }

  lemma NeverDropsLastSnoc(script: seq<Op>, op: Op)
    ensures NeverDropsLast(script + [op]) <==> NeverDropsLast(script) && !DropsLast(Meaning(script), op)
  {
    var all := script + [op];
    forall i: nat | i < |script|
      ensures DropsLastAt(all, i) == DropsLastAt(script, i)
    {
      assert all[..i] == script[..i];
    }
    assert all[..|script|] == script;
    assert DropsLastAt(all, |script|) == DropsLast(Meaning(script), op);
  }

  lemma StepReclaims(s: Sharing, op: Op)
    requires s.WellFormed()
    ensures AllReclaimed(Step(s, op)) <==> AllReclaimed(s) && !DropsLast(s, op)
  {
    forall n ensures Step(s, op).Leaked(n) <==> s.Leaked(n) || (DropsLast(s, op) && n == s.at[op.handle]) {
      StepLeaks(s, op, n);
    }
    if DropsLast(s, op) {
      assert Step(s, op).Leaked(s.at[op.handle]);
    }
  }

  /** A script reclaims every block it stops using, exactly if it never destroys a block's last handle:
      only assignment deletes. */
  lemma {:induction false} ReclaimsIffNoLastDrop(script: seq<Op>)
    ensures AllReclaimed(Meaning(script)) <==> NeverDropsLast(script)
  {
    if script != [] {
      var most, op := script[..|script| - 1], script[|script| - 1];
      ReclaimsIffNoLastDrop(most);
      MeaningIsWellFormed(most);
      StepReclaims(Meaning(most), op);
      NeverDropsLastSnoc(most, op);
      assert script == most + [op];
    }
  }

  /** An integer whose only handle is destroyed leaks. */
  lemma LeakExample()
    ensures Meaning([Adopt(0, "x"), Drop(0)]).Leaked(0)
  {
    var a, ab := [Adopt(0, "x")], [Adopt(0, "x"), Drop(0)];
    assert a[..0] == [] && ab[..1] == a;
    assert Meaning(a).at == [0] && Meaning(ab).at == [];
  }

  // ----- how often an integer is deleted

  lemma DeleteCounts(s: Sharing, n: int, k: nat)
    requires s.WellFormed() && s.CountsFrees() && 0 <= n < s.made && n !in s.gone && k < |s.frees|
    ensures s.Delete(n).frees[k] == |s.Delete(n).DeletedFor(k)|
  {
    var t := s.Delete(n);
    if s.cell[n] == k {
      assert t.DeletedFor(k) == s.DeletedFor(k) + {n};
    } else {
      assert t.DeletedFor(k) == s.DeletedFor(k);
    }
  }

  lemma StepCountsFrees(s: Sharing, op: Op)
    requires s.WellFormed() && s.CountsFrees()
    ensures Step(s, op).CountsFrees()
  {
    var t := Step(s, op);
    forall k: nat | k < |t.frees| ensures t.frees[k] == |t.DeletedFor(k)| {
      if op.Assignment? && t.gone != s.gone {
        assert s.at[op.left] in s.at;
        DeleteCounts(s, s.at[op.left], k);
        assert t.DeletedFor(k) == s.Delete(s.at[op.left]).DeletedFor(k);
      } else if k < |s.frees| {
        assert t.DeletedFor(k) == s.DeletedFor(k);
      } else {
        assert t.DeletedFor(k) == {};
      }
    }
  }

  /** Over every script: an integer is deleted once for each deleted block that was made for it. */
  lemma {:induction false} FreesAreCounted(script: seq<Op>)
    ensures Meaning(script).WellFormed() && Meaning(script).CountsFrees()
  {
    MeaningIsWellFormed(script);
    if script != [] {
      FreesAreCounted(script[..|script| - 1]);
      StepCountsFrees(Meaning(script[..|script| - 1]), script[|script| - 1]);
    }
  }

  /** The operation assigns to the last handle of a block that was made for integer k: the guard under which
      assignment deletes. */
  ghost predicate LetsGo(s: Sharing, op: Op, k: nat) {
    && op.Assignment? && op.left < |s.at| && op.right < |s.at|
    && s.Sole(op.left) && s.at[op.left] != s.at[op.right]
    && 0 <= s.at[op.left] < |s.cell| && s.cell[s.at[op.left]] == k
  }

  /** The operation makes a block for integer k. */
  ghost predicate Adopts(s: Sharing, op: Op, k: nat) {
    (op.Adopt? && k == |s.frees|) || (op.Readopt? && op.cell == k < |s.frees|)
  }

  ghost predicate LetsGoAt(script: seq<Op>, i: nat, k: nat)
    requires i < |script|
  {
    LetsGo(Meaning(script[..i]), script[i], k)
  }

  /** How often the script lets go of the last handle to a block for integer k. */
  ghost function Times(script: seq<Op>, k: nat): nat {
    if script == [] then 0
    else
      var most := script[..|script| - 1];
      Times(most, k) + if LetsGo(Meaning(most), script[|script| - 1], k) then 1 else 0
  }

  /** How often the script adopts integer k. */
  ghost function Adoptions(script: seq<Op>, k: nat): nat {
    if script == [] then 0
    else
      var most := script[..|script| - 1];
      Adoptions(most, k) + if Adopts(Meaning(most), script[|script| - 1], k) then 1 else 0
  }

  /** An integer that is not there yet was neither let go of nor adopted. */
  lemma {:induction false} NothingBefore(script: seq<Op>, k: nat)
    requires k >= |Meaning(script).frees|
    ensures Times(script, k) == 0 && Adoptions(script, k) == 0
  {
    MeaningIsWellFormed(script);
    if script != [] {
      var most := script[..|script| - 1];
      MeaningIsWellFormed(most);
      NothingBefore(most, k);
    }
  }

  /** An integer is deleted exactly when the last handle to a block made for it is assigned to. */
  lemma {:induction false} FreesAreTimes(script: seq<Op>, k: nat)
    requires k < |Meaning(script).frees|
    ensures Meaning(script).frees[k] == Times(script, k)
  {
    if script != [] {
      var most := script[..|script| - 1];
      MeaningIsWellFormed(most);
      if k < |Meaning(most).frees| {
        FreesAreTimes(most, k);
      } else {
        NothingBefore(most, k);
      }
      StepFrees(Meaning(most), script[|script| - 1], k);
    }
  }

  lemma StepFrees(s: Sharing, op: Op, k: nat)
    requires s.WellFormed() && k < |Step(s, op).frees|
    ensures Step(s, op).frees[k] == (if k < |s.frees| then s.frees[k] else 0) + if LetsGo(s, op, k) then 1 else 0
  {
  }

  /** The blocks made for integer k. */
  ghost function BlocksFor(cell: seq<nat>, k: nat): set<int> {
    set n | 0 <= n < |cell| && cell[n] == k
  }

  lemma OneMoreBlock(cell: seq<nat>, c: nat, k: nat)
    ensures |BlocksFor(cell + [c], k)| == |BlocksFor(cell, k)| + if c == k then 1 else 0
  {
    if c == k {
      assert BlocksFor(cell + [c], k) == BlocksFor(cell, k) + {|cell|};
    } else {
      assert BlocksFor(cell + [c], k) == BlocksFor(cell, k);
    }
  }

  lemma StepBlocks(s: Sharing, op: Op, k: nat)
    ensures |BlocksFor(Step(s, op).cell, k)| == |BlocksFor(s.cell, k)| + if Adopts(s, op, k) then 1 else 0
  {
    match op {
      case Adopt(_, _) => OneMoreBlock(s.cell, |s.frees|, k);
      case Readopt(c, _) => OneMoreBlock(s.cell, c, k);
      case Assignment(_, _) => assert Step(s, op).cell == s.cell;
      case _ =>
    }
  }

  /** An integer has one block for each time it was adopted. */
  lemma {:induction false} AdoptionsMakeBlocks(script: seq<Op>, k: nat)
    ensures |BlocksFor(Meaning(script).cell, k)| == Adoptions(script, k)
  {
    if script != [] {
      var most, op := script[..|script| - 1], script[|script| - 1];
      MeaningIsWellFormed(most);
      AdoptionsMakeBlocks(most, k);
      StepBlocks(Meaning(most), op, k);
    }
  }

  lemma LetsGoSnoc(script: seq<Op>, op: Op, i: nat, k: nat)
    requires i <= |script|
    ensures LetsGoAt(script + [op], i, k) ==
      if i < |script| then LetsGoAt(script, i, k) else LetsGo(Meaning(script), op, k)
  {
    var all := script + [op];
    if i < |script| {
      assert all[..i] == script[..i];
    } else {
      assert all[..i] == script;
    }
  }

  lemma {:induction false} SomeTime(script: seq<Op>, k: nat)
    ensures Times(script, k) >= 1 <==> exists i: nat :: i < |script| && LetsGoAt(script, i, k)
  {
    if script != [] {
      var n := |script| - 1;
      var most, op := script[..n], script[n];
      assert script == most + [op];
      SomeTime(most, k);
      forall i: nat | i <= n {
        LetsGoSnoc(most, op, i, k);
      }
      if i: nat :| i < n && LetsGoAt(most, i, k) {
        assert LetsGoAt(script, i, k);
      }
      if LetsGo(Meaning(most), op, k) {
        assert LetsGoAt(script, n, k);
      }
      if i: nat :| i < |script| && LetsGoAt(script, i, k) {
        assert i < n ==> LetsGoAt(most, i, k);
      }
    }
  }

  /** Two operations of the script let go of a last handle to a block for integer k. */
  ghost predicate LetsGoTwice(script: seq<Op>, k: nat) {
    exists i: nat, j: nat :: i < j < |script| && LetsGoAt(script, i, k) && LetsGoAt(script, j, k)
  }

  lemma LetsGoTwiceSnoc(script: seq<Op>, op: Op, k: nat)
    ensures LetsGoTwice(script + [op], k) <==>
      LetsGoTwice(script, k) || (LetsGo(Meaning(script), op, k) && Times(script, k) >= 1)
  {
    var all, n := script + [op], |script|;
    forall i: nat | i <= n {
      LetsGoSnoc(script, op, i, k);
    }
    SomeTime(script, k);
    if LetsGoTwice(all, k) {
      var i: nat, j: nat :| i < j < |all| && LetsGoAt(all, i, k) && LetsGoAt(all, j, k);
      assert LetsGoAt(script, i, k) && (j < n ==> LetsGoAt(script, j, k));
    }
    if LetsGoTwice(script, k) {
      var i: nat, j: nat :| i < j < n && LetsGoAt(script, i, k) && LetsGoAt(script, j, k);
      assert LetsGoAt(all, i, k) && LetsGoAt(all, j, k);
    }
    if i: nat :| i < n && LetsGoAt(script, i, k) && LetsGo(Meaning(script), op, k) {
      assert LetsGoAt(all, i, k) && LetsGoAt(all, n, k);
    }
  }

  lemma {:induction false} TwoTimes(script: seq<Op>, k: nat)
    ensures Times(script, k) >= 2 <==> LetsGoTwice(script, k)
  {
    if script != [] {
      var most, op := script[..|script| - 1], script[|script| - 1];
      TwoTimes(most, k);
      LetsGoTwiceSnoc(most, op, k);
      assert script == most + [op];
    }
  }

  /** An integer is deleted twice if and only if two operations of the script assign to the last handle of
      a block that was made for it. */
  lemma DeletedTwiceIff(script: seq<Op>, k: nat)
    requires k < |Meaning(script).frees|
    ensures Meaning(script).frees[k] >= 2 <==> LetsGoTwice(script, k)
  {
    FreesAreTimes(script, k);
    TwoTimes(script, k);
  }

  /** No integer was deleted twice, and that of a block that was not deleted was not deleted at all. */
  ghost predicate SoundMeaning(s: Sharing) {
    && (forall k: nat | k < |s.frees| :: s.frees[k] <= 1)
    && (forall n: nat | n < |s.cell| && s.cell[n] < |s.frees| && n !in s.gone :: s.frees[s.cell[n]] == 0)
  }

  /** The script never adopts an integer twice and then lets go of a last handle to one of its blocks. */
  ghost predicate AdoptsOnceOrKeeps(script: seq<Op>) {
    forall k: nat | k < |Meaning(script).frees| :: Times(script, k) == 0 || Adoptions(script, k) <= 1
  }

  /** Of two blocks for a deleted integer, one was deleted too late or not at all. */
  lemma SharedIsUnsound(s: Sharing, k: nat)
    requires s.WellFormed() && s.CountsFrees() && k < |s.frees| && s.frees[k] >= 1 && |BlocksFor(s.cell, k)| >= 2
    ensures !SoundMeaning(s)
  {
    if s.DeletedFor(k) == BlocksFor(s.cell, k) {
      assert s.frees[k] >= 2;
    } else {
      var n: nat :| n in BlocksFor(s.cell, k) && n !in s.DeletedFor(k);
      assert s.frees[s.cell[n]] >= 1;
    }
  }

  /** The only block for an integer is deleted when the integer is. */
  lemma UnsharedIsSound(s: Sharing, k: nat)
    requires s.WellFormed() && s.CountsFrees() && k < |s.frees| && |BlocksFor(s.cell, k)| <= 1
    ensures s.frees[k] <= 1
    ensures forall n | n in BlocksFor(s.cell, k) && n !in s.gone :: s.frees[k] == 0
  {
    assert s.DeletedFor(k) <= BlocksFor(s.cell, k);
    Counting.SubsetSize(s.DeletedFor(k), BlocksFor(s.cell, k));
    forall n | n in BlocksFor(s.cell, k) && n !in s.gone ensures s.frees[k] == 0 {
      Counting.SubsetSize(s.DeletedFor(k) + {n}, BlocksFor(s.cell, k));
    }
  }

  /** A script deletes no integer twice or too early, if and only if every integer is adopted only once, or
      no last handle to one of its blocks is ever assigned to. */
  lemma SoundIff(script: seq<Op>)
    ensures SoundMeaning(Meaning(script)) <==> AdoptsOnceOrKeeps(script)
  {
    var s := Meaning(script);
    FreesAreCounted(script);
    forall k: nat | k < |s.frees|
      ensures s.frees[k] == Times(script, k) && |BlocksFor(s.cell, k)| == Adoptions(script, k)
    {
      FreesAreTimes(script, k);
      AdoptionsMakeBlocks(script, k);
    }
    if SoundMeaning(s) {
      forall k: nat | k < |s.frees| ensures Times(script, k) == 0 || Adoptions(script, k) <= 1 {
        if Times(script, k) > 0 && Adoptions(script, k) > 1 {
          SharedIsUnsound(s, k);
        }
      }
    }
    if AdoptsOnceOrKeeps(script) {
      forall k: nat | k < |s.frees|
        ensures s.frees[k] <= 1 && forall n | n in BlocksFor(s.cell, k) && n !in s.gone :: s.frees[k] == 0
      {
        if Adoptions(script, k) <= 1 {
          UnsharedIsSound(s, k);
        }
      }
      assert forall n: nat | n < |s.cell| && s.cell[n] < |s.frees| :: n in BlocksFor(s.cell, s.cell[n]);
    }
  }

  lemma MeaningSnoc(script: seq<Op>, op: Op)
    ensures Meaning(script + [op]) == Step(Meaning(script), op)
  {
    assert (script + [op])[..|script|] == script;
  }

  /** Two handles for the same raw pointer. */
  lemma TwoForOne() returns (script: seq<Op>)
    ensures script == [Adopt(0, ""), Readopt(0, "")]
    ensures Meaning(script) == Sharing([0, 1], 2, {}, [0, 0], [0])
  {
    script := [] + [Adopt(0, "")];
    MeaningSnoc([], Adopt(0, ""));
    MeaningSnoc(script, Readopt(0, ""));
    script := script + [Readopt(0, "")];
  }

  /** And a null one, to which the first moves on. */
  lemma OneMovesOn(script: seq<Op>) returns (longer: seq<Op>)
    requires Meaning(script) == Sharing([0, 1], 2, {}, [0, 0], [0])
    ensures longer == script + [Make] + [Assignment(0, 2)]
    ensures Meaning(longer) == Sharing([NULL, 1, NULL], 2, {0}, [0, 0], [1])
  {
    MeaningSnoc(script, Make);
    longer := script + [Make];
    assert Meaning(longer) == Sharing([0, 1, NULL], 2, {}, [0, 0], [0]);
    assert Meaning(longer).Sole(0);
    MeaningSnoc(longer, Assignment(0, 2));
    longer := longer + [Assignment(0, 2)];
  }

  lemma OtherMovesOn(script: seq<Op>)
    requires Meaning(script) == Sharing([NULL, 1, NULL], 2, {0}, [0, 0], [1])
    ensures Meaning(script + [Assignment(1, 2)]).frees == [2]
  {
    assert Meaning(script).Sole(1);
    MeaningSnoc(script, Assignment(1, 2));
  }

  /** A raw pointer given to two handles is deleted twice, once both have moved on. */
  lemma DoubleDeleteExample() returns (script: seq<Op>)
    ensures script == [Adopt(0, ""), Readopt(0, ""), Make, Assignment(0, 2), Assignment(1, 2)]
    ensures Meaning(script).frees == [2]
  {
    script := TwoForOne();
    script := OneMovesOn(script);
    OtherMovesOn(script);
    script := script + [Assignment(1, 2)];
  }

  ghost predicate NeverReadopts(script: seq<Op>) {
    forall op <- script :: !op.Readopt?
  }

  /** Without a second adoption every block has its own integer. */
  lemma {:induction false} OwnIntegers(script: seq<Op>)
    requires NeverReadopts(script)
    ensures var s := Meaning(script); |s.frees| == s.made == |s.cell| && forall n | 0 <= n < s.made :: s.cell[n] == n
  {
    if script != [] {
      OwnIntegers(script[..|script| - 1]);
    }
  }

  /** Without a second adoption no integer is deleted twice, or before its block. */
  lemma DeletedAtMostOnce(script: seq<Op>, k: nat)
    requires NeverReadopts(script) && k < |Meaning(script).frees|
    ensures Meaning(script).frees[k] == if k in Meaning(script).gone then 1 else 0
  {
    var s := Meaning(script);
    OwnIntegers(script);
    FreesAreCounted(script);
    if k in s.gone {
      assert s.DeletedFor(k) == {k};
    } else {
      assert s.DeletedFor(k) == {};
    }
  }

  // ----- what the handles read

  /** The name of each handle and the value of each integer. */
  datatype Contents = Contents(names: seq<string>, values: seq<int>)

  ghost predicate Fits(s: Sharing, t: Contents) {
    |t.names| == |s.at| && |t.values| == |s.frees|
  }

  /** What an operation does to them. */
  ghost function Rewritten(s: Sharing, t: Contents, op: Op): (u: Contents)
    requires Fits(s, t)
    ensures Fits(Step(s, op), u)
  {
    match op
    case Make => t.(names := t.names + [""])
    case Adopt(value, name) => Contents(t.names + [name], t.values + [value])
    case Readopt(k, name) => if k < |s.frees| then t.(names := t.names + [name]) else t
    case CopyOf(i) => if i < |s.at| && s.at[i] != NULL then t.(names := t.names + [t.names[i]]) else t
    case Assignment(i, j) =>
      if i < |s.at| && j < |s.at| then t.(names := t.names[i := t.names[j]]) else t
    case Drop(i) => if i < |s.at| then t.(names := t.names[..i] + t.names[i + 1..]) else t
    case Write(i, value) =>
      var k := s.CellOf(i);
      if 0 <= k < |t.values| then t.(values := t.values[k := value]) else t
  }

  ghost function Text(script: seq<Op>): (t: Contents)
    ensures Fits(Meaning(script), t)
  {
    if script == [] then Contents([], [])
    else
      var most := script[..|script| - 1];
      Rewritten(Meaning(most), Text(most), script[|script| - 1])
  }

  /** The operation gives integer k the value v: as its first, or through a handle. */
  ghost predicate Gives(s: Sharing, op: Op, k: nat, v: int) {
    (op.Adopt? && k == |s.frees| && op.value == v) || (op.Write? && s.CellOf(op.through) == k && op.value == v)
  }

  ghost predicate GivesAt(script: seq<Op>, i: nat, k: nat, v: int)
    requires i < |script|
  {
    Gives(Meaning(script[..i]), script[i], k, v)
  }

  /** v is the last value that integer k was given. */
  ghost predicate LastGiven(script: seq<Op>, k: nat, v: int) {
    exists i: nat :: i < |script| && GivesAt(script, i, k, v) &&
      forall j: nat, w: int | i < j < |script| :: !GivesAt(script, j, k, w)
  }

  lemma GivesSnoc(script: seq<Op>, op: Op, i: nat, k: nat, v: int)
    requires i <= |script|
    ensures GivesAt(script + [op], i, k, v) ==
      if i < |script| then GivesAt(script, i, k, v) else Gives(Meaning(script), op, k, v)
  {
    var all := script + [op];
    if i < |script| {
      assert all[..i] == script[..i];
    } else {
      assert all[..i] == script;
    }
  }

  lemma LastGivenSnoc(script: seq<Op>, op: Op, k: nat, v: int)
    requires if forall w :: !Gives(Meaning(script), op, k, w) then LastGiven(script, k, v)
      else Gives(Meaning(script), op, k, v)
    ensures LastGiven(script + [op], k, v)
  {
    var all, n := script + [op], |script|;
    forall i: nat, w: int | i <= n {
      GivesSnoc(script, op, i, k, w);
    }
    if Gives(Meaning(script), op, k, v) {
      assert GivesAt(all, n, k, v);
    } else {
      var i: nat :| i < n && GivesAt(script, i, k, v) && forall j: nat, w: int | i < j < n :: !GivesAt(script, j, k, w);
      assert GivesAt(all, i, k, v);
    }
  }

  /** An integer has the value it was last given, by its adoption or through whichever handle; copies,
      assignments and destructions leave it alone. */
  lemma {:induction false} HoldsLastGiven(script: seq<Op>, k: nat)
    requires k < |Meaning(script).frees|
    ensures LastGiven(script, k, Text(script).values[k])
  {
    if script != [] {
      var most, op := script[..|script| - 1], script[|script| - 1];
      assert script == most + [op];
      if forall w :: !Gives(Meaning(most), op, k, w) {
        assert op.Adopt? ==> !Gives(Meaning(most), op, k, op.value);
        assert op.Write? ==> !Gives(Meaning(most), op, k, op.value);
        HoldsLastGiven(most, k);
      }
      LastGivenSnoc(most, op, k, Text(script).values[k]);
    }
  }
}
