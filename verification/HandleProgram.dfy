/** Whole programs over reference-counted handles do what their scripts mean. */
module HandleProgram {
  import opened RefCount
  import opened HandleScripts

  ghost predicate Live(heap: Heap, handles: seq<IntPtr>)
    reads heap`live
  {
    && (forall h <- handles :: h in heap.live) && (forall h <- heap.live :: h in handles)
    && (forall i, k | 0 <= i < k < |handles| :: handles[i] != handles[k])
  }

  ghost predicate Made(heap: Heap, made: seq<Block>, gone: set<int>)
    reads heap`blocks, made`deleted
  {
    && (forall b <- made :: b in heap.blocks) && (forall b <- heap.blocks :: b in made)
    && (forall n, m | 0 <= n < m < |made| :: made[n] != made[m])
    && (forall n <- gone :: 0 <= n < |made|)
    && (forall n | 0 <= n < |made| :: made[n].deleted <==> n in gone)
  }

  /** The block a handle is meant to point at. */
  ghost function Target(made: seq<Block>, n: int): Block?
    requires NULL <= n < |made|
  {
    if n == NULL then null else made[n]
  }

  ghost predicate PointsAt(handles: seq<IntPtr>, made: seq<Block>, at: seq<int>)
    reads handles`ptr
  {
    && |handles| == |at|
    && forall i | 0 <= i < |at| :: NULL <= at[i] < |made| && handles[i].ptr == Target(made, at[i])
  }

  ghost predicate Represents(heap: Heap, handles: seq<IntPtr>, made: seq<Block>, s: Sharing)
    reads heap`live, heap`blocks, handles`ptr, made`deleted
  {
    Live(heap, handles) && Made(heap, made, s.gone) && PointsAt(handles, made, s.at) && |made| == s.made
  }

  lemma SoleOwner(heap: Heap, handles: seq<IntPtr>, made: seq<Block>, s: Sharing, i: nat)
    requires Represents(heap, handles, made, s) && i < |handles|
    ensures handles[i].ptr != null ==> (heap.Owners(handles[i].ptr) == {handles[i]} <==> s.Sole(i))
  {
    if s.at[i] == NULL {
      return;
    }
    forall k | 0 <= k < |handles|
      ensures handles[k] in heap.Owners(handles[i].ptr) <==> s.at[k] == s.at[i]
    {
    }
    if s.Sole(i) {
      assert forall h <- heap.Owners(handles[i].ptr) :: h == handles[i];
    } else {
      var k :| 0 <= k < |s.at| && k != i && s.at[k] == s.at[i];
      assert handles[k] in heap.Owners(handles[i].ptr) && handles[k] != handles[i];
    }
  }

  /** An assignment seen from the blocks: exactly the one that lost its only handle is newly deleted. */
  lemma Reassigned(heap: Heap, handles: seq<IntPtr>, made: seq<Block>, s: Sharing, left: nat, right: nat)
    requires left < |s.at| && right < |s.at| && |made| == s.made && |handles| == |s.at|
    requires forall i | 0 <= i < |s.at| :: NULL <= s.at[i] < |made|
    requires Live(heap, handles)
    requires forall i | 0 <= i < |s.at| :: handles[i].ptr == Target(made, s.at[if i == left then right else i])
    requires && (forall b <- made :: b in heap.blocks) && (forall b <- heap.blocks :: b in made)
    requires forall n, m | 0 <= n < m < |made| :: made[n] != made[m]
    requires forall n <- s.gone :: 0 <= n < |made|
    requires forall n | 0 <= n < |made| :: made[n].deleted <==>
      n in s.gone || (made[n] == Target(made, s.at[left]) && made[n] != Target(made, s.at[right]) && s.Sole(left))
    ensures Represents(heap, handles, made, Step(s, Assignment(left, right)))
  {
  }

  /** One handle is gone, and the others moved up. */
  lemma Removed(heap: Heap, handles: seq<IntPtr>, made: seq<Block>, at: seq<int>, i: nat)
    requires i < |handles| && PointsAt(handles, made, at)
    requires forall j, k | 0 <= j < k < |handles| :: handles[j] != handles[k]
    requires forall h <- heap.live :: h in handles && h != handles[i]
    requires forall h <- handles :: h != handles[i] ==> h in heap.live
    ensures Live(heap, handles[..i] + handles[i + 1..])
    ensures PointsAt(handles[..i] + handles[i + 1..], made, at[..i] + at[i + 1..])
  {
    var rest := handles[..i] + handles[i + 1..];
    forall h <- heap.live ensures h in rest {
      var k :| 0 <= k < |handles| && handles[k] == h;
      assert rest[if k < i then k else k - 1] == h;
    }
  }

  /** Which integer each block is for. */
  ghost predicate MadeFor(made: seq<Block>, store: seq<Cell>, cell: seq<nat>) {
    |cell| == |made| && forall n | 0 <= n < |made| :: cell[n] < |store| && made[n].p == store[cell[n]]
  }

  /** The integers there are, and how often each was deleted. */
  ghost predicate Freed(heap: Heap, store: seq<Cell>, frees: seq<nat>)
    reads heap`cells, store`frees
  {
    && (forall c <- store :: c in heap.cells) && (forall c <- heap.cells :: c in store)
    && (forall j, k | 0 <= j < k < |store| :: store[j] != store[k])
    && |frees| == |store| && (forall k | 0 <= k < |store| :: store[k].frees == frees[k])
  }

  ghost predicate Stored(heap: Heap, made: seq<Block>, store: seq<Cell>, cell: seq<nat>, frees: seq<nat>)
    reads heap`cells, store`frees
  {
    MadeFor(made, store, cell) && Freed(heap, store, frees)
  }

  /** The integer of the block that an assignment deleted, and no other, was deleted once more. */
  lemma StoredAfter(heap: Heap, made: seq<Block>, store: seq<Cell>, s: Sharing, left: nat, right: nat)
    requires left < |s.at| && right < |s.at| && NULL <= s.at[left] < |made|
    requires |made| == |s.cell| && |s.frees| == |store|
    requires forall n | 0 <= n < |made| :: s.cell[n] < |store| && made[n].p == store[s.cell[n]]
    requires (forall c <- store :: c in heap.cells) && (forall c <- heap.cells :: c in store)
    requires forall j, k | 0 <= j < k < |store| :: store[j] != store[k]
    requires s.at[left] != NULL ==> (made[s.at[left]].deleted <==> s.Sole(left) && s.at[left] != s.at[right])
    requires forall k | 0 <= k < |store| ::
      var l := s.at[left];
      store[k].frees == s.frees[k] + if l != NULL && made[l].p == store[k] && made[l].deleted then 1 else 0
    ensures var t := Step(s, Assignment(left, right)); Stored(heap, made, store, t.cell, t.frees)
  {
  }

  /** The names of the handles and the values of the integers. */
  ghost predicate Inscribed(handles: seq<IntPtr>, store: seq<Cell>, t: Contents)
    reads handles`name, store`value
  {
    && |t.names| == |handles| && (forall i | 0 <= i < |handles| :: handles[i].name == t.names[i])
    && |t.values| == |store| && forall k | 0 <= k < |store| :: store[k].value == t.values[k]
  }

  lemma OneMoreName(handles: seq<IntPtr>, store: seq<Cell>, t: Contents, h: IntPtr)
    requires Inscribed(handles, store, t)
    ensures Inscribed(handles + [h], store, t.(names := t.names + [h.name]))
  {
  }

  lemma OneMoreValue(handles: seq<IntPtr>, store: seq<Cell>, t: Contents, c: Cell)
    requires Inscribed(handles, store, t)
    ensures Inscribed(handles, store + [c], t.(values := t.values + [c.value]))
  {
  }

  /** A new block for a new integer. */
  lemma MadeForNew(made: seq<Block>, store: seq<Cell>, cell: seq<nat>, b: Block)
    requires MadeFor(made, store, cell)
    ensures MadeFor(made + [b], store + [b.p], cell + [|store|])
  {
  }

  lemma OneMoreCell(heap: Heap, store: seq<Cell>, frees: seq<nat>, c: Cell)
    requires (forall d <- store :: d in heap.cells) && (forall d <- heap.cells :: d == c || d in store)
    requires (forall j, k | 0 <= j < k < |store| :: store[j] != store[k]) && |frees| == |store|
    requires forall k | 0 <= k < |store| :: store[k].frees == frees[k]
    requires c in heap.cells && c !in store && c.frees == 0
    ensures Freed(heap, store + [c], frees + [0])
  {
  }

  /** One more handle, on a known block or on none. */
  lemma OneMoreHandle(heap: Heap, handles: seq<IntPtr>, made: seq<Block>, s: Sharing, h: IntPtr, n: int)
    requires NULL <= n < |made| && h.ptr == Target(made, n) && h !in handles && h in heap.live
    requires PointsAt(handles, made, s.at) && Made(heap, made, s.gone) && |made| == s.made
    requires (forall g <- handles :: g in heap.live) && (forall g <- heap.live :: g == h || g in handles)
    requires forall i, k | 0 <= i < k < |handles| :: handles[i] != handles[k]
    ensures Represents(heap, handles + [h], made, s.(at := s.at + [n]))
  {
  }

  /** The names of the other handles move up with them. */
  lemma NameRemoved(handles: seq<IntPtr>, store: seq<Cell>, t: Contents, i: nat)
    requires Inscribed(handles, store, t) && i < |handles|
    ensures Inscribed(handles[..i] + handles[i + 1..], store, t.(names := t.names[..i] + t.names[i + 1..]))
  {
  }

  /** After an assignment the left handle has the name of the right one, and nothing was written. */
  lemma Renamed(handles: seq<IntPtr>, store: seq<Cell>, s: Sharing, t: Contents, left: nat, right: nat)
    requires Fits(s, t) && |s.at| == |handles| && left < |handles| && right < |handles|
    requires forall i | 0 <= i < |handles| :: handles[i].name == t.names[if i == left then right else i]
    requires |t.values| == |store| && forall k | 0 <= k < |store| :: store[k].value == t.values[k]
    ensures Inscribed(handles, store, Rewritten(s, t, Assignment(left, right)))
  {
  }

  /** A program that performs any script of handle operations. */
  class Program {
    const heap: Heap
    var handles: seq<IntPtr>
    /** The raw pointers that the program got from `new`. */
    var store: seq<Cell>
    ghost var made: seq<Block>

    constructor ()
      ensures Shows(Nothing, Contents([], []))
      ensures fresh(heap) && heap.live == {} && heap.blocks == {} && heap.cells == {}
    {
      heap := new Heap();
      handles, store, made := [], [], [];
    }

    ghost predicate Shows(s: Sharing, t: Contents)
      reads this, heap, heap.live, heap.blocks, heap.cells, handles, made, store
    {
      && heap.Valid() && Represents(heap, handles, made, s)
      && Stored(heap, made, store, s.cell, s.frees) && Inscribed(handles, store, t)
    }

    method Create(ghost s: Sharing, ghost t: Contents)
      requires Shows(s, t)
      modifies this, heap
      ensures Shows(Step(s, Make), Rewritten(s, t, Make))
      ensures fresh(heap.live - old(heap.live)) && heap.blocks == old(heap.blocks) && heap.cells == old(heap.cells)
    {
      var h := new IntPtr.Null(heap);
      handles := handles + [h];
    }

    /** A handle to a raw pointer that was or was not adopted before: a new block either way. */
    method FromPointer(p: Cell, name: string, ghost s: Sharing) returns (h: IntPtr)
      requires heap.Valid() && Represents(heap, handles, made, s)
      modifies this`handles, this`made, heap
      ensures heap.Valid() && Represents(heap, handles, made, s.(at := s.at + [s.made], made := s.made + 1))
      ensures fresh(h) && h.ptr != null && fresh(h.ptr) && h.ptr.p == p && made == old(made) + [h.ptr]
      ensures handles == old(handles) + [h] && h.name == name
      ensures heap.live == old(heap.live) + {h} && heap.blocks == old(heap.blocks) + {h.ptr}
      ensures heap.cells == old(heap.cells) + {p}
    {
      h := new IntPtr.FromRaw(p, name, heap);
      handles, made := handles + [h], made + [h.ptr];
    }

    /** The same, with its name. */
    method FromNamed(p: Cell, name: string, ghost s: Sharing, ghost t: Contents) returns (h: IntPtr)
      requires heap.Valid() && Represents(heap, handles, made, s) && Inscribed(handles, store, t)
      modifies this`handles, this`made, heap
      ensures heap.Valid() && Represents(heap, handles, made, s.(at := s.at + [s.made], made := s.made + 1))
      ensures Inscribed(handles, store, t.(names := t.names + [name]))
      ensures fresh(h) && h.ptr != null && fresh(h.ptr) && h.ptr.p == p && made == old(made) + [h.ptr]
      ensures heap.live == old(heap.live) + {h} && heap.blocks == old(heap.blocks) + {h.ptr}
      ensures heap.cells == old(heap.cells) + {p}
    {
      ghost var before := handles;
      h := FromPointer(p, name, s);
      OneMoreName(before, store, t, h);
    }

    /** For a raw pointer that was not adopted before. */
    method FromNewPointer(p: Cell, name: string, ghost s: Sharing, ghost t: Contents) returns (h: IntPtr)
      requires Shows(s, t) && p !in heap.cells && p.frees == 0
      modifies this, heap
      ensures heap.Valid() && Represents(heap, handles, made, s.(at := s.at + [s.made], made := s.made + 1))
      ensures Stored(heap, made, store, s.cell + [|s.frees|], s.frees + [0])
      ensures Inscribed(handles, store, Contents(t.names + [name], t.values + [p.value]))
      ensures fresh(h) && h.ptr != null && fresh(h.ptr) && h.ptr.p == p
      ensures heap.live == old(heap.live) + {h} && heap.blocks == old(heap.blocks) + {h.ptr}
      ensures heap.cells == old(heap.cells) + {p}
    {
      ghost var known, blocks := store, made;
      OneMoreValue(handles, store, t, p);
      store := store + [p];
      h := FromNamed(p, name, s, t.(values := t.values + [p.value]));
      MadeForNew(blocks, known, s.cell, h.ptr);
      OneMoreCell(heap, known, s.frees, p);
    }

    method FromValue(value: int, name: string, ghost s: Sharing, ghost t: Contents) returns (h: IntPtr)
      requires Shows(s, t)
      modifies this, heap
      ensures Shows(Step(s, Adopt(value, name)), Rewritten(s, t, Adopt(value, name)))
      ensures fresh(h) && h.ptr != null && fresh(h.ptr) && fresh(h.ptr.p) && h.ptr.p.value == value
      ensures heap.live == old(heap.live) + {h} && heap.blocks == old(heap.blocks) + {h.ptr}
      ensures heap.cells == old(heap.cells) + {h.ptr.p}
    {
      var p := new Cell(value);
      h := FromNewPointer(p, name, s, t);
    }

    method FromOldPointer(k: nat, name: string, ghost s: Sharing, ghost t: Contents) returns (h: IntPtr)
      requires Shows(s, t) && k < |store|
      modifies this, heap
      ensures Shows(Step(s, Readopt(k, name)), Rewritten(s, t, Readopt(k, name)))
      ensures fresh(h) && h.ptr != null && fresh(h.ptr)
      ensures heap.live == old(heap.live) + {h} && heap.blocks == old(heap.blocks) + {h.ptr}
      ensures heap.cells == old(heap.cells)
    {
      h := FromNamed(store[k], name, s, t);
    }

    method CopyHandle(obj: IntPtr, ghost s: Sharing, ghost i: nat) returns (h: IntPtr)
      requires heap.Valid() && Represents(heap, handles, made, s) && i < |handles| && handles[i] == obj
      requires obj.ptr != null
      modifies this`handles, heap`live, obj.ptr`use
      ensures heap.Valid() && Represents(heap, handles, made, s.(at := s.at + [s.at[i]]))
      ensures handles == old(handles) + [h] && h.name == obj.name
      ensures fresh(h) && heap.live == old(heap.live) + {h}
    {
      h := new IntPtr.Copy(obj, heap);
      OneMoreHandle(heap, handles, made, s, h, s.at[i]);
      handles := handles + [h];
    }

    /** The copy of a handle that is not null. */
    method CopyNamed(i: nat, ghost s: Sharing, ghost t: Contents)
      requires Shows(s, t) && i < |handles| && handles[i].ptr != null
      modifies this`handles, heap`live, heap.blocks`use
      ensures Shows(s.(at := s.at + [s.at[i]]), t.(names := t.names + [t.names[i]]))
      ensures fresh(heap.live - old(heap.live))
    {
      ghost var before := handles;
      var h := CopyHandle(handles[i], s, i);
      OneMoreName(before, store, t, h);
    }

    method Duplicate(source: nat, ghost s: Sharing, ghost t: Contents)
      requires Shows(s, t)
      modifies this, heap, heap.blocks
      ensures Shows(Step(s, CopyOf(source)), Rewritten(s, t, CopyOf(source)))
      ensures fresh(heap.live - old(heap.live)) && heap.blocks == old(heap.blocks) && heap.cells == old(heap.cells)
    {
      if source < |handles| && handles[source].ptr != null {
        CopyNamed(source, s, t);
      }
    }

    /** The assignment, as the handles, blocks and integers show it. */
    method AssignHandle(left: nat, right: nat, ghost s: Sharing)
      requires heap.Valid() && Represents(heap, handles, made, s) && left < |handles| && right < |handles|
      requires Stored(heap, made, store, s.cell, s.frees)
      modifies handles[left], heap`live, heap.blocks`use, heap.blocks`deleted, heap.cells`frees
      ensures heap.Valid() && Represents(heap, handles, made, Step(s, Assignment(left, right)))
      ensures var u := Step(s, Assignment(left, right)); Stored(heap, made, store, u.cell, u.frees)
      ensures handles[left].name == old(handles[right].name) && heap.live == old(heap.live)
    {
      SoleOwner(heap, handles, made, s, left);
      var l := handles[left];
      l.Assign(handles[right], heap);
      Reassigned(heap, handles, made, s, left, right);
      StoredAfter(heap, made, store, s, left, right);
    }

    method Reassign(left: nat, right: nat, ghost s: Sharing, ghost t: Contents)
      requires Shows(s, t)
      modifies heap, heap.live, heap.blocks, heap.cells
      ensures Shows(Step(s, Assignment(left, right)), Rewritten(s, t, Assignment(left, right)))
      ensures heap.live == old(heap.live) && heap.blocks == old(heap.blocks) && heap.cells == old(heap.cells)
    {
      if left < |handles| && right < |handles| {
        AssignHandle(left, right, s);
        Renamed(handles, store, s, t, left, right);
      }
    }

    method DestroyHandle(i: nat, ghost s: Sharing)
      requires heap.Valid() && Represents(heap, handles, made, s) && i < |handles|
      modifies this`handles, heap`live, heap.blocks`use, heap.blocks`deleted, heap.cells`frees
      ensures heap.Valid() && Represents(heap, handles, made, s.(at := s.at[..i] + s.at[i + 1..]))
      ensures heap.live <= old(heap.live) && forall c <- heap.cells :: c.frees == old(c.frees)
      ensures handles == old(handles[..i] + handles[i + 1..])
    {
      handles[i].Destroy(heap);
      Removed(heap, handles, made, s.at, i);
      handles := handles[..i] + handles[i + 1..];
    }

    method Discard(handle: nat, ghost s: Sharing, ghost t: Contents)
      requires Shows(s, t)
      modifies this, heap, heap.blocks, heap.cells
      ensures Shows(Step(s, Drop(handle)), Rewritten(s, t, Drop(handle)))
      ensures heap.live <= old(heap.live) && heap.blocks == old(heap.blocks) && heap.cells == old(heap.cells)
    {
      if handle < |handles| {
        NameRemoved(handles, store, t, handle);
        DestroyHandle(handle, s);
      }
    }

    method WriteThrough(through: nat, value: int, ghost s: Sharing, ghost t: Contents)
      requires Shows(s, t)
      modifies heap.cells`value
      ensures Shows(Step(s, Write(through, value)), Rewritten(s, t, Write(through, value)))
    {
      if through < |handles| && handles[through].ptr != null {
        assert made[s.at[through]] == handles[through].ptr;
        handles[through].SetVal(value, heap);
      }
    }

    /** The i-th handle has the name that is meant, and reads the value that is meant, or is null. */
    ghost predicate ReadsAs(i: nat, s: Sharing, t: Contents)
      requires i < |handles| && |t.names| == |s.at| == |handles|
      reads this, handles, set h | h in handles :: h.ptr, set h | h in handles && h.ptr != null :: h.ptr.p
    {
      && handles[i].name == t.names[i]
      && if s.at[i] == NULL then handles[i].ptr == null
         else handles[i].ptr != null && 0 <= s.CellOf(i) < |t.values| && handles[i].ptr.p.value == t.values[s.CellOf(i)]
    }

    lemma ReadsAsMeant(i: nat, s: Sharing, t: Contents)
      requires Shows(s, t) && i < |handles|
      ensures ReadsAs(i, s, t)
    {
      if s.at[i] != NULL {
        assert made[s.at[i]] == handles[i].ptr;
      }
    }

    method Perform(op: Op, ghost s: Sharing, ghost t: Contents)
      requires Shows(s, t)
      modifies this, heap, heap.live, heap.blocks, heap.cells
      ensures Shows(Step(s, op), Rewritten(s, t, op))
      ensures fresh(heap.live - old(heap.live)) && fresh(heap.blocks - old(heap.blocks))
      ensures fresh(heap.cells - old(heap.cells))
    {
      match op {
        case Make => Create(s, t);
        case Adopt(value, name) => var _ := FromValue(value, name, s, t);
        case Readopt(k, name) =>
          if k < |store| {
            var _ := FromOldPointer(k, name, s, t);
          }
        case CopyOf(source) => Duplicate(source, s, t);
        case Assignment(left, right) => Reassign(left, right, s, t);
        case Drop(handle) => Discard(handle, s, t);
        case Write(through, value) => WriteThrough(through, value, s, t);
      }
    }
  }

  /** A block without a handle is one that the meaning says no handle reaches. */
  lemma NobodyReaches(heap: Heap, handles: seq<IntPtr>, made: seq<Block>, s: Sharing, n: nat)
    requires Represents(heap, handles, made, s) && n < |made|
    ensures heap.Owners(made[n]) == {} <==> n !in s.at
  {
    if n in s.at {
      var i :| 0 <= i < |s.at| && s.at[i] == n;
      assert handles[i] in heap.Owners(made[n]);
    }
    forall h <- heap.Owners(made[n]) ensures n in s.at {
      var i :| 0 <= i < |handles| && handles[i] == h;
      assert s.at[i] == n;
    }
  }

  /** Some undeleted block has no handle left. */
  ghost predicate Leaks(heap: Heap)
    reads heap, heap.live, heap.blocks
  {
    exists b <- heap.blocks :: !b.deleted && heap.Owners(b) == {}
  }

  lemma LeaksAsMeant(heap: Heap, handles: seq<IntPtr>, made: seq<Block>, s: Sharing)
    requires Represents(heap, handles, made, s)
    ensures Leaks(heap) <==> !AllReclaimed(s)
  {
    forall n: nat | n < |made| ensures s.Leaked(n) <==> !made[n].deleted && heap.Owners(made[n]) == {} {
      NobodyReaches(heap, handles, made, s, n);
    }
    if Leaks(heap) {
      var b :| b in heap.blocks && !b.deleted && heap.Owners(b) == {};
      var n: nat :| n < |made| && made[n] == b;
      assert s.Leaked(n);
    }
    if !AllReclaimed(s) {
      var n: nat :| n < s.made && s.Leaked(n);
      assert made[n] in heap.blocks;
    }
  }

  lemma SoundAsMeant(heap: Heap, handles: seq<IntPtr>, made: seq<Block>, store: seq<Cell>, s: Sharing)
    requires Represents(heap, handles, made, s) && Stored(heap, made, store, s.cell, s.frees)
    ensures heap.Sound() <==> SoundMeaning(s)
  {
    forall n: nat | n < |made| ensures made[n].p.frees == s.frees[s.cell[n]] && made[n] in heap.blocks {
      assert made[n].p == store[s.cell[n]];
    }
    forall k: nat | k < |store| ensures store[k].frees == s.frees[k] && store[k] in heap.cells {
    }
    if heap.Sound() {
      forall n: nat | n < |made| && n !in s.gone ensures s.frees[s.cell[n]] == 0 {
        assert !made[n].deleted;
      }
    }
    if SoundMeaning(s) {
      forall c <- heap.cells ensures c.frees <= 1 {
        var k: nat :| k < |store| && store[k] == c;
      }
      forall b <- heap.blocks | !b.deleted ensures b.p in heap.cells && b.p.frees == 0 {
        var n: nat :| n < |made| && made[n] == b;
      }
    }
  }

  /** Performing a script does what it means. */
  method Run(script: seq<Op>) returns (program: Program)
    ensures program.Shows(Meaning(script), Text(script))
  {
    program := new Program();
    for i := 0 to |script|
      invariant fresh(program) && fresh(program.heap)
      invariant fresh(program.heap.live) && fresh(program.heap.blocks) && fresh(program.heap.cells)
      invariant program.Shows(Meaning(script[..i]), Text(script[..i]))
    {
      assert script[..i + 1][..i] == script[..i];
      program.Perform(script[i], Meaning(script[..i]), Text(script[..i]));
    }
    assert script[..|script|] == script;
  }

  /** Every script leaves the counts exact, no handle dangling, and the handles shared, named and reading as
      the script means.  A block leaks if and only if the script destroyed a last handle; no integer is
      deleted twice or too early, if and only if each is adopted only once or never let go of by assignment. */
  method RunScript(script: seq<Op>) returns (program: Program)
    ensures program.Shows(Meaning(script), Text(script))
    ensures forall i: nat | i < |program.handles| :: program.ReadsAs(i, Meaning(script), Text(script))
    ensures forall h <- program.handles :: h.ptr != null ==>
      !h.ptr.deleted && h.ptr.use == |program.heap.Owners(h.ptr)|
    ensures Leaks(program.heap) <==> !NeverDropsLast(script)
    ensures program.heap.Sound() <==> AdoptsOnceOrKeeps(script)
  {
    program := Run(script);
    forall i: nat | i < |program.handles| {
      program.ReadsAsMeant(i, Meaning(script), Text(script));
    }
    LeaksAsMeant(program.heap, program.handles, program.made, Meaning(script));
    ReclaimsIffNoLastDrop(script);
    SoundAsMeant(program.heap, program.handles, program.made, program.store, Meaning(script));
    SoundIff(script);
  }
}
