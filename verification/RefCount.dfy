/**
 `IntPtr`, a handle to a heap-allocated integer whose block counts the handles to it.
 */
module RefCount {

  /** The integer on the heap. */
  class Cell {
    var value: int
    /** How often it was deleted. */
    ghost var frees: nat

    constructor (value: int)
      ensures this.value == value && frees == 0
    {
      this.value, frees := value, 0;
    }
  }

  /** `U_Ptr`, the counting block. */
  class Block {
    const p: Cell
    var use: nat
    ghost var deleted: bool

    constructor (p: Cell)
      ensures this.p == p && use == 1 && !deleted
    {
      this.p, use, deleted := p, 1, false;
    }

    /** `delete`, at most once: runs the block's destructor, which frees the integer. */
    method Delete()
      requires !deleted
      modifies this`deleted, p`frees
      ensures deleted && p.frees == old(p.frees) + 1
    {
      deleted := true;
      p.frees := p.frees + 1;
    }
  }

  /** Which handles are alive and which blocks were ever made. */
  class Heap {
    ghost var live: set<IntPtr>
    ghost var blocks: set<Block>
    ghost var cells: set<Cell>

    constructor ()
      ensures Valid() && live == {} && blocks == {} && cells == {}
    {
      live, blocks, cells := {}, {}, {};
    }

    ghost function Owners(b: Block): set<IntPtr>
      reads this, live
    {
      set h | h in live && h.ptr == b
    }

    /** No live handle points at a deleted block. */
    ghost predicate NoDangling()
      reads this, live, blocks
    {
      forall h <- live :: h.ptr != null ==> h.ptr in blocks && !h.ptr.deleted
    }

    /** An undeleted block counts its live handles, and `extra` one more: the handle about to be attached. */
    ghost predicate Counted(extra: Block?)
      reads this, live, blocks
    {
      forall b <- blocks :: !b.deleted ==> b.use == |Owners(b)| + if b == extra then 1 else 0
    }

    /** Every block is for a known integer. */
    ghost predicate KnowsCells()
      reads this, blocks
    {
      forall b <- blocks :: b.p in cells
    }

    /** No integer was deleted twice, and that of an undeleted block was not deleted at all. */
    ghost predicate Sound()
      reads this, blocks, cells
    {
      (forall c <- cells :: c.frees <= 1) && (forall b <- blocks :: !b.deleted ==> b.p in cells && b.p.frees == 0)
    }

    /** The invariant, while one handle may be between its old block and `extra`. */
    ghost predicate ValidBut(extra: Block?)
      reads this, live, blocks
    {
      && NoDangling() && Counted(extra) && KnowsCells()
      && (extra != null ==> extra in blocks && !extra.deleted)
    }

    ghost predicate Valid()
      reads this, live, blocks
    {
      ValidBut(null)
    }

    /** `++ptr->use` */
    method Retain(b: Block)
      requires Valid() && b in blocks && !b.deleted
      modifies b`use
      ensures ValidBut(b) && b.use == old(b.use) + 1
    {
      b.use := b.use + 1;
      assert forall c <- blocks :: Owners(c) == old(Owners(c));
    }

    /** `--ptr->use` for a handle that lets go of its block; at zero the block is deleted if `reclaim`. */
    method Release(h: IntPtr, reclaim: bool, ghost extra: Block?)
      requires ValidBut(extra) && h in live && h.ptr != null
      modifies this`live, h.ptr`use, h.ptr`deleted, h.ptr.p`frees
      ensures ValidBut(extra) && live == old(live) - {h}
      ensures h.ptr.use == old(h.ptr.use) - 1
      ensures h.ptr.deleted <==> reclaim && h.ptr != extra && old(Owners(h.ptr)) == {h}
      ensures h.ptr.p.frees == old(h.ptr.p.frees) + if h.ptr.deleted then 1 else 0
    {
      var b := h.ptr;
      OnlyOwner(Owners(b), h);
      Discount(h, extra);
      if b.use == 0 && reclaim {
        b.Delete();
        assert forall c <- blocks :: Owners(c) == old(Owners(c)) - if c == b then {h} else {};
      }
    }

    /** `--ptr->use` alone: the block may be left with nobody counted. */
    method Discount(h: IntPtr, ghost extra: Block?)
      requires ValidBut(extra) && h in live && h.ptr != null
      modifies this`live, h.ptr`use
      ensures ValidBut(extra) && live == old(live) - {h}
      ensures h.ptr.use == old(h.ptr.use) - 1
      ensures forall c <- blocks :: Owners(c) == old(Owners(c)) - if c == h.ptr then {h} else {}
    {
      OnlyOwner(Owners(h.ptr), h);
      h.ptr.use := h.ptr.use - 1;
      live := live - {h};
      assert Owners(h.ptr) == old(Owners(h.ptr)) - {h};
      assert forall c <- blocks :: c != h.ptr ==> Owners(c) == old(Owners(c));
    }

    /** A null handle stops being counted without touching a block. */
    ghost method Detach(h: IntPtr, extra: Block?)
      requires ValidBut(extra) && h in live && h.ptr == null
      modifies this`live
      ensures ValidBut(extra) && live == old(live) - {h}
    {
      live := live - {h};
      assert forall c <- blocks :: Owners(c) == old(Owners(c));
    }

    /** Release by assignment, which does nothing for a null handle. */
    method LetGo(h: IntPtr, ghost extra: Block?)
      requires ValidBut(extra) && h in live
      modifies this`live, blocks`use, blocks`deleted, cells`frees
      ensures ValidBut(extra) && live == old(live) - {h}
      ensures forall b <- blocks :: b.deleted <==>
        old(b.deleted) || (b == h.ptr && b != extra && old(Owners(b)) == {h})
      ensures forall c <- cells ::
        c.frees == old(c.frees) + if h.ptr != null && h.ptr.p == c && h.ptr.deleted then 1 else 0
    {
      if h.ptr != null {
        Release(h, true, extra);
      } else {
        Detach(h, extra);
      }
    }

    /** A handle that had let go, or is new, becomes one of the counted ones. */
    ghost method Attach(h: IntPtr)
      requires ValidBut(h.ptr) && h !in live
      modifies this`live
      ensures Valid() && live == old(live) + {h}
    {
      live := live + {h};
      assert forall c <- blocks :: c != h.ptr ==> Owners(c) == old(Owners(c));
      if h.ptr != null {
        assert Owners(h.ptr) == old(Owners(h.ptr)) + {h};
      }
    }

    /** A new block with one handle to come. */
    ghost method Admit(b: Block)
      requires Valid() && b !in blocks && b.use == 1 && !b.deleted
      requires forall h <- live :: h.ptr != b
      modifies this`blocks, this`cells
      ensures ValidBut(b) && blocks == old(blocks) + {b} && cells == old(cells) + {b.p}
    {
      blocks, cells := blocks + {b}, cells + {b.p};
      assert forall c <- blocks :: Owners(c) == if c == b then {} else old(Owners(c));
    }
  }

  class IntPtr {
    var ptr: Block?
    var name: string

    /** The default constructor. */
    constructor Null(ghost heap: Heap)
      requires heap.Valid()
      modifies heap`live
      ensures heap.Valid() && ptr == null && name == ""
      ensures heap.live == old(heap.live) + {this}
    {
      ptr, name := null, "";
      new;
      heap.Attach(this);
    }

    /** A handle to a raw pointer, for a new block, whoever else has that pointer. */
    constructor FromRaw(p: Cell, name: string, ghost heap: Heap)
      requires heap.Valid()
      modifies heap
      ensures heap.Valid() && ptr != null && ptr.p == p && this.name == name
      ensures fresh(ptr)
      ensures heap.live == old(heap.live) + {this} && heap.blocks == old(heap.blocks) + {ptr}
      ensures heap.cells == old(heap.cells) + {p}
    {
      ptr := new Block(p);
      this.name := name;
      new;
      heap.Admit(ptr);
      heap.Attach(this);
    }

    /** The copy constructor, which dereferences the other handle's block without a check. */
    constructor Copy(obj: IntPtr, heap: Heap)
      requires heap.Valid() && obj in heap.live && obj.ptr != null
      modifies heap`live, obj.ptr`use
      ensures heap.Valid() && ptr == obj.ptr && name == obj.name
      ensures heap.live == old(heap.live) + {this}
    {
      ptr, name := obj.ptr, obj.name;
      new;
      heap.Retain(ptr);
      heap.Attach(this);
    }

    /** `operator=`: count the right-hand block, discount the left-hand one and delete it if that was its
        last handle, then share.  The two handles may be the same, share a block or be null. */
    method Assign(obj: IntPtr, heap: Heap)
      requires heap.Valid() && this in heap.live && obj in heap.live
      modifies this, heap`live, heap.blocks`use, heap.blocks`deleted, heap.cells`frees
      ensures heap.Valid() && heap.live == old(heap.live)
      ensures ptr == old(obj.ptr) && name == old(obj.name)
      ensures forall b <- heap.blocks :: b.deleted <==>
        old(b.deleted) || (b == old(ptr) && b != old(obj.ptr) && old(heap.Owners(b)) == {this})
      ensures forall c <- heap.cells ::
        c.frees == old(c.frees) + if old(ptr) != null && old(ptr).p == c && old(ptr).deleted then 1 else 0
    {
      ghost var l, r := ptr, obj.ptr;
      if obj.ptr != null {
        heap.Retain(obj.ptr);
      }
      assert l != null ==> heap.Owners(l) == old(heap.Owners(l));
      heap.LetGo(this, r);
      Share(obj, heap);
    }

    /** The end of the assignment: take the other handle's block, already counted, and its name. */
    method Share(obj: IntPtr, ghost heap: Heap)
      requires heap.ValidBut(obj.ptr) && this !in heap.live
      modifies this, heap`live
      ensures heap.Valid() && heap.live == old(heap.live) + {this}
      ensures ptr == old(obj.ptr) && name == old(obj.name)
    {
      ptr := obj.ptr;
      name := obj.name;
      heap.Attach(this);
    }

    /** The destructor: discounts the block, and leaves it allocated even at zero. */
    method Destroy(heap: Heap)
      requires heap.Valid() && this in heap.live
      modifies heap`live, heap.blocks`use, heap.blocks`deleted, heap.cells`frees
      ensures heap.Valid() && heap.live == old(heap.live) - {this}
      ensures forall b <- heap.blocks :: b.deleted == old(b.deleted)
      ensures forall c <- heap.cells :: c.frees == old(c.frees)
      ensures ptr != null ==> (ptr.use == 0 <==> old(heap.Owners(ptr)) == {this})
    {
      if ptr == null {
        heap.Detach(this, null);
        return;
      }
      heap.Release(this, false, null);
    }

    method GetVal(ghost heap: Heap) returns (value: int)
      requires heap.Valid() && this in heap.live && ptr != null
      ensures !ptr.deleted && value == ptr.p.value && (heap.Sound() ==> ptr.p.frees == 0)
    {
      value := ptr.p.value;
    }

    /** Writes through the handle: every handle to the integer reads the new value, and no other changes. */
    method SetVal(value: int, ghost heap: Heap)
      requires heap.Valid() && this in heap.live && ptr != null
      modifies ptr.p`value
      ensures heap.Valid()
      ensures forall h <- heap.live :: h.ptr != null ==>
        h.ptr.p.value == if h.ptr.p == ptr.p then value else old(h.ptr.p.value)
    {
      ptr.p.value := value;
    }
  }

  lemma OnlyOwner(owners: set<IntPtr>, h: IntPtr)
    requires h in owners
    ensures |owners| == 1 <==> owners == {h}
  {
    assert owners == {h} + (owners - {h});
  }
}
