/**
 The descriptor bitmap of `select`, as it lies in memory, and its printed form.  An `fd_set` is an array
 of 64-bit words; on a little-endian machine bit fd % 64 of word fd / 64 is bit fd % 8 of byte fd / 8.
 */
module FdSet {

  const FD_SETSIZE := 1024
  const WORD_BYTES := 8
  const SET_BYTES := FD_SETSIZE / 8

  function Mask(j: nat): bv8
    requires j < 8
  {
    match j
    case 0 => 1
    case 1 => 2
    case 2 => 4
    case 3 => 8
    case 4 => 16
    case 5 => 32
    case 6 => 64
    case _ => 128
  }

  /** `(b >> j) & 1`. */
  function ShiftedBit(b: bv8, j: nat): bv8
    requires j < 8
  {
    match j
    case 0 => b & 1
    case 1 => (b >> 1) & 1
    case 2 => (b >> 2) & 1
    case 3 => (b >> 3) & 1
    case 4 => (b >> 4) & 1
    case 5 => (b >> 5) & 1
    case 6 => (b >> 6) & 1
    case _ => (b >> 7) & 1
  }

  /** `FD_ISSET`. */
  predicate IsSet(mem: seq<bv8>, fd: nat) {
    fd < 8 * |mem| && mem[fd / 8] & Mask(fd % 8) != 0
  }

  function Members(mem: seq<bv8>): set<nat> {
    set fd: nat | fd < 8 * |mem| && IsSet(mem, fd)
  }

  lemma SetMask(b: bv8, i: nat, j: nat)
    requires i < 8 && j < 8
    ensures ((b | Mask(j)) & Mask(i) != 0) <==> (i == j || b & Mask(i) != 0)
    ensures ((b & !Mask(j)) & Mask(i) != 0) <==> (i != j && b & Mask(i) != 0)
  {
  }

  lemma ShiftedBitIsMasked(b: bv8, j: nat)
    requires j < 8
    ensures ShiftedBit(b, j) == if b & Mask(j) != 0 then 1 else 0
  {
  }

  /** `FD_SET`. */
  method SetFd(mem: array<bv8>, fd: nat)
    requires fd < 8 * mem.Length
    modifies mem
    ensures Members(mem[..]) == old(Members(mem[..])) + {fd}
  {
    mem[fd / 8] := mem[fd / 8] | Mask(fd % 8);
    forall g: nat | g < 8 * mem.Length
      ensures IsSet(mem[..], g) <==> g == fd || old(IsSet(mem[..], g))
    {
      if g / 8 == fd / 8 {
        SetMask(old(mem[fd / 8]), g % 8, fd % 8);
      }
    }
  }

  /** `FD_CLR`. */
  method ClearFd(mem: array<bv8>, fd: nat)
    requires fd < 8 * mem.Length
    modifies mem
    ensures Members(mem[..]) == old(Members(mem[..])) - {fd}
  {
    mem[fd / 8] := mem[fd / 8] & !Mask(fd % 8);
    forall g: nat | g < 8 * mem.Length
      ensures IsSet(mem[..], g) <==> g != fd && old(IsSet(mem[..], g))
    {
      if g / 8 == fd / 8 {
        SetMask(old(mem[fd / 8]), g % 8, fd % 8);
      }
    }
  }

  /** `FD_ZERO`. */
  method Zero(mem: array<bv8>)
    modifies mem
    ensures Members(mem[..]) == {}
  {
    for i := 0 to mem.Length
      invariant forall k :: 0 <= k < i ==> mem[k] == 0
    {
      mem[i] := 0;
    }
  }

  // ----- printing

  function Digit(on: bool): char {
    if on then '1' else '0'
  }

  /** `PrintBits`: the bytes from the last to the first, the bits of each from the highest to the lowest. */
  method PrintBits(mem: seq<bv8>) returns (out: string)
    ensures |out| == 8 * |mem| + 1 && out[8 * |mem|] == ' '
    ensures forall x: nat :: x < 8 * |mem| ==> out[8 * |mem| - 1 - x] == Digit(IsSet(mem, x))
  {
    out := "";
    var i := |mem| - 1;
    while i >= 0
      invariant -1 <= i < |mem| && |out| == 8 * (|mem| - 1 - i)
      invariant forall x: nat :: 8 * (i + 1) <= x < 8 * |mem| ==> out[8 * |mem| - 1 - x] == Digit(IsSet(mem, x))
    {
      var j := 7;
      while j >= 0
        invariant -1 <= j <= 7 && |out| == 8 * (|mem| - 1 - i) + 7 - j
        invariant forall x: nat :: 8 * i + j + 1 <= x < 8 * |mem| ==> out[8 * |mem| - 1 - x] == Digit(IsSet(mem, x))
      {
        ShiftedBitIsMasked(mem[i], j);
        var byte := ShiftedBit(mem[i], j);
        out := out + [if byte == 1 then '1' else '0'];
        j := j - 1;
      }
      i := i - 1;
    }
    out := out + " ";
  }

  /** Where the digit of fd is printed. */
  function Position(fd: nat): nat {
    65 * (fd / 64) + 63 - fd % 64
  }

  /** The text that `PrintSet` writes for a bitmap. */
  predicate IsPrinted(out: string, mem: seq<bv8>) {
    var words := |mem| / WORD_BYTES;
    && |out| == 65 * words + 1
    && (forall fd: nat :: fd < 64 * words ==> out[Position(fd)] == Digit(IsSet(mem, fd)))
    && (forall w: nat :: w < words ==> out[65 * w + 64] == ' ')
    && out[65 * words] == '\n'
  }

  /** Bit fd is bit fd - 64i of word i, and printed accordingly. */
  lemma WordBit(mem: seq<bv8>, i: nat, fd: nat)
    requires 8 * i + 8 <= |mem| && 64 * i <= fd < 64 * (i + 1)
    ensures IsSet(mem[8 * i..8 * i + 8], fd - 64 * i) == IsSet(mem, fd)
    ensures Position(fd) == 65 * i + 63 - (fd - 64 * i)
  {
    assert fd / 64 == i && fd % 64 == fd - 64 * i;
    assert (fd - 64 * i) / 8 == fd / 8 - 8 * i && (fd - 64 * i) % 8 == fd % 8;
  }

  /** `PrintSet`: word by word. */
  method PrintSet(mem: seq<bv8>) returns (out: string)
    requires |mem| % WORD_BYTES == 0
    ensures IsPrinted(out, mem)
  {
    var words := |mem| / WORD_BYTES;
    out := "";
    for i := 0 to words
      invariant |out| == 65 * i
      invariant forall fd: nat :: fd < 64 * i ==> out[Position(fd)] == Digit(IsSet(mem, fd))
      invariant forall w: nat :: w < i ==> out[65 * w + 64] == ' '
    {
      var word := mem[8 * i..8 * i + 8];
      var text := PrintBits(word);
      forall fd: nat | 64 * i <= fd < 64 * (i + 1)
        ensures (out + text)[Position(fd)] == Digit(IsSet(mem, fd))
      {
        WordBit(mem, i, fd);
      }
      out := out + text;
    }
    out := out + "\n";
  }

  /** Reading the text back. */
  function Parse(out: string): set<nat> {
    set fd: nat | fd < |out| && Position(fd) < |out| - 1 && out[Position(fd)] == '1'
  }

  /** Printing loses nothing: the set can be read off the text. */
  lemma ParseRecovers(out: string, mem: seq<bv8>)
    requires |mem| % WORD_BYTES == 0 && IsPrinted(out, mem)
    ensures Parse(out) == Members(mem)
  {
    var words := |mem| / WORD_BYTES;
    forall fd: nat ensures fd in Parse(out) <==> fd in Members(mem) {
      assert fd < 64 * words <==> Position(fd) < 65 * words;
    }
  }
}
