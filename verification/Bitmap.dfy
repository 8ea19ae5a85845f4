/** kernel/lib/bitmap.c: first-fit allocation of runs of blocks over a bit array. */
module BitmapAllocator {
  import opened Options

  const BLOCK_SIZE := 4096
  const BLOCKS_PER_BYTE := 8

  // ---------- bits of a byte ----------

  function Mask(k: nat): bv8
    requires k < BLOCKS_PER_BYTE
  {
    1 << k
  }

  predicate Bit(b: bv8, k: nat)
    requires k < BLOCKS_PER_BYTE
  {
    b & Mask(k) != 0
  }

  /** The eight masks. */
  lemma Masks(k: nat)
    requires k < BLOCKS_PER_BYTE
    ensures Mask(k) == if k == 0 then 1 else if k == 1 then 2 else if k == 2 then 4 else if k == 3 then 8
                       else if k == 4 then 16 else if k == 5 then 32 else if k == 6 then 64 else 128
  {
  }

  lemma SetBit(b: bv8, k: nat, j: nat)
    requires k < BLOCKS_PER_BYTE && j < BLOCKS_PER_BYTE
    ensures Bit(b | Mask(k), j) == (j == k || Bit(b, j))
  {
    Masks(k);
    Masks(j);
    hide Mask;
  }

  lemma ClearBit(b: bv8, k: nat, j: nat)
    requires k < BLOCKS_PER_BYTE && j < BLOCKS_PER_BYTE
    ensures Bit(b & !Mask(k), j) == (j != k && Bit(b, j))
  {
    Masks(k);
    Masks(j);
    hide Mask;
  }

  function WithBit(b: bv8, k: nat, value: bool): bv8
    requires k < BLOCKS_PER_BYTE
  {
    if value then b | Mask(k) else b & !Mask(k)
  }

  lemma WithBitAt(b: bv8, k: nat, value: bool, j: nat)
    requires k < BLOCKS_PER_BYTE && j < BLOCKS_PER_BYTE
    ensures Bit(WithBit(b, k, value), j) == if j == k then value else Bit(b, j)
  {
    SetBit(b, k, j);
    ClearBit(b, k, j);
    hide Mask, Bit;
  }

  /** The bits of the first n blocks. */
  function UsedOf(bits: seq<bv8>, n: nat): seq<bool>
    requires n <= |bits| * BLOCKS_PER_BYTE
  {
    seq(n, i requires 0 <= i < n => Bit(bits[i / BLOCKS_PER_BYTE], i % BLOCKS_PER_BYTE))
  }

  lemma SetUsed(bits: seq<bv8>, n: nat, block: nat, value: bool)
    requires n <= |bits| * BLOCKS_PER_BYTE && block < n
    ensures var addr := block / BLOCKS_PER_BYTE;
      UsedOf(bits[addr := WithBit(bits[addr], block % BLOCKS_PER_BYTE, value)], n) == UsedOf(bits, n)[block := value]
  {
    hide Bit, WithBit;
    var addr, offset := block / BLOCKS_PER_BYTE, block % BLOCKS_PER_BYTE;
    var bits' := bits[addr := WithBit(bits[addr], offset, value)];
    forall i | 0 <= i < n ensures UsedOf(bits', n)[i] == UsedOf(bits, n)[block := value][i] {
      SameBlock(i, block);
      WithBitAt(bits[addr], offset, value, i % BLOCKS_PER_BYTE);
    }
  }

  lemma SameBlock(i: nat, block: nat)
    ensures i == block <==>
              i / BLOCKS_PER_BYTE == block / BLOCKS_PER_BYTE && i % BLOCKS_PER_BYTE == block % BLOCKS_PER_BYTE
  {
  }

  // ---------- runs of free blocks ----------

  ghost predicate FreeRun(used: seq<bool>, start: nat, n: nat) {
    start + n <= |used| && forall i :: start <= i < start + n ==> !used[i]
  }

  /** The lowest run of n free blocks; none exactly when there is none. */
  ghost predicate LowestRun(used: seq<bool>, n: nat, found: Option<nat>) {
    match found
    case Some(s) => FreeRun(used, s, n) && forall t: nat :: t < s ==> !FreeRun(used, t, n)
    case None => forall t: nat :: !FreeRun(used, t, n)
  }

  function Marked(used: seq<bool>, start: nat, n: nat, value: bool): seq<bool> {
    seq(|used|, i requires 0 <= i < |used| => if start <= i < start + n then value else used[i])
  }

  class Bitmap {
    const bits: array<bv8>
    const blockCount: nat
    const memStart: nat
    var lastDeepFragmented: nat

    ghost predicate Sized() {
      blockCount <= bits.Length * BLOCKS_PER_BYTE
    }

    ghost function Used(): seq<bool>
      requires Sized()
      reads bits
    {
      UsedOf(bits[..], blockCount)
    }

    /** Every block below `last_deep_fragmented` is used. */
    ghost predicate Valid()
      reads this, bits
    {
      && Sized() && lastDeepFragmented <= blockCount
      && forall i :: 0 <= i < lastDeepFragmented ==> Used()[i]
    }

    constructor (bits: array<bv8>, blockCount: nat, memStart: nat)
      requires blockCount <= bits.Length * BLOCKS_PER_BYTE
      ensures Valid() && this.bits == bits && this.blockCount == blockCount && this.memStart == memStart
    {
      this.bits, this.blockCount, this.memStart := bits, blockCount, memStart;
      lastDeepFragmented := 0;
    }

    /** `bitmap_get`. */
    method Get(block: nat) returns (bit: bool)
      requires Sized() && block < blockCount
      ensures bit == Used()[block]
    {
      var addr := block / BLOCKS_PER_BYTE;
      var offset := block % BLOCKS_PER_BYTE;
      bit := bits[addr] & Mask(offset) != 0;
    }

    /** `bitmap_set`: one block changes. */
    method Set(block: nat, value: bool)
      requires Sized() && block < blockCount
      modifies bits
      ensures Used() == old(Used())[block := value]
    {
      hide Mask, UsedOf;
      SetUsed(bits[..], blockCount, block, value);
      var addr := block / BLOCKS_PER_BYTE;
      var offset := block % BLOCKS_PER_BYTE;
      if value {
        bits[addr] := bits[addr] | Mask(offset);
      } else {
        bits[addr] := bits[addr] & !Mask(offset);
      }
      assert bits[..] == old(bits[..])[addr := WithBit(old(bits[addr]), offset, value)];
    }

    /** `bitmap_mark_blocks`: exactly the run changes. */
    method MarkBlocks(start: nat, size: nat, value: bool)
      requires Sized() && start + size <= blockCount && lastDeepFragmented <= blockCount
      modifies this`lastDeepFragmented, bits
      ensures Used() == Marked(old(Used()), start, size, value)
      ensures lastDeepFragmented == if !value && start < old(lastDeepFragmented) then start else old(lastDeepFragmented)
      ensures old(Valid()) ==> Valid()
    {
      hide Bit;
      if !value && start < lastDeepFragmented {
        lastDeepFragmented := start;
      }
      var i := start;
      ghost var last := lastDeepFragmented;
      while i < start + size
        invariant lastDeepFragmented == last
        invariant start <= i <= start + size && Used() == Marked(old(Used()), start, i - start, value)
      {
        Set(i, value);
        i := i + 1;
      }
    }

    /** `find_free_region`: the lowest run of free blocks. */
    method FindFreeRegion(blocks: nat) returns (found: Option<nat>)
      requires Valid() && blocks > 0
      modifies this`lastDeepFragmented
      ensures LowestRun(Used(), blocks, found)
      ensures lastDeepFragmented == if blocks == 1 && found.Some? then found.value + 1 else old(lastDeepFragmented)
    {
      hide Bit;
      var start: nat, size: nat := lastDeepFragmented, 0;
      var i := start;
      UsedBelow(Used(), start, blocks);
      while i < blockCount
        invariant start + size == i <= blockCount && size < blocks && FreeRun(Used(), start, size)
        invariant lastDeepFragmented == old(lastDeepFragmented)
        invariant forall t: nat :: t < start ==> !FreeRun(Used(), t, blocks)
      {
        var bit := Get(i);
        if bit {
          forall t: nat | t < i + 1 ensures !FreeRun(Used(), t, blocks) {
            assert t >= start ==> t <= i < t + blocks;
          }
          size := 0;
          start := i + 1;
        } else {
          if blocks == 1 {
            lastDeepFragmented := start + 1;
          }
          size := size + 1;
          if size >= blocks {
            return Some(start);
          }
        }
        i := i + 1;
      }
      return None;
    }

    lemma UsedBelow(used: seq<bool>, start: nat, blocks: nat)
      requires blocks > 0 && start <= |used| && forall i :: 0 <= i < start ==> used[i]
      ensures forall t: nat :: t < start ==> !FreeRun(used, t, blocks)
    {
      forall t: nat | t < start ensures !FreeRun(used, t, blocks) {
        assert used[t];
      }
    }

    /**
     `bitmap_allocate`: takes the lowest run and nothing else, or nothing when there is no run.  The address is
     null also when that run starts at address zero.
     */
    method Allocate(blocks: nat) returns (ptr: nat, ghost found: Option<nat>)
      requires Valid()
      modifies this`lastDeepFragmented, bits
      ensures Valid() && (blocks == 0 ==> ptr == 0 && found == None)
      ensures blocks > 0 ==> LowestRun(old(Used()), blocks, found)
      ensures found.None? ==> ptr == 0 && Used() == old(Used())
      ensures found.Some? ==> ptr == memStart + found.value * BLOCK_SIZE
      ensures found.Some? ==> Used() == Marked(old(Used()), found.value, blocks, true)
      ensures ptr == 0 <==> found.None? || (memStart == 0 && found == Some(0))
    {
      found := None;
      if blocks == 0 {
        return 0, None;
      }
      var region := FindFreeRegion(blocks);
      found := region;
      if region.None? {
        return 0, None;
      }
      AllUsedBelow(Used(), region.value, blocks);
      MarkBlocks(region.value, blocks, true);
      ptr := memStart + region.value * BLOCK_SIZE;
    }
  }

  /** With single blocks, everything below the lowest free one is used. */
  lemma AllUsedBelow(used: seq<bool>, s: nat, n: nat)
    requires LowestRun(used, n, Some(s))
    ensures n == 1 ==> forall t :: 0 <= t < s ==> used[t]
  {
    if n == 1 {
      forall t | 0 <= t < s ensures used[t] {
        assert !FreeRun(used, t, 1);
      }
    }
  }

  /** A run just allocated is gone: allocating again gives a run that does not meet it. */
  lemma RunsApart(used: seq<bool>, n: nat, s: nat, m: nat, t: nat)
    requires FreeRun(used, s, n) && FreeRun(Marked(used, s, n, true), t, m) && n > 0 && m > 0
    ensures s + n <= t || t + m <= s
  {
    var marked := Marked(used, s, n, true);
    var i := if s < t then t else s;
    assert i < |marked| ==> marked[i] == if s <= i < s + n then true else used[i];
  }

  /** Freeing what was allocated restores the bitmap. */
  lemma FreeRestores(used: seq<bool>, s: nat, n: nat)
    requires FreeRun(used, s, n)
    ensures Marked(Marked(used, s, n, true), s, n, false) == used
  {
  }
}
