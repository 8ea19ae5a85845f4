/**
 kernel/mem/slab.c: where the objects, the free words and the slab header of one slab lie, and the
 pointer arithmetic that `takeobject` and `returnobject` do between them.
 */
module SlabLayout {
  import opened Bytes
  import opened Paging

  const HEADER_SIZE := 40
  const PAGE_OFFSET := PAGE_SIZE - HEADER_SIZE
  const INDIRECT_CUTOFF := 512
  const INDIRECT_COUNT := 16

  datatype Shape = Shape(size: nat, align: nat, trueSize: nat, count: nat) {
    predicate Direct() {
      size < INDIRECT_CUTOFF
    }
  }

  /** The sizes `slab_newcache` computes. */
  function NewShape(size: nat, align: nat): Shape {
    var unit := if align == 0 then 8 else align;
    var trueSize := RoundUp(size + (if size < INDIRECT_CUTOFF then WORD_SIZE else 0), unit);
    Shape(size, unit, trueSize, if size < INDIRECT_CUTOFF then PAGE_OFFSET / trueSize else INDIRECT_COUNT)
  }

  predicate Multiple(v: nat, n: nat) {
    n > 0 && v % n == 0
  }

  /** Where slot i starts. */
  function Offset(sh: Shape, i: nat): nat {
    sh.trueSize * i
  }

  /** What an object takes, how many fit. */
  predicate Sound(sh: Shape) {
    && Multiple(sh.trueSize, sh.align)
    && (if sh.Direct() then sh.size + WORD_SIZE <= sh.trueSize && Span(sh) <= PAGE_OFFSET
        else sh.size <= sh.trueSize && sh.count == INDIRECT_COUNT)
  }

  function Span(sh: Shape): nat {
    Offset(sh, sh.count)
  }

  lemma NewShapeSound(size: nat, align: nat)
    ensures var sh := NewShape(size, align);
      && Sound(sh)
      && sh.trueSize < size + (if sh.Direct() then WORD_SIZE else 0) + sh.align
      && (sh.Direct() ==> PAGE_OFFSET < Offset(sh, sh.count + 1))
  {
    var sh := NewShape(size, align);
    if sh.Direct() {
      assert sh.trueSize * (sh.count + 1) == sh.trueSize * sh.count + sh.trueSize;
      assert PAGE_OFFSET == sh.trueSize * (PAGE_OFFSET / sh.trueSize) + PAGE_OFFSET % sh.trueSize;
    }
  }

  /** Exactly the caches with two or more objects to a slab. */
  lemma CountAtLeastTwo(size: nat, align: nat)
    ensures NewShape(size, align).count >= 2 <==>
            size >= INDIRECT_CUTOFF || 2 * RoundUp(size + WORD_SIZE, if align == 0 then 8 else align) <= PAGE_OFFSET
  {
    var sh := NewShape(size, align);
    if sh.Direct() {
      var t, n := sh.trueSize, sh.count;
      assert PAGE_OFFSET == t * n + PAGE_OFFSET % t;
      if n >= 2 {
        MulGap(0, 1, t);
        if n > 2 { MulGap(2, n, t); }
        assert t * 2 <= t * n;
      } else if n == 1 {
        assert PAGE_OFFSET < t * 2;
      } else {
        assert t * n == 0;
      }
    }
  }

  // ---------- addresses ----------

  /** A slab: the address of its header and of its first object. */
  datatype Place = Place(slab: nat, base: nat) {
    function Page(): nat {
      PageDown(slab)
    }
  }

  /** `vmm_map` hands out whole pages: one for the header, and in indirect mode more for the objects. */
  predicate Placed(sh: Shape, p: Place) {
    && p.slab % PAGE_SIZE == PAGE_OFFSET && p.slab > PAGE_SIZE
    && (sh.Direct() ==> p.base == p.Page())
    && p.base > 0 && p.base % PAGE_SIZE == 0
  }

  function ObjAt(sh: Shape, p: Place, i: nat): nat {
    p.base + Offset(sh, i)
  }

  function WordAt(sh: Shape, p: Place, i: nat): nat {
    if sh.Direct() then p.Page() + Offset(sh, i) + sh.size else p.Page() + WORD_SIZE * i
  }

  /** GET_SLAB. */
  function SlabOf(x: nat): nat {
    PageDown(x) + PAGE_OFFSET
  }

  /** The object `takeobject` hands out for a free word. */
  function ObjOfWord(sh: Shape, p: Place, w: nat): int {
    if sh.Direct() then w - sh.size else p.base + (w - p.Page()) / WORD_SIZE * sh.trueSize
  }

  /** The free word `returnobject` finds for an object. */
  function WordOfObj(sh: Shape, p: Place, obj: nat): int
    requires sh.trueSize > 0
  {
    if sh.Direct() then obj + sh.size else p.Page() + (obj - p.base) / sh.trueSize * WORD_SIZE
  }

  lemma OffsetGap(sh: Shape, i: nat, j: nat)
    requires i < j
    ensures Offset(sh, i) + sh.trueSize <= Offset(sh, j)
  {
    MulGap(i, j, sh.trueSize);
  }

  lemma SlotBounds(sh: Shape, p: Place, i: nat)
    requires Sound(sh) && Placed(sh, p) && i < sh.count
    ensures ObjAt(sh, p, i) + sh.trueSize <= p.base + Span(sh)
    ensures p.Page() <= WordAt(sh, p, i) && WordAt(sh, p, i) + WORD_SIZE <= p.slab
    ensures PAGE_SIZE <= p.Page() && p.slab == p.Page() + PAGE_OFFSET && sh.trueSize > 0
  {
    OffsetGap(sh, i, sh.count);
    hide Offset, Multiple;
    assert p.slab == PAGE_SIZE * (p.slab / PAGE_SIZE) + PAGE_OFFSET;
  }

  /** `takeobject` and `returnobject` are inverse, and in direct mode an object finds its slab. */
  lemma TakeReturn(sh: Shape, p: Place, i: nat)
    requires Sound(sh) && Placed(sh, p) && i < sh.count
    ensures sh.trueSize > 0
    ensures ObjOfWord(sh, p, WordAt(sh, p, i)) == ObjAt(sh, p, i)
    ensures WordOfObj(sh, p, ObjAt(sh, p, i)) == WordAt(sh, p, i)
    ensures sh.Direct() ==> SlabOf(ObjAt(sh, p, i)) == p.slab
  {
    SlotBounds(sh, p, i);
    if sh.Direct() {
      var obj := ObjAt(sh, p, i);
      DivModUnique(p.Page() / PAGE_SIZE, obj - p.Page(), PAGE_SIZE);
    } else {
      DivModUnique(i, 0, sh.trueSize);
      assert WORD_SIZE * i / WORD_SIZE == i;
    }
  }

  lemma AlignedWithBase(sh: Shape, p: Place, i: nat)
    requires Sound(sh) && i < sh.count
    ensures ObjAt(sh, p, i) % sh.align == p.base % sh.align
  {
    ModPlusTimes(p.base, sh.trueSize, i, sh.align);
  }

  /** Objects are aligned as the cache asks, when the alignment divides the page size. */
  lemma ObjAligned(sh: Shape, p: Place, i: nat)
    requires Sound(sh) && Placed(sh, p) && i < sh.count && Multiple(PAGE_SIZE, sh.align)
    ensures Multiple(ObjAt(sh, p, i), sh.align)
  {
    AlignedWithBase(sh, p, i);
    hide Offset, Sound;
    var q := p.base / PAGE_SIZE;
    assert p.base == PAGE_SIZE * q;
    ModPlusTimes(0, PAGE_SIZE, q, sh.align);
  }

  predicate Disjoint(a: nat, m: nat, b: nat, n: nat) {
    a + m <= b || b + n <= a
  }

  /** What `vmm_map` promises of two slabs: pages and object areas do not meet. */
  predicate Separate(sh: Shape, p: Place, q: Place) {
    !sh.Direct() ==>
      && (p.slab != q.slab ==> Disjoint(p.base, Span(sh), q.base, Span(sh)))
      && Disjoint(p.base, Span(sh), q.Page(), PAGE_SIZE) && Disjoint(q.base, Span(sh), p.Page(), PAGE_SIZE)
  }

  /** Every object that every placement of a slab can give is aligned. */
  ghost predicate AlwaysAligned(sh: Shape)
    requires sh.align > 0
  {
    forall p: Place, i: nat :: Placed(sh, p) && Separate(sh, p, p) && i < sh.count ==> ObjAt(sh, p, i) % sh.align == 0
  }

  /** A place whose first object is at the first page above null. */
  function LowPlace(sh: Shape): Place {
    Place(if sh.Direct() then PAGE_SIZE + PAGE_OFFSET else PAGE_SIZE * (Span(sh) + 2) + PAGE_OFFSET, PAGE_SIZE)
  }

  lemma LowPlaced(sh: Shape)
    ensures Placed(sh, LowPlace(sh)) && Separate(sh, LowPlace(sh), LowPlace(sh))
  {
    var n := if sh.Direct() then 1 else Span(sh) + 2;
    DivModUnique(n, PAGE_OFFSET, PAGE_SIZE);
  }

  /** `slab_newcache` takes any alignment; the cache can keep it exactly when it divides the page size. */
  lemma AlignmentExact(size: nat, align: nat)
    ensures var sh := NewShape(size, align);
      sh.count > 0 ==> (AlwaysAligned(sh) <==> PAGE_SIZE % sh.align == 0)
  {
    var sh := NewShape(size, align);
    NewShapeSound(size, align);
    assert sh.align > 0;
    hide NewShape, Sound, Placed, Separate, Offset;
    if sh.count > 0 {
      if PAGE_SIZE % sh.align == 0 {
        forall p: Place, i: nat | Placed(sh, p) && Separate(sh, p, p) && i < sh.count
          ensures ObjAt(sh, p, i) % sh.align == 0
        {
          ObjAligned(sh, p, i);
        }
      } else {
        LowPlaced(sh);
        AlignedWithBase(sh, LowPlace(sh), 0);
        assert ObjAt(sh, LowPlace(sh), 0) % sh.align != 0;
      }
    }
  }

  /** Alignment 24: at least two objects to a slab, and the slab's first object at page 2 is off. */
  lemma AlignmentExample()
    ensures var sh := NewShape(8, 24);
      && sh.count >= 2 && Placed(sh, Place(0x2000 + PAGE_OFFSET, 0x2000))
      && ObjAt(sh, Place(0x2000 + PAGE_OFFSET, 0x2000), 0) % 24 != 0 && !AlwaysAligned(sh)
  {
    AlignmentExact(8, 24);
    var sh := NewShape(8, 24);
    assert Offset(sh, 0) == 0;
  }

  lemma PagesApart(sh: Shape, p: Place, q: Place)
    requires Placed(sh, p) && Placed(sh, q) && p.slab != q.slab
    ensures Disjoint(p.Page(), PAGE_SIZE, q.Page(), PAGE_SIZE)
  {
    var m, n := p.slab / PAGE_SIZE, q.slab / PAGE_SIZE;
    assert p.Page() == PAGE_SIZE * m && q.Page() == PAGE_SIZE * n;
  }

  lemma SlotGap(sh: Shape, i: nat, j: nat)
    requires i != j
    ensures Disjoint(Offset(sh, i), sh.trueSize, Offset(sh, j), sh.trueSize)
  {
    if i < j {
      OffsetGap(sh, i, j);
    } else {
      OffsetGap(sh, j, i);
    }
  }

  /** No two objects of all slabs meet. */
  lemma ObjectsApart(sh: Shape, p: Place, i: nat, q: Place, j: nat)
    requires Sound(sh) && Placed(sh, p) && Placed(sh, q) && i < sh.count && j < sh.count
    requires Separate(sh, p, q) && (p, i) != (q, j) && (p.slab == q.slab ==> p == q)
    ensures Disjoint(ObjAt(sh, p, i), sh.trueSize, ObjAt(sh, q, j), sh.trueSize)
  {
    hide Offset, Multiple;
    if p == q {
      SlotGap(sh, i, j);
    } else {
      SlotBounds(sh, p, i);
      SlotBounds(sh, q, j);
      PagesApart(sh, p, q);
    }
  }

  /** No two free words of all slabs meet. */
  lemma WordsApart(sh: Shape, p: Place, i: nat, q: Place, j: nat)
    requires Sound(sh) && Placed(sh, p) && Placed(sh, q) && i < sh.count && j < sh.count
    requires (p, i) != (q, j) && (p.slab == q.slab ==> p == q)
    ensures Disjoint(WordAt(sh, p, i), WORD_SIZE, WordAt(sh, q, j), WORD_SIZE)
  {
    hide Offset, Multiple;
    if p == q {
      SlotGap(sh, i, j);
    } else {
      SlotBounds(sh, p, i);
      SlotBounds(sh, q, j);
      PagesApart(sh, p, q);
    }
  }

  /** No object meets a free word of any slab. */
  lemma ObjectOffWords(sh: Shape, p: Place, i: nat, q: Place, j: nat)
    requires Sound(sh) && Placed(sh, p) && Placed(sh, q) && i < sh.count && j < sh.count
    requires Separate(sh, p, q) && (p.slab == q.slab ==> p == q)
    ensures Disjoint(ObjAt(sh, p, i), sh.size, WordAt(sh, q, j), WORD_SIZE)
  {
    hide Offset, Multiple;
    SlotBounds(sh, p, i);
    SlotBounds(sh, q, j);
    if p != q {
      PagesApart(sh, p, q);
    } else if i != j {
      SlotGap(sh, i, j);
    }
  }

  /** No object and no free word meets a slab header. */
  lemma HeaderApart(sh: Shape, p: Place, i: nat, q: Place)
    requires Sound(sh) && Placed(sh, p) && Placed(sh, q) && i < sh.count
    requires Separate(sh, p, q) && (p.slab == q.slab ==> p == q)
    ensures Disjoint(ObjAt(sh, p, i), sh.size, q.slab, HEADER_SIZE)
    ensures Disjoint(WordAt(sh, p, i), WORD_SIZE, q.slab, HEADER_SIZE)
  {
    hide Offset, Multiple;
    SlotBounds(sh, p, i);
    SlotBounds(sh, q, 0);
    if p != q {
      PagesApart(sh, p, q);
    }
  }
}
