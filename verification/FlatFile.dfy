/**
 A cached file as one flat byte sequence: a size and zero-filled pages, and what patching a page,
 adding a page and growing the file do to it.
 */
module FlatFile {
  import opened Bytes
  import opened Paging

  type Pages = map<nat, seq<Byte>>   // page data by file offset

  /** Whole pages at page offsets, zero past the end of the file. */
  ghost predicate PagesOk(size: nat, pages: Pages) {
    forall off :: off in pages ==> off % PAGE_SIZE == 0 && PageOk(size, off, pages[off])
  }

  ghost predicate PageOk(size: nat, off: nat, data: seq<Byte>) {
    |data| == PAGE_SIZE && forall k :: 0 <= k < PAGE_SIZE && off + k >= size ==> data[k] == 0
  }

  /** A byte of the file; what is not cached is zero. */
  function ByteAt(pages: Pages, i: nat): Byte {
    var off := PageDown(i);
    if off in pages && |pages[off]| == PAGE_SIZE then pages[off][i - off] else 0
  }

  function Flat(size: nat, pages: Pages): seq<Byte> {
    seq(size, i requires 0 <= i < size => ByteAt(pages, i))
  }

  /** b over f at position `at`. */
  function Splice(f: seq<Byte>, at: nat, b: seq<Byte>): (r: seq<Byte>)
    requires at + |b| <= |f|
    ensures |r| == |f|
  {
    f[..at] + b + f[at + |b|..]
  }

  function Grown(f: seq<Byte>, size: nat): seq<Byte> {
    if size <= |f| then f else f + Zeros(size - |f|)
  }

  lemma PageOfByte(off: nat, k: nat)
    requires off % PAGE_SIZE == 0 && k < PAGE_SIZE
    ensures PageDown(off + k) == off
  {
    DivModUnique(off / PAGE_SIZE, k, PAGE_SIZE);
  }

  /** Bytes inside one page, read from the page. */
  lemma ReadPage(size: nat, pages: Pages, off: nat, a: nat, n: nat)
    requires PagesOk(size, pages) && off in pages && a + n <= PAGE_SIZE && off + a + n <= size
    ensures |pages[off]| == PAGE_SIZE && Flat(size, pages)[off + a..off + a + n] == pages[off][a..a + n]
  {
    forall k | a <= k < a + n ensures Flat(size, pages)[off + k] == pages[off][k] {
      PageOfByte(off, k);
    }
  }

  lemma AddPage(size: nat, pages: Pages, off: nat)
    requires PagesOk(size, pages) && off !in pages && off % PAGE_SIZE == 0
    ensures PagesOk(size, pages[off := Zeros(PAGE_SIZE)])
    ensures Flat(size, pages[off := Zeros(PAGE_SIZE)]) == Flat(size, pages)
  {
    var pages' := pages[off := Zeros(PAGE_SIZE)];
    forall i | 0 <= i < size ensures ByteAt(pages', i) == ByteAt(pages, i) {
    }
  }

  lemma Grow(size: nat, size': nat, pages: Pages)
    requires PagesOk(size, pages) && size <= size'
    ensures PagesOk(size', pages) && Flat(size', pages) == Grown(Flat(size, pages), size')
  {
    forall i | size <= i < size' ensures ByteAt(pages, i) == 0 {
    }
  }

  /** One page patched is one splice of the file. */
  lemma PatchPage(size: nat, pages: Pages, off: nat, a: nat, b: seq<Byte>)
    requires PagesOk(size, pages) && off in pages && a + |b| <= PAGE_SIZE && off + a + |b| <= size
    ensures |pages[off]| == PAGE_SIZE
    ensures var pages' := pages[off := Splice(pages[off], a, b)];
      PagesOk(size, pages') && Flat(size, pages') == Splice(Flat(size, pages), off + a, b)
  {
    var data := Splice(pages[off], a, b);
    var pages' := pages[off := data];
    var f, f' := Flat(size, pages), Splice(Flat(size, pages), off + a, b);
    forall i | 0 <= i < size ensures ByteAt(pages', i) == f'[i] {
      PatchByte(size, pages, off, a, b, i);
    }
  }

  lemma PatchByte(size: nat, pages: Pages, off: nat, a: nat, b: seq<Byte>, i: nat)
    requires PagesOk(size, pages) && off in pages && a + |b| <= PAGE_SIZE && i < size && |pages[off]| == PAGE_SIZE
    ensures ByteAt(pages[off := Splice(pages[off], a, b)], i) ==
            if off + a <= i < off + a + |b| then b[i - off - a] else ByteAt(pages, i)
  {
    if off <= i < off + PAGE_SIZE {
      PageOfByte(off, i - off);
    }
  }

  /** Two splices one after the other are one. */
  lemma SpliceTwice(f: seq<Byte>, at: nat, x: seq<Byte>, y: seq<Byte>)
    requires at + |x| + |y| <= |f|
    ensures Splice(Splice(f, at, x), at + |x|, y) == Splice(f, at, x + y)
  {
  }

  /** The next n bytes of a buffer behind those already there. */
  lemma SpliceNext(f: seq<Byte>, at: nat, buffer: seq<Byte>, done: nat, n: nat)
    requires done + n <= |buffer| && at + |buffer| <= |f|
    ensures Splice(Splice(f, at, buffer[..done]), at + done, buffer[done..done + n]) ==
            Splice(f, at, buffer[..done + n])
  {
    hide Splice;
    assert buffer[..done + n] == buffer[..done] + buffer[done..done + n];
    SpliceTwice(f, at, buffer[..done], buffer[done..done + n]);
  }

  // ---------- bytes_to_pages in 64-bit arithmetic ----------

  function Word(x: int): (r: nat)
    ensures r < WORD_LIMIT
  {
    x % WORD_LIMIT
  }

  /** The page count: ROUND_UP may wrap to zero. */
  function PageCount(offset: nat, size: nat): nat {
    Word(PageDown(Word(Word(offset + size) + PAGE_SIZE - 1)) / PAGE_SIZE - offset / PAGE_SIZE)
  }

  /** The one request whose pages are lost: nearly all of the address space, from the start. */
  predicate Lost(offset: nat, size: nat) {
    offset == 0 && size > WORD_LIMIT - PAGE_SIZE
  }

  /** What the first, unaligned page takes. */
  function FirstPart(offset: nat, size: nat): (n: nat)
    ensures n <= size
  {
    var start := offset % PAGE_SIZE;
    if start == 0 then 0 else if PAGE_SIZE - start < size then PAGE_SIZE - start else size
  }

  /** The bound of the loop over the other pages, as the source computes it. */
  function Bound(aligned: bool, count: nat): nat {
    Word((if aligned then count else Word(count - 1)) * PAGE_SIZE)
  }

  function LoopBound(offset: nat, size: nat): nat {
    Bound(offset % PAGE_SIZE == 0, PageCount(offset, size))
  }

  lemma WordOf(r: nat, k: int)
    requires r < WORD_LIMIT
    ensures Word(WORD_LIMIT * k + r) == r
  {
  }

  lemma PageDownDiv(x: nat)
    ensures PageDown(x) == PAGE_SIZE * (x / PAGE_SIZE) && PageDown(x) / PAGE_SIZE == x / PAGE_SIZE
  {
  }

  /** Whole pages to cover n bytes. */
  function PagesFor(n: nat): nat {
    (n + PAGE_SIZE - 1) / PAGE_SIZE
  }

  lemma CountOf(offset: nat, size: nat)
    requires 0 < size && offset + size < WORD_LIMIT
    ensures PageCount(offset, size) == if offset + size <= WORD_LIMIT - PAGE_SIZE
                                       then PagesFor(offset + size) - offset / PAGE_SIZE
                                       else Word(0 - offset / PAGE_SIZE)
  {
    hide PageDown;
    var x := offset + size;
    assert Word(x) == x;
    if x <= WORD_LIMIT - PAGE_SIZE {
      var up := x + PAGE_SIZE - 1;
      assert Word(up) == up;
      PageDownDiv(up);
      FewPages(offset, up);
    } else {
      var y := x + PAGE_SIZE - 1 - WORD_LIMIT;
      WordOf(y, 1);
      PageDownDiv(y);
    }
  }

  lemma FewPages(offset: nat, up: nat)
    requires offset <= up < WORD_LIMIT
    ensures 0 <= up / PAGE_SIZE - offset / PAGE_SIZE < WORD_LIMIT
  {
  }

  lemma PageUpIs(n: nat)
    ensures PageUp(n) == PAGE_SIZE * PagesFor(n)
  {
    PageDownDiv(n + PAGE_SIZE - 1);
  }

  lemma AlignedInRange(po: nat, size: nat)
    requires 0 < size && PAGE_SIZE * po + size <= WORD_LIMIT - PAGE_SIZE
    ensures PagesFor(PAGE_SIZE * po + size) - po == PagesFor(size)
    ensures Word(PagesFor(size) * PAGE_SIZE) == PAGE_SIZE * PagesFor(size)
  {
  }

  lemma UnalignedInRange(po: nat, start: nat, size: nat)
    requires 0 < size && 0 < start < PAGE_SIZE && PAGE_SIZE * po + start + size <= WORD_LIMIT - PAGE_SIZE
    ensures var rest := if PAGE_SIZE - start < size then size - (PAGE_SIZE - start) else 0;
      && PagesFor(PAGE_SIZE * po + start + size) - po - 1 == PagesFor(rest)
      && Word(PagesFor(rest)) == PagesFor(rest) && Word(PagesFor(rest) * PAGE_SIZE) == PAGE_SIZE * PagesFor(rest)
  {
  }

  lemma NegativePages(p: nat)
    requires 0 < p && PAGE_SIZE * p <= WORD_LIMIT
    ensures Word(0 - p) == WORD_LIMIT - p && Word(Word(0 - p) * PAGE_SIZE) == Word(WORD_LIMIT - PAGE_SIZE * p)
  {
    WordOf(WORD_LIMIT - p, -1);
    assert (WORD_LIMIT - p) * PAGE_SIZE == WORD_LIMIT * (PAGE_SIZE - 1) + (WORD_LIMIT - PAGE_SIZE * p);
    if PAGE_SIZE * p < WORD_LIMIT {
      WordOf(WORD_LIMIT - PAGE_SIZE * p, PAGE_SIZE - 1);
    } else {
      WordOf(0, PAGE_SIZE);
    }
  }

  lemma AlignedWrapped(po: nat, size: nat)
    requires 0 < po && WORD_LIMIT - PAGE_SIZE < PAGE_SIZE * po + size < WORD_LIMIT
    ensures Word(Word(0 - po) * PAGE_SIZE) == PAGE_SIZE * PagesFor(size)
  {
    NegativePages(po);
  }

  lemma UnalignedWrapped(po: nat, start: nat, size: nat)
    requires 0 < start < PAGE_SIZE && WORD_LIMIT - PAGE_SIZE < PAGE_SIZE * po + start + size < WORD_LIMIT
    ensures var rest := if PAGE_SIZE - start < size then size - (PAGE_SIZE - start) else 0;
      Word(Word(Word(0 - po) - 1) * PAGE_SIZE) == PAGE_SIZE * PagesFor(rest)
  {
    if po > 0 {
      NegativePages(po);
    }
    NegativePages(po + 1);
    assert Word(Word(0 - po) - 1) == Word(0 - (po + 1));
  }

  lemma AlignedBound(po: nat, size: nat, count: nat)
    requires 0 < size && PAGE_SIZE * po + size < WORD_LIMIT
    requires count == if PAGE_SIZE * po + size <= WORD_LIMIT - PAGE_SIZE then PagesFor(PAGE_SIZE * po + size) - po
                      else Word(0 - po)
    ensures Bound(true, count) == if PAGE_SIZE * po == 0 && size > WORD_LIMIT - PAGE_SIZE then 0 else PageUp(size)
  {
    PageUpIs(size);
    hide Word, PageUp;
    if PAGE_SIZE * po + size <= WORD_LIMIT - PAGE_SIZE {
      AlignedInRange(po, size);
    } else if po > 0 {
      AlignedWrapped(po, size);
    } else {
      WordOf(0, 0);
      assert Word(0 - po) == 0 && Word(0 * PAGE_SIZE) == 0;
    }
  }

  lemma UnalignedBound(po: nat, start: nat, size: nat, rest: nat, count: nat)
    requires 0 < size && 0 < start < PAGE_SIZE && PAGE_SIZE * po + start + size < WORD_LIMIT
    requires rest == if PAGE_SIZE - start < size then size - (PAGE_SIZE - start) else 0
    requires count == if PAGE_SIZE * po + start + size <= WORD_LIMIT - PAGE_SIZE
                      then PagesFor(PAGE_SIZE * po + start + size) - po else Word(0 - po)
    ensures Bound(false, count) == PageUp(rest)
  {
    PageUpIs(rest);
    hide Word, PageUp;
    if PAGE_SIZE * po + start + size <= WORD_LIMIT - PAGE_SIZE {
      UnalignedInRange(po, start, size);
    } else {
      UnalignedWrapped(po, start, size);
    }
  }

  /** Despite wrapping, the loop covers exactly the rest, except for the lost request. */
  lemma LoopCovers(offset: nat, size: nat)
    requires 0 < size && offset + size < WORD_LIMIT
    ensures LoopBound(offset, size) == if Lost(offset, size) then 0 else PageUp(size - FirstPart(offset, size))
  {
    hide Word, PageCount, PageUp, Bound, PagesFor;
    var po, start, count := offset / PAGE_SIZE, offset % PAGE_SIZE, PageCount(offset, size);
    CountOf(offset, size);
    assert offset == PAGE_SIZE * po + start;
    if start == 0 {
      AlignedBound(po, size, count);
    } else {
      UnalignedBound(po, start, size, size - FirstPart(offset, size), count);
    }
  }

  /** The page loop, after `lo` bytes of page offsets: what is done and what comes next. */
  lemma LoopTurn(rest: nat, lo: nat)
    requires lo % PAGE_SIZE == 0 && lo < PageUp(rest)
    ensures lo < rest && lo + PAGE_SIZE <= PageUp(rest) && (lo + PAGE_SIZE) % PAGE_SIZE == 0
  {
    PageUpIs(rest);
    assert lo == PAGE_SIZE * (lo / PAGE_SIZE);
  }

  /** The rest starts on a page boundary, one page on when the first was unaligned. */
  lemma RestStarts(offset: nat, size: nat)
    ensures var first := FirstPart(offset, size);
      first < size ==> offset + first == PAGE_SIZE * (offset / PAGE_SIZE + (if offset % PAGE_SIZE == 0 then 0 else 1))
  {
  }

  lemma NoPages(n: nat)
    ensures PageUp(n) == 0 <==> n == 0
  {
  }

  /** All that `vfs_read` and `vfs_write` compute before their loops. */
  lemma Plan(offset: nat, size: nat)
    requires 0 < size && offset + size < WORD_LIMIT
    ensures var first, bound := FirstPart(offset, size), LoopBound(offset, size);
      var po, start := offset / PAGE_SIZE, offset % PAGE_SIZE;
      && first <= size && (bound == 0 || bound == PageUp(size - first))
      && (if Lost(offset, size) then bound == 0 && first == 0 else bound == 0 ==> first == size)
      && PAGE_SIZE * po % PAGE_SIZE == 0 && PAGE_SIZE * (po + 1) % PAGE_SIZE == 0 && PAGE_SIZE * po + start == offset
      && (start == 0 ==> first == 0 && bound == Word(PageCount(offset, size) * PAGE_SIZE))
      && (start != 0 ==>
            && first == (if PAGE_SIZE - start < size then PAGE_SIZE - start else size) && first > 0
            && bound == Word(Word(PageCount(offset, size) - 1) * PAGE_SIZE)
            && (first < size ==> PAGE_SIZE * (po + 1) == offset + first))
  {
    hide Word, PageCount, PageUp, PagesFor;
    LoopCovers(offset, size);
    RestStarts(offset, size);
    NoPages(size - FirstPart(offset, size));
  }

  /** 4095 bytes short of 2^64, from the start: no first part, and a loop that never turns. */
  lemma LostExample()
    ensures Lost(0, WORD_LIMIT - 4095) && FirstPart(0, WORD_LIMIT - 4095) == 0 && LoopBound(0, WORD_LIMIT - 4095) == 0
  {
    LoopCovers(0, WORD_LIMIT - 4095);
  }

  // ---------- the pages a request needs ----------

  /** How many of the n pages from off on are not among those cached. */
  function Misses(cached: set<nat>, off: nat, n: nat): nat
    decreases n
  {
    if n == 0 then 0 else (if off in cached then 0 else 1) + Misses(cached, off + PAGE_SIZE, n - 1)
  }

  /** The pages the bytes [offset, offset + size) lie on. */
  function Touched(offset: nat, size: nat): nat {
    if Lost(offset, size) then 0 else PagesFor(offset % PAGE_SIZE + size)
  }

  /** How many of the n pages from off on can be fetched, one after the other, before the free frames run out. */
  function Reach(cached: set<nat>, off: nat, n: nat, free: nat): (k: nat)
    ensures k <= n
    decreases n
  {
    if n == 0 then 0
    else if off in cached then 1 + Reach(cached, off + PAGE_SIZE, n - 1, free)
    else if free == 0 then 0
    else 1 + Reach(cached, off + PAGE_SIZE, n - 1, free - 1)
  }

  /** The most pages whose uncached ones the free frames cover. */
  lemma {:induction false} ReachExact(cached: set<nat>, off: nat, n: nat, free: nat)
    ensures var k := Reach(cached, off, n, free);
      && Misses(cached, off, k) <= free && (k < n ==> Misses(cached, off, k + 1) > free)
      && (k == n <==> Misses(cached, off, n) <= free)
    decreases n
  {
    if n > 0 && off in cached {
      ReachExact(cached, off + PAGE_SIZE, n - 1, free);
    } else if n > 0 && free > 0 {
      ReachExact(cached, off + PAGE_SIZE, n - 1, free - 1);
    }
  }

  /** A page before off makes no difference. */
  lemma {:induction false} ReachLater(cached: set<nat>, u: nat, off: nat, n: nat, free: nat)
    requires u < off
    ensures Reach(cached + {u}, off, n, free) == Reach(cached, off, n, free)
    decreases n
  {
    if n > 0 {
      ReachLater(cached, u, off + PAGE_SIZE, n - 1, free);
      if free > 0 {
        ReachLater(cached, u, off + PAGE_SIZE, n - 1, free - 1);
      }
    }
  }

  /** Fetching one page is one page of the reach; a page that cannot be fetched ends it. */
  lemma ReachStep(cached: set<nat>, off: nat, n: nat, free: nat)
    requires n > 0
    ensures off in cached || free > 0 ==>
              Reach(cached, off, n, free) ==
              1 + Reach(cached + {off}, off + PAGE_SIZE, n - 1, if off in cached then free else free - 1)
    ensures off !in cached && free == 0 ==> Reach(cached, off, n, free) == 0
  {
    if off in cached || free > 0 {
      ReachLater(cached, off, off + PAGE_SIZE, n - 1, if off in cached then free else free - 1);
    }
  }

  /** The bytes of a request that its first k pages hold. */
  function Moved(offset: nat, size: nat, k: nat): nat {
    if k == 0 then 0 else Min(size, PAGE_SIZE * k - offset % PAGE_SIZE)
  }

  /** The first, unaligned page and k pages of the loop; the loop alone. */
  lemma MovedParts(offset: nat, size: nat, k: nat)
    ensures var first := FirstPart(offset, size);
      if offset % PAGE_SIZE == 0 then first + Min(PAGE_SIZE * k, size - first) == Moved(offset, size, k)
      else first + Min(PAGE_SIZE * k, size - first) == Moved(offset, size, k + 1)
  {
  }

  lemma NoneMoved(offset: nat, size: nat)
    ensures Moved(offset, size, 0) == 0
  {
  }

  /** All pages of a request hold all its bytes. */
  lemma MovedAll(offset: nat, size: nat)
    requires size > 0
    ensures Moved(offset, size, Touched(offset, size)) == if Lost(offset, size) then 0 else size
  {
  }

  /** How often the page loop turns. */
  function LoopTurns(offset: nat, size: nat): nat {
    if Lost(offset, size) then 0 else PagesFor(size - FirstPart(offset, size))
  }

  lemma TouchedPages(offset: nat, size: nat)
    requires size > 0
    ensures PagesFor(offset % PAGE_SIZE + size) ==
              (if offset % PAGE_SIZE == 0 then 0 else 1) + PagesFor(size - FirstPart(offset, size))
  {
  }

  /** The pages of a request: the first, unaligned one and those of the loop. */
  lemma TurnsOf(offset: nat, size: nat)
    requires size > 0 && offset + size < WORD_LIMIT
    ensures LoopBound(offset, size) == PAGE_SIZE * LoopTurns(offset, size)
    ensures Touched(offset, size) == LoopTurns(offset, size) + (if offset % PAGE_SIZE == 0 then 0 else 1)
    ensures PageDown(offset) == PAGE_SIZE * (offset / PAGE_SIZE)
  {
    hide PagesFor, FirstPart, LoopBound, PageUp, PageDown;
    LoopCovers(offset, size);
    PageUpIs(size - FirstPart(offset, size));
    PageDownDiv(offset);
    TouchedPages(offset, size);
  }
}
