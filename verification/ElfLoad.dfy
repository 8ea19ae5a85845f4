/**
 init/elf.c `load`: one program header into memory.  `mem` is the mapped memory, byte by byte.  `grantsLeft` and
 `readsLeft` say how many more mappings and file reads succeed, so that each may fail at any point.
 */
module ElfLoad {
  import opened ByteMemory
  import opened Bytes
  import opened Paging

  datatype Header = Header(vaddr: nat, offset: nat, filesz: nat, memsz: nat)

  datatype Result = Ok | ENOMEM | ENOEXEC | EIO | Panic   // Panic: an assert of `vmm_map` fails

  /** The segment's byte at address x: from the file as far as it reaches, else zero. */
  function Image(h: Header, file: seq<Byte>, x: nat): Byte {
    if h.vaddr <= x < h.vaddr + h.filesz && h.offset + (x - h.vaddr) < |file| then file[h.offset + (x - h.vaddr)] else 0
  }

  ghost predicate Unmapped(mem: Memory, lo: nat, hi: nat) {
    forall x :: lo <= x < hi ==> x !in mem
  }

  /** Memory is as it was, and from lo to hi, which was not mapped, the segment. */
  ghost predicate Loaded(mem0: Memory, mem: Memory, h: Header, file: seq<Byte>, lo: nat, hi: nat) {
    && Unmapped(mem0, lo, hi)
    && (forall x :: x in mem <==> x in mem0 || lo <= x < hi)
    && (forall x :: x in mem0 ==> mem[x] == mem0[x])
    && (forall x :: lo <= x < hi ==> mem[x] == Image(h, file, x))
  }

  /** What the unaligned first page takes of the file. */
  function FirstPart(h: Header): nat {
    if h.vaddr % PAGE_SIZE == 0 then 0 else Min(h.filesz, PAGE_SIZE - h.vaddr % PAGE_SIZE)
  }

  /** The whole file pages after that. */
  function MiddlePages(h: Header): nat {
    (h.filesz - FirstPart(h)) / PAGE_SIZE
  }

  /** `vmm_map` is handed a file offset inside a page. */
  predicate Misaligned(h: Header) {
    MiddlePages(h) > 0 && (h.offset + FirstPart(h)) % PAGE_SIZE != 0
  }

  /** With middle pages, exactly the headers whose address and offset differ modulo the page size. */
  lemma MisalignedExact(h: Header)
    ensures Misaligned(h) <==> MiddlePages(h) > 0 && h.vaddr % PAGE_SIZE != h.offset % PAGE_SIZE
  {
  }

  /** A page of the file at offset 0x10, for address 0x1000. */
  lemma MisalignedExample()
    ensures Misaligned(Header(0x1000, 0x10, 0x1000, 0x1000))
  {
  }

  /** For a segment with bytes in memory, the pages from lo to hi are those that meet it. */
  lemma PagesMet(h: Header, page: nat)
    requires h.memsz > 0 && page % PAGE_SIZE == 0
    ensures PageDown(h.vaddr) <= page < PageUp(h.vaddr + h.memsz) <==>
            page < h.vaddr + h.memsz && h.vaddr < page + PAGE_SIZE
  {
    hide PageDown, PageUp;
    var lo, hi := PageDown(h.vaddr), PageUp(h.vaddr + h.memsz);
    PageBounds(h.vaddr);
    PageBounds(h.vaddr + h.memsz);
    Quotients(page / PAGE_SIZE, lo / PAGE_SIZE, hi / PAGE_SIZE, h.vaddr, h.vaddr + h.memsz);
  }

  lemma PageBounds(x: nat)
    ensures PageDown(x) <= x < PageDown(x) + PAGE_SIZE && PageDown(x) == PAGE_SIZE * (PageDown(x) / PAGE_SIZE)
    ensures x <= PageUp(x) < x + PAGE_SIZE && PageUp(x) == PAGE_SIZE * (PageUp(x) / PAGE_SIZE)
  {
  }

  lemma Quotients(q: nat, a: nat, b: nat, v: nat, x: nat)
    requires PAGE_SIZE * a <= v < PAGE_SIZE * a + PAGE_SIZE && x <= PAGE_SIZE * b < x + PAGE_SIZE
    ensures a <= q < b <==> PAGE_SIZE * q < x && v < PAGE_SIZE * q + PAGE_SIZE
    ensures PAGE_SIZE * a <= PAGE_SIZE * q < PAGE_SIZE * b <==> a <= q < b
  {
  }

  /** Zeros over mapped memory before or behind the file part change nothing. */
  lemma ZeroAround(mem0: Memory, mem: Memory, h: Header, file: seq<Byte>, lo: nat, hi: nat, a: nat, n: nat)
    requires Loaded(mem0, mem, h, file, lo, hi) && lo <= a && a + n <= hi
    requires n > 0 ==> a + n <= h.vaddr || h.vaddr + h.filesz <= a
    ensures Loaded(mem0, Put(mem, a, Zeros(n)), h, file, lo, hi)
  {
    hide Put;
  }

  /** The first page: mapped, and filled from the file at vaddr. */
  lemma FirstImage(mem0: Memory, h: Header, file: seq<Byte>, page: nat, off: nat, count: nat, mem: Memory)
    requires h.vaddr == page + off && off < PAGE_SIZE && Unmapped(mem0, page, page + PAGE_SIZE)
    requires count == Min(h.filesz, PAGE_SIZE - off) && (count == 0 || h.offset + count <= |file|)
    requires var bytes := if count == 0 then [] else file[h.offset..h.offset + count];
      mem == Put(Put(mem0, page, Zeros(PAGE_SIZE)), h.vaddr, bytes)
    ensures Loaded(mem0, mem, h, file, page, page + PAGE_SIZE)
  {
    hide Put;
  }

  lemma WholePages(n: nat)
    ensures PageUp(n * PAGE_SIZE) == n * PAGE_SIZE && n * PAGE_SIZE % PAGE_SIZE == 0
  {
  }

  /** Fresh pages with n bytes of the file at their start. */
  lemma FileImage(mem0: Memory, h: Header, file: seq<Byte>, addr: nat, offset: nat, n: nat, bytes: nat, mem: Memory)
    requires h.vaddr <= addr && offset == h.offset + (addr - h.vaddr) && 0 < n <= bytes && offset + n <= |file|
    requires addr + n <= h.vaddr + h.filesz && (n < bytes ==> addr + n == h.vaddr + h.filesz)
    requires Unmapped(mem0, addr, addr + bytes)
    requires mem == Put(Put(mem0, addr, Zeros(bytes)), addr, file[offset..offset + n])
    ensures Loaded(mem0, mem, h, file, addr, addr + bytes)
  {
    hide Put;
  }

  /** Where the page of an unaligned address ends. */
  lemma PageEnd(vaddr: nat, count: nat)
    requires vaddr % PAGE_SIZE != 0 && vaddr % PAGE_SIZE + count <= PAGE_SIZE
    ensures var end := PageDown(vaddr) + PAGE_SIZE;
      && vaddr + count <= end && PageUp(vaddr + count) == end && PageDown(vaddr) <= vaddr
      && end == vaddr + (PAGE_SIZE - vaddr % PAGE_SIZE)
      && PAGE_SIZE - (vaddr + count) % PAGE_SIZE == if vaddr + count < end then end - (vaddr + count) else PAGE_SIZE
  {
  }

  /** Where the pages of the first part end. */
  function FirstEnd(h: Header): nat {
    if h.vaddr % PAGE_SIZE == 0 then h.vaddr else PageDown(h.vaddr) + PAGE_SIZE
  }

  lemma AlignedStart(h: Header, mem: Memory, file: seq<Byte>)
    requires h.vaddr % PAGE_SIZE == 0
    ensures PageDown(h.vaddr) == h.vaddr && FirstPart(h) == 0 && Loaded(mem, mem, h, file, h.vaddr, h.vaddr)
  {
  }

  /** Where the walk stands: pages are done up to cur, memLeft bytes of the segment remain from there on. */
  ghost predicate Cursor(h: Header, addr: nat, memLeft: nat, cur: nat) {
    && cur % PAGE_SIZE == 0 && PageDown(h.vaddr) <= cur < h.vaddr + h.memsz + PAGE_SIZE
    && (if memLeft > 0 then addr == cur && addr + memLeft == h.vaddr + h.memsz else h.vaddr + h.memsz <= cur)
  }

  lemma StartCursor(h: Header, addr: nat, memLeft: nat)
    requires addr + memLeft == h.vaddr + h.memsz && (memLeft > 0 ==> addr == FirstEnd(h))
    requires memLeft == 0 ==> addr <= FirstEnd(h)
    ensures Cursor(h, addr, memLeft, FirstEnd(h))
  {
  }

  /** With file bytes left after the first page, that page was filled to its end. */
  lemma StartOfRest(h: Header)
    ensures FirstPart(h) <= h.filesz && h.vaddr + FirstPart(h) <= FirstEnd(h)
    ensures FirstPart(h) < h.filesz ==> FirstEnd(h) == h.vaddr + FirstPart(h)
  {
  }

  lemma EndCursor(h: Header, addr: nat, memLeft: nat, cur: nat)
    requires Cursor(h, addr, memLeft, cur)
    ensures memLeft == 0 ==> cur == PageUp(h.vaddr + h.memsz)
    ensures memLeft > 0 ==> addr == cur && cur % PAGE_SIZE == 0 && cur + PageUp(memLeft) == PageUp(h.vaddr + h.memsz)
    ensures PageDown(h.vaddr) <= cur
  {
    hide PageUp, PageDown;
    if memLeft == 0 {
      PageUpUnique(h.vaddr + h.memsz, cur);
    } else {
      PageBounds(memLeft);
      SumAligned(cur, PageUp(memLeft));
      PageUpUnique(h.vaddr + h.memsz, cur + PageUp(memLeft));
    }
  }

  lemma SumAligned(a: nat, b: nat)
    requires a % PAGE_SIZE == 0 && b % PAGE_SIZE == 0
    ensures (a + b) % PAGE_SIZE == 0
  {
    var i, j := a / PAGE_SIZE, b / PAGE_SIZE;
    DivModUnique(i + j, 0, PAGE_SIZE);
    assert a + b == PAGE_SIZE * (i + j) + 0;
  }

  lemma PageUpUnique(x: nat, r: nat)
    requires r % PAGE_SIZE == 0 && x <= r < x + PAGE_SIZE
    ensures PageUp(x) == r
  {
    hide PageUp;
    PageBounds(x);
    assert r == PAGE_SIZE * (r / PAGE_SIZE);
  }

  /** Two neighbouring parts are one. */
  lemma LoadedMore(mem0: Memory, mem1: Memory, mem2: Memory, h: Header, file: seq<Byte>, lo: nat, mid: nat, hi: nat)
    requires Loaded(mem0, mem1, h, file, lo, mid) && Loaded(mem1, mem2, h, file, mid, hi) && lo <= mid <= hi
    ensures Loaded(mem0, mem2, h, file, lo, hi)
  {
    hide Image;
  }

  // ---------- which error comes when ----------

  /**
   One step of `load`: the pages from lo to hi are mapped, from the file or not, and count bytes of the file are read
   into them.
   */
  datatype Part = Part(lo: nat, hi: nat, fromFile: bool, copied: bool, offset: nat, count: nat)

  /** What comes of one part: no memory or a page taken, the assert of `vmm_map`, a read that fails, a short file. */
  ghost function Try(file: seq<Byte>, mem: Memory, p: Part, grants: nat, copies: nat): Result {
    if grants == 0 || !Unmapped(mem, p.lo, p.hi) then ENOMEM
    else if p.fromFile && p.offset % PAGE_SIZE != 0 then Panic
    else if p.copied && copies == 0 then EIO
    else if p.copied && p.count > 0 && p.offset + p.count > |file| then ENOEXEC
    else Ok
  }

  /** What comes of several parts: the first one that does not go through decides. */
  ghost function Verdict(file: seq<Byte>, mem: Memory, ps: seq<Part>, grants: nat, copies: nat): Result {
    if ps == [] then Ok
    else
      var r := Try(file, mem, ps[0], grants, copies);
      if r != Ok then r
      else Verdict(file, mem, ps[1..], grants - 1, if ps[0].copied then copies - 1 else copies)
  }

  function MiddleEnd(h: Header): nat {
    FirstEnd(h) + MiddlePages(h) * PAGE_SIZE
  }

  /** The bytes of the file on the last, partial page. */
  function LastPart(h: Header): nat {
    (h.filesz - FirstPart(h)) % PAGE_SIZE
  }

  function LastEnd(h: Header): nat {
    if LastPart(h) == 0 then MiddleEnd(h) else MiddleEnd(h) + PAGE_SIZE
  }

  function First(h: Header): seq<Part> {
    if h.vaddr % PAGE_SIZE == 0 then []
    else [Part(PageDown(h.vaddr), FirstEnd(h), false, true, h.offset, FirstPart(h))]
  }

  function Middle(h: Header): seq<Part> {
    if MiddlePages(h) == 0 then []
    else [Part(FirstEnd(h), MiddleEnd(h), true, true, h.offset + FirstPart(h), MiddlePages(h) * PAGE_SIZE)]
  }

  function Last(h: Header): seq<Part> {
    if LastPart(h) == 0 then []
    else [Part(MiddleEnd(h), LastEnd(h), false, true, h.offset + (h.filesz - LastPart(h)), LastPart(h))]
  }

  function Rest(h: Header): seq<Part> {
    var end := PageUp(h.vaddr + h.memsz);
    if end <= LastEnd(h) then [] else [Part(LastEnd(h), end, false, false, 0, 0)]
  }

  lemma VerdictFirst(file: seq<Byte>, mem: Memory, ps: seq<Part>, qs: seq<Part>, grants: nat, copies: nat)
    requires |ps| <= 1 && forall p :: p in ps ==> p.copied
    ensures var r := Verdict(file, mem, ps, grants, copies);
      && (r == Ok ==> |ps| <= grants && |ps| <= copies)
      && Verdict(file, mem, ps + qs, grants, copies) ==
         if r == Ok then Verdict(file, mem, qs, grants - |ps|, copies - |ps|) else r
  {
    hide Try;
    if ps == [] {
      assert ps + qs == qs;
    } else {
      assert (ps + qs)[0] == ps[0] && (ps + qs)[1..] == qs && ps[1..] == [];
      assert ps[0] in ps;
      TryTakes(file, mem, ps[0], grants, copies);
    }
  }

  lemma TryTakes(file: seq<Byte>, mem: Memory, p: Part, grants: nat, copies: nat)
    ensures Try(file, mem, p, grants, copies) == Ok ==> grants > 0 && (p.copied ==> copies > 0)
  {
  }

  /** What is mapped behind the part done so far is what was mapped there before. */
  lemma SameBehind(mem0: Memory, mem: Memory, h: Header, file: seq<Byte>, lo: nat, cur: nat, hi: nat)
    requires Loaded(mem0, mem, h, file, lo, cur)
    ensures Unmapped(mem, cur, hi) <==> Unmapped(mem0, cur, hi)
  {
    hide Image;
    if Unmapped(mem, cur, hi) {
      forall x | cur <= x < hi ensures x !in mem0 {
        assert x !in mem;
      }
    }
  }

  lemma PartsOnce(h: Header)
    ensures |First(h)| <= 1 && |Middle(h)| <= 1 && |Last(h)| <= 1 && |Rest(h)| <= 1
    ensures forall p :: p in First(h) || p in Middle(h) || p in Last(h) ==> p.copied
  {
  }

  /** Nothing is mapped on the segment's pages. */
  ghost predicate Free(h: Header, mem: Memory) {
    Unmapped(mem, PageDown(h.vaddr), PageUp(h.vaddr + h.memsz))
  }

  /** The file ends before the segment's bytes do. */
  predicate Short(h: Header, file: seq<Byte>) {
    h.filesz > 0 && h.offset + h.filesz > |file|
  }

  /** A page that starts before the end is within the pages up to the end. */
  lemma NextPage(page: nat, end: nat)
    requires page % PAGE_SIZE == 0 && page < end
    ensures page + PAGE_SIZE <= PageUp(end)
  {
    hide PageUp;
    PageBounds(end);
  }

  lemma PagesOf(n: nat)
    ensures n == n / PAGE_SIZE * PAGE_SIZE + n % PAGE_SIZE && n / PAGE_SIZE * PAGE_SIZE % PAGE_SIZE == 0
  {
  }

  lemma FirstBounds(h: Header)
    ensures PageDown(h.vaddr) <= FirstEnd(h) && FirstEnd(h) % PAGE_SIZE == 0 && PageDown(h.vaddr) % PAGE_SIZE == 0
    ensures h.vaddr % PAGE_SIZE != 0 ==> PageDown(h.vaddr) < h.vaddr && FirstEnd(h) == PageDown(h.vaddr) + PAGE_SIZE
  {
    PagesOf(h.vaddr);
  }

  /** Where the parts end. */
  lemma PartEnds(h: Header)
    requires h.filesz <= h.memsz
    ensures MiddleEnd(h) % PAGE_SIZE == 0 && h.filesz == FirstPart(h) + MiddlePages(h) * PAGE_SIZE + LastPart(h)
    ensures MiddlePages(h) > 0 || LastPart(h) > 0 ==> MiddleEnd(h) + LastPart(h) == h.vaddr + h.filesz
  {
    hide PageDown, FirstPart, FirstEnd;
    StartOfRest(h);
    FirstBounds(h);
    PagesOf(h.filesz - FirstPart(h));
    SumAligned(FirstEnd(h), MiddlePages(h) * PAGE_SIZE);
  }

  /** A part lies on the segment's pages and takes bytes of its file part. */
  ghost predicate InsidePages(h: Header, p: Part) {
    && PageDown(h.vaddr) <= p.lo && p.hi <= PageUp(h.vaddr + h.memsz)
    && p.offset + p.count <= h.offset + h.filesz
  }

  lemma PartsInside(h: Header)
    requires h.filesz <= h.memsz
    ensures PageDown(h.vaddr) <= FirstEnd(h) <= MiddleEnd(h) <= LastEnd(h)
    ensures forall p :: p in First(h) || p in Middle(h) || p in Last(h) || p in Rest(h) ==> InsidePages(h, p)
  {
    hide PageUp, PageDown, FirstPart, MiddlePages, LastPart, FirstEnd;
    FirstBounds(h);
    PartEnds(h);
    var end := h.vaddr + h.memsz;
    PageBounds(end);
    if LastPart(h) > 0 {
      NextPage(MiddleEnd(h), end);
    }
    if h.vaddr % PAGE_SIZE != 0 {
      NextPage(PageDown(h.vaddr), end);
    }
  }

  predicate Lacks(file: seq<Byte>, ps: seq<Part>) {
    ps != [] && ps[0].copied && ps[0].count > 0 && ps[0].offset + ps[0].count > |file|
  }

  predicate Skewed(ps: seq<Part>) {
    ps != [] && ps[0].fromFile && ps[0].offset % PAGE_SIZE != 0
  }

  ghost predicate Open(mem: Memory, ps: seq<Part>) {
    ps != [] ==> Unmapped(mem, ps[0].lo, ps[0].hi)
  }

  /** With room, the file decides. */
  lemma VerdictOne(file: seq<Byte>, mem: Memory, h: Header, ps: seq<Part>, grants: nat, copies: nat)
    requires |ps| <= 1 && grants > 0 && copies > 0 && Free(h, mem)
    requires forall p :: p in ps ==> InsidePages(h, p)
    ensures Verdict(file, mem, ps, grants, copies) ==
            if Skewed(ps) then Panic else if Lacks(file, ps) then ENOEXEC else Ok
  {
    hide PageUp, PageDown;
    if ps != [] {
      assert ps[0] in ps && ps[1..] == [];
    }
  }

  /** The parts take the segment's bytes from the file, one after the other. */
  lemma ShortExact(h: Header, file: seq<Byte>)
    requires h.filesz <= h.memsz
    ensures Short(h, file) <==> Lacks(file, First(h)) || Lacks(file, Middle(h)) || Lacks(file, Last(h))
    ensures Misaligned(h) <==> Skewed(Middle(h))
    ensures !Skewed(First(h)) && !Skewed(Last(h)) && !Skewed(Rest(h)) && !Lacks(file, Rest(h))
  {
    hide PageUp, PageDown;
  }

  /** Only a file mapping can panic, and nothing goes through that is skewed, short or taken. */
  lemma VerdictMeans(file: seq<Byte>, mem: Memory, ps: seq<Part>, grants: nat, copies: nat)
    requires |ps| <= 1
    ensures var r := Verdict(file, mem, ps, grants, copies);
      && (r == Panic ==> Skewed(ps))
      && (r == Ok ==> !Skewed(ps) && !Lacks(file, ps) && Open(mem, ps))
  {
  }

  /** The parts cover the segment's pages. */
  lemma FreeExact(h: Header, mem: Memory)
    requires h.filesz <= h.memsz
    requires Open(mem, First(h)) && Open(mem, Middle(h)) && Open(mem, Last(h)) && Open(mem, Rest(h))
    ensures Free(h, mem)
  {
    hide PageUp, PageDown;
    if h.vaddr % PAGE_SIZE == 0 {
      AlignedStart(h, mem, []);
    }
    PartsInside(h);
  }

  /**
   What the verdict on the whole segment means.  When mappings and reads do not run out, a load onto free pages is
   decided by the header and the file alone; and none goes through onto a page that is taken.
   */
  lemma VerdictIs(file: seq<Byte>, mem: Memory, h: Header, grants: nat, copies: nat)
    requires h.filesz <= h.memsz
    ensures var r := Verdict(file, mem, First(h) + (Middle(h) + (Last(h) + Rest(h))), grants, copies);
      && (r == Panic ==> Misaligned(h))
      && (r == Ok ==> !Misaligned(h) && !Short(h, file) && Free(h, mem))
      && (grants >= 4 && copies >= 4 && Free(h, mem) ==>
            && (r == Ok <==> !Misaligned(h) && !Short(h, file))
            && (!Misaligned(h) && Short(h, file) ==> r == ENOEXEC)
            && (Misaligned(h) && !Short(h, file) ==> r == Panic))
  {
    hide Verdict, PageUp, PageDown, FirstPart, MiddlePages, Free, Lacks, Skewed, Misaligned, Short, Open, InsidePages;
    PartsOnce(h);
    PartsInside(h);
    ShortExact(h, file);
    VerdictFirst(file, mem, First(h), Middle(h) + (Last(h) + Rest(h)), grants, copies);
    VerdictMeans(file, mem, First(h), grants, copies);
    if grants >= 4 && copies >= 4 && Free(h, mem) {
      VerdictOne(file, mem, h, First(h), grants, copies);
    }
    if Verdict(file, mem, First(h), grants, copies) == Ok {
      VerdictRest(file, mem, h, grants - |First(h)|, copies - |First(h)|);
      if Verdict(file, mem, First(h) + (Middle(h) + (Last(h) + Rest(h))), grants, copies) == Ok {
        FreeExact(h, mem);
      }
    }
  }

  lemma VerdictRest(file: seq<Byte>, mem: Memory, h: Header, grants: nat, copies: nat)
    requires h.filesz <= h.memsz
    ensures var r := Verdict(file, mem, Middle(h) + (Last(h) + Rest(h)), grants, copies);
      && (r == Panic ==> Skewed(Middle(h)))
      && (r == Ok ==>
            && !Skewed(Middle(h)) && !Lacks(file, Middle(h)) && !Lacks(file, Last(h))
            && Open(mem, Middle(h)) && Open(mem, Last(h)) && Open(mem, Rest(h)))
      && (grants >= 3 && copies >= 3 && Free(h, mem) ==>
            r == if Skewed(Middle(h)) then Panic
                 else if Lacks(file, Middle(h)) || Lacks(file, Last(h)) then ENOEXEC else Ok)
  {
    hide Verdict, PageUp, PageDown, FirstPart, MiddlePages, Free, Lacks, Skewed, Misaligned, Short, Open, InsidePages;
    PartsOnce(h);
    PartsInside(h);
    ShortExact(h, file);
    VerdictFirst(file, mem, Middle(h), Last(h) + Rest(h), grants, copies);
    VerdictMeans(file, mem, Middle(h), grants, copies);
    var room := grants >= 3 && copies >= 3 && Free(h, mem);
    if room { VerdictOne(file, mem, h, Middle(h), grants, copies); }
    if Verdict(file, mem, Middle(h), grants, copies) == Ok {
      var g, n := grants - |Middle(h)|, copies - |Middle(h)|;
      VerdictFirst(file, mem, Last(h), Rest(h), g, n);
      VerdictMeans(file, mem, Last(h), g, n);
      if room { VerdictOne(file, mem, h, Last(h), g, n); }
      if Verdict(file, mem, Last(h), g, n) == Ok {
        VerdictMeans(file, mem, Rest(h), g - |Last(h)|, n - |Last(h)|);
        if room { VerdictOne(file, mem, h, Rest(h), g - |Last(h)|, n - |Last(h)|); }
      }
    }
  }

  class Process {
    const file: seq<Byte>
    var mem: Memory
    var grantsLeft: nat
    var readsLeft: nat

    /** `vmm_map` with VMM_FLAGS_EXACT: fresh zero pages exactly where asked for, if nothing is there. */
    method VmmMap(addr: nat, size: nat) returns (ok: bool)
      requires addr % PAGE_SIZE == 0
      modifies this`mem, this`grantsLeft
      ensures ok <==> old(grantsLeft) > 0 && size > 0 && Unmapped(old(mem), addr, addr + PageUp(size))
      ensures mem == if ok then Put(old(mem), addr, Zeros(PageUp(size))) else old(mem)
      ensures grantsLeft == if old(grantsLeft) > 0 then old(grantsLeft) - 1 else 0
    {
      if grantsLeft == 0 {
        return false;
      }
      grantsLeft := grantsLeft - 1;
      var bytes := PageUp(size);
      if size == 0 {
        return false;
      }
      var i := 0;
      while i < bytes
        invariant 0 <= i <= bytes && Unmapped(mem, addr, addr + i)
      {
        if addr + i in mem {
          return false;
        }
        i := i + 1;
      }
      mem := Put(mem, addr, Zeros(bytes));
      ok := true;
    }

    /** `elf_read_exact` into memory. */
    method ReadExact(addr: nat, count: nat, offset: nat) returns (err: Result)
      modifies this`mem, this`readsLeft
      ensures err == if old(readsLeft) == 0 then EIO else if count > 0 && offset + count > |file| then ENOEXEC else Ok
      ensures err == Ok ==> offset + count <= |file| || count == 0
      ensures err == Ok ==> mem == Put(old(mem), addr, if count == 0 then [] else file[offset..offset + count])
      ensures readsLeft == if old(readsLeft) > 0 then old(readsLeft) - 1 else 0
    {
      if readsLeft == 0 {
        return EIO;
      }
      readsLeft := readsLeft - 1;
      var bytes := if count == 0 || offset >= |file| then [] else file[offset..Min(offset + count, |file|)];
      mem := Put(mem, addr, bytes);
      err := if |bytes| != count then ENOEXEC else Ok;
    }

    method Memset(addr: nat, n: nat)
      modifies this`mem
      ensures mem == Put(old(mem), addr, Zeros(n))
    {
      mem := Put(mem, addr, Zeros(n));
    }

    // ---------- load, part by part ----------

    /** Maps the unaligned first page and reads what the file has for it; the part before is zero. */
    method FillFirst(h: Header) returns (err: Result)
      requires h.filesz <= h.memsz && h.vaddr % PAGE_SIZE != 0
      modifies this
      ensures err != Panic
      ensures err == Ok ==> Loaded(old(mem), mem, h, file, PageDown(h.vaddr), PageDown(h.vaddr) + PAGE_SIZE)
      ensures err == Try(file, old(mem),
                         Part(PageDown(h.vaddr), PageDown(h.vaddr) + PAGE_SIZE, false, true, h.offset, FirstPart(h)),
                         old(grantsLeft), old(readsLeft))
      ensures err == Ok ==> grantsLeft == old(grantsLeft) - 1 && readsLeft == old(readsLeft) - 1
    {
      hide Put, Loaded, Unmapped, Image, Zeros, PageUp;
      WholePages(1);
      var page, offset := PageDown(h.vaddr), h.vaddr % PAGE_SIZE;
      var count := Min(h.filesz, PAGE_SIZE - offset);
      var ok := VmmMap(page, PAGE_SIZE);
      if !ok {
        return ENOMEM;
      }
      err := ReadExact(h.vaddr, count, h.offset);
      if err != Ok {
        return;
      }
      FirstImage(old(mem), h, file, page, offset, count, mem);
      ZeroAround(old(mem), mem, h, file, page, page + PAGE_SIZE, page, offset);
      Memset(page, offset);
    }

    /** The rest of the first page behind the file part; `addr` is where the segment goes on. */
    method ZeroRest(h: Header, ghost mem0: Memory) returns (addr: nat, memLeft: nat)
      requires h.filesz <= h.memsz && h.vaddr % PAGE_SIZE != 0
      requires Loaded(mem0, mem, h, file, PageDown(h.vaddr), PageDown(h.vaddr) + PAGE_SIZE)
      modifies this`mem
      ensures Loaded(mem0, mem, h, file, PageDown(h.vaddr), PageDown(h.vaddr) + PAGE_SIZE)
      ensures addr + memLeft == h.vaddr + h.memsz && h.filesz - FirstPart(h) <= memLeft
      ensures if memLeft > 0 then addr == PageDown(h.vaddr) + PAGE_SIZE else addr <= PageDown(h.vaddr) + PAGE_SIZE
    {
      hide Put, Loaded, Image, Zeros, PageUp, PageDown;
      var count := FirstPart(h);
      addr, memLeft := h.vaddr + count, h.memsz - count;
      PageEnd(h.vaddr, count);
      var remaining := PAGE_SIZE - addr % PAGE_SIZE;
      if remaining != 0 && memLeft != 0 {
        var n := Min(remaining, memLeft);
        var diff := PageUp(addr) - addr;
        if n > diff {
          n := diff;
        }
        ZeroAround(mem0, mem, h, file, PageDown(h.vaddr), PageDown(h.vaddr) + PAGE_SIZE, addr, n);
        Memset(addr, n);
        memLeft, addr := memLeft - n, addr + n;
      }
    }

    /** The whole file pages in the middle.  `vmm_map` looks for room before it asserts that the offset is aligned. */
    method MapMiddle(h: Header, addr: nat, fileLeft: nat, offset: nat) returns (err: Result)
      requires fileLeft >= PAGE_SIZE && addr % PAGE_SIZE == 0 && addr == h.vaddr + (h.filesz - fileLeft)
      requires fileLeft <= h.filesz && offset == h.offset + (h.filesz - fileLeft)
      modifies this
      ensures err == Panic <==>
                && offset % PAGE_SIZE != 0 && old(grantsLeft) > 0
                && Unmapped(old(mem), addr, addr + fileLeft / PAGE_SIZE * PAGE_SIZE)
      ensures err == Ok ==> offset % PAGE_SIZE == 0
      ensures err == Ok ==> Loaded(old(mem), mem, h, file, addr, addr + fileLeft / PAGE_SIZE * PAGE_SIZE)
      ensures var bytes := fileLeft / PAGE_SIZE * PAGE_SIZE;
        err == Try(file, old(mem), Part(addr, addr + bytes, true, true, offset, bytes), old(grantsLeft), old(readsLeft))
      ensures err == Ok ==> grantsLeft == old(grantsLeft) - 1 && readsLeft == old(readsLeft) - 1
    {
      hide Put, Loaded, Unmapped, Image, Zeros, PageUp;
      var bytes := fileLeft / PAGE_SIZE * PAGE_SIZE;
      WholePages(fileLeft / PAGE_SIZE);
      var ok := VmmMap(addr, bytes);
      if !ok {
        return ENOMEM;
      }
      if offset % PAGE_SIZE != 0 {
        return Panic;
      }
      err := ReadExact(addr, bytes, offset);
      if err != Ok {
        return;
      }
      FileImage(old(mem), h, file, addr, offset, bytes, bytes, mem);
    }

    /** The last page, part file and part zero. */
    method MapLast(h: Header, addr: nat, count: nat, offset: nat) returns (err: Result)
      requires 0 < count < PAGE_SIZE && addr % PAGE_SIZE == 0 && addr + count == h.vaddr + h.filesz
      requires count <= h.filesz && offset + count == h.offset + h.filesz
      modifies this
      ensures err != Panic && (err == Ok ==> Loaded(old(mem), mem, h, file, addr, addr + PAGE_SIZE))
      ensures err == Try(file, old(mem), Part(addr, addr + PAGE_SIZE, false, true, offset, count), old(grantsLeft),
                         old(readsLeft))
      ensures err == Ok ==> grantsLeft == old(grantsLeft) - 1 && readsLeft == old(readsLeft) - 1
    {
      hide Put, Loaded, Unmapped, Image, Zeros, PageUp;
      WholePages(1);
      var ok := VmmMap(addr, PAGE_SIZE);
      if !ok {
        return ENOMEM;
      }
      err := ReadExact(addr, count, offset);
      if err != Ok {
        return;
      }
      FileImage(old(mem), h, file, addr, offset, count, PAGE_SIZE, mem);
      ZeroAround(old(mem), mem, h, file, addr, addr + PAGE_SIZE, addr + count, PAGE_SIZE - count);
      Memset(addr + count, PAGE_SIZE - count);
    }

    /** Pages past the file part, all zero. */
    method MapZeros(h: Header, addr: nat, size: nat) returns (err: Result)
      requires size > 0 && addr % PAGE_SIZE == 0 && h.vaddr + h.filesz <= addr
      modifies this
      ensures err != Panic && (err == Ok ==> Loaded(old(mem), mem, h, file, addr, addr + PageUp(size)))
      ensures err == Try(file, old(mem), Part(addr, addr + PageUp(size), false, false, 0, 0), old(grantsLeft),
                         old(readsLeft))
    {
      hide PageUp;
      var ok := VmmMap(addr, size);
      err := if ok then Ok else ENOMEM;
    }

    /** The first page if it is unaligned; then where the rest of the segment goes. */
    method LoadFirst(h: Header) returns (err: Result, addr: nat, memLeft: nat)
      requires h.filesz <= h.memsz
      modifies this
      ensures err != Panic
      ensures err == Ok ==>
                && Loaded(old(mem), mem, h, file, PageDown(h.vaddr), FirstEnd(h))
                && addr + memLeft == h.vaddr + h.memsz && h.filesz - FirstPart(h) <= memLeft
                && (if memLeft > 0 then addr == FirstEnd(h) else addr <= FirstEnd(h))
      ensures err == Verdict(file, old(mem), First(h), old(grantsLeft), old(readsLeft))
      ensures err == Ok ==> grantsLeft == old(grantsLeft) - |First(h)| && readsLeft == old(readsLeft) - |First(h)|
    {
      hide Loaded, PageDown, FirstPart, PageUp, Unmapped, Try;
      addr, memLeft, err := h.vaddr, h.memsz, Ok;
      if h.vaddr % PAGE_SIZE == 0 {
        AlignedStart(h, mem, file);
      }
      if h.vaddr % PAGE_SIZE != 0 {
        err := FillFirst(h);
        if err == Ok {
          addr, memLeft := ZeroRest(h, old(mem));
        }
      }
    }

    /** The whole file pages, if any. */
    method LoadMiddle(h: Header, addr: nat, memLeft: nat, ghost cur: nat, ghost mem0: Memory)
      returns (err: Result, addr': nat, memLeft': nat, ghost cur': nat)
      requires h.filesz <= h.memsz && Loaded(mem0, mem, h, file, PageDown(h.vaddr), cur) && cur == FirstEnd(h)
      requires Cursor(h, addr, memLeft, cur) && h.filesz - FirstPart(h) <= memLeft
      modifies this
      ensures err == Ok ==>
                && Loaded(mem0, mem, h, file, PageDown(h.vaddr), cur') && Cursor(h, addr', memLeft', cur')
                && cur' == MiddleEnd(h)
                && (h.filesz - FirstPart(h)) % PAGE_SIZE <= memLeft'
                && ((h.filesz - FirstPart(h)) % PAGE_SIZE > 0 ==>
                      addr' + (h.filesz - FirstPart(h)) % PAGE_SIZE == h.vaddr + h.filesz)
                && (memLeft' > 0 ==> h.vaddr + h.filesz <= addr' + (h.filesz - FirstPart(h)) % PAGE_SIZE)
      ensures err == Verdict(file, mem0, Middle(h), old(grantsLeft), old(readsLeft))
      ensures err == Ok ==> grantsLeft == old(grantsLeft) - |Middle(h)| && readsLeft == old(readsLeft) - |Middle(h)|
    {
      hide Loaded, PageDown, FirstPart, PageUp, Unmapped;
      StartOfRest(h);
      err, addr', memLeft', cur' := Ok, addr, memLeft, cur;
      var fileLeft := h.filesz - FirstPart(h);
      var pages := fileLeft / PAGE_SIZE;
      if pages > 0 {
        SameBehind(mem0, mem, h, file, PageDown(h.vaddr), cur, cur + pages * PAGE_SIZE);
        err := MapMiddle(h, addr, fileLeft, h.offset + FirstPart(h));
        if err != Ok {
          return;
        }
        var bytes := pages * PAGE_SIZE;
        LoadedMore(mem0, old(mem), mem, h, file, PageDown(h.vaddr), cur, cur + bytes);
        addr', memLeft', cur' := addr + bytes, memLeft - bytes, cur + bytes;
      }
    }

    /** The last, partial file page, if any. */
    method LoadLast(h: Header, addr: nat, memLeft: nat, ghost cur: nat, ghost mem0: Memory)
      returns (err: Result, addr': nat, memLeft': nat, ghost cur': nat)
      requires h.filesz <= h.memsz && Loaded(mem0, mem, h, file, PageDown(h.vaddr), cur)
      requires Cursor(h, addr, memLeft, cur) && cur == MiddleEnd(h)
      requires var last := (h.filesz - FirstPart(h)) % PAGE_SIZE;
        && last <= memLeft && (last > 0 ==> addr + last == h.vaddr + h.filesz)
        && (memLeft > 0 ==> h.vaddr + h.filesz <= addr + last)
      modifies this
      ensures err != Panic
      ensures err == Ok ==>
                && Loaded(mem0, mem, h, file, PageDown(h.vaddr), cur') && Cursor(h, addr', memLeft', cur')
                && (memLeft' > 0 ==> h.vaddr + h.filesz <= addr') && cur' == LastEnd(h)
      ensures err == Verdict(file, mem0, Last(h), old(grantsLeft), old(readsLeft))
      ensures err == Ok ==> grantsLeft == old(grantsLeft) - |Last(h)| && readsLeft == old(readsLeft) - |Last(h)|
    {
      hide Loaded, PageDown, PageUp, Unmapped;
      StartOfRest(h);
      err, addr', memLeft', cur' := Ok, addr, memLeft, cur;
      var last := (h.filesz - FirstPart(h)) % PAGE_SIZE;
      if last > 0 {
        SameBehind(mem0, mem, h, file, PageDown(h.vaddr), cur, cur + PAGE_SIZE);
        err := MapLast(h, addr, last, h.offset + (h.filesz - last));
        if err != Ok {
          return;
        }
        LoadedMore(mem0, old(mem), mem, h, file, PageDown(h.vaddr), cur, cur + PAGE_SIZE);
        addr', memLeft', cur' := addr + PAGE_SIZE, memLeft - Min(memLeft, PAGE_SIZE), cur + PAGE_SIZE;
      }
    }

    /** Zero pages behind the file part, if any. */
    method LoadRest(h: Header, addr: nat, memLeft: nat, ghost cur: nat, ghost mem0: Memory) returns (err: Result)
      requires Loaded(mem0, mem, h, file, PageDown(h.vaddr), cur) && Cursor(h, addr, memLeft, cur)
      requires cur == LastEnd(h) && (memLeft > 0 ==> h.vaddr + h.filesz <= addr)
      modifies this
      ensures err == Ok ==> Loaded(mem0, mem, h, file, PageDown(h.vaddr), PageUp(h.vaddr + h.memsz))
      ensures err == Verdict(file, mem0, Rest(h), old(grantsLeft), old(readsLeft))
    {
      hide Loaded, PageDown, PageUp, Unmapped, Cursor, LastEnd;
      EndCursor(h, addr, memLeft, cur);
      err := Ok;
      if memLeft > 0 {
        PageBounds(memLeft);
        SameBehind(mem0, mem, h, file, PageDown(h.vaddr), cur, cur + PageUp(memLeft));
        err := MapZeros(h, addr, memLeft);
        if err == Ok {
          LoadedMore(mem0, old(mem), mem, h, file, PageDown(h.vaddr), cur, cur + PageUp(memLeft));
        }
      }
    }

    /**
     `load`: exactly the pages that meet the segment are mapped, each once; the file part holds the file's bytes,
     everything else on them is zero.  Which error comes is decided by the first part that does not go through.
     With room, memory and a long enough file it succeeds exactly for headers that are not misaligned; for the others
     an assert of `vmm_map` fails.
     */
    method Load(h: Header) returns (err: Result)
      requires h.filesz <= h.memsz
      modifies this
      ensures err == Ok ==> Loaded(old(mem), mem, h, file, PageDown(h.vaddr), PageUp(h.vaddr + h.memsz))
      ensures err == Verdict(file, old(mem), First(h) + (Middle(h) + (Last(h) + Rest(h))), old(grantsLeft),
                             old(readsLeft))
      ensures err == Ok ==> !Misaligned(h) && !Short(h, file)
      ensures err == Panic ==> Misaligned(h)
      ensures old(grantsLeft) >= 4 && old(readsLeft) >= 4 && Free(h, old(mem)) ==>
                && (err == Ok <==> !Misaligned(h) && !Short(h, file))
                && (!Misaligned(h) && Short(h, file) ==> err == ENOEXEC)
                && (Misaligned(h) && !Short(h, file) ==> err == Panic)
    {
      hide Loaded, PageDown, PageUp, FirstPart, MiddlePages, Cursor, FirstEnd, Unmapped, Verdict, First, Middle, Last,
           Rest, Free, Short, Misaligned;
      ghost var mem0, g, n := mem, grantsLeft, readsLeft;
      PartsOnce(h);
      VerdictFirst(file, mem0, First(h), Middle(h) + (Last(h) + Rest(h)), g, n);
      VerdictIs(file, mem0, h, g, n);
      var addr, memLeft;
      ghost var cur;
      err, addr, memLeft := LoadFirst(h);
      if err != Ok {
        return;
      }
      StartCursor(h, addr, memLeft);
      VerdictFirst(file, mem0, Middle(h), Last(h) + Rest(h), grantsLeft, readsLeft);
      err, addr, memLeft, cur := LoadMiddle(h, addr, memLeft, FirstEnd(h), mem0);
      if err != Ok {
        return;
      }
      VerdictFirst(file, mem0, Last(h), Rest(h), grantsLeft, readsLeft);
      err, addr, memLeft, cur := LoadLast(h, addr, memLeft, cur, mem0);
      if err != Ok {
        return;
      }
      err := LoadRest(h, addr, memLeft, cur, mem0);
    }
  }
}
