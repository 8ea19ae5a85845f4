/**
 kernel/mem/vmm_cache.c on values: cached pages by id, the hash chains and vnode lists that find them, and
 what adding, patching and dropping a page do to the files.  `ids` says which page caches which offset.
 */
module PageCache {
  import opened Bytes
  import opened FlatFile
  import opened Paging

  const TABLE_SIZE := 4096

  /** backing 0 is no vnode. */
  datatype Page = Page(backing: nat, offset: nat, refcount: int, dirty: bool, data: seq<Byte>)

  type PageMap = map<nat, Page>
  type Ids = map<nat, map<nat, nat>>
  type Hash = (nat, nat) -> nat

  function Entry(hash: Hash, v: nat, off: nat): (e: nat)
    ensures e < TABLE_SIZE
  {
    hash(v, off) % TABLE_SIZE
  }

  /** Pages and offsets correspond one to one. */
  ghost predicate IndexOk(pages: PageMap, ids: Ids) {
    && (forall v, off :: v in ids && off in ids[v] ==>
          ids[v][off] in pages && pages[ids[v][off]].backing == v && pages[ids[v][off]].offset == off)
    && (forall id :: id in pages ==>
          pages[id].backing in ids && pages[id].offset in ids[pages[id].backing]
          && ids[pages[id].backing][pages[id].offset] == id)
  }

  /** Every page is on the chain of its hash entry, and chains hold nothing else. */
  ghost predicate TableOk(hash: Hash, table: seq<seq<nat>>, pages: PageMap) {
    && |table| == TABLE_SIZE
    && (forall h, id :: 0 <= h < |table| && id in table[h] ==>
          id in pages && Entry(hash, pages[id].backing, pages[id].offset) == h)
    && (forall id :: id in pages ==> id in table[Entry(hash, pages[id].backing, pages[id].offset)])
  }

  /** Every vnode lists exactly its own pages. */
  ghost predicate ListsOk(lists: map<nat, seq<nat>>, pages: PageMap) {
    && (forall v, id :: v in lists && id in lists[v] ==> id in pages && pages[id].backing == v)
    && (forall id :: id in pages ==> pages[id].backing in lists && id in lists[pages[id].backing])
  }

  /** A page has one reference for being cached, one for being dirty, and one while a caller holds it. */
  ghost predicate CountsOk(pages: PageMap, held: nat) {
    0 !in pages && forall id :: id in pages ==>
      pages[id].refcount == 1 + (if pages[id].dirty then 1 else 0) + (if id == held then 1 else 0)
  }

  ghost predicate DirtyOk(dirty: seq<nat>, pages: PageMap) {
    forall id :: id in dirty <==> id in pages && pages[id].dirty
  }

  /** The pages of one file. */
  function Cached(own: map<nat, nat>, pages: PageMap): Pages {
    map off | off in own && own[off] in pages :: pages[own[off]].data
  }

  ghost predicate FilesOk(sizes: map<nat, nat>, ids: Ids, pages: PageMap) {
    && sizes.Keys == ids.Keys
    && forall v :: v in sizes ==> PagesOk(sizes[v], Cached(ids[v], pages))
  }

  ghost function File(sizes: map<nat, nat>, ids: Ids, pages: PageMap, v: nat): seq<Byte>
    requires v in sizes && v in ids
  {
    Flat(sizes[v], Cached(ids[v], pages))
  }

  // ---------- one page more ----------

  ghost function AddId(ids: Ids, v: nat, off: nat, id: nat): Ids
    requires v in ids
  {
    var own: map<nat, nat> := ids[v][off := id];
    ids[v := own]
  }

  lemma AddIndex(pages: PageMap, ids: Ids, id: nat, page: Page)
    requires IndexOk(pages, ids) && id !in pages && id != 0 && page.backing in ids && page.offset !in ids[page.backing]
    ensures IndexOk(pages[id := page], AddId(ids, page.backing, page.offset, id))
  {
  }

  lemma AddTable(hash: Hash, table: seq<seq<nat>>, pages: PageMap, id: nat, page: Page)
    requires TableOk(hash, table, pages) && id !in pages
    ensures var h := Entry(hash, page.backing, page.offset);
      TableOk(hash, table[h := [id] + table[h]], pages[id := page])
  {
    hide Entry;
  }

  lemma AddList(lists: map<nat, seq<nat>>, pages: PageMap, id: nat, page: Page)
    requires ListsOk(lists, pages) && id !in pages && page.backing in lists
    ensures ListsOk(lists[page.backing := [id] + lists[page.backing]], pages[id := page])
  {
  }

  lemma AddFiles(sizes: map<nat, nat>, ids: Ids, pages: PageMap, id: nat, page: Page)
    requires FilesOk(sizes, ids, pages) && IndexOk(pages, ids) && id !in pages
    requires page.backing in sizes && page.offset !in ids[page.backing]
    requires page.offset % PAGE_SIZE == 0 && page.data == Zeros(PAGE_SIZE)
    ensures var ids' := AddId(ids, page.backing, page.offset, id);
      FilesOk(sizes, ids', pages[id := page]) &&
      forall v :: v in sizes ==> File(sizes, ids', pages[id := page], v) == File(sizes, ids, pages, v)
  {
    var u, off := page.backing, page.offset;
    var pages', ids' := pages[id := page], AddId(ids, u, off, id);
    var own := Cached(ids[u], pages);
    forall v | v in sizes && v != u ensures Cached(ids'[v], pages') == Cached(ids[v], pages) {
      OtherFile(pages, ids, v, id, page);
    }
    assert Cached(ids'[u], pages') == own[off := page.data] by {
      OtherOffsets(pages, ids, u, id, page);
    }
    AddPage(sizes[u], own, off);
    hide PagesOk, Flat, Cached;
  }

  lemma OtherFile(pages: PageMap, ids: Ids, v: nat, id: nat, page: Page)
    requires IndexOk(pages, ids) && v in ids && (id in pages ==> pages[id].backing != v)
    ensures Cached(ids[v], pages[id := page]) == Cached(ids[v], pages)
  {
  }

  lemma OtherOffsets(pages: PageMap, ids: Ids, v: nat, id: nat, page: Page)
    requires IndexOk(pages, ids) && v in ids
              && (id in pages ==> pages[id].backing == v && pages[id].offset == page.offset)
    requires page.offset in ids[v] ==> ids[v][page.offset] == id
    ensures Cached(ids[v][page.offset := id], pages[id := page]) == Cached(ids[v], pages)[page.offset := page.data]
  {
  }

  // ---------- one page patched ----------

  /** The same page with other data, counts or dirty flag. */
  ghost predicate SamePage(p: Page, q: Page) {
    p.backing == q.backing && p.offset == q.offset
  }

  lemma SetIndex(pages: PageMap, ids: Ids, id: nat, page: Page)
    requires IndexOk(pages, ids) && id in pages && SamePage(pages[id], page)
    ensures IndexOk(pages[id := page], ids)
  {
  }

  lemma SetTable(hash: Hash, table: seq<seq<nat>>, pages: PageMap, id: nat, page: Page)
    requires TableOk(hash, table, pages) && id in pages && SamePage(pages[id], page)
    ensures TableOk(hash, table, pages[id := page])
  {
    hide Entry;
  }

  lemma SetLists(lists: map<nat, seq<nat>>, pages: PageMap, id: nat, page: Page)
    requires ListsOk(lists, pages) && id in pages && SamePage(pages[id], page)
    ensures ListsOk(lists, pages[id := page])
  {
  }

  lemma PatchFiles(sizes: map<nat, nat>, ids: Ids, pages: PageMap, id: nat, page: Page, a: nat, b: seq<Byte>)
    requires FilesOk(sizes, ids, pages) && IndexOk(pages, ids) && id in pages && SamePage(pages[id], page)
    requires a + |b| <= PAGE_SIZE && page.backing in sizes && page.offset + a + |b| <= sizes[page.backing]
    requires |pages[id].data| == PAGE_SIZE && page.data == Splice(pages[id].data, a, b)
    ensures FilesOk(sizes, ids, pages[id := page])
    ensures forall v :: v in sizes ==>
              var f := File(sizes, ids, pages, v);
              File(sizes, ids, pages[id := page], v) == if v == page.backing then Splice(f, page.offset + a, b) else f
  {
    var u, off := page.backing, page.offset;
    var pages' := pages[id := page];
    var own := Cached(ids[u], pages);
    forall v | v in sizes && v != u ensures Cached(ids[v], pages') == Cached(ids[v], pages) {
      OtherFile(pages, ids, v, id, page);
    }
    assert ids[u][off := id] == ids[u];
    OtherOffsets(pages, ids, u, id, page);
    assert off in own && own[off] == pages[id].data;
    PatchPage(sizes[u], own, off, a, b);
    hide PagesOk, Flat, Cached, Splice;
  }

  /** Counts and flags alone do not show in any file. */
  lemma CountFiles(sizes: map<nat, nat>, ids: Ids, pages: PageMap, id: nat, page: Page)
    requires FilesOk(sizes, ids, pages) && id in pages && page.data == pages[id].data
    ensures FilesOk(sizes, ids, pages[id := page])
    ensures forall v :: v in sizes ==> File(sizes, ids, pages[id := page], v) == File(sizes, ids, pages, v)
  {
    forall v | v in sizes ensures Cached(ids[v], pages[id := page]) == Cached(ids[v], pages) {
    }
    hide PagesOk, Flat, Cached;
  }

  /** A file grows by zeros. */
  lemma GrowFiles(sizes: map<nat, nat>, ids: Ids, pages: PageMap, u: nat, size: nat)
    requires FilesOk(sizes, ids, pages) && u in sizes && sizes[u] <= size
    ensures FilesOk(sizes[u := size], ids, pages)
    ensures forall v :: v in sizes ==>
              var f := File(sizes, ids, pages, v);
              File(sizes[u := size], ids, pages, v) == if v == u then Grown(f, size) else f
  {
    Grow(sizes[u], size, Cached(ids[u], pages));
    hide PagesOk, Flat, Cached;
  }

  // ---------- the whole cache ----------

  datatype Cache = Cache(table: seq<seq<nat>>, lists: map<nat, seq<nat>>, dirty: seq<nat>, sizes: map<nat, nat>,
                         pages: PageMap)

  /** The cache between steps; `held` is the page a caller holds, 0 for none. */
  ghost predicate CacheOk(hash: Hash, c: Cache, ids: Ids, held: nat) {
    && IndexOk(c.pages, ids) && TableOk(hash, c.table, c.pages) && ListsOk(c.lists, c.pages)
    && DirtyOk(c.dirty, c.pages) && FilesOk(c.sizes, ids, c.pages) && CountsOk(c.pages, held)
    && c.sizes.Keys == ids.Keys == c.lists.Keys && forall v :: v in c.sizes ==> c.sizes[v] < WORD_LIMIT
  }

  /** The files as byte sequences. */
  ghost function FilesOf(c: Cache, ids: Ids): map<nat, seq<Byte>> {
    map v | v in c.sizes && v in ids :: File(c.sizes, ids, c.pages, v)
  }

  /** A page newly found: zeros, held by the caller. */
  function WithPage(hash: Hash, c: Cache, id: nat, v: nat, off: nat, page: Page): Cache
    requires |c.table| == TABLE_SIZE && v in c.lists
  {
    var h := Entry(hash, v, off);
    var list: seq<nat> := [id] + c.lists[v];
    c.(table := c.table[h := [id] + c.table[h]], lists := c.lists[v := list], pages := c.pages[id := page])
  }

  lemma AddOk(hash: Hash, c: Cache, ids: Ids, id: nat, v: nat, off: nat)
    requires CacheOk(hash, c, ids, 0) && id !in c.pages && id != 0 && v in c.sizes && off !in ids[v]
    requires off % PAGE_SIZE == 0
    ensures var c' := WithPage(hash, c, id, v, off, Page(v, off, 2, false, Zeros(PAGE_SIZE)));
      CacheOk(hash, c', AddId(ids, v, off, id), id) && FilesOf(c', AddId(ids, v, off, id)) == FilesOf(c, ids)
  {
    hide IndexOk, TableOk, ListsOk, FilesOk, File, Entry, Zeros;
    var page := Page(v, off, 2, false, Zeros(PAGE_SIZE));
    AddIndex(c.pages, ids, id, page);
    AddTable(hash, c.table, c.pages, id, page);
    AddList(c.lists, c.pages, id, page);
    AddFiles(c.sizes, ids, c.pages, id, page);
  }

  /** Only the counts of one page change: taking or dropping a reference. */
  lemma HoldOk(hash: Hash, c: Cache, ids: Ids, id: nat, held: nat, held': nat)
    requires CacheOk(hash, c, ids, held) && id in c.pages && id != 0 &&
             (if held == 0 then held' == id else held == id && held' == 0)
    ensures var page := c.pages[id].(refcount := c.pages[id].refcount + (if held' == id then 1 else -1));
      var c' := c.(pages := c.pages[id := page]);
      CacheOk(hash, c', ids, held') && FilesOf(c', ids) == FilesOf(c, ids)
  {
    hide IndexOk, TableOk, ListsOk, FilesOk, File;
    var page := c.pages[id].(refcount := c.pages[id].refcount + (if held' == id then 1 else -1));
    SetIndex(c.pages, ids, id, page);
    SetTable(hash, c.table, c.pages, id, page);
    SetLists(c.lists, c.pages, id, page);
    CountFiles(c.sizes, ids, c.pages, id, page);
  }

  function Dirtied(c: Cache, id: nat): Cache
    requires id in c.pages
  {
    var page := c.pages[id];
    if page.dirty then c
    else c.(dirty := [id] + c.dirty, pages := c.pages[id := page.(dirty := true, refcount := page.refcount + 1)])
  }

  lemma DirtyStep(hash: Hash, c: Cache, ids: Ids, id: nat, held: nat)
    requires CacheOk(hash, c, ids, held) && id in c.pages
    ensures CacheOk(hash, Dirtied(c, id), ids, held) && FilesOf(Dirtied(c, id), ids) == FilesOf(c, ids)
  {
    hide IndexOk, TableOk, ListsOk, FilesOk, File;
    var page := c.pages[id].(dirty := true, refcount := c.pages[id].refcount + 1);
    SetIndex(c.pages, ids, id, page);
    SetTable(hash, c.table, c.pages, id, page);
    SetLists(c.lists, c.pages, id, page);
    CountFiles(c.sizes, ids, c.pages, id, page);
  }

  // ---------- which pages are dirty ----------

  /** The page at off holds a byte of [lo, hi). */
  predicate Meets(off: nat, lo: nat, hi: nat) {
    lo < hi && off < hi && lo < off + PAGE_SIZE
  }

  /** Exactly the pages that were dirty before, and the pages of file v that hold a byte of [lo, hi), are dirty. */
  ghost predicate Marked(was: PageMap, now: PageMap, v: nat, lo: nat, hi: nat) {
    && was.Keys <= now.Keys && (forall id :: id in was ==> SamePage(was[id], now[id]))
    && forall id :: id in now ==>
         (now[id].dirty <==> (id in was && was[id].dirty) || (now[id].backing == v && Meets(now[id].offset, lo, hi)))
  }

  lemma MarkedNext(was: PageMap, mid: PageMap, now: PageMap, v: nat, lo: nat, m: nat, hi: nat)
    requires Marked(was, mid, v, lo, m) && Marked(mid, now, v, m, hi) && lo <= m <= hi
    requires forall id :: id in now && now[id].backing == v && Meets(now[id].offset, lo, m) ==> id in mid
    ensures Marked(was, now, v, lo, hi)
  {
    forall id | id in now
      ensures now[id].dirty <==> (id in was && was[id].dirty) || (now[id].backing == v && Meets(now[id].offset, lo, hi))
    {
      if id in mid {
        assert SamePage(mid[id], now[id]);
      }
    }
  }

  /** Steps that mark nothing, before and after one that marks something. */
  lemma MarkedBetween(a: PageMap, b: PageMap, c: PageMap, d: PageMap, v: nat, lo: nat, hi: nat)
    requires Marked(a, b, 0, 0, 0) && Marked(b, c, v, lo, hi) && Marked(c, d, 0, 0, 0) && d.Keys == c.Keys
    ensures Marked(a, d, v, lo, hi)
  {
    forall id | id in d
      ensures d[id].dirty <==> (id in a && a[id].dirty) || (d[id].backing == v && Meets(d[id].offset, lo, hi))
    {
      if id in c {
        assert SamePage(c[id], d[id]);
      }
    }
  }

  lemma Spread(a: nat, b: nat)
    requires a % PAGE_SIZE == 0 && b % PAGE_SIZE == 0 && a < b
    ensures a + PAGE_SIZE <= b
  {
  }

  /** Bytes inside one page are in no other page of the file. */
  lemma OnePage(c: Cache, ids: Ids, id: nat, q: nat, lo: nat, hi: nat)
    requires FilesOk(c.sizes, ids, c.pages) && IndexOk(c.pages, ids) && id in c.pages && q in c.pages && lo < hi
    requires c.pages[id].backing == c.pages[q].backing
    requires c.pages[id].offset <= lo && hi <= c.pages[id].offset + PAGE_SIZE
    ensures Meets(c.pages[q].offset, lo, hi) <==> q == id
  {
    assert c.pages[id].backing in c.sizes;
    WholePage(c.sizes, ids, c.pages, id);
    WholePage(c.sizes, ids, c.pages, q);
    var a, b := c.pages[id].offset, c.pages[q].offset;
    if a < b {
      Spread(a, b);
    } else if b < a {
      Spread(b, a);
    }
  }

  /** Every byte of [lo, hi) of file v has its page cached. */
  ghost predicate Held(ids: Ids, v: nat, lo: nat, hi: nat) {
    v in ids && forall x: nat :: lo <= x < hi ==> PageDown(x) in ids[v]
  }

  /** A page that holds a byte of a part that was held is not a new one. */
  lemma HeldBefore(mid: Cache, ids: Ids, now: Cache, ids': Ids, v: nat, lo: nat, hi: nat, id: nat)
    requires IndexOk(mid.pages, ids) && IndexOk(now.pages, ids') && FilesOk(now.sizes, ids', now.pages)
    requires Held(ids, v, lo, hi) && mid.pages.Keys <= now.pages.Keys
    requires forall q :: q in mid.pages ==> SamePage(mid.pages[q], now.pages[q])
    requires id in now.pages && now.pages[id].backing == v && Meets(now.pages[id].offset, lo, hi)
    ensures id in mid.pages
  {
    assert v in now.sizes;
    WholePage(now.sizes, ids', now.pages, id);
    var off := now.pages[id].offset;
    var x := if lo < off then off else lo;
    DivModUnique(off / PAGE_SIZE, x - off, PAGE_SIZE);
    assert PageDown(x) == off;
    assert SamePage(mid.pages[ids[v][off]], now.pages[ids[v][off]]);
  }

  /** One more part of a file is marked. */
  lemma MarksGoOn(hash: Hash, mid: Cache, ids: Ids, now: Cache, ids': Ids, was: PageMap, v: nat, lo: nat,
                  m: nat, hi: nat)
    requires CacheOk(hash, mid, ids, 0) && CacheOk(hash, now, ids', 0) && Held(ids, v, lo, m) && lo <= m <= hi
    requires Marked(was, mid.pages, v, lo, m) && Marked(mid.pages, now.pages, v, m, hi)
    ensures Marked(was, now.pages, v, lo, hi)
  {
    forall id | id in now.pages && now.pages[id].backing == v && Meets(now.pages[id].offset, lo, m)
      ensures id in mid.pages
    {
      hide IndexOk, FilesOk, TableOk, ListsOk, DirtyOk, CountsOk, Held, Meets;
      HeldBefore(mid, ids, now, ids', v, lo, m, id);
    }
    MarkedNext(was, mid.pages, now.pages, v, lo, m, hi);
  }

  lemma HeldNext(ids: Ids, ids': Ids, v: nat, lo: nat, m: nat, hi: nat, off: nat)
    requires Held(ids, v, lo, m) && v in ids' && ids[v].Keys <= ids'[v].Keys && off in ids'[v] && off % PAGE_SIZE == 0
    requires off <= m && hi <= off + PAGE_SIZE
    ensures Held(ids', v, lo, hi)
  {
    forall x: nat | lo <= x < hi ensures PageDown(x) in ids'[v] {
      if x >= m {
        DivModUnique(off / PAGE_SIZE, x - off, PAGE_SIZE);
      }
    }
  }

  /** b copied into a page: one splice of one file. */
  lemma PatchOk(hash: Hash, c: Cache, ids: Ids, id: nat, held: nat, a: nat, b: seq<Byte>)
    requires CacheOk(hash, c, ids, held) && id in c.pages && a + |b| <= PAGE_SIZE
    requires var p := c.pages[id]; p.backing in c.sizes && p.offset + a + |b| <= c.sizes[p.backing]
    ensures |c.pages[id].data| == PAGE_SIZE
    ensures var p := c.pages[id];
      var c' := c.(pages := c.pages[id := p.(data := Splice(p.data, a, b))]);
      && CacheOk(hash, c', ids, held) && p.backing in ids && p.offset + a + |b| <= |FilesOf(c, ids)[p.backing]|
      && FilesOf(c', ids) == FilesOf(c, ids)[p.backing := Splice(FilesOf(c, ids)[p.backing], p.offset + a, b)]
  {
    hide TableOk, ListsOk, FilesOk, File, Splice, IndexOk;
    FileLength(c, ids, c.pages[id].backing);
    WholePage(c.sizes, ids, c.pages, id);
    var p := c.pages[id];
    var page := p.(data := Splice(p.data, a, b));
    SetIndex(c.pages, ids, id, page);
    SetTable(hash, c.table, c.pages, id, page);
    SetLists(c.lists, c.pages, id, page);
    PatchFiles(c.sizes, ids, c.pages, id, page, a, b);
  }

  lemma FileLength(c: Cache, ids: Ids, v: nat)
    requires v in c.sizes && v in ids
    ensures |FilesOf(c, ids)[v]| == c.sizes[v]
  {
  }

  lemma WholePage(sizes: map<nat, nat>, ids: Ids, pages: PageMap, id: nat)
    requires FilesOk(sizes, ids, pages) && IndexOk(pages, ids) && id in pages && pages[id].backing in sizes
    ensures |pages[id].data| == PAGE_SIZE && pages[id].offset % PAGE_SIZE == 0
    ensures Cached(ids[pages[id].backing], pages)[pages[id].offset] == pages[id].data
  {
    var own := Cached(ids[pages[id].backing], pages);
    assert pages[id].offset in own;
  }

  lemma GrowOk(hash: Hash, c: Cache, ids: Ids, v: nat, size: nat)
    requires CacheOk(hash, c, ids, 0) && v in c.sizes && c.sizes[v] <= size < WORD_LIMIT
    ensures var c' := c.(sizes := c.sizes[v := size]);
      && CacheOk(hash, c', ids, 0) && v in ids
      && FilesOf(c', ids) == FilesOf(c, ids)[v := Grown(FilesOf(c, ids)[v], size)]
  {
    hide IndexOk, TableOk, ListsOk, FilesOk, File, Grown;
    GrowFiles(c.sizes, ids, c.pages, v, size);
    assert c.sizes[v := size].Keys == c.sizes.Keys by { MapKeys(c.sizes, v, size); }
  }

  lemma MapKeys(m: map<nat, nat>, k: nat, x: nat)
    requires k in m
    ensures m[k := x].Keys == m.Keys
  {
  }

  /** What a page holds is what the file holds there. */
  lemma ReadOk(hash: Hash, c: Cache, ids: Ids, id: nat, held: nat, a: nat, n: nat)
    requires CacheOk(hash, c, ids, held) && id in c.pages && a + n <= PAGE_SIZE
    requires var p := c.pages[id]; p.backing in c.sizes && p.offset + a + n <= c.sizes[p.backing]
    ensures var p := c.pages[id];
      && |p.data| == PAGE_SIZE && p.backing in ids && |FilesOf(c, ids)[p.backing]| == c.sizes[p.backing]
      && FilesOf(c, ids)[p.backing][p.offset + a..p.offset + a + n] == p.data[a..a + n]
  {
    hide TableOk, ListsOk;
    var p := c.pages[id];
    FileLength(c, ids, p.backing);
    WholePage(c.sizes, ids, c.pages, id);
    var own := Cached(ids[p.backing], c.pages);
    ReadPage(c.sizes[p.backing], own, p.offset, a, n);
  }
}
