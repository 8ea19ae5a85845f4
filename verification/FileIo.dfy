/**
 kernel/filesystem/vfs.c read and write of regular tmpfs files, over kernel/mem/vmm_cache.c and the page
 operations of kernel/filesystem/tmpfs.c.  `frames` are the physical pages `pmm_alloc_page` still has.
 */
module FileIo {
  import opened Bytes
  import opened FlatFile
  import opened PageCache
  import opened Paging

  datatype Error = Ok | EINVAL | EOVERFLOW | ENOMEM | ENXIO

  datatype Frame = Frame(id: nat, data: seq<Byte>)

  function RemoveFrom(list: seq<nat>, id: nat): seq<nat> {
    if list == [] then [] else if list[0] == id then list[1..] else [list[0]] + RemoveFrom(list[1..], id)
  }

  /** One file is the old one, grown by zeros to the end of the request, with a first part of the buffer spliced in. */
  ghost predicate Spliced(files: map<nat, seq<Byte>>, files': map<nat, seq<Byte>>, v: nat, buffer: seq<Byte>,
                          offset: nat, written: nat)
  {
    && v in files && written <= |buffer|
    && files' == files[v := Splice(Grown(files[v], offset + |buffer|), offset, buffer[..written])]
  }

  class FileSystem {
    const hash: Hash
    var table: seq<seq<nat>>          // hash chains, newest page first
    var lists: map<nat, seq<nat>>     // pages of each vnode
    var dirty: seq<nat>
    var sizes: map<nat, nat>          // file size of each vnode
    var pages: PageMap
    var cachedPages: int
    var frames: seq<Frame>
    ghost var ids: Ids

    /** Empty files and an empty cache. */
    constructor (hash: Hash, vnodes: set<nat>, frames: seq<Frame>)
      requires forall i :: 0 <= i < |frames| ==> frames[i].id != 0
      requires forall i, j :: 0 <= i < j < |frames| ==> frames[i].id != frames[j].id
      ensures Valid(0) && Files() == map v | v in vnodes :: []
    {
      this.hash, this.frames := hash, frames;
      table := seq(TABLE_SIZE, _ => []);
      lists := map v | v in vnodes :: [];
      sizes := map v | v in vnodes :: 0;
      dirty, pages, cachedPages := [], map[], 0;
      ids := map v | v in vnodes :: map[];
    }

    ghost function Value(): Cache
      reads this
    {
      Cache(table, lists, dirty, sizes, pages)
    }

    /** Frames on offer are in no use. */
    ghost predicate FramesOk()
      reads this
    {
      && (forall i :: 0 <= i < |frames| ==> frames[i].id != 0 && frames[i].id !in pages)
      && (forall i, j :: 0 <= i < j < |frames| ==> frames[i].id != frames[j].id)
    }

    ghost predicate Valid(held: nat)
      reads this
    {
      CacheOk(hash, Value(), ids, held) && FramesOk() && cachedPages == |pages|
    }

    /** Every file as one byte sequence. */
    ghost function Files(): map<nat, seq<Byte>>
      reads this
    {
      FilesOf(Value(), ids)
    }

    /**
     What fetching one page took: nothing when it was cached, one frame when it was not, and it fails exactly
     when it was not and there is no frame.
     */
    ghost predicate Fetched(ids0: Ids, frames0: seq<Frame>, v: nat, off: nat, err: Error)
      reads this
    {
      && v in ids0 && v in ids && ids0[v].Keys <= ids[v].Keys
      && err == (if off in ids0[v] || frames0 != [] then Ok else ENOMEM)
      && (err != Ok ==> frames == [])
      && (err == Ok ==>
            && ids[v].Keys == ids0[v].Keys + {off}
            && |frames| == (if off in ids0[v] then |frames0| else |frames0| - 1))
    }

    /** How many of the n pages of file v from off on can be fetched. */
    ghost function Ahead(v: nat, off: nat, n: nat): (k: nat)
      requires v in ids
      reads this`ids, this`frames
      ensures k <= n
    {
      Reach(ids[v].Keys, off, n, |frames|)
    }

    // ---------- kernel/mem/vmm_cache.c ----------

    /** `find_page`: the page that caches this offset, 0 when none does. */
    method FindPage(v: nat, off: nat) returns (page: nat)
      requires CacheOk(hash, Value(), ids, 0) && v in sizes
      ensures page == if off in ids[v] then ids[v][off] else 0
    {
      hide CacheOk, Entry;
      ChainFinds(v, off);
      var entry := Entry(hash, v, off);
      var chain := table[entry];
      var i := 0;
      while i < |chain| && !(pages[chain[i]].backing == v && pages[chain[i]].offset == off)
        invariant 0 <= i <= |chain|
        invariant forall j :: 0 <= j < i ==> !(pages[chain[j]].backing == v && pages[chain[j]].offset == off)
      {
        i := i + 1;
      }
      page := if i < |chain| then chain[i] else 0;
    }

    /** The chain of an offset's hash entry holds its page, if it is cached, and no other page of that offset. */
    lemma ChainFinds(v: nat, off: nat)
      requires CacheOk(hash, Value(), ids, 0) && v in sizes
      ensures |table| == TABLE_SIZE && v in ids
      ensures var chain := table[Entry(hash, v, off)];
        && (forall i :: 0 <= i < |chain| ==> chain[i] in pages)
        && (off in ids[v] ==> ids[v][off] in pages && ids[v][off] in chain)
        && (forall i :: 0 <= i < |chain| && pages[chain[i]].backing == v && pages[chain[i]].offset == off ==>
              off in ids[v] && chain[i] == ids[v][off])
      ensures off in ids[v] ==> pages[ids[v][off]].backing == v && pages[ids[v][off]].offset == off
    {
      hide ListsOk, FilesOk, Entry, DirtyOk, CountsOk;
    }

    /** `put_page`. */
    method PutPage(id: nat)
      requires |table| == TABLE_SIZE && id in pages && pages[id].backing in lists
      modifies this`table, this`lists, this`cachedPages
      ensures cachedPages == old(cachedPages) + 1
      ensures var p := pages[id]; Value() == WithPage(hash, old(Value()), id, p.backing, p.offset, p)
    {
      var entry := Entry(hash, pages[id].backing, pages[id].offset);
      table := table[entry := [id] + table[entry]];
      var list: seq<nat> := [id] + lists[pages[id].backing];
      lists := lists[pages[id].backing := list];
      cachedPages := cachedPages + 1;
      assert pages == old(pages)[id := pages[id]];
    }

    /** `remove_page`. */
    method RemovePage(id: nat)
      requires |table| == TABLE_SIZE && id in pages && pages[id].backing in lists
      modifies this`table, this`lists, this`cachedPages
      ensures cachedPages == old(cachedPages) - 1
      ensures var p := pages[id]; var h := Entry(hash, p.backing, p.offset);
        && table == old(table)[h := RemoveFrom(old(table)[h], id)]
        && lists.Keys == old(lists).Keys && lists[p.backing] == RemoveFrom(old(lists)[p.backing], id)
        && forall v :: v in lists && v != p.backing ==> lists[v] == old(lists)[v]
    {
      var entry := Entry(hash, pages[id].backing, pages[id].offset);
      table := table[entry := RemoveFrom(table[entry], id)];
      lists := lists[pages[id].backing := RemoveFrom(lists[pages[id].backing], id)];
      cachedPages := cachedPages - 1;
    }

    /** `tmpfs_getpage`: a page inside the file is held and zeroed. */
    method TmpfsGetPage(v: nat, off: nat, id: nat) returns (err: Error)
      requires v in sizes && id in pages
      modifies this`pages
      ensures err == if off >= sizes[v] then ENXIO else Ok
      ensures err == ENXIO ==> pages == old(pages)
      ensures err == Ok ==>
                var page := old(pages)[id];
                pages == old(pages)[id := page.(refcount := page.refcount + 1, data := Zeros(PAGE_SIZE))]
    {
      if off >= sizes[v] {
        return ENXIO;
      }
      pages := pages[id := pages[id].(refcount := pages[id].refcount + 1)];
      pages := pages[id := pages[id].(data := Zeros(PAGE_SIZE))];
      err := Ok;
    }

    /** The new page that `vmm_cache_get_page` failed to fill goes back where it came from. */
    method DropPage(id: nat, frame: Frame)
      requires |table| == TABLE_SIZE && id in pages && pages[id].backing in lists && id == frame.id
      modifies this`table, this`lists, this`cachedPages, this`pages, this`frames
      ensures cachedPages == old(cachedPages) - 1 && pages == old(pages) - {id} && frames == [frame] + old(frames)
      ensures var p := old(pages)[id]; var h := Entry(hash, p.backing, p.offset);
        && table == old(table)[h := RemoveFrom(old(table)[h], id)]
        && lists.Keys == old(lists).Keys && lists[p.backing] == RemoveFrom(old(lists)[p.backing], id)
        && forall v :: v in lists && v != p.backing ==> lists[v] == old(lists)[v]
    {
      hide Entry, RemoveFrom;
      RemovePage(id);
      pages := pages - {id};
      frames := [frame] + frames;
    }

    /** The first half: a free frame becomes a page and is entered. */
    method EnterPage(v: nat, off: nat) returns (page: nat, frame: Frame)
      requires |table| == TABLE_SIZE && v in lists && frames != []
      modifies this`frames, this`pages, this`table, this`lists, this`cachedPages
      ensures frame == old(frames)[0] && frames == old(frames)[1..] && page == frame.id
      ensures cachedPages == old(cachedPages) + 1
      ensures Value() == WithPage(hash, old(Value()), page, v, off, Page(v, off, 1, false, frame.data))
    {
      frame := frames[0];
      frames := frames[1..];
      page := frame.id;
      pages := pages[page := Page(v, off, 1, false, frame.data)];
      PutPage(page);
    }

    /** Undoes `EnterPage`. */
    method LeavePage(v: nat, off: nat, frame: Frame, ghost c: Cache)
      requires |c.table| == TABLE_SIZE && v in c.lists && frame.id !in c.pages
      requires Value() == WithPage(hash, c, frame.id, v, off, Page(v, off, 1, false, frame.data))
      modifies this`frames, this`pages, this`table, this`lists, this`cachedPages
      ensures Value() == c && frames == [frame] + old(frames) && cachedPages == old(cachedPages) - 1
    {
      hide Entry;
      ghost var h := Entry(hash, v, off);
      assert ([frame.id] + c.table[h])[1..] == c.table[h] && ([frame.id] + c.lists[v])[1..] == c.lists[v];
      DropPage(frame.id, frame);
      assert table == c.table && lists == c.lists && pages == c.pages;
    }

    lemma FilledPage(c: Cache, id: nat, v: nat, off: nat, p: Page, q: Page)
      requires |c.table| == TABLE_SIZE && v in c.lists
      ensures var c1 := WithPage(hash, c, id, v, off, p);
        c1.(pages := c1.pages[id := q]) == WithPage(hash, c, id, v, off, q)
    {
      hide Entry;
      assert c.pages[id := p][id := q] == c.pages[id := q];
    }

    /** A page that is not cached yet: taken from the free frames, entered, and filled by the file system. */
    method NewPage(v: nat, off: nat) returns (err: Error, page: nat)
      requires Valid(0) && v in sizes && off !in ids[v] && off % PAGE_SIZE == 0
      modifies this
      ensures err == if old(frames) == [] then ENOMEM else if off >= old(sizes)[v] then ENXIO else Ok
      ensures err != Ok ==> Value() == old(Value()) && ids == old(ids)
      ensures err != Ok ==> frames == old(frames) && cachedPages == old(cachedPages)
      ensures err == Ok ==>
                && page == old(frames)[0].id && frames == old(frames)[1..] && ids == AddId(old(ids), v, off, page)
                && cachedPages == old(cachedPages) + 1
                && Value() == WithPage(hash, old(Value()), page, v, off, Page(v, off, 2, false, Zeros(PAGE_SIZE)))
    {
      hide IndexOk, ListsOk, FilesOk, Entry, DirtyOk, CountsOk, Zeros, AddId;
      page := 0;
      if frames == [] {
        return ENOMEM, 0;
      }
      var frame: Frame;
      page, frame := EnterPage(v, off);
      err := TmpfsGetPage(v, off, page);
      if err != Ok {
        LeavePage(v, off, frame, old(Value()));
        return;
      }
      FilledPage(old(Value()), page, v, off, Page(v, off, 1, false, frame.data),
                 Page(v, off, 2, false, Zeros(PAGE_SIZE)));
      ids := AddId(ids, v, off, page);
    }

    /** `vmm_cache_get_page`: the page of this offset, held; files look the same. */
    method GetPage(v: nat, off: nat) returns (err: Error, page: nat)
      requires Valid(0) && v in sizes && off % PAGE_SIZE == 0
      modifies this
      ensures Valid(if err == Ok then page else 0) && Files() == old(Files()) && sizes == old(sizes)
                && Marked(old(pages), pages, 0, 0, 0)
      ensures err == if off in old(ids)[v] then Ok else if old(frames) == [] then ENOMEM
                     else if off >= old(sizes)[v] then ENXIO else Ok
      ensures err == Ok ==> page in pages && pages[page].backing == v && pages[page].offset == off
      ensures err == Ok ==> off in ids[v] && ids[v][off] == page
      ensures off < old(sizes)[v] ==> Fetched(old(ids), old(frames), v, off, err)
    {
      hide CacheOk, FramesOk, FilesOf;
      KnownFiles(v);
      page := FindPage(v, off);
      NotZero(v, off);
      if page != 0 {
        HoldPage(v, off, page);
        err := Ok;
      } else {
        err, page := AddNewPage(v, off);
      }
    }

    /** A page that is cached: one more reference. */
    method HoldPage(v: nat, off: nat, page: nat)
      requires Valid(0) && v in ids && off in ids[v] && page == ids[v][off] && page != 0
      modifies this`pages
      ensures Valid(page) && Files() == old(Files()) && Marked(old(pages), pages, 0, 0, 0)
      ensures page in pages && pages[page].backing == v && pages[page].offset == off
    {
      hide IndexOk, TableOk, ListsOk, FilesOk, DirtyOk, CountsOk, FilesOf;
      PageOf(v, off);
      HoldOk(hash, Value(), ids, page, 0, page);
      pages := pages[page := pages[page].(refcount := pages[page].refcount + 1)];
    }

    /** A page that is not: entered as a page of zeros, if there is a frame and the file reaches that far. */
    method AddNewPage(v: nat, off: nat) returns (err: Error, page: nat)
      requires Valid(0) && v in sizes && v in ids && off !in ids[v] && off % PAGE_SIZE == 0
      modifies this
      ensures Valid(if err == Ok then page else 0) && Files() == old(Files()) && sizes == old(sizes)
      ensures Marked(old(pages), pages, 0, 0, 0)
      ensures err == if old(frames) == [] then ENOMEM else if off >= old(sizes)[v] then ENXIO else Ok
      ensures err == Ok ==> page in pages && pages[page].backing == v && pages[page].offset == off
      ensures err == Ok ==> ids == AddId(old(ids), v, off, page) && |frames| == |old(frames)| - 1
      ensures err != Ok ==> ids == old(ids) && frames == old(frames)
    {
      hide IndexOk, TableOk, ListsOk, FilesOk, DirtyOk, CountsOk, FilesOf, Entry;
      err, page := NewPage(v, off);
      if err == Ok {
        AddOk(hash, old(Value()), old(ids), page, v, off);
      }
    }

    lemma PageOf(v: nat, off: nat)
      requires CacheOk(hash, Value(), ids, 0) && v in ids && off in ids[v]
      ensures ids[v][off] in pages && pages[ids[v][off]].backing == v && pages[ids[v][off]].offset == off
    {
    }

    lemma NotZero(v: nat, off: nat)
      requires CacheOk(hash, Value(), ids, 0) && v in ids
      ensures off in ids[v] ==> ids[v][off] != 0
    {
    }

    /**
     `vmm_cache_make_dirty`: the page is on the dirty list with the list's own reference, taken the first time
     only; no other page and no file changes, and every reference is still accounted for.
     */
    method MakeDirty(id: nat, ghost held: nat)
      requires Valid(held) && id in pages
      modifies this`dirty, this`pages
      ensures Valid(held) && Files() == old(Files()) && pages.Keys == old(pages).Keys
      ensures pages[id].dirty && id in dirty && (old(pages)[id].dirty ==> dirty == old(dirty))
      ensures SamePage(old(pages)[id], pages[id])
      ensures pages[id].refcount == old(pages)[id].refcount + (if old(pages)[id].dirty then 0 else 1)
      ensures forall p :: p in pages && p != id ==> pages[p] == old(pages)[p] && (p in dirty <==> p in old(dirty))
    {
      hide IndexOk, TableOk, ListsOk, FilesOk, CountsOk, FilesOf;
      DirtyStep(hash, Value(), ids, id, held);
      if !pages[id].dirty {
        pages := pages[id := pages[id].(dirty := true)];
        dirty := [id] + dirty;
        pages := pages[id := pages[id].(refcount := pages[id].refcount + 1)];
      }
      assert pages == Dirtied(old(Value()), id).pages;
    }

    /** `page_release`: the last reference frees the page. */
    method PageRelease(id: nat)
      requires id in pages
      modifies this`pages
      ensures var p := old(pages)[id];
        pages == if p.refcount == 1 then old(pages) - {id} else old(pages)[id := p.(refcount := p.refcount - 1)]
    {
      pages := pages[id := pages[id].(refcount := pages[id].refcount - 1)];
      if pages[id].refcount == 0 {
        pages := pages - {id};
      }
    }

    /** A cached page keeps its own reference, so releasing it never frees it. */
    method Release(id: nat)
      requires Valid(id) && id in pages
      modifies this`pages
      ensures Valid(0) && Files() == old(Files())
      ensures pages.Keys == old(pages).Keys && Marked(old(pages), pages, 0, 0, 0)
    {
      hide IndexOk, TableOk, ListsOk, FilesOk, DirtyOk, File;
      HoldOk(hash, Value(), ids, id, id, 0);
      PageRelease(id);
    }

    // ---------- one page of a file ----------

    /** `memcpy` into a held page. */
    method CopyBytes(v: nat, id: nat, a: nat, b: seq<Byte>)
      requires Valid(id) && id in pages && pages[id].backing == v && v in sizes && v in Files()
      requires a + |b| <= PAGE_SIZE && pages[id].offset + a + |b| <= sizes[v] == |Files()[v]|
      modifies this`pages
      ensures Valid(id) && |old(pages)[id].data| == PAGE_SIZE
      ensures pages == old(pages)[id := old(pages)[id].(data := Splice(old(pages)[id].data, a, b))]
      ensures Files() == old(Files())[v := Splice(old(Files())[v], old(pages)[id].offset + a, b)]
    {
      hide IndexOk, TableOk, ListsOk, FilesOk, DirtyOk, CountsOk, FilesOf, Splice;
      PatchOk(hash, Value(), ids, id, id, a, b);
      pages := pages[id := pages[id].(data := Splice(pages[id].data, a, b))];
    }

    /** `memcpy` into a held page, and the dirty mark. */
    method FillPage(v: nat, id: nat, a: nat, b: seq<Byte>)
      requires Valid(id) && id in pages && pages[id].backing == v && v in sizes && v in Files() && b != []
      requires a + |b| <= PAGE_SIZE && pages[id].offset + a + |b| <= sizes[v] == |Files()[v]|
      modifies this`pages, this`dirty
      ensures Valid(id) && id in pages
      ensures Files() == old(Files())[v := Splice(old(Files())[v], old(pages)[id].offset + a, b)]
      ensures var lo := old(pages)[id].offset + a; Marked(old(pages), pages, v, lo, lo + |b|)
    {
      hide CacheOk, FramesOk, FilesOf, Splice, Meets;
      ghost var lo := pages[id].offset + a;
      OnlyOne(id, lo, lo + |b|);
      CopyBytes(v, id, a, b);
      MakeDirty(id, id);
    }

    lemma OnlyOne(id: nat, lo: nat, hi: nat)
      requires Valid(id) && id in pages && lo < hi && pages[id].offset <= lo && hi <= pages[id].offset + PAGE_SIZE
      ensures forall q :: q in pages && pages[q].backing == pages[id].backing ==>
                (Meets(pages[q].offset, lo, hi) <==> q == id)
    {
      forall q | q in pages && pages[q].backing == pages[id].backing
        ensures Meets(pages[q].offset, lo, hi) <==> q == id
      {
        hide IndexOk, FilesOk, Meets;
        OnePage(Value(), ids, id, q, lo, hi);
      }
    }

    /** One turn of `vfs_write`: part of one page. */
    method WriteChunk(v: nat, off: nat, a: nat, b: seq<Byte>) returns (err: Error)
      requires Valid(0) && v in sizes && v in Files() && off % PAGE_SIZE == 0 && b != []
      requires a + |b| <= PAGE_SIZE && off + a + |b| <= sizes[v] == |Files()[v]|
      modifies this
      ensures Valid(0) && sizes == old(sizes) && Fetched(old(ids), old(frames), v, off, err)
      ensures Files() == if err == Ok then old(Files())[v := Splice(old(Files())[v], off + a, b)] else old(Files())
      ensures Marked(old(pages), pages, v, off + a, off + a + if err == Ok then |b| else 0)
    {
      hide CacheOk, FramesOk, FilesOf, Splice;
      var page;
      err, page := GetPage(v, off);
      if err != Ok {
        return;
      }
      ghost var got := pages;
      FillPage(v, page, a, b);
      ghost var filled := pages;
      Release(page);
      MarkedBetween(old(pages), got, filled, pages, v, off + a, off + a + |b|);
    }

    // ---------- vfs_write ----------

    /** `tmpfs_resize` to a larger size. */
    method Resize(v: nat, size: nat)
      requires Valid(0) && v in sizes && v in Files() && sizes[v] < size < WORD_LIMIT
      modifies this`sizes
      ensures Valid(0) && sizes == old(sizes)[v := size] && Files() == old(Files())[v := Grown(old(Files())[v], size)]
    {
      hide IndexOk, TableOk, ListsOk, FilesOk, DirtyOk, CountsOk, FilesOf, Grown;
      GrowOk(hash, Value(), ids, v, size);
      sizes := sizes[v := size];
    }

    /** The pages that hold [lo, hi) of file v are cached and dirty, and no other page became dirty. */
    ghost predicate Dirties(was: PageMap, v: nat, lo: nat, hi: nat)
      reads this`pages, this`ids
    {
      Marked(was, pages, v, lo, hi) && Held(ids, v, lo, hi)
    }

    /** Where a write stands: the first `written` bytes of the buffer are in the file. */
    ghost predicate Writing(files: map<nat, seq<Byte>>, v: nat, offset: nat, buffer: seq<Byte>, written: nat)
      reads this
    {
      && v in files && v in sizes && written <= |buffer| && offset + |buffer| <= |files[v]| == sizes[v]
      && Files() == files[v := Splice(files[v], offset, buffer[..written])]
    }

    /** The next bytes of the buffer, into one page. */
    method WriteNext(v: nat, off: nat, a: nat, buffer: seq<Byte>, offset: nat, written: nat, n: nat,
                     ghost files: map<nat, seq<Byte>>, ghost was: PageMap)
      returns (err: Error)
      requires Valid(0) && Writing(files, v, offset, buffer, written) && off % PAGE_SIZE == 0
      requires Dirties(was, v, offset, offset + written)
      requires 0 < n && a + n <= PAGE_SIZE && written + n <= |buffer| && off + a == offset + written
      modifies this
      ensures Valid(0) && sizes == old(sizes) && Fetched(old(ids), old(frames), v, off, err)
      ensures var written' := if err == Ok then written + n else written;
        Writing(files, v, offset, buffer, written') && Dirties(was, v, offset, offset + written')
    {
      hide CacheOk, FramesOk, FilesOf, Marked, Held, Splice;
      SpliceNext(files[v], offset, buffer, written, n);
      ghost var next := buffer[written..written + n];
      ghost var part := Splice(files[v], offset, buffer[..written]);
      assert files[v := part][v := Splice(part, offset + written, next)] ==
             files[v := Splice(files[v], offset, buffer[..written + n])];
      err := WriteChunk(v, off, a, buffer[written..written + n]);
      ghost var lo := offset + written;
      ghost var hi := if err == Ok then lo + n else lo;
      DirtiesNext(old(Value()), old(ids), was, v, offset, lo, hi, off);
    }

    lemma DirtiesNext(c: Cache, ids0: Ids, was: PageMap, v: nat, offset: nat, lo: nat, hi: nat, off: nat)
      requires Valid(0) && CacheOk(hash, c, ids0, 0) && Marked(was, c.pages, v, offset, lo) && Held(ids0, v, offset, lo)
      requires Marked(c.pages, pages, v, lo, hi) && offset <= lo <= hi && off % PAGE_SIZE == 0
      requires v in ids && ids0[v].Keys <= ids[v].Keys && off <= lo && hi <= off + PAGE_SIZE
      requires hi > lo ==> off in ids[v]
      ensures Dirties(was, v, offset, hi)
    {
      hide CacheOk, FramesOk, Marked, Held;
      MarksGoOn(hash, c, ids0, Value(), ids, was, v, offset, lo, hi);
      if lo < hi {
        HeldNext(ids0, ids, v, offset, lo, hi, off);
      } else {
        StillHeld(ids0, v, offset, lo);
      }
    }

    lemma StillHeld(ids0: Ids, v: nat, lo: nat, hi: nat)
      requires Held(ids0, v, lo, hi) && v in ids && ids0[v].Keys <= ids[v].Keys
      ensures Held(ids, v, lo, hi)
    {
    }

    /** One page of a request: the reach goes down by one, or ends. */
    lemma TookOne(ids0: Ids, frames0: seq<Frame>, v: nat, off: nat, n: nat, err: Error)
      requires n > 0 && Fetched(ids0, frames0, v, off, err)
      ensures v in ids && v in ids0
      ensures err == Ok ==> 1 + Ahead(v, off + PAGE_SIZE, n - 1) == Reach(ids0[v].Keys, off, n, |frames0|)
      ensures err != Ok ==> err == ENOMEM && frames == [] && Reach(ids0[v].Keys, off, n, |frames0|) == 0
    {
      hide Reach;
      ReachStep(ids0[v].Keys, off, n, |frames0|);
    }

    /** The loop over whole pages. */
    method WritePages(v: nat, buffer: seq<Byte>, offset: nat, base: nat, bound: nat, first: nat,
                      ghost files: map<nat, seq<Byte>>, ghost was: PageMap, ghost turns: nat)
      returns (err: Error, written: nat)
      requires Dirties(was, v, offset, offset + first)
      requires Valid(0) && first <= |buffer| && Writing(files, v, offset, buffer, first)
      requires bound == 0 || bound == PageUp(|buffer| - first)
      requires first < |buffer| ==> base == offset + first && base % PAGE_SIZE == 0
      requires v in ids && bound == PAGE_SIZE * turns
      modifies this
      ensures Valid(0) && sizes == old(sizes)
      ensures Writing(files, v, offset, buffer, written) && Dirties(was, v, offset, offset + written)
      ensures err == (if old(Ahead(v, base, turns)) == turns then Ok else ENOMEM) && (err != Ok ==> frames == [])
      ensures written == first + Min(PAGE_SIZE * old(Ahead(v, base, turns)), |buffer| - first)
    {
      hide Valid, FilesOf, Writing, PageUp, Reach, Fetched, Dirties;
      err, written := Ok, first;
      var lo: nat := 0;
      ghost var left := turns;
      while lo < bound
        invariant Valid(0) && sizes == old(sizes) && lo % PAGE_SIZE == 0 && lo <= bound && err == Ok
        invariant Writing(files, v, offset, buffer, written) && Dirties(was, v, offset, offset + written)
        invariant written == first + Min(lo, |buffer| - first)
        invariant lo + PAGE_SIZE * left == bound && v in ids && left <= turns
        invariant turns - left + Ahead(v, base + lo, left) == old(Ahead(v, base, turns))
        decreases bound - lo
      {
        LoopTurn(|buffer| - first, lo);
        var n := Min(PAGE_SIZE, |buffer| - written);
        ghost var ids0, frames0 := ids, frames;
        err := WriteNext(v, base + lo, 0, buffer, offset, written, n, files, was);
        TookOne(ids0, frames0, v, base + lo, left, err);
        if err != Ok {
          return;
        }
        written := written + n;
        lo, left := lo + PAGE_SIZE, left - 1;
      }
      if bound != 0 {
        AllCovered(|buffer| - first);
      }
    }

    lemma AllCovered(rest: nat)
      ensures Min(PageUp(rest), rest) == rest
    {
    }

    /** The free frames cover the pages of the request that are not cached. */
    ghost predicate Suffices(v: nat, offset: nat, size: nat)
      reads this`ids, this`frames
    {
      v in ids && Misses(ids[v].Keys, PageDown(offset), Touched(offset, size)) <= |frames|
    }

    /** How many pages of the request can be fetched. */
    ghost function Fetchable(v: nat, offset: nat, size: nat): nat
      requires v in ids
      reads this`ids, this`frames
    {
      Reach(ids[v].Keys, PageDown(offset), Touched(offset, size), |frames|)
    }

    /** What a request needs in all, first page and loop. */
    lemma FetchableIs(v: nat, offset: nat, size: nat)
      requires v in ids && size > 0 && offset + size < WORD_LIMIT
      ensures LoopBound(offset, size) == PAGE_SIZE * LoopTurns(offset, size)
      ensures var n := LoopTurns(offset, size) + (if offset % PAGE_SIZE == 0 then 0 else 1);
        && Fetchable(v, offset, size) == Ahead(v, PAGE_SIZE * (offset / PAGE_SIZE), n)
        && (Suffices(v, offset, size) <==> Fetchable(v, offset, size) == n)
      ensures Suffices(v, offset, size) ==>
                Moved(offset, size, Fetchable(v, offset, size)) == if Lost(offset, size) then 0 else size
    {
      hide LoopTurns, LoopBound, PageDown, Touched, Misses, Reach, Moved, Lost;
      TurnsOf(offset, size);
      MovedAll(offset, size);
      ReachExact(ids[v].Keys, PageDown(offset), Touched(offset, size), |frames|);
    }

    /** `vfs_write` from the resize on. */
    method WriteBytes(v: nat, buffer: seq<Byte>, offset: nat, ghost files: map<nat, seq<Byte>>, ghost was: PageMap)
      returns (err: Error, written: nat)
      requires Dirties(was, v, offset, offset)
      requires Valid(0) && buffer != [] && Writing(files, v, offset, buffer, 0) && offset + |buffer| < WORD_LIMIT
      requires v in ids
      modifies this
      ensures Valid(0) && sizes == old(sizes)
      ensures err == (if old(Suffices(v, offset, |buffer|)) then Ok else ENOMEM) && (err != Ok ==> frames == [])
      ensures Writing(files, v, offset, buffer, written) && Dirties(was, v, offset, offset + written)
      ensures written == Moved(offset, |buffer|, old(Fetchable(v, offset, |buffer|)))
      ensures err == Ok ==> written == if Lost(offset, |buffer|) then 0 else |buffer|
    {
      hide CacheOk, FramesOk, FilesOf, Writing, PageUp, PageCount, Word, FirstPart, LoopBound, Lost, Reach, Fetched,
           PageDown, LoopTurns, Suffices, Fetchable, Moved, Dirties;
      var size := |buffer|;
      Plan(offset, size);
      ghost var turns := LoopTurns(offset, size);
      FetchableIs(v, offset, size);
      var pageOffset, start, pageCount := offset / PAGE_SIZE, offset % PAGE_SIZE, PageCount(offset, size);
      var first := 0;
      if start != 0 {
        first := Min(PAGE_SIZE - start, size);
        err := WriteNext(v, PAGE_SIZE * pageOffset, start, buffer, offset, 0, first, files, was);
        TookOne(old(ids), old(frames), v, PAGE_SIZE * pageOffset, 1 + turns, err);
        NoneMoved(offset, size);
        if err != Ok {
          return err, 0;
        }
        pageOffset, pageCount := pageOffset + 1, Word(pageCount - 1);
      }
      MovedParts(offset, size, Ahead(v, PAGE_SIZE * pageOffset, turns));
      err, written :=
        WritePages(v, buffer, offset, PAGE_SIZE * pageOffset, Word(pageCount * PAGE_SIZE), first, files, was, turns);
    }

    /**
     `vfs_write` on a regular file.  The buffer is spliced into the file at the offset, the file growing by
     zeros over any hole.  It fails exactly when there are fewer free frames than pages of the request that are
     not cached; then every frame is used up and as much is in the file as the pages hold that could be fetched.
     Nothing is written for the one request whose page count wraps to zero.
     */
    method Write(v: nat, buffer: seq<Byte>, offset: nat) returns (err: Error, written: nat)
      requires Valid(0) && v in sizes && v in Files() && |buffer| < WORD_LIMIT && offset < WORD_LIMIT
      modifies this
      ensures Valid(0) && written <= |buffer|
      ensures Dirties(old(pages), v, offset, offset + written) && DirtyOk(dirty, pages)
      ensures buffer == [] ==> err == Ok && Files() == old(Files())
      ensures buffer != [] && offset + |buffer| >= WORD_LIMIT ==>
                err == EINVAL && written == 0 && Files() == old(Files())
      ensures buffer != [] && offset + |buffer| < WORD_LIMIT ==>
                && err == (if old(Suffices(v, offset, |buffer|)) then Ok else ENOMEM)
                && (err == Ok ==> written == if Lost(offset, |buffer|) then 0 else |buffer|)
                && v in old(ids) && written == Moved(offset, |buffer|, old(Fetchable(v, offset, |buffer|)))
                && (err == ENOMEM ==> frames == [])
                && Spliced(old(Files()), Files(), v, buffer, offset, written)
    {
      hide CacheOk, FramesOk, FilesOf, Splice, Grown, Lost, Suffices, Fetchable, Moved, Word, Dirties, DirtyOk;
      err, written := Ok, 0;
      KnownFiles(v);
      KnownDirty();
      NothingDirty(v, offset);
      FileLength(Value(), ids, v);
      if buffer == [] {
        return;
      }
      WrapTest(|buffer|, offset);
      if Word(|buffer| + offset) < offset {
        return EINVAL, 0;
      }
      err, written := WriteGrown(v, buffer, offset);
      KnownDirty();
    }

    lemma NothingDirty(v: nat, offset: nat)
      requires v in ids
      ensures Dirties(pages, v, offset, offset)
    {
    }

    lemma KnownDirty()
      requires Valid(0)
      ensures DirtyOk(dirty, pages)
    {
    }

    /** The rest of `vfs_write`: the file is made to reach the end of the request, and then written. */
    method WriteGrown(v: nat, buffer: seq<Byte>, offset: nat) returns (err: Error, written: nat)
      requires Valid(0) && v in sizes && v in ids && v in Files() && |Files()[v]| == sizes[v]
      requires buffer != [] && offset + |buffer| < WORD_LIMIT
      modifies this
      ensures Valid(0) && written <= |buffer| && Dirties(old(pages), v, offset, offset + written)
      ensures err == (if old(Suffices(v, offset, |buffer|)) then Ok else ENOMEM) && (err != Ok ==> frames == [])
      ensures err == Ok ==> written == if Lost(offset, |buffer|) then 0 else |buffer|
      ensures written == Moved(offset, |buffer|, old(Fetchable(v, offset, |buffer|)))
      ensures Spliced(old(Files()), Files(), v, buffer, offset, written)
    {
      hide CacheOk, FramesOk, FilesOf, Splice, Lost, Suffices, Fetchable, Moved, Dirties;
      var newSize := if |buffer| + offset > sizes[v] then |buffer| + offset else 0;
      if newSize != 0 {
        Resize(v, newSize);
      }
      ghost var files := Files();
      NothingDirty(v, offset);
      SpliceNothing(files[v], offset, buffer);
      err, written := WriteBytes(v, buffer, offset, files, pages);
    }

    lemma KnownFiles(v: nat)
      requires Valid(0) && v in sizes
      ensures v in ids
    {
    }

    lemma WrapTest(size: nat, offset: nat)
      requires size < WORD_LIMIT && offset < WORD_LIMIT
      ensures Word(size + offset) < offset <==> size + offset >= WORD_LIMIT
    {
      if size + offset >= WORD_LIMIT {
        WordOf(size + offset - WORD_LIMIT, 1);
      } else {
        WordOf(size + offset, 0);
      }
    }

    lemma SpliceNothing(f: seq<Byte>, at: nat, buffer: seq<Byte>)
      requires at <= |f|
      ensures Splice(f, at, buffer[..0]) == f
    {
    }

    // ---------- vfs_read ----------

    lemma NoneMarked(a: PageMap, b: PageMap, c: PageMap)
      ensures Marked(a, a, 0, 0, 0)
      ensures Marked(a, b, 0, 0, 0) && Marked(b, c, 0, 0, 0) ==> Marked(a, c, 0, 0, 0)
    {
      if Marked(a, b, 0, 0, 0) && Marked(b, c, 0, 0, 0) {
        MarkedNext(a, b, c, 0, 0, 0, 0);
      }
    }

    /** One turn of `vfs_read`: part of one page. */
    method ReadChunk(v: nat, off: nat, a: nat, n: nat) returns (err: Error, chunk: seq<Byte>)
      requires Valid(0) && v in sizes && v in Files() && off % PAGE_SIZE == 0 && 0 < n
      requires a + n <= PAGE_SIZE && off + a + n <= sizes[v] == |Files()[v]|
      modifies this
      ensures Valid(0) && sizes == old(sizes) && Files() == old(Files()) && Marked(old(pages), pages, 0, 0, 0)
      ensures Fetched(old(ids), old(frames), v, off, err)
      ensures chunk == if err == Ok then Files()[v][off + a..off + a + n] else []
    {
      hide CacheOk, FramesOk, FilesOf;
      var page;
      err, page := GetPage(v, off);
      if err != Ok {
        return err, [];
      }
      ReadOk(hash, Value(), ids, page, page, a, n);
      chunk := pages[page].data[a..a + n];
      Release(page);
    }

    /** The next bytes of the file, from one page. */
    method ReadNext(v: nat, off: nat, n: nat, offset: nat, buffer: seq<Byte>) returns (err: Error, bytes: seq<Byte>)
      requires Valid(0) && v in sizes && v in Files() && off % PAGE_SIZE == 0 && 0 < n <= PAGE_SIZE
      requires off == offset + |buffer| && off + n <= sizes[v] == |Files()[v]|
      requires buffer == Files()[v][offset..offset + |buffer|]
      modifies this
      ensures Valid(0) && sizes == old(sizes) && Files() == old(Files()) && Marked(old(pages), pages, 0, 0, 0)
      ensures Fetched(old(ids), old(frames), v, off, err)
      ensures |bytes| == |buffer| + (if err == Ok then n else 0) && bytes == Files()[v][offset..offset + |bytes|]
    {
      hide CacheOk, FramesOk, FilesOf;
      var chunk;
      err, chunk := ReadChunk(v, off, 0, n);
      bytes := buffer + chunk;
    }

    /** The loop over whole pages. */
    method ReadPages(v: nat, size: nat, offset: nat, base: nat, bound: nat, buffer: seq<Byte>, ghost turns: nat)
      returns (err: Error, bytes: seq<Byte>)
      requires Valid(0) && v in sizes && v in Files() && |buffer| <= size && offset + size <= sizes[v] == |Files()[v]|
      requires buffer == Files()[v][offset..offset + |buffer|]
      requires bound == 0 || bound == PageUp(size - |buffer|)
      requires |buffer| < size ==> base == offset + |buffer| && base % PAGE_SIZE == 0
      requires v in ids && bound == PAGE_SIZE * turns
      modifies this
      ensures Valid(0) && sizes == old(sizes) && Files() == old(Files()) && Marked(old(pages), pages, 0, 0, 0)
      ensures |bytes| <= size && bytes == Files()[v][offset..offset + |bytes|]
      ensures err == (if old(Ahead(v, base, turns)) == turns then Ok else ENOMEM) && (err != Ok ==> frames == [])
      ensures |bytes| == |buffer| + Min(PAGE_SIZE * old(Ahead(v, base, turns)), size - |buffer|)
    {
      hide Valid, FilesOf, PageUp, Reach, Fetched, Marked;
      err, bytes := Ok, buffer;
      NoneMarked(pages, pages, pages);
      var lo: nat := 0;
      ghost var left := turns;
      while lo < bound
        invariant Valid(0) && sizes == old(sizes) && lo % PAGE_SIZE == 0 && lo <= bound && err == Ok
        invariant Files() == old(Files()) && Marked(old(pages), pages, 0, 0, 0)
        invariant |bytes| == |buffer| + Min(lo, size - |buffer|) && bytes == Files()[v][offset..offset + |bytes|]
        invariant lo + PAGE_SIZE * left == bound && v in ids && left <= turns
        invariant turns - left + Ahead(v, base + lo, left) == old(Ahead(v, base, turns))
        decreases bound - lo
      {
        LoopTurn(size - |buffer|, lo);
        var n := Min(PAGE_SIZE, size - |bytes|);
        ghost var ids0, frames0, was := ids, frames, pages;
        err, bytes := ReadNext(v, base + lo, n, offset, bytes);
        NoneMarked(old(pages), was, pages);
        TookOne(ids0, frames0, v, base + lo, left, err);
        if err != Ok {
          return;
        }
        lo, left := lo + PAGE_SIZE, left - 1;
      }
      if bound != 0 {
        AllCovered(size - |buffer|);
      }
    }

    /** `vfs_read` once the size is clamped. */
    method ReadBytes(v: nat, size: nat, offset: nat) returns (err: Error, bytes: seq<Byte>)
      requires Valid(0) && v in sizes && v in Files() && 0 < size
      requires offset + size <= sizes[v] == |Files()[v]| < WORD_LIMIT && v in ids
      modifies this
      ensures Valid(0) && Files() == old(Files()) && Marked(old(pages), pages, 0, 0, 0)
      ensures err == (if old(Suffices(v, offset, size)) then Ok else ENOMEM) && (err != Ok ==> frames == [])
      ensures |bytes| <= size && bytes == Files()[v][offset..offset + |bytes|]
      ensures |bytes| == Moved(offset, size, old(Fetchable(v, offset, size)))
      ensures err == Ok ==> |bytes| == if Lost(offset, size) then 0 else size
    {
      hide CacheOk, FramesOk, FilesOf, PageUp, PageCount, Word, FirstPart, LoopBound, Lost, Reach, Fetched,
           PageDown, LoopTurns, Suffices, Fetchable, Moved, Marked;
      Plan(offset, size);
      ghost var turns := LoopTurns(offset, size);
      FetchableIs(v, offset, size);
      NoneMarked(pages, pages, pages);
      var pageOffset, start, pageCount := offset / PAGE_SIZE, offset % PAGE_SIZE, PageCount(offset, size);
      var buffer := [];
      if start != 0 {
        var n := Min(PAGE_SIZE - start, size);
        err, buffer := ReadChunk(v, PAGE_SIZE * pageOffset, start, n);
        TookOne(old(ids), old(frames), v, PAGE_SIZE * pageOffset, 1 + turns, err);
        NoneMoved(offset, size);
        if err != Ok {
          return err, [];
        }
        pageOffset, pageCount := pageOffset + 1, Word(pageCount - 1);
      }
      MovedParts(offset, size, Ahead(v, PAGE_SIZE * pageOffset, turns));
      ghost var was := pages;
      err, bytes := ReadPages(v, size, offset, PAGE_SIZE * pageOffset, Word(pageCount * PAGE_SIZE), buffer, turns);
      NoneMarked(old(pages), was, pages);
    }

    /**
     `vfs_read` on a regular file: exactly the bytes between the offset and the end.  It fails exactly when there
     are fewer free frames than pages of the request that are not cached, and then gives what the pages hold that
     could be fetched.
     */
    method Read(v: nat, size: nat, offset: nat) returns (err: Error, bytes: seq<Byte>)
      requires Valid(0) && v in sizes && v in Files() && size < WORD_LIMIT && offset < WORD_LIMIT
      modifies this
      ensures Valid(0) && Files() == old(Files()) && Marked(old(pages), pages, 0, 0, 0)
      ensures size > 0 && offset + size >= WORD_LIMIT ==> err == EOVERFLOW && bytes == []
      ensures size == 0 || (offset + size < WORD_LIMIT && offset >= |Files()[v]|) ==> err == Ok && bytes == []
      ensures size > 0 && offset + size < WORD_LIMIT && offset < |Files()[v]| ==>
                var end := Min(offset + size, |Files()[v]|);
                && offset + |bytes| <= end && bytes == Files()[v][offset..offset + |bytes|]
                && err == (if old(Suffices(v, offset, end - offset)) then Ok else ENOMEM)
                && (err == Ok ==> |bytes| == if Lost(offset, end - offset) then 0 else end - offset)
                && v in old(ids) && |bytes| == Moved(offset, end - offset, old(Fetchable(v, offset, end - offset)))
                && (err == ENOMEM ==> frames == [])
    {
      hide IndexOk, TableOk, ListsOk, FilesOk, DirtyOk, CountsOk, FramesOk, FilesOf, Lost, Suffices, Fetchable, Moved;
      err, bytes := Ok, [];
      KnownFiles(v);
      FileLength(Value(), ids, v);
      if size == 0 {
        return;
      }
      WrapTest(size, offset);
      if Word(size + offset) < offset {
        return EOVERFLOW, [];
      }
      if offset >= sizes[v] {
        return;
      }
      err, bytes := ReadBytes(v, Min(offset + size, sizes[v]) - offset, offset);
    }
  }
}
