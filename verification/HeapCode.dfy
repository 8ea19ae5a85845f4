/** kernel/mem/heap.c: kmalloc, krealloc and kfree over twelve slab caches. */
module HeapCode {
  import opened Bytes
  import opened HeapState
  import opened SlabCode
  import opened SlabLayout
  import opened SlabState

  /** `init_area`, which is both constructor and destructor: capacity set, data zeroed, length left alone. */
  function InitArea(cap: nat): Block -> Block {
    (b: Block) => Block(cap, b.len, Zeros(cap))
  }

  ghost function Blank(cap: nat): Block -> bool {
    (b: Block) => b.cap == cap && b.data == Zeros(cap)
  }

  ghost predicate CacheOk(c: SCache<Block>, i: nat)
    requires i < CACHE_COUNT
    reads c
  {
    && c.Valid() && c.shape == NewShape(SizeOf(i) + HEADER, 0)
    && c.ctor == InitArea(SizeOf(i)) && c.dtor == InitArea(SizeOf(i)) && c.ready == Blank(SizeOf(i))
  }

  ghost predicate NewCache(c: SCache<Block>, i: nat)
    requires i < CACHE_COUNT
    reads c
  {
    CacheOk(c, i) && c.slabs == map[] && c.frees == map[] && c.objs == map[]
  }

  method MakeCache(i: nat) returns (c: SCache<Block>)
    requires i < CACHE_COUNT
    ensures fresh(c) && NewCache(c, i)
  {
    var cap := SizeOf(i);
    TwoToASlab(i);
    c := new SCache<Block>(cap + HEADER, 0, InitArea(cap), InitArea(cap), Blank(cap));
  }

  method MakeCaches() returns (list: seq<SCache<Block>>)
    ensures |list| == CACHE_COUNT && (forall j, k :: 0 <= j < k < CACHE_COUNT ==> list[j] != list[k])
    ensures forall j :: 0 <= j < CACHE_COUNT ==> fresh(list[j]) && NewCache(list[j], j)
  {
    hide NewCache;
    list := [];
    for i := 0 to CACHE_COUNT
      invariant |list| == i && forall j :: 0 <= j < i ==> fresh(list[j]) && NewCache(list[j], j)
      invariant forall j, k :: 0 <= j < k < i ==> list[j] != list[k]
    {
      var c := MakeCache(i);
      list := list + [c];
    }
  }

  /** Every heap cache has room for two blocks in a slab. */
  lemma TwoToASlab(i: nat)
    requires i < CACHE_COUNT
    ensures NewShape(SizeOf(i) + HEADER, 0).count >= 2
  {
    CountAtLeastTwo(SizeOf(i) + HEADER, 0);
  }

  ghost function LiveOf(c: SCache<Block>): iset<nat>
    reads c
  {
    iset o | c.frees.Keys == c.slabs.Keys && c.LiveObj(o)
  }

  /** Live objects of a cache other than o hold in m what they hold in objs. */
  ghost predicate SameBlocks(live: iset<nat>, objs: Objects, m: Objects, o: nat) {
    forall x :: x in live && x != o ==> x in objs && x in m && m[x] == objs[x]
  }

  lemma SameKeys(objs: seq<Objects>, live: seq<iset<nat>>, i: nat, m: Objects, o: nat)
    requires |live| == CACHE_COUNT && ObjsApart(objs) && i < CACHE_COUNT
    requires m.Keys == objs[i].Keys && SameBlocks(live[i], objs[i], m, o)
    ensures Steady(objs, live, i, m, o)
  {
    assert forall x :: x in m ==> x in objs[i];
  }

  // ---------- one cache, in terms of its live objects ----------

  method CacheAlloc(c: SCache<Block>, ghost i: nat, page: nat, base: nat, raw: nat -> Block) returns (obj: nat)
    requires i < CACHE_COUNT && CacheOk(c, i) && c.Fresh(page, base)
    modifies c
    ensures CacheOk(c, i) && NewObjs(c.shape, old(c.objs), c.objs, c.NewPlace(page, base))
    ensures obj == 0 <==> old(c.Refused(page, base))
    ensures obj == 0 ==> c.objs == old(c.objs) && LiveOf(c) == old(LiveOf(c))
    ensures obj != 0 ==>
              && obj !in old(LiveOf(c)) && LiveOf(c) == old(LiveOf(c)) + iset{obj}
              && obj in c.objs && Blank(SizeOf(i))(c.objs[obj]) && SameBlocks(old(LiveOf(c)), old(c.objs), c.objs, obj)
  {
    hide ListsOk, Live, NewObjs, Sound, PlacesOk, ChainsOk, ObjsOk;
    obj := c.Alloc(page, base, raw);
  }

  method CacheFree(c: SCache<Block>, ghost i: nat, obj: nat)
    requires i < CACHE_COUNT && CacheOk(c, i) && obj in LiveOf(c)
    modifies c
    ensures CacheOk(c, i) && LiveOf(c) == old(LiveOf(c)) - iset{obj} && c.objs.Keys == old(c.objs.Keys)
    ensures SameBlocks(old(LiveOf(c)), old(c.objs), c.objs, obj)
  {
    hide ListsOk, Live, Sound, PlacesOk, ChainsOk, ObjsOk;
    c.Free(obj);
  }

  method CacheStore(c: SCache<Block>, ghost i: nat, obj: nat, b: Block)
    requires i < CACHE_COUNT && CacheOk(c, i) && obj in LiveOf(c)
    modifies c
    ensures CacheOk(c, i) && LiveOf(c) == old(LiveOf(c)) && obj in old(c.objs) && c.objs == old(c.objs)[obj := b]
  {
    hide ListsOk, Live, Sound, PlacesOk, ChainsOk, ObjsOk;
    c.Store(obj, b);
  }

  class Heap {
    const caches: seq<SCache<Block>>
    ghost var home: map<nat, nat>   // the cache of each live pointer

    /** `kernel_heap_init`: twelve empty caches. */
    constructor ()
      ensures Valid() && Contents() == map[] && fresh(caches)
    {
      hide CacheOk, HomeOk;
      var list := MakeCaches();
      caches, home := list, map[];
      new;
      NothingLive();
      EmptyView(Objs(), Lives());
    }

    lemma NothingLive()
      requires |caches| == CACHE_COUNT && (forall j :: 0 <= j < CACHE_COUNT ==> NewCache(caches[j], j)) && home == map[]
      ensures HomeOk(Objs(), Lives(), home)
    {
      forall j | 0 <= j < CACHE_COUNT ensures LiveOf(caches[j]) == iset{} && caches[j].objs == map[] {
        assert NewCache(caches[j], j);
      }
    }

    ghost function Objs(): seq<Objects>
      reads caches
    {
      seq(|caches|, i requires 0 <= i < |caches| reads caches => caches[i].objs)
    }

    ghost function Lives(): seq<iset<nat>>
      reads caches
    {
      seq(|caches|, i requires 0 <= i < |caches| reads caches => LiveOf(caches[i]))
    }

    /** Twelve caches, of their sizes. */
    ghost predicate Caches()
      reads caches
    {
      && |caches| == CACHE_COUNT && (forall i, j :: 0 <= i < j < CACHE_COUNT ==> caches[i] != caches[j])
      && forall i :: 0 <= i < CACHE_COUNT ==> CacheOk(caches[i], i)
    }

    ghost predicate Valid()
      reads this, caches
    {
      Caches() && HomeOk(Objs(), Lives(), home)
    }

    /** What the heap's users see. */
    ghost function Contents(): map<nat, seq<Byte>>
      requires Valid()
      reads this, caches
    {
      View(Objs(), Lives(), home)
    }

    /** Memory granted to cache i is memory no cache uses. */
    ghost predicate Fresh(i: nat, page: nat, base: nat)
      requires i < |caches|
      reads caches
    {
      && caches[i].Fresh(page, base)
      && forall j, o :: 0 <= j < |caches| && j != i && o in caches[j].objs ==>
           var b := caches[i].NewPlace(page, base).base; !(b <= o < b + Span(caches[i].shape))
    }

    /** The cache for blocks of this size has no free object and gets no memory. */
    ghost predicate OutOfMemory(size: nat, page: nat, base: nat)
      requires |caches| == CACHE_COUNT
      reads caches
    {
      exists i: nat :: Suits(i, size) && caches[i].Refused(page, base)
    }

    // ---------- one cache of the twelve ----------

    /** Only cache i differs. */
    lemma OneCache(objs: seq<Objects>, live: seq<iset<nat>>, i: nat)
      requires |caches| == |objs| == |live| && i < |caches|
      requires forall j :: 0 <= j < |caches| && j != i ==> caches[j].objs == objs[j] && LiveOf(caches[j]) == live[j]
      ensures Objs() == objs[i := caches[i].objs] && Lives() == live[i := LiveOf(caches[i])]
    {
      hide LiveOf;
    }

    /** No cache's objects are met by those of cache i. */
    lemma NoClash(i: nat, page: nat, base: nat, objs: seq<Objects>, live: seq<iset<nat>>, m: Objects, o: nat)
      requires |caches| == |live| == |objs| == CACHE_COUNT && i < CACHE_COUNT && ObjsApart(objs)
      requires forall j, o :: 0 <= j < CACHE_COUNT && j != i && o in objs[j] ==>
           var b := caches[i].NewPlace(page, base).base; !(b <= o < b + Span(caches[i].shape))
      requires NewObjs(caches[i].shape, objs[i], m, caches[i].NewPlace(page, base))
      requires SameBlocks(live[i], objs[i], m, o)
      ensures Steady(objs, live, i, m, o)
    {
      hide Span;
    }

    method AllocIn(i: nat, page: nat, base: nat, raw: nat -> Block) returns (obj: nat)
      requires Valid() && i < CACHE_COUNT && Fresh(i, page, base)
      modifies caches[i]
      ensures Caches()
      ensures obj == 0 <==> old(caches[i].Refused(page, base))
      ensures obj == 0 ==> Objs() == old(Objs()) && Lives() == old(Lives())
      ensures obj != 0 ==>
        && Objs() == old(Objs())[i := caches[i].objs] && Lives() == old(Lives())[i := old(Lives())[i] + iset{obj}]
        && obj in caches[i].objs && Blank(SizeOf(i))(caches[i].objs[obj]) && obj !in old(Lives())[i]
        && Steady(old(Objs()), old(Lives()), i, caches[i].objs, obj)
    {
      hide CacheOk, LiveOf, SameBlocks, NewObjs, Steady, HomesLive, LiveHomed, BlocksFit;
      ghost var objs, live := Objs(), Lives();
      obj := CacheAlloc(caches[i], i, page, base, raw);
      OneCache(objs, live, i);
      if obj != 0 {
        NoClash(i, page, base, objs, live, caches[i].objs, obj);
      }
    }

    /** Writes block b over object o of cache i. */
    method StoreIn(i: nat, o: nat, b: Block)
      requires Caches() && i < CACHE_COUNT && o in Lives()[i]
      modifies caches[i]
      ensures Caches() && o in old(caches[i].objs) && caches[i].objs == old(caches[i].objs)[o := b]
      ensures Objs() == old(Objs())[i := caches[i].objs] && Lives() == old(Lives())
    {
      hide CacheOk, LiveOf;
      ghost var objs, live := Objs(), Lives();
      CacheStore(caches[i], i, o, b);
      OneCache(objs, live, i);
    }

    method FreeIn(i: nat, o: nat)
      requires Caches() && i < CACHE_COUNT && o in Lives()[i] && ObjsApart(Objs())
      modifies caches[i]
      ensures Caches() && Objs() == old(Objs())[i := caches[i].objs]
      ensures Lives() == old(Lives())[i := old(Lives())[i] - iset{o}]
      ensures Steady(old(Objs()), old(Lives()), i, caches[i].objs, o)
    {
      hide CacheOk, LiveOf;
      ghost var objs, live := Objs(), Lives();
      CacheFree(caches[i], i, o);
      OneCache(objs, live, i);
      SameKeys(objs, live, i, caches[i].objs, o);
    }

    /** `get_cache_from_size`. */
    method GetCache(size: nat) returns (i: nat)
      requires size <= MAX_SIZE
      ensures Suits(i, size)
    {
      i := 0;
      while size > SizeOf(i)
        invariant i < CACHE_COUNT && forall j :: 0 <= j < i ==> SizeOf(j) < size
        decreases CACHE_COUNT - i
      {
        assert SizeOf(CACHE_COUNT - 1) == MAX_SIZE;
        i := i + 1;
      }
    }

    /** Which cache's memory address o is in. */
    method Where(o: nat, ghost h: nat) returns (i: nat)
      requires |caches| == CACHE_COUNT && ObjsApart(Objs()) && h < CACHE_COUNT && o in caches[h].objs
      ensures i == h
    {
      i := 0;
      while o !in caches[i].objs
        invariant i <= h
        decreases h - i
      {
        i := i + 1;
      }
      assert Objs()[i] == caches[i].objs && Objs()[h] == caches[h].objs;
    }

    /** Reads the block at address o. */
    method Load(o: nat, ghost h: nat) returns (b: Block)
      requires |caches| == CACHE_COUNT && ObjsApart(Objs()) && h < CACHE_COUNT && o in caches[h].objs
      ensures b == caches[h].objs[o]
    {
      var i := Where(o, h);
      b := caches[i].objs[o];
    }

    // ---------- kmalloc, krealloc, kfree ----------

    /** A new object of cache i with block b in it is a new pointer with the bytes of b. */
    lemma NewPointer(objs: seq<Objects>, live: seq<iset<nat>>, i: nat, o: nat)
      requires HomeOk(objs, live, home) && Caches() && i < CACHE_COUNT && o !in live[i]
      requires Objs() == objs[i := caches[i].objs] && Lives() == live[i := live[i] + iset{o}]
      requires Steady(objs, live, i, caches[i].objs, o) && o in caches[i].objs && caches[i].objs[o].Fits(i)
      ensures o + HEADER !in home && HomeOk(Objs(), Lives(), home[o + HEADER := i])
      ensures View(Objs(), Lives(), home[o + HEADER := i]) ==
                View(objs, live, home)[o + HEADER := caches[i].objs[o].Bytes()]
    {
      hide CacheOk, HomeOk, Steady;
      PutBlock(objs, live, home, i, caches[i].objs, o);
    }

    /** Allocates an object of cache i and fills in its header; the data area is zero. */
    method NewBlock(i: nat, size: nat, page: nat, base: nat, raw: nat -> Block) returns (ret: nat)
      requires Valid() && i < CACHE_COUNT && Fresh(i, page, base)
      modifies caches[i]
      ensures Caches() && (ret == 0 <==> old(caches[i].Refused(page, base)))
      ensures ret == 0 ==> Objs() == old(Objs()) && Lives() == old(Lives())
      ensures ret != 0 ==>
        && Objs() == old(Objs())[i := caches[i].objs] && Lives() == old(Lives())[i := old(Lives())[i] + iset{ret}]
        && ret in caches[i].objs && caches[i].objs[ret] == Block(SizeOf(i), size, Zeros(SizeOf(i)))
        && ret !in old(Lives())[i] && Steady(old(Objs()), old(Lives()), i, caches[i].objs, ret)
    {
      hide CacheOk, Steady, Fresh, HomesLive, LiveHomed, BlocksFit;
      ghost var objs, live := Objs(), Lives();
      ret := AllocIn(i, page, base, raw);
      if ret == 0 {
        return;
      }
      StillApart(objs, live, i, caches[i].objs, ret);
      var b := Load(ret, i);
      SteadyStore(objs, live, i, caches[i].objs, ret, b.(len := size));
      StoreIn(i, ret, b.(len := size));
    }

    /** `kmalloc`: a new block of zeros; nothing exactly when the cache of its size is out of memory. */
    method Kmalloc(size: nat, page: nat, base: nat, raw: nat -> Block) returns (ptr: nat)
      requires Valid() && size <= MAX_SIZE && forall i :: Suits(i, size) ==> Fresh(i, page, base)
      modifies this, caches
      ensures Valid() && (ptr == 0 <==> old(OutOfMemory(size, page, base)))
      ensures ptr == 0 ==> Contents() == old(Contents())
      ensures ptr != 0 ==> ptr !in old(Contents()) && Contents() == old(Contents())[ptr := Zeros(size)]
    {
      hide CacheOk, HomeOk, Steady, Fresh, Suits;
      var i := GetCache(size);
      SuitsFacts(i, size);
      var ret := NewBlock(i, size, page, base, raw);
      if ret == 0 {
        return 0;
      }
      NewPointer(old(Objs()), old(Lives()), i, ret);
      home := home[ret + HEADER := i];
      ptr := ret + HEADER;
    }

    lemma SuitsFacts(i: nat, size: nat)
      requires Suits(i, size)
      ensures i < CACHE_COUNT && size <= SizeOf(i) && Zeros(SizeOf(i))[..size] == Zeros(size)
      ensures forall j: nat :: Suits(j, size) <==> j == i
    {
    }

    /** The block of a live pointer. */
    lemma BlockFacts(ptr: nat)
      requires Valid() && ptr in Contents()
      ensures ptr in home && ptr >= HEADER && home[ptr] < CACHE_COUNT && ptr - HEADER in caches[home[ptr]].objs
      ensures ptr - HEADER in Lives()[home[ptr]] && ObjsApart(Objs())
      ensures var b := caches[home[ptr]].objs[ptr - HEADER];
        b.Fits(home[ptr]) && Contents()[ptr] == b.data[..b.len]
    {
      hide CacheOk, LiveOf;
      var b := BlockOf(Objs(), Lives(), home, ptr);
    }

    /** Overwriting the block of a live pointer changes its bytes and nothing else. */
    method Rewrite(ptr: nat, b: Block)
      requires Valid() && ptr in Contents() && b.Fits(home[ptr])
      modifies caches
      ensures Valid() && Contents() == old(Contents())[ptr := b.data[..b.len]]
    {
      hide CacheOk, LiveOf, Steady, HomesLive, LiveHomed, BlocksFit, ObjsApart;
      ghost var objs, live := Objs(), Lives();
      BlockFacts(ptr);
      var i := Where(ptr - HEADER, home[ptr]);
      StoreIn(i, ptr - HEADER, b);
      KeptSteady(objs, live, i, ptr - HEADER, b);
      PutBlock(objs, live, home, i, caches[i].objs, ptr - HEADER);
      assert live[i] + iset{ptr - HEADER} == live[i] && live[i := live[i]] == live;
      assert home == home[ptr := i];
    }

    lemma KeptSteady(objs: seq<Objects>, live: seq<iset<nat>>, i: nat, o: nat, b: Block)
      requires BlocksFit(objs, live) && ObjsApart(objs) && i < CACHE_COUNT && o in objs[i]
      ensures Steady(objs, live, i, objs[i][o := b], o)
    {
    }

    /** `kfree`: the block goes back to the cache it came from; null is ignored. */
    method Kfree(ptr: nat)
      requires Valid() && (ptr == 0 || ptr in Contents())
      modifies this, caches
      ensures Valid()
      ensures ptr == 0 ==> Contents() == old(Contents())
      ensures ptr != 0 ==> Contents() == old(Contents()) - {ptr}
      ensures ptr != 0 ==>
                && old(home)[ptr] < CACHE_COUNT
                && Lives() == old(Lives())[old(home)[ptr] := old(Lives())[old(home)[ptr]] - iset{ptr - HEADER}]
    {
      hide CacheOk, LiveOf, Steady, HomesLive, LiveHomed, BlocksFit, ObjsApart;
      if ptr == 0 {
        return;
      }
      BlockFacts(ptr);
      var b := Load(ptr - HEADER, home[ptr]);
      FreeBlock(ptr, b.cap);
    }

    /** `slab_free` to the cache the capacity word names. */
    method FreeBlock(ptr: nat, cap: nat)
      requires Valid() && ptr in Contents() && home[ptr] < CACHE_COUNT && cap == SizeOf(home[ptr]) && ptr >= HEADER
      modifies this, caches
      ensures Valid() && home == old(home) - {ptr} && Contents() == old(Contents()) - {ptr}
      ensures Lives() == old(Lives())[old(home)[ptr] := old(Lives())[old(home)[ptr]] - iset{ptr - HEADER}]
    {
      hide CacheOk, LiveOf, Steady, HomesLive, LiveHomed, BlocksFit, ObjsApart, Suits;
      ghost var objs, live, h := Objs(), Lives(), home[ptr];
      BlockFacts(ptr);
      CapBound(h);
      var i := GetCache(cap);
      SuitsItself(h, i);
      FreeIn(i, ptr - HEADER);
      DropBlock(objs, live, home, i, caches[i].objs, ptr - HEADER);
      home := home - {ptr};
    }

    lemma CapBound(i: nat)
      requires i < CACHE_COUNT
      ensures SizeOf(i) <= MAX_SIZE
    {
    }

    /** `memcpy` from block to new block. */
    method CopyInto(ret: nat, ptr: nat, size: nat, i: nat, ghost objs: seq<Objects>, ghost live: seq<iset<nat>>)
      requires Caches() && HomeOk(objs, live, home) && i < CACHE_COUNT && size <= SizeOf(i)
      requires Objs() == objs[i := caches[i].objs] && Lives() == live[i := live[i] + iset{ret}]
      requires ret in caches[i].objs && caches[i].objs[ret] == Block(SizeOf(i), size, Zeros(SizeOf(i)))
      requires Steady(objs, live, i, caches[i].objs, ret)
      requires ptr in home && ptr >= HEADER && home[ptr] < CACHE_COUNT && home[ptr] != i
      requires ptr - HEADER in objs[home[ptr]]
      requires var b := objs[home[ptr]][ptr - HEADER]; b.len <= size && b.len <= |b.data|
      modifies caches[i]
      ensures Caches() && Objs() == objs[i := caches[i].objs] && Lives() == live[i := live[i] + iset{ret}]
      ensures ret in caches[i].objs && Steady(objs, live, i, caches[i].objs, ret) && caches[i].objs[ret].Fits(i)
      ensures var b := objs[home[ptr]][ptr - HEADER];
        b.len <= |b.data| && caches[i].objs[ret].Bytes() == Resized(b.data[..b.len], size)
    {
      hide CacheOk, LiveOf, Steady, HomesLive, LiveHomed;
      StillApart(objs, live, i, caches[i].objs, ret);
      assert Objs()[home[ptr]] == objs[home[ptr]];
      var src := Load(ptr - HEADER, home[ptr]);
      var dst := Load(ret, i);
      var copy := dst.(data := src.data[..src.len] + dst.data[src.len..]);
      CopyBytes(src.data[..src.len], size, SizeOf(i));
      SteadyStore(objs, live, i, caches[i].objs, ret, copy);
      StoreIn(i, ret, copy);
    }

    lemma CopyBytes(bytes: seq<Byte>, size: nat, cap: nat)
      requires |bytes| <= size <= cap
      ensures |bytes + Zeros(cap)[|bytes|..]| == cap
      ensures (bytes + Zeros(cap)[|bytes|..])[..size] == Resized(bytes, size)
    {
    }

    /** The first half of the copying part of `krealloc`: a new block with the old bytes. */
    method Copy(ptr: nat, size: nat, i: nat, page: nat, base: nat, raw: nat -> Block) returns (ret: nat)
      requires Valid() && ptr in Contents() && |Contents()[ptr]| <= size && i < CACHE_COUNT && size <= SizeOf(i)
      requires Fresh(i, page, base) && home[ptr] < CACHE_COUNT && i != home[ptr]
      modifies this, caches
      ensures Valid() && (ret == 0 ==> Contents() == old(Contents()) && home == old(home))
      ensures ret == 0 <==> old(caches[i].Refused(page, base))
      ensures ret != 0 ==> ret !in old(home) && home == old(home)[ret := i]
      ensures ret != 0 ==> Contents() == old(Contents())[ret := Resized(old(Contents())[ptr], size)]
    {
      hide CacheOk, LiveOf, Steady, HomesLive, LiveHomed, BlocksFit, ObjsApart, Fresh, Zeros, Resized;
      ghost var objs, live := Objs(), Lives();
      BlockFacts(ptr);
      var obj := NewBlock(i, size, page, base, raw);
      if obj == 0 {
        return 0;
      }
      CopyInto(obj, ptr, size, i, objs, live);
      NewPointer(objs, live, i, obj);
      home := home[obj + HEADER := i];
      ret := obj + HEADER;
    }

    /** The copying part of `krealloc`: a new block with the old bytes, and the old one freed. */
    method Move(ptr: nat, size: nat, i: nat, cap: nat, page: nat, base: nat, raw: nat -> Block) returns (ret: nat)
      requires Valid() && ptr in Contents() && |Contents()[ptr]| <= size && i < CACHE_COUNT && size <= SizeOf(i)
      requires Fresh(i, page, base)
      requires home[ptr] < CACHE_COUNT && i != home[ptr] && cap == SizeOf(home[ptr]) && ptr >= HEADER
      modifies this, caches
      ensures Valid() && (ret == 0 ==> Contents() == old(Contents()))
      ensures ret == 0 <==> old(caches[i].Refused(page, base))
      ensures ret != 0 ==>
                && ret !in old(Contents())
                && Contents() == (old(Contents()) - {ptr})[ret := Resized(old(Contents())[ptr], size)]
    {
      hide Caches, HomeOk, Fresh, Resized, View;
      Domain();
      ret := Copy(ptr, size, i, page, base, raw);
      if ret == 0 {
        return;
      }
      Domain();
      FreeBlock(ptr, cap);
    }

    lemma Domain()
      requires Valid()
      ensures Contents().Keys == home.Keys
    {
    }

    /**
     `krealloc`: the first bytes are kept, growth reads as zero however often the block shrank before.  A block
     that shrinks, or still suits its cache, stays where it is; any other fails exactly when the cache of the
     new size is out of memory, and then is as it was.
     */
    method Krealloc(ptr: nat, size: nat, page: nat, base: nat, raw: nat -> Block) returns (ret: nat)
      requires Valid() && ptr in Contents() && size <= MAX_SIZE
      requires forall i :: Suits(i, size) ==> Fresh(i, page, base)
      modifies this, caches
      ensures Valid() && (ret == 0 ==> Contents() == old(Contents()))
      ensures var stays := size < |old(Contents())[ptr]| || Suits(old(home)[ptr], size);
        if stays then ret == ptr else ret != ptr && (ret == 0 <==> old(OutOfMemory(size, page, base)))
      ensures ret != 0 ==>
                && (ret == ptr || ret !in old(Contents()))
                && Contents() == (old(Contents()) - {ptr})[ret := Resized(old(Contents())[ptr], size)]
    {
      hide HomeOk, Fresh, Suits, View, CacheOk, Resized, Zeros;
      BlockFacts(ptr);
      Domain();
      var b := Load(ptr - HEADER, home[ptr]);
      if size < b.len {
        Shrunk(b, size);
        Rewrite(ptr, b.(len := size));
        return ptr;
      }
      CapBound(home[ptr]);
      var oldCache := GetCache(b.cap);
      SuitsItself(home[ptr], oldCache);
      var newCache := GetCache(size);
      SuitsFacts(newCache, size);
      if oldCache == newCache {
        var data := b.data[..b.len] + Zeros(size - b.len) + b.data[size..];
        Grown(b, size);
        Rewrite(ptr, b.(data := data, len := size));
        return ptr;
      }
      ret := Move(ptr, size, newCache, b.cap, page, base, raw);
    }

    lemma Shrunk(b: Block, size: nat)
      requires size < b.len <= |b.data|
      ensures b.data[..size] == Resized(b.data[..b.len], size)
    {
    }

    lemma Grown(b: Block, size: nat)
      requires b.len <= size <= |b.data|
      ensures var data := b.data[..b.len] + Zeros(size - b.len) + b.data[size..];
        |data| == |b.data| && data[..size] == Resized(b.data[..b.len], size)
    {
    }
  }
}
