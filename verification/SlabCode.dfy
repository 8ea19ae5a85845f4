/**
 kernel/mem/slab.c: one object cache.  `slabs`, `words` and `objs` are memory: the slab headers, the free
 words and the objects, each keyed by address.  Where fresh memory comes from (`vmm_map`) is a parameter.
 */
module SlabCode {
  import opened Bytes
  import opened Paging
  import opened SlabLayout
  import opened SlabLists
  import opened SlabState

  class SCache<T(!new)> {
    const shape: Shape
    const ctor: T -> T
    const dtor: T -> T
    ghost const ready: T -> bool   // what the constructor and the destructor leave behind

    var full: nat
    var partial: nat
    var empty: nat
    var slabs: Slabs
    var words: Words
    var objs: map<nat, T>

    ghost var fulls: seq<nat>
    ghost var partials: seq<nat>
    ghost var empties: seq<nat>
    ghost var frees: Frees

    /** `slab_newcache`: whatever the sizes, an empty cache in order. */
    constructor (size: nat, align: nat, ctor: T -> T, dtor: T -> T, ghost ready: T -> bool)
      requires forall x :: ready(ctor(x)) && ready(dtor(x))
      ensures shape == NewShape(size, align) && this.ctor == ctor && this.dtor == dtor && this.ready == ready
      ensures slabs == map[] && frees == map[] && objs == map[]
      ensures InOrder() && full == partial == empty == 0
    {
      shape := NewShape(size, align);
      this.ctor, this.dtor, this.ready := ctor, dtor, ready;
      full, partial, empty := 0, 0, 0;
      slabs, words, objs := map[], map[], map[];
      fulls, partials, empties, frees := [], [], [], map[];
      new;
      NewShapeSound(size, align);
    }

    ghost predicate Lists()
      reads this
    {
      ListsOk(slabs, shape.count, full, fulls, partial, partials, empty, empties)
    }

    ghost predicate Contents()
      reads this
    {
      ContentsOk(shape, slabs, words, frees, objs, ready)
    }

    ghost predicate InOrder()
      reads this
    {
      Lists() && Contents() && forall x :: ready(ctor(x)) && ready(dtor(x))
    }

    /** A cache that stays in order: two objects or more to a slab. */
    ghost predicate Valid()
      reads this
    {
      shape.count >= 2 && InOrder()
    }

    /** No slab has a free object and `vmm_map` grants no memory. */
    ghost predicate Refused(page: nat, base: nat)
      reads this
    {
      partial == 0 && empty == 0 && !Granted(page, base)
    }

    ghost predicate SomeOrder()
      reads this
    {
      SomeLists(slabs, shape.count, full, partial, empty)
    }

    ghost predicate LiveObj(o: nat)
      requires frees.Keys == slabs.Keys
      reads this
    {
      Live(shape, slabs, frees, o)
    }

    // ---------- growcache ----------

    /** The first n slots of the slab at p are made and chained; nothing else has changed. */
    ghost predicate Begun(p: Place, n: nat, free: nat, words0: Words, objs0: map<nat, T>)
      reads this
    {
      && n <= shape.count && Started(WordsOf(shape, p), words, free, n) && Made(shape, p, objs, n, ready)
      && SameOutside(words0, words, p) && SameObjs(shape, objs0, objs, p) && NewObjs(shape, objs0, objs, p)
    }

    /** One turn of the initialisation loops. */
    method InitSlot(obj: nat, word: nat, head: nat, raw: nat -> T, ghost p: Place, ghost i: nat, ghost words0: Words,
                    ghost objs0: map<nat, T>)
      requires Sound(shape) && Placed(shape, p) && i < shape.count && forall x :: ready(ctor(x))
      requires obj == ObjAt(shape, p, i) && word == WordAt(shape, p, i) && Begun(p, i, head, words0, objs0)
      modifies this`objs, this`words
      ensures Begun(p, i + 1, word, words0, objs0)
    {
      hide Started, Made, SameOutside, SameObjs, NewObjs, Sound, Placed, NoDup, WordAt, ObjAt;
      OwnWords(shape, p);
      StartNext(WordsOf(shape, p), words, head, i);
      WordInPage(shape, p, i, words0, words, head);
      ObjInSpan(shape, p, i, objs0, objs, ctor(raw(obj)), ready);
      objs := objs[obj := ctor(raw(obj))];
      words := words[word := head];
    }

    /** `init_direct`: objects and free words side by side in the page. */
    method InitDirect(page: nat, raw: nat -> T) returns (free: nat)
      requires Sound(shape) && shape.Direct() && Placed(shape, Place(page + PAGE_OFFSET, page))
      requires forall x :: ready(ctor(x))
      modifies this`objs, this`words
      ensures Begun(Place(page + PAGE_OFFSET, page), shape.count, free, old(words), old(objs))
    {
      ghost var p := Place(page + PAGE_OFFSET, page);
      ghost var i: nat := 0;
      free := 0;
      var offset: nat := 0;
      LoopTest(shape, 0);
      assert Begun(p, 0, 0, words, objs);
      hide Begun, Sound, Offset, Placed;
      while offset < shape.trueSize * shape.count
        invariant i <= shape.count && offset == Offset(shape, i) && Begun(p, i, free, old(words), old(objs))
        decreases shape.count - i
      {
        LoopTest(shape, i);
        InitSlot(page + offset, page + offset + shape.size, free, raw, p, i, old(words), old(objs));
        free := page + offset + shape.size;
        offset, i := offset + shape.trueSize, i + 1;
      }
      LoopTest(shape, i);
    }

    /** `init_indirect`: free words at the start of the page, objects in an area of their own. */
    method InitIndirect(page: nat, base: nat, raw: nat -> T) returns (free: nat)
      requires Sound(shape) && !shape.Direct() && Placed(shape, Place(page + PAGE_OFFSET, base))
      requires forall x :: ready(ctor(x))
      modifies this`objs, this`words
      ensures Begun(Place(page + PAGE_OFFSET, base), shape.count, free, old(words), old(objs))
    {
      ghost var p := Place(page + PAGE_OFFSET, base);
      ghost var i: nat := 0;
      free := 0;
      var offset: nat := 0;
      while offset < shape.trueSize * shape.count
        invariant i <= shape.count && offset == Offset(shape, i) && Begun(p, i, free, old(words), old(objs))
        decreases shape.count - i
      {
        LoopTest(shape, i);
        InitSlot(base + offset, page + offset / shape.trueSize * WORD_SIZE, free, raw, p, i, old(words), old(objs));
        free := page + offset / shape.trueSize * WORD_SIZE;
        offset, i := offset + shape.trueSize, i + 1;
      }
      LoopTest(shape, i);
    }

    /** What `vmm_map` hands out for one slab: nothing, or memory that no slab uses. */
    ghost predicate Fresh(page: nat, base: nat)
      reads this
    {
      Granted(page, base) ==>
        var p := NewPlace(page, base);
        && p.slab !in slabs && page % PAGE_SIZE == 0 && Placed(shape, p) && Separate(shape, p, p)
        && forall t :: t in slabs ==> Separate(shape, p, PlaceOf(shape, slabs, t))
    }

    predicate Granted(page: nat, base: nat) {
      page != 0 && (shape.Direct() || base != 0)
    }

    ghost function NewPlace(page: nat, base: nat): Place {
      Place(page + PAGE_OFFSET, if shape.Direct() then page else base)
    }

    method InitSlab(page: nat, base: nat, raw: nat -> T) returns (free: nat)
      requires Sound(shape) && Placed(shape, NewPlace(page, base)) && forall x :: ready(ctor(x))
      modifies this`objs, this`words
      ensures Begun(NewPlace(page, base), shape.count, free, old(words), old(objs))
    {
      hide Sound, Placed, Begun;
      if shape.Direct() {
        free := InitDirect(page, raw);
      } else {
        free := InitIndirect(page, base, raw);
      }
    }

    /** The last part of `growcache`: the new header, in front of the empty slabs. */
    method AddSlab(s: nat, free: nat, base: nat)
      requires s !in slabs && s != 0 && Lists() && (shape.count > 0 || empty == 0)
      modifies this`slabs, this`empty, this`empties
      ensures Lists() && empty == s && empties == [s] + old(empties)
      ensures SameBodies(old(slabs)[s := Slab(0, 0, 0, free, base)], slabs)
    {
      hide ListsOk, SameBodies;
      ghost var m, slab := slabs, Slab(0, 0, 0, free, base);
      NoneEmpty();
      GrowLists(slabs, shape.count, full, fulls, partial, partials, empty, empties, s, slab);
      slabs := slabs[s := Slab(0, 0, 0, free, base)];
      slabs := slabs[s := slabs[s].(next := empty)];
      slabs := slabs[s := slabs[s].(prev := 0)];
      if slabs[s].next != 0 {
        slabs := slabs[slabs[s].next := slabs[slabs[s].next].(prev := s)];
      }
      empty := s;
      empties := [s] + empties;
      assert slabs == PushFront(m[s := slab], old(empty), s);
    }

    lemma NoneEmpty()
      requires Lists()
      ensures (empty == 0 <==> empties == []) && (partial == 0 <==> partials == [])
    {
      HeadIn(slabs, empty, empties);
      HeadIn(slabs, partial, partials);
    }

    /** Exactly the objects live before are live, and hold what they held. */
    ghost predicate LiveSame(m: Slabs, frees0: Frees, objs0: map<nat, T>)
      requires frees0.Keys == m.Keys && frees.Keys == slabs.Keys
      reads this
    {
      && (forall x :: LiveObj(x) <==> Live(shape, m, frees0, x))
      && (forall x :: Live(shape, m, frees0, x) ==> x in objs0 && x in objs && objs[x] == objs0[x])
    }

    lemma PageOfSlab(page: nat)
      requires page % PAGE_SIZE == 0
      ensures SlabOf(page) == page + PAGE_OFFSET && PageDown(page + PAGE_OFFSET) == page
    {
      var q := page / PAGE_SIZE;
      DivModUnique(q, 0, PAGE_SIZE);
      DivModUnique(q, PAGE_OFFSET, PAGE_SIZE);
    }

    /** `growcache`: one more empty slab, or nothing at all when memory is refused; live objects stay as they are. */
    method GrowCache(page: nat, base: nat, raw: nat -> T) returns (ok: bool)
      requires InOrder() && Fresh(page, base) && (shape.count > 0 || empty == 0)
      modifies this
      ensures InOrder() && ok == Granted(page, base)
      ensures full == old(full) && partial == old(partial) && fulls == old(fulls) && partials == old(partials)
      ensures if ok then empties == [page + PAGE_OFFSET] + old(empties) && empty == empties[0] else unchanged(this)
      ensures LiveSame(old(slabs), old(frees), old(objs))
      ensures NewObjs(shape, old(objs), objs, NewPlace(page, base))
    {
      hide ListsOk, Placed, Separate, Begun, Live, Down, SameBodies, Sound, PlacesOk, ChainsOk, ObjsOk;
      if page == 0 || (!shape.Direct() && base == 0) {
        LiveInMemory();
        return false;
      }
      PageOfSlab(page);
      var free := InitSlab(page, base, raw);
      ghost var s, slab := page + PAGE_OFFSET, Slab(0, 0, 0, free, base);
      NewContents(s, slab, NewPlace(page, base), old(words), old(objs));
      AddSlab(SlabOf(page), free, base);
      frees := frees[s := Down(shape.count)];
      MoveContents(shape, old(slabs)[s := slab], slabs, words, frees, objs, ready);
      ok := true;
    }

    lemma LiveInMemory()
      requires Contents()
      ensures forall x :: LiveObj(x) ==> x in objs
    {
      forall x | LiveObj(x) ensures x in objs {
        LiveObject(shape, slabs, words, frees, objs, ready, x);
      }
    }

    lemma NewContents(s: nat, slab: Slab, p: Place, words0: Words, objs0: map<nat, T>)
      requires ContentsOk(shape, slabs, words0, frees, objs0, ready) && s !in slabs && slab.used == 0
      requires p == PlaceOf(shape, slabs[s := slab], s) && Placed(shape, p) && Separate(shape, p, p)
      requires Begun(p, shape.count, slab.free, words0, objs0)
      requires forall t :: t in slabs ==> Separate(shape, p, PlaceOf(shape, slabs, t))
      ensures var m', frees' := slabs[s := slab], frees[s := Down(shape.count)];
        && ContentsOk(shape, m', words, frees', objs, ready)
        && (forall x :: Live(shape, m', frees', x) <==> Live(shape, slabs, frees, x))
        && (forall x :: Live(shape, slabs, frees, x) ==> x in objs0 && x in objs && objs[x] == objs0[x])
      ensures NewObjs(shape, objs0, objs, p)
    {
      hide ContentsOk, Placed, Separate, Live, Down, Started, Made, SameOutside, SameObjs;
      assert frees.Keys == slabs.Keys by { KeysOf(shape, slabs, words0, frees, objs0, ready); }
      GrowContents(shape, slabs, words0, frees, objs0, s, slab, words, objs, ready);
    }

    // ---------- takeobject ----------

    /** `takeobject`: the first free slot of a slab, null when there is none. */
    method TakeObject(s: nat) returns (obj: nat)
      requires Contents() && s in slabs
      modifies this`slabs, this`words, this`frees
      ensures old(frees[s]) == [] ==> obj == 0 && unchanged(this)
      ensures old(frees[s]) != [] ==>
                && TookAt(old(slabs), old(words), old(frees), s, slabs, words, frees)
                && obj == ObjAt(shape, PlaceOf(shape, old(slabs), s), old(frees[s])[0])
    {
      hide ContentsOk, ObjAt;
      TakeFacts(shape, slabs, words, frees, objs, ready, s);
      if slabs[s].free == 0 {
        return 0;
      }
      var objend := slabs[s].free;
      slabs := slabs[s := slabs[s].(free := words[slabs[s].free])];
      slabs := slabs[s := slabs[s].(used := slabs[s].used + 1)];
      words := words[objend := 0];
      frees := frees[s := frees[s][1..]];
      if shape.Direct() {
        obj := objend - shape.size;
      } else {
        obj := slabs[s].base + (objend - PageDown(s)) / WORD_SIZE * shape.trueSize;
      }
    }

    // ---------- slab_alloc ----------

    /** Moves the first slab of its list in front of list `to`; the rest of its list remains. */
    method MoveFirst(s: nat, to: nat) returns (rest: nat)
      requires Movable(slabs, s, to) && slabs[s].prev == 0 && s != to && slabs[s].next != s
      modifies this`slabs
      ensures rest == UnlinkHead(old(slabs), s, s) && slabs == Moved(old(slabs), s, to)
    {
      rest := slabs[s].next;
      if slabs[s].next != 0 {
        slabs := slabs[slabs[s].next := slabs[slabs[s].next].(prev := 0)];
      }
      if to != 0 {
        slabs := slabs[to := slabs[to].(prev := s)];
      }
      slabs := slabs[s := slabs[s].(next := to)];
      slabs := slabs[s := slabs[s].(prev := 0)];
      assert slabs == Moved(old(slabs), s, to);
    }

    /** The list `slab_alloc` leaves a slab on, once one of its objects is taken, if it has any. */
    method AfterTake(s: nat, ghost m: Slabs)
      requires ListsOk(m, shape.count, full, fulls, partial, partials, empty, empties)
      requires s != 0 && (if partial != 0 then s == partial else s == empty)
      requires UsedElsewhere(m, slabs, s) && s in m && s in slabs
      requires shape.count > 0 ==> slabs[s].used == m[s].used + 1
      modifies this`slabs, this`full, this`partial, this`empty, this`fulls, this`partials, this`empties
      ensures shape.count >= 2 ==> Lists() && SameBodies(old(slabs), slabs)
      ensures shape.count < 2 ==> partial != 0
    {
      hide Links, Moved, SameBodies, NoDup, SameLinks;
      FirstOf(m, s);
      if s == empty {
        if shape.count >= 2 {
          EmptyToPartial(m, slabs, shape.count, full, fulls, partial, partials, empty, empties, 0);
        }
        empty := MoveFirst(s, partial);
        partial := s;
        partials, empties := [s] + partials, Without(empties, 0);
      } else if slabs[s].used == shape.count {
        PartialToFull(m, slabs, shape.count, full, fulls, partial, partials, empty, empties, 0);
        partial := MoveFirst(s, full);
        full := s;
        fulls, partials := [s] + fulls, Without(partials, 0);
      } else {
        PartialStays(m, slabs, shape.count, full, fulls, partial, partials, empty, empties, s);
        SameBodiesSelf(slabs);
      }
    }

    lemma FirstOf(m: Slabs, s: nat)
      requires ListsOk(m, shape.count, full, fulls, partial, partials, empty, empties)
      requires s != 0 && s in m && (if partial != 0 then s == partial else s == empty) && SameLinks(m, slabs)
      ensures s == empty ==> empties != [] && s == empties[0] && Movable(slabs, s, partial)
      ensures s != empty ==> shape.count >= 2 && partials != [] && s == partials[0] && s in partials
      ensures s in slabs && slabs[s].prev == 0 && slabs[s].next != s
      ensures s == empty ==> s != partial
      ensures s != empty ==> s != full
      ensures s == empty ==> m[s].used == 0
      ensures s != empty ==> 0 < m[s].used < shape.count
    {
      HeadIn(m, empty, empties);
      HeadIn(m, partial, partials);
      HeadIn(m, full, fulls);
      var list := if partial != 0 then partials else empties;
      Neighbours(m, s, list, 0);
      hide Links;
    }

    /** The objects live now are those live before and obj, and all others hold what they held. */
    ghost predicate Added(m: Slabs, frees0: Frees, objs0: map<nat, T>, obj: nat)
      requires frees0.Keys == m.Keys && frees.Keys == slabs.Keys
      reads this
    {
      && obj != 0 && obj in objs && ready(objs[obj]) && !Live(shape, m, frees0, obj)
      && LiveAs(shape, m, frees0, objs0, slabs, frees, objs, obj, true)
    }

    /** The object of the first free slot of a slab, as the slabs and free lists were. */
    ghost predicate FirstFree(m: Slabs, frees0: Frees, s: nat, obj: nat) {
      s in m && s in frees0 && frees0[s] != [] && obj == ObjAt(shape, PlaceOf(shape, m, s), frees0[s][0])
    }

    method AllocFrom(s: nat) returns (obj: nat)
      requires InOrder() && s != 0 && (if partial != 0 then s == partial else s == empty)
      modifies this
      ensures objs == old(objs)
      ensures shape.count >= 2 ==> Valid() && Added(old(slabs), old(frees), old(objs), obj)
      ensures shape.count >= 2 ==> slabs.Keys == old(slabs).Keys && FirstFree(old(slabs), old(frees), s, obj)
      ensures shape.count < 2 ==> partial != 0
    {
      hide ListsOk, ContentsOk, SameBodies, TookAt, Live, ObjAt;
      ghost var m, w, f := slabs, words, frees;
      KeysOf(shape, m, w, f, objs, ready);
      Choice(s);
      obj := TakeObject(s);
      if f[s] == [] {
        SameUse(m, s);
      } else {
        TookCounts(m, w, f, s, slabs, words, frees);
        TookKeys(m, w, f, s, slabs, words, frees);
        TakeContents(shape, m, w, f, s, slabs, words, frees, objs, ready);
        KeysOf(shape, slabs, words, frees, objs, ready);
      }
      ghost var m1 := slabs;
      AfterTake(s, m);
      if shape.count >= 2 {
        MoveContents(shape, m1, slabs, words, frees, objs, ready);
        SameKeys(m1, slabs);
        KeysOf(shape, slabs, words, frees, objs, ready);
      }
    }

    lemma TookKeys(m: Slabs, w: Words, f: Frees, s: nat, m': Slabs, w': Words, f': Frees)
      requires TookAt(m, w, f, s, m', w', f')
      ensures m'.Keys == m.Keys
    {
    }

    lemma SameKeys(m: Slabs, m': Slabs)
      requires SameBodies(m, m')
      ensures m'.Keys == m.Keys
    {
    }

    lemma SameUse(m: Slabs, s: nat)
      ensures UsedElsewhere(m, m, s)
    {
    }

    /** The slab `slab_alloc` picks has a free slot, unless slabs have none at all. */
    lemma Choice(s: nat)
      requires InOrder() && s != 0 && (if partial != 0 then s == partial else s == empty)
      ensures s in slabs && s in frees && (frees[s] == [] <==> shape.count == 0)
    {
      HeadIn(slabs, partial, partials);
      HeadIn(slabs, empty, empties);
      assert if partial != 0 then s in partials else s in empties;
      hide Links, ContentsOk;
      UseCount(shape, slabs, words, frees, objs, ready, s);
    }

    /**
     `slab_alloc` with two or more objects to a slab: fails exactly when no slab has a free object and no memory
     is granted, and then changes nothing; otherwise hands out an object that was not live, as the constructor or
     destructor left it, from a partial slab before an empty one and from a new one only without either.  With fewer,
     a slab that is not refused ends on the partial list, where it does not belong: the lists are in order afterwards
     exactly when slabs hold two objects or the call was refused.
     */
    method Alloc(page: nat, base: nat, raw: nat -> T) returns (obj: nat)
      requires InOrder() && Fresh(page, base)
      modifies this
      ensures SomeOrder() <==> shape.count >= 2 || old(Refused(page, base))
      ensures old(Refused(page, base)) ==> obj == 0 && unchanged(this)
      ensures shape.count >= 2 ==> Valid() && (obj == 0 <==> old(Refused(page, base)))
      ensures shape.count >= 2 && obj != 0 ==> Added(old(slabs), old(frees), old(objs), obj)
      ensures shape.count >= 2 && obj != 0 && Multiple(PAGE_SIZE, shape.align) ==> Multiple(obj, shape.align)
      ensures shape.count >= 2 && (old(partial) != 0 || old(empty) != 0) ==>
                && slabs.Keys == old(slabs).Keys
                && FirstFree(old(slabs), old(frees), if old(partial) != 0 then old(partial) else old(empty), obj)
      ensures NewObjs(shape, old(objs), objs, NewPlace(page, base))
    {
      hide ListsOk, ContentsOk, Live, Fresh, SomeLists, Multiple;
      KeysOf(shape, slabs, words, frees, objs, ready);
      if partial != 0 {
        obj := AllocFrom(partial);
      } else if empty != 0 {
        obj := AllocFrom(empty);
      } else {
        var ok := GrowCache(page, base, raw);
        if !ok {
          OrderShown();
          return 0;
        }
        KeysOf(shape, slabs, words, frees, objs, ready);
        obj := AllocFrom(empty);
      }
      if shape.count >= 2 {
        OrderShown();
        KeysOf(shape, slabs, words, frees, objs, ready);
        AllAligned();
        assert LiveObj(obj);
      } else if SomeOrder() {
        NothingPartial(slabs, shape.count, full, partial, empty);
      }
    }

    lemma OrderShown()
      requires Lists()
      ensures SomeOrder()
    {
    }

    /** Every live object is aligned as the cache asks, when the alignment divides the page size. */
    lemma AllAligned()
      requires InOrder()
      ensures frees.Keys == slabs.Keys
      ensures Multiple(PAGE_SIZE, shape.align) ==> forall o :: LiveObj(o) ==> Multiple(o, shape.align)
    {
      hide Lists, Multiple, Sound, PlacesOk, ChainsOk, ObjsOk;
      KeysOf(shape, slabs, words, frees, objs, ready);
      forall o | Multiple(PAGE_SIZE, shape.align) && LiveObj(o) ensures Multiple(o, shape.align) {
        var s, i :| LivesIn(shape, slabs, frees, o, s, i);
        LiveApart(shape, slabs, frees, o, s, i);
      }
    }

    // ---------- slab_free ----------

    /** The slab of a live object is full or partial. */
    lemma SearchStarts(obj: nat, s: nat, i: nat)
      requires Valid() && LivesIn(shape, slabs, frees, obj, s, i)
      ensures s in fulls || s in partials
      ensures full == At(fulls, 0) && (full == 0 <==> fulls == [])
      ensures partial == At(partials, 0) && (partial == 0 <==> partials == [])
    {
      hide Links, ContentsOk;
      assert full == At(fulls, 0) && partial == At(partials, 0) by { LinkHeads(); }
      GiveFacts(shape, slabs, words, frees, objs, ready, obj, s, i);
      InUse(slabs, shape.count, fulls, partials, empties, s);
      HeadIn(slabs, full, fulls);
      HeadIn(slabs, partial, partials);
    }

    lemma LinkHeads()
      requires Lists()
      ensures full == At(fulls, 0) && partial == At(partials, 0)
    {
    }

    /** One slab of the search: its area tells, and its link leads on. */
    lemma SearchStep(head: nat, list: seq<nat>, k: nat, obj: nat, s: nat, i: nat)
      requires Contents() && !shape.Direct() && LivesIn(shape, slabs, frees, obj, s, i)
      requires Links(slabs, head, list) && k < |list|
      ensures list[k] in slabs && slabs[list[k]].next == At(list, k + 1)
                && (slabs[list[k]].next == 0 <==> k + 1 == |list|)
      ensures slabs[list[k]].base <= obj < slabs[list[k]].base + shape.trueSize * shape.count <==> list[k] == s
    {
      Neighbours(slabs, head, list, k);
      hide Links, LivesIn, PlacesOk, Sound;
      AreaTells(shape, slabs, frees, obj, s, i, list[k]);
    }

    /** The search of `returnobject` in indirect mode, through the full and then the partial slabs. */
    method FindSlab(obj: nat, ghost s: nat, ghost i: nat) returns (slab: nat)
      requires Valid() && !shape.Direct() && LivesIn(shape, slabs, frees, obj, s, i)
      ensures slab == s
    {
      hide Sorted, LivesIn, NoDup, Links, Sound, PlacesOk, ChainsOk, ObjsOk;
      SearchStarts(obj, s, i);
      ghost var k: nat := 0;
      var inPartial := full == 0;
      slab := if inPartial then partial else full;
      ghost var list := if inPartial then partials else fulls;
      while slab != 0
        invariant list == if inPartial then partials else fulls
        invariant k <= |list| && slab == At(list, k) && s !in list[..k] && (inPartial ==> s !in fulls)
        invariant slab == 0 ==> k == |list| && inPartial
        decreases !inPartial, |list| - k
      {
        SearchStep(if inPartial then partial else full, list, k, obj, s, i);
        var top := slabs[slab].base + shape.trueSize * shape.count;
        if slabs[slab].base <= obj < top {
          break;
        }
        assert list[..k + 1] == list[..k] + [list[k]];
        if slabs[slab].next == 0 && !inPartial {
          assert list == list[..k + 1];
          slab, inPartial, list, k := partial, true, partials, 0;
        } else {
          slab, k := slabs[slab].next, k + 1;
        }
      }
    }

    /** `returnobject`: finds the slab and the free word, which the source asserts to be null, and frees the object. */
    method ReturnObject(obj: nat, ghost s: nat, ghost i: nat) returns (slab: nat)
      requires Valid() && LivesIn(shape, slabs, frees, obj, s, i)
      modifies this`slabs, this`words, this`objs, this`frees
      ensures slab == s && obj in old(objs) && objs == old(objs)[obj := dtor(old(objs)[obj])]
      ensures GaveAt(shape, old(slabs), old(words), old(frees), s, i, slabs, words, frees)
    {
      hide ListsOk, ContentsOk, WordAt, ObjAt, SlabOf;
      GiveFacts(shape, slabs, words, frees, objs, ready, obj, s, i);
      var freeptr: nat;
      if shape.Direct() {
        slab := SlabOf(obj);
        freeptr := obj + shape.size;
        assert words[freeptr] == 0;
      } else {
        slab := FindSlab(obj, s, i);
        var objn := (obj - slabs[slab].base) / shape.trueSize;
        freeptr := PageDown(slab) + objn * WORD_SIZE;
      }
      objs := objs[obj := dtor(objs[obj])];
      words := words[freeptr := slabs[slab].free];
      slabs := slabs[slab := slabs[slab].(free := freeptr)];
      slabs := slabs[slab := slabs[slab].(used := slabs[slab].used - 1)];
      frees := frees[s := [i] + frees[s]];
    }

    /** Moves a slab, wherever it is in its list, in front of list `to`; `rest` is the new first of its list. */
    method MoveSlab(s: nat, head: nat, to: nat) returns (rest: nat)
      requires Movable(slabs, s, to) && s != to && slabs[s].next != s && slabs[s].prev != s
      requires slabs[s].prev == 0 || slabs[s].prev != slabs[s].next
      modifies this`slabs
      ensures rest == UnlinkHead(old(slabs), head, s) && slabs == Moved(old(slabs), s, to)
    {
      rest := head;
      if slabs[s].prev == 0 {
        rest := slabs[s].next;
      } else {
        slabs := slabs[slabs[s].prev := slabs[slabs[s].prev].(next := slabs[s].next)];
      }
      if slabs[s].next != 0 {
        slabs := slabs[slabs[s].next := slabs[slabs[s].next].(prev := slabs[s].prev)];
      }
      assert slabs == UnlinkMap(old(slabs), s);
      slabs := slabs[s := slabs[s].(next := to)];
      slabs := slabs[s := slabs[s].(prev := 0)];
      if slabs[s].next != 0 {
        slabs := slabs[slabs[s].next := slabs[slabs[s].next].(prev := s)];
      }
    }

    method PartialIsEmpty(s: nat, ghost m: Slabs)
      requires shape.count >= 2 && ListsOk(m, shape.count, full, fulls, partial, partials, empty, empties)
      requires UsedElsewhere(m, slabs, s) && s in m && s in slabs && slabs[s].used == 0 && m[s].used == 1
      modifies this`slabs, this`partial, this`empty, this`partials, this`empties
      ensures Lists() && SameBodies(old(slabs), slabs)
    {
      hide Links, Moved, SameBodies, NoDup, SameLinks;
      InUse(m, shape.count, fulls, partials, empties, s);
      ghost var k :| 0 <= k < |partials| && partials[k] == s;
      PartialToEmpty(m, slabs, shape.count, full, fulls, partial, partials, empty, empties, k);
      MovableFrom(m, partial, partials, k, empty, empties);
      partial := MoveSlab(s, partial, empty);
      empty := s;
      partials, empties := Without(partials, k), [s] + empties;
    }

    method FullIsPartial(s: nat, ghost m: Slabs)
      requires shape.count >= 2 && ListsOk(m, shape.count, full, fulls, partial, partials, empty, empties)
      requires UsedElsewhere(m, slabs, s) && s in m && s in slabs && slabs[s].used + 1 == m[s].used == shape.count
      modifies this`slabs, this`full, this`partial, this`fulls, this`partials
      ensures Lists() && SameBodies(old(slabs), slabs)
    {
      hide Links, Moved, SameBodies, NoDup, SameLinks;
      InUse(m, shape.count, fulls, partials, empties, s);
      ghost var k :| 0 <= k < |fulls| && fulls[k] == s;
      FullToPartial(m, slabs, shape.count, full, fulls, partial, partials, empty, empties, k);
      MovableFrom(m, full, fulls, k, partial, partials);
      full := MoveSlab(s, full, partial);
      partial := s;
      fulls, partials := Without(fulls, k), [s] + partials;
    }

    /** The list `slab_free` leaves a slab on, once one of its objects is back. */
    method AfterGive(s: nat, ghost m: Slabs)
      requires shape.count >= 2 && ListsOk(m, shape.count, full, fulls, partial, partials, empty, empties)
      requires UsedElsewhere(m, slabs, s) && s in m && s in slabs && slabs[s].used + 1 == m[s].used
      modifies this`slabs, this`full, this`partial, this`empty, this`fulls, this`partials, this`empties
      ensures Lists() && SameBodies(old(slabs), slabs)
    {
      hide Links, NoDup, SameLinks;
      SameBodiesSelf(slabs);
      if 0 < slabs[s].used < shape.count - 1 {
        InUse(m, shape.count, fulls, partials, empties, s);
        PartialStays(m, slabs, shape.count, full, fulls, partial, partials, empty, empties, s);
      }
      if slabs[s].used == 0 {
        PartialIsEmpty(s, m);
      }
      if slabs[s].used == shape.count - 1 {
        FullIsPartial(s, m);
      }
    }

    lemma MovableFrom(m: Slabs, head: nat, list: seq<nat>, k: nat, to: nat, others: seq<nat>)
      requires Links(m, head, list) && Links(m, to, others) && k < |list| && list[k] !in others && SameLinks(m, slabs)
      requires list[k] in slabs
      ensures list[k] != to && slabs[list[k]].next != list[k] && slabs[list[k]].prev != list[k]
      ensures slabs[list[k]].prev == 0 || slabs[list[k]].prev != slabs[list[k]].next
    {
      Neighbours(m, head, list, k);
      HeadIn(m, to, others);
    }

    /** `slab_free`: exactly the returned object stops being live; the others hold what they held. */
    method Free(obj: nat)
      requires Valid() && LiveObj(obj)
      modifies this
      ensures Valid() && LiveAs(shape, old(slabs), old(frees), old(objs), slabs, frees, objs, obj, false)
      ensures obj in old(objs) && objs == old(objs)[obj := dtor(old(objs)[obj])]
    {
      hide ListsOk, ContentsOk, SameBodies, GaveAt, ObjAt;
      ghost var m, w, f := slabs, words, frees;
      KeysOf(shape, m, w, f, objs, ready);
      ghost var s, i :| LivesIn(shape, slabs, frees, obj, s, i);
      hide LivesIn;
      var slab := ReturnObject(obj, s, i);
      GaveCounts(shape, m, w, f, s, i, slabs, words, frees);
      Returned(m, w, f, old(objs), obj, s, i);
      ghost var m1 := slabs;
      AfterGive(slab, m);
      MoveContents(shape, m1, slabs, words, frees, objs, ready);
      KeysOf(shape, slabs, words, frees, objs, ready);
    }

    lemma Returned(m: Slabs, w: Words, f: Frees, objs0: map<nat, T>, obj: nat, s: nat, i: nat)
      requires ContentsOk(shape, m, w, f, objs0, ready) && LivesIn(shape, m, f, obj, s, i) && obj in objs0
      requires GaveAt(shape, m, w, f, s, i, slabs, words, frees) && objs == objs0[obj := dtor(objs0[obj])]
      requires forall x :: ready(dtor(x))
      ensures ContentsOk(shape, slabs, words, frees, objs, ready)
      ensures LiveAs(shape, m, f, objs0, slabs, frees, objs, obj, false)
    {
      hide ContentsOk, GaveAt, Live, LiveAs;
      GiveContents(shape, m, w, f, s, i, slabs, words, frees, objs0, dtor(objs0[obj]), ready);
    }

    /** The holder of a live object writes to it. */
    method Store(obj: nat, x: T)
      requires Valid() && LiveObj(obj)
      modifies this`objs
      ensures Valid() && obj in old(objs) && objs == old(objs)[obj := x]
    {
      hide ListsOk, ContentsOk, Live;
      LiveObject(shape, slabs, words, frees, objs, ready, obj);
      StoreContents(shape, slabs, words, frees, objs, ready, obj, x);
      objs := objs[obj := x];
    }
  }
}
