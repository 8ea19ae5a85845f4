/**
 kernel/mem/slab.c: what holds of all slabs of one cache between calls, and how taking and returning one
 object keep it.  `frees` lists, for each slab, the free slots in free-list order.
 */
module SlabState {
  import opened Bytes
  import opened Paging
  import opened SlabLayout
  import opened SlabLists

  type Words = map<nat, nat>
  type Frees = map<nat, seq<nat>>

  function PlaceOf(sh: Shape, m: Slabs, s: nat): Place
    requires s in m
  {
    Place(s, if sh.Direct() then PageDown(s) else m[s].base)
  }

  /** The free words of one slab, and what they hold. */
  function WordsOf(sh: Shape, p: Place): seq<nat> {
    seq(sh.count, i requires 0 <= i < sh.count => WordAt(sh, p, i))
  }

  ghost predicate InMemory(words: Words, addr: seq<nat>) {
    forall i :: 0 <= i < |addr| ==> addr[i] in words
  }

  function Reading(words: Words, addr: seq<nat>): seq<nat>
    requires InMemory(words, addr)
  {
    seq(|addr|, i requires 0 <= i < |addr| => words[addr[i]])
  }

  /** The address of the k-th free slot, null past the end. */
  function FreeAt(addr: seq<nat>, free: seq<nat>, k: nat): nat {
    if k < |free| && free[k] < |addr| then addr[free[k]] else 0
  }

  /** A free list through the words ws at addr; the words of objects in use are null. */
  ghost predicate Chain(addr: seq<nat>, ws: seq<nat>, head: nat, free: seq<nat>) {
    && |ws| == |addr| && NoDup(free) && head == FreeAt(addr, free, 0)
    && (forall k :: 0 <= k < |free| ==> free[k] < |ws|)
    && (forall k {:trigger ws[free[k]]} :: 0 <= k < |free| ==> ws[free[k]] == FreeAt(addr, free, k + 1))
    && (forall i :: 0 <= i < |ws| && i !in free ==> ws[i] == 0)
  }

  ghost predicate ChainOk(sh: Shape, p: Place, slab: Slab, words: Words, free: seq<nat>) {
    var addr := WordsOf(sh, p);
    InMemory(words, addr) && slab.used + |free| == sh.count && Chain(addr, Reading(words, addr), slab.free, free)
  }

  ghost predicate PlacesOk(sh: Shape, m: Slabs) {
    && (forall s :: s in m ==> Placed(sh, PlaceOf(sh, m, s)))
    && (forall s, t :: s in m && t in m ==> Separate(sh, PlaceOf(sh, m, s), PlaceOf(sh, m, t)))
  }

  ghost predicate ChainsOk(sh: Shape, m: Slabs, words: Words, frees: Frees) {
    && frees.Keys == m.Keys
    && forall s :: s in m ==> ChainOk(sh, PlaceOf(sh, m, s), m[s], words, frees[s])
  }

  /** Every slot holds an object; the free ones are as the constructor or the destructor left them. */
  ghost predicate ObjsOk<T(!new)>(sh: Shape, m: Slabs, objs: map<nat, T>, frees: Frees, ready: T -> bool) {
    && frees.Keys == m.Keys
    && (forall s, i: nat :: s in m && i < sh.count ==> ObjAt(sh, PlaceOf(sh, m, s), i) in objs)
    && (forall s, i :: s in m && i in frees[s] ==>
          ObjAt(sh, PlaceOf(sh, m, s), i) in objs && ready(objs[ObjAt(sh, PlaceOf(sh, m, s), i)]))
  }

  /** Object o lives in slot i of slab s. */
  ghost predicate LivesIn(sh: Shape, m: Slabs, frees: Frees, o: nat, s: nat, i: nat)
    requires frees.Keys == m.Keys
  {
    s in m && i < sh.count && i !in frees[s] && o == ObjAt(sh, PlaceOf(sh, m, s), i)
  }

  ghost predicate Live(sh: Shape, m: Slabs, frees: Frees, o: nat)
    requires frees.Keys == m.Keys
  {
    exists s, i :: LivesIn(sh, m, frees, o, s, i)
  }

  /** The three lists: which slabs, and how many objects in use. */
  ghost predicate Sorted(m: Slabs, count: nat, fulls: seq<nat>, partials: seq<nat>, empties: seq<nat>) {
    && (forall s :: s in m ==> s in fulls || s in partials || s in empties)
    && (forall s :: s in fulls ==> s in m && m[s].used == count)
    && (forall s :: s in partials ==> s in m && 0 < m[s].used < count)
    && (forall s :: s in empties ==> s in m && m[s].used == 0)
  }

  // ---------- the geometry of live objects ----------

  /** Two different slots of one cache never share an object. */
  lemma OneSlot(sh: Shape, m: Slabs, s: nat, i: nat, t: nat, j: nat)
    requires Sound(sh) && PlacesOk(sh, m) && s in m && t in m && i < sh.count && j < sh.count
    requires ObjAt(sh, PlaceOf(sh, m, s), i) == ObjAt(sh, PlaceOf(sh, m, t), j)
    ensures s == t && i == j
  {
    if s != t || i != j {
      SlotBounds(sh, PlaceOf(sh, m, s), i);
      ObjectsApart(sh, PlaceOf(sh, m, s), i, PlaceOf(sh, m, t), j);
      assert false;
    }
  }

  /**
   Live objects do not meet one another, nor a header, nor a free word, and they are aligned as the cache
   asks when the alignment divides the page size.
   */
  lemma LiveApart(sh: Shape, m: Slabs, frees: Frees, o: nat, s: nat, i: nat)
    requires Sound(sh) && PlacesOk(sh, m) && frees.Keys == m.Keys && LivesIn(sh, m, frees, o, s, i)
    ensures forall o' :: Live(sh, m, frees, o') && o' != o ==> Disjoint(o, sh.size, o', sh.size)
    ensures forall t :: t in m ==> Disjoint(o, sh.size, t, HEADER_SIZE)
    ensures forall t, j: nat :: t in m && j < sh.count ==>
              Disjoint(o, sh.size, WordAt(sh, PlaceOf(sh, m, t), j), WORD_SIZE)
    ensures Multiple(PAGE_SIZE, sh.align) ==> Multiple(o, sh.align)
  {
    var p := PlaceOf(sh, m, s);
    if Multiple(PAGE_SIZE, sh.align) {
      ObjAligned(sh, p, i);
    }
    hide Sound, Placed, Multiple;
    forall o' | Live(sh, m, frees, o') && o' != o ensures Disjoint(o, sh.size, o', sh.size) {
      var t, j :| LivesIn(sh, m, frees, o', t, j);
      ObjectsApart(sh, p, i, PlaceOf(sh, m, t), j);
    }
    forall t | t in m ensures Disjoint(o, sh.size, t, HEADER_SIZE) {
      HeaderApart(sh, p, i, PlaceOf(sh, m, t));
    }
    forall t, j: nat | t in m && j < sh.count
      ensures Disjoint(o, sh.size, WordAt(sh, PlaceOf(sh, m, t), j), WORD_SIZE)
    {
      ObjectOffWords(sh, p, i, PlaceOf(sh, m, t), j);
    }
  }

  // ---------- frames ----------

  /** Same slabs at the same places. */
  ghost predicate SamePlaces(m: Slabs, m': Slabs) {
    m.Keys == m'.Keys && forall s :: s in m ==> m'[s].base == m[s].base
  }

  lemma PlacesKept(sh: Shape, m: Slabs, m': Slabs)
    requires PlacesOk(sh, m) && SamePlaces(m, m')
    ensures PlacesOk(sh, m')
    ensures forall s :: s in m ==> PlaceOf(sh, m', s) == PlaceOf(sh, m, s)
  {
    assert forall s :: s in m ==> PlaceOf(sh, m', s) == PlaceOf(sh, m, s);
  }

  lemma ChainsKept(sh: Shape, m: Slabs, m': Slabs, words: Words, frees: Frees)
    requires ChainsOk(sh, m, words, frees) && SameBodies(m, m')
    ensures ChainsOk(sh, m', words, frees) && SamePlaces(m, m')
  {
    forall s | s in m' ensures ChainOk(sh, PlaceOf(sh, m', s), m'[s], words, frees[s]) {
      assert PlaceOf(sh, m', s) == PlaceOf(sh, m, s);
    }
  }

  lemma ObjsKept<T(!new)>(sh: Shape, m: Slabs, m': Slabs, objs: map<nat, T>, frees: Frees, ready: T -> bool)
    requires ObjsOk(sh, m, objs, frees, ready) && SamePlaces(m, m')
    ensures ObjsOk(sh, m', objs, frees, ready)
  {
    assert forall s :: s in m ==> PlaceOf(sh, m', s) == PlaceOf(sh, m, s);
  }

  lemma LiveKept(sh: Shape, m: Slabs, m': Slabs, frees: Frees)
    requires frees.Keys == m.Keys && SamePlaces(m, m')
    ensures forall o :: Live(sh, m', frees, o) <==> Live(sh, m, frees, o)
  {
    forall o, s, i: nat ensures LivesIn(sh, m', frees, o, s, i) <==> LivesIn(sh, m, frees, o, s, i) {
      if s in m {
        assert PlaceOf(sh, m', s) == PlaceOf(sh, m, s);
      }
    }
  }

  /** A write to one word changes one reading, and none of another slab. */
  lemma WriteWord(words: Words, addr: seq<nat>, j: nat, v: nat)
    requires InMemory(words, addr) && j < |addr| && NoDup(addr)
    ensures InMemory(words[addr[j] := v], addr)
    ensures Reading(words[addr[j] := v], addr) == Reading(words, addr)[j := v]
  {
  }

  lemma WriteElsewhere(words: Words, addr: seq<nat>, w: nat, v: nat)
    requires InMemory(words, addr) && w !in addr
    ensures InMemory(words[w := v], addr) && Reading(words[w := v], addr) == Reading(words, addr)
  {
  }

  lemma OwnWords(sh: Shape, p: Place)
    requires Sound(sh) && Placed(sh, p)
    ensures NoDup(WordsOf(sh, p)) && 0 !in WordsOf(sh, p)
  {
    var addr := WordsOf(sh, p);
    forall i, j | 0 <= i < j < |addr| ensures addr[i] != addr[j] {
      WordsApart(sh, p, i, p, j);
    }
    forall i | 0 <= i < |addr| ensures addr[i] != 0 {
      SlotBounds(sh, p, i);
    }
  }

  lemma OtherWords(sh: Shape, p: Place, q: Place, j: nat)
    requires Sound(sh) && Placed(sh, p) && Placed(sh, q) && p.slab != q.slab && j < sh.count
    ensures WordAt(sh, q, j) !in WordsOf(sh, p)
  {
    forall i: nat | i < sh.count ensures WordAt(sh, p, i) != WordAt(sh, q, j) {
      WordsApart(sh, p, i, q, j);
    }
  }

  // ---------- takeobject ----------

  lemma RestOf(free: seq<nat>)
    requires free != [] && NoDup(free)
    ensures NoDup(free[1..]) && forall j :: j in free[1..] <==> j in free && j != free[0]
  {
    assert free == [free[0]] + free[1..];
  }

  lemma TakeChain(addr: seq<nat>, ws: seq<nat>, head: nat, free: seq<nat>)
    requires Chain(addr, ws, head, free) && free != []
    ensures head == addr[free[0]] && Chain(addr, ws[free[0] := 0], ws[free[0]], free[1..])
  {
    RestOf(free);
    var rest := free[1..];
    assert forall k {:trigger rest[k]} :: 0 <= k < |rest| ==> rest[k] == free[k + 1] && rest[k] != free[0];
  }

  /** The header of a slab once its first free slot is taken. */
  function Taken(slab: Slab, words: Words): Slab
    requires slab.free in words
  {
    slab.(free := words[slab.free], used := slab.used + 1)
  }

  lemma TakeOwn(sh: Shape, p: Place, slab: Slab, words: Words, free: seq<nat>)
    requires Sound(sh) && Placed(sh, p) && ChainOk(sh, p, slab, words, free) && free != []
    ensures free[0] < sh.count && slab.free == WordAt(sh, p, free[0]) && slab.free in words && slab.free != 0
    ensures ChainOk(sh, p, Taken(slab, words), words[slab.free := 0], free[1..])
  {
    OwnWords(sh, p);
    var addr := WordsOf(sh, p);
    TakeChain(addr, Reading(words, addr), slab.free, free);
    WriteWord(words, addr, free[0], 0);
    hide Chain, NoDup, WordAt;
  }

  ghost predicate TookAt(m: Slabs, words: Words, frees: Frees, s: nat, m': Slabs, words': Words, frees': Frees)
  {
    && s in m && s in frees && frees[s] != [] && m[s].free in words
    && m' == m[s := Taken(m[s], words)] && words' == words[m[s].free := 0] && frees' == frees[s := frees[s][1..]]
  }

  lemma ChainElsewhere(sh: Shape, p: Place, slab: Slab, words: Words, free: seq<nat>, q: Place, j: nat, v: nat)
    requires Sound(sh) && Placed(sh, p) && Placed(sh, q) && p.slab != q.slab && j < sh.count
    requires ChainOk(sh, p, slab, words, free)
    ensures ChainOk(sh, p, slab, words[WordAt(sh, q, j) := v], free)
  {
    OtherWords(sh, p, q, j);
    WriteElsewhere(words, WordsOf(sh, p), WordAt(sh, q, j), v);
  }

  lemma TakeChains(sh: Shape, m: Slabs, words: Words, frees: Frees, s: nat, m': Slabs, words': Words, frees': Frees)
    requires Sound(sh) && PlacesOk(sh, m) && ChainsOk(sh, m, words, frees)
    requires TookAt(m, words, frees, s, m', words', frees')
    ensures ChainsOk(sh, m', words', frees') && SamePlaces(m, m') && SameLinks(m, m')
  {
    hide ChainOk, WordAt, Separate, Placed, Sound;
    var p := PlaceOf(sh, m, s);
    TakeOwn(sh, p, m[s], words, frees[s]);
    forall t | t in m' ensures ChainOk(sh, PlaceOf(sh, m', t), m'[t], words', frees'[t]) {
      assert PlaceOf(sh, m', t) == PlaceOf(sh, m, t);
      if t != s {
        ChainElsewhere(sh, PlaceOf(sh, m, t), m[t], words, frees[t], p, frees[s][0], 0);
      }
    }
  }

  /** The slot just taken was not live before. */
  lemma FreeIsNotLive(sh: Shape, m: Slabs, frees: Frees, s: nat, i: nat)
    requires Sound(sh) && PlacesOk(sh, m) && frees.Keys == m.Keys && s in m && i in frees[s] && i < sh.count
    ensures !Live(sh, m, frees, ObjAt(sh, PlaceOf(sh, m, s), i))
  {
    hide ObjAt, Separate, Placed, Sound;
    var o := ObjAt(sh, PlaceOf(sh, m, s), i);
    if Live(sh, m, frees, o) {
      var t, j :| LivesIn(sh, m, frees, o, t, j);
      OneSlot(sh, m, s, i, t, j);
    }
  }

  /** One slot changes hands: exactly the object in it goes in or out of the live ones. */
  lemma LiveMore(sh: Shape, m: Slabs, frees: Frees, m': Slabs, frees': Frees, s: nat, i: nat)
    requires frees.Keys == m.Keys && frees'.Keys == m'.Keys && SamePlaces(m, m') && s in m && i < sh.count
    requires i in frees[s] && forall j :: j in frees'[s] <==> j in frees[s] && j != i
    requires forall t :: t in m && t != s ==> frees'[t] == frees[t]
    ensures forall x :: Live(sh, m', frees', x) <==>
                        Live(sh, m, frees, x) || x == ObjAt(sh, PlaceOf(sh, m, s), i)
  {
    hide ObjAt;
    var o := ObjAt(sh, PlaceOf(sh, m, s), i);
    assert forall t :: t in m ==> PlaceOf(sh, m', t) == PlaceOf(sh, m, t);
    forall x, t, j: nat
      ensures LivesIn(sh, m', frees', x, t, j) <==> LivesIn(sh, m, frees, x, t, j) || (x == o && t == s && j == i)
    {
    }
    assert LivesIn(sh, m', frees', o, s, i);
  }

  /** Taking a slot makes exactly one object live, one that was free and ready. */
  lemma TakeLive<T(!new)>(sh: Shape, m: Slabs, words: Words, frees: Frees, s: nat, m': Slabs, words': Words,
                   frees': Frees,
                          objs: map<nat, T>, ready: T -> bool)
    requires Sound(sh) && PlacesOk(sh, m) && ChainsOk(sh, m, words, frees) && ObjsOk(sh, m, objs, frees, ready)
    requires TookAt(m, words, frees, s, m', words', frees')
    ensures frees'.Keys == m'.Keys && ObjsOk(sh, m', objs, frees', ready)
    ensures var o := ObjAt(sh, PlaceOf(sh, m, s), frees[s][0]);
      && o in objs && ready(objs[o]) && !Live(sh, m, frees, o)
      && forall x :: Live(sh, m', frees', x) <==> Live(sh, m, frees, x) || x == o
  {
    hide ChainOk, WordAt, ObjAt, Separate, Placed, Sound, Live;
    var i, p := frees[s][0], PlaceOf(sh, m, s);
    TakeOwn(sh, p, m[s], words, frees[s]);
    FreeListNoDup(sh, p, m[s], words, frees[s]);
    RestOf(frees[s]);
    FreeIsNotLive(sh, m, frees, s, i);
    assert SamePlaces(m, m');
    LiveMore(sh, m, frees, m', frees', s, i);
    assert forall t :: t in m ==> PlaceOf(sh, m', t) == PlaceOf(sh, m, t);
  }

  lemma FreeListNoDup(sh: Shape, p: Place, slab: Slab, words: Words, free: seq<nat>)
    requires ChainOk(sh, p, slab, words, free)
    ensures NoDup(free) && forall i :: i in free ==> i < sh.count
  {
  }

  // ---------- returnobject ----------

  function Given(slab: Slab, w: nat): Slab
    requires slab.used > 0
  {
    slab.(free := w, used := slab.used - 1)
  }

  /** A list of distinct slots that misses one is shorter than the slab. */
  lemma {:induction false} PigeonHole(free: seq<nat>, n: nat, i: nat)
    requires NoDup(free) && (forall j :: j in free ==> j < n) && i < n && i !in free
    ensures |free| < n
  {
    if free != [] {
      var rest := free[1..];
      RestOf(free);
      var last := n - 1;
      if last !in free {
        assert |free| < n by {
          if i == last {
            FewerThan(free, last);
          } else {
            PigeonHole(free, last, i);
          }
        }
      } else {
        var k :| 0 <= k < |free| && free[k] == last;
        WithoutFacts(free, k);
        PigeonHole(Without(free, k), last, i);
      }
    }
  }

  lemma {:induction false} FewerThan(free: seq<nat>, n: nat)
    requires NoDup(free) && forall j :: j in free ==> j < n
    ensures |free| <= n
    decreases n
  {
    if free != [] {
      assert free[0] in free;
      var last := n - 1;
      if last in free {
        var k :| 0 <= k < |free| && free[k] == last;
        WithoutFacts(free, k);
        FewerThan(Without(free, k), last);
      } else {
        FewerThan(free, last);
      }
    }
  }

  lemma GiveChain(addr: seq<nat>, ws: seq<nat>, head: nat, free: seq<nat>, i: nat)
    requires Chain(addr, ws, head, free) && i < |ws| && i !in free
    ensures Chain(addr, ws[i := head], addr[i], [i] + free)
  {
    var list, ws' := [i] + free, ws[i := head];
    PrependNoDup(free, i);
    hide NoDup;
    forall k | 0 <= k < |list| ensures list[k] < |ws'| && ws'[list[k]] == FreeAt(addr, list, k + 1) {
      if k > 0 {
        assert list[k] == free[k - 1] && free[k - 1] in free && ws[free[k - 1]] == FreeAt(addr, free, k);
        assert k < |free| ==> list[k + 1] == free[k];
      }
    }
  }

  lemma PrependNoDup(free: seq<nat>, i: nat)
    requires NoDup(free) && i !in free
    ensures NoDup([i] + free) && forall j :: j in [i] + free <==> j == i || j in free
  {
    var list := [i] + free;
    assert forall k {:trigger list[k]} :: 0 < k < |list| ==> list[k] == free[k - 1] && list[k] in free;
  }

  lemma GiveOwn(sh: Shape, p: Place, slab: Slab, words: Words, free: seq<nat>, i: nat)
    requires Sound(sh) && Placed(sh, p) && ChainOk(sh, p, slab, words, free) && i < sh.count && i !in free
    ensures slab.used > 0
    ensures WordAt(sh, p, i) in words && words[WordAt(sh, p, i)] == 0
    ensures ChainOk(sh, p, Given(slab, WordAt(sh, p, i)), words[WordAt(sh, p, i) := slab.free], [i] + free)
  {
    FreeListNoDup(sh, p, slab, words, free);
    PigeonHole(free, sh.count, i);
    OwnWords(sh, p);
    var addr := WordsOf(sh, p);
    var ws := Reading(words, addr);
    GiveChain(addr, ws, slab.free, free, i);
    WriteWord(words, addr, i, slab.free);
    assert ws[i] == 0;
    hide Chain, NoDup, WordAt, Sound, Placed;
  }

  ghost predicate GaveAt(sh: Shape, m: Slabs, words: Words, frees: Frees, s: nat, i: nat, m': Slabs, words': Words,
                         frees': Frees)
  {
    && s in m && s in frees && m[s].used > 0 && i < sh.count
    && var w := WordAt(sh, PlaceOf(sh, m, s), i);
    m' == m[s := Given(m[s], w)] && words' == words[w := m[s].free] && frees' == frees[s := [i] + frees[s]]
  }

  lemma GiveChains(sh: Shape, m: Slabs, words: Words, frees: Frees, s: nat, i: nat, m': Slabs, words': Words,
                   frees': Frees)
    requires Sound(sh) && PlacesOk(sh, m) && ChainsOk(sh, m, words, frees)
    requires GaveAt(sh, m, words, frees, s, i, m', words', frees') && i !in frees[s]
    ensures ChainsOk(sh, m', words', frees') && SamePlaces(m, m') && SameLinks(m, m')
  {
    hide ChainOk, WordAt, Separate, Placed, Sound;
    var p := PlaceOf(sh, m, s);
    GiveOwn(sh, p, m[s], words, frees[s], i);
    forall t | t in m' ensures ChainOk(sh, PlaceOf(sh, m', t), m'[t], words', frees'[t]) {
      assert PlaceOf(sh, m', t) == PlaceOf(sh, m, t);
      if t != s {
        ChainElsewhere(sh, PlaceOf(sh, m, t), m[t], words, frees[t], p, i, m[s].free);
      }
    }
  }

  /** Only slot i of slab s holds that object. */
  lemma OnlySlot(sh: Shape, m: Slabs, s: nat, i: nat)
    requires Sound(sh) && PlacesOk(sh, m) && s in m && i < sh.count
    ensures forall t, j: nat ::
              t in m && j < sh.count && ObjAt(sh, PlaceOf(sh, m, t), j) == ObjAt(sh, PlaceOf(sh, m, s), i) ==>
                t == s && j == i
  {
    hide ObjAt, Separate, Placed, Sound;
    forall t, j: nat | t in m && j < sh.count && ObjAt(sh, PlaceOf(sh, m, t), j) == ObjAt(sh, PlaceOf(sh, m, s), i)
      ensures t == s && j == i
    {
      OneSlot(sh, m, t, j, s, i);
    }
  }

  /** Returning an object takes exactly that one out of the live ones. */
  lemma LiveLess(sh: Shape, m: Slabs, frees: Frees, m': Slabs, frees': Frees, s: nat, i: nat)
    requires Sound(sh) && PlacesOk(sh, m)
    requires frees.Keys == m.Keys && frees'.Keys == m'.Keys && SamePlaces(m, m') && s in m && i < sh.count
    requires i !in frees[s] && forall j :: j in frees'[s] <==> j in frees[s] || j == i
    requires forall t :: t in m && t != s ==> frees'[t] == frees[t]
    ensures forall x :: Live(sh, m', frees', x) <==>
                        Live(sh, m, frees, x) && x != ObjAt(sh, PlaceOf(sh, m, s), i)
  {
    OnlySlot(sh, m, s, i);
    hide ObjAt, Sound, PlacesOk;
    var o := ObjAt(sh, PlaceOf(sh, m, s), i);
    assert forall t :: t in m ==> PlaceOf(sh, m', t) == PlaceOf(sh, m, t);
    forall x, t, j: nat
      ensures LivesIn(sh, m', frees', x, t, j) <==> LivesIn(sh, m, frees, x, t, j) && x != o
    {
    }
  }

  lemma GiveObjs<T(!new)>(sh: Shape, m: Slabs, frees: Frees, s: nat, i: nat, m': Slabs, frees': Frees,
                          objs: map<nat, T>, x: T, ready: T -> bool)
    requires Sound(sh) && PlacesOk(sh, m) && ObjsOk(sh, m, objs, frees, ready) && ready(x)
    requires frees'.Keys == m'.Keys && SamePlaces(m, m') && s in m && i < sh.count
    requires forall j :: j in frees'[s] <==> j in frees[s] || j == i
    requires forall t :: t in m && t != s ==> frees'[t] == frees[t]
    ensures ObjsOk(sh, m', objs[ObjAt(sh, PlaceOf(sh, m, s), i) := x], frees', ready)
  {
    hide ObjAt, Sound, PlacesOk;
    assert forall t :: t in m ==> PlaceOf(sh, m', t) == PlaceOf(sh, m, t);
  }

  // ---------- growcache ----------

  /** The free slots of a new slab: the last one first. */
  function Down(n: nat): seq<nat> {
    seq(n, k requires 0 <= k < n => n - 1 - k)
  }

  lemma {:induction false} DownFacts(n: nat)
    ensures NoDup(Down(n)) && forall i: nat :: i in Down(n) <==> i < n
  {
    forall i: nat ensures i in Down(n) <==> i < n {
      if i < n {
        assert Down(n)[n - 1 - i] == i;
      }
    }
  }

  /** Slots below n are initialised and chained, newest first. */
  ghost predicate Started(addr: seq<nat>, words: Words, head: nat, n: nat) {
    && n <= |addr| && head == At(addr, n - 1)
    && forall i :: 0 <= i < n ==> addr[i] in words && words[addr[i]] == At(addr, i - 1)
  }

  lemma StartedChain(sh: Shape, p: Place, slab: Slab, words: Words)
    requires Started(WordsOf(sh, p), words, slab.free, sh.count) && slab.used == 0
    ensures ChainOk(sh, p, slab, words, Down(sh.count))
  {
    var addr := WordsOf(sh, p);
    assert |Down(sh.count)| == sh.count;
    hide WordAt, Chain;
    var ws := Reading(words, addr);
    forall i | 0 <= i < |ws| ensures ws[i] == At(addr, i - 1) {
      assert addr[i] in words;
    }
    DownChain(addr, ws, slab.free);
  }

  lemma DownChain(addr: seq<nat>, ws: seq<nat>, head: nat)
    requires |ws| == |addr| && head == At(addr, |addr| - 1)
    requires forall i :: 0 <= i < |ws| ==> ws[i] == At(addr, i - 1)
    ensures Chain(addr, ws, head, Down(|addr|))
  {
    var free := Down(|addr|);
    DownFacts(|addr|);
    forall k | 0 <= k < |free| ensures ws[free[k]] == FreeAt(addr, free, k + 1) {
      assert free[k] == |addr| - 1 - k;
      if k + 1 < |free| {
        assert free[k + 1] == |addr| - 2 - k;
      }
    }
    forall i | 0 <= i < |ws| ensures i in free {
    }
  }

  lemma StartNext(addr: seq<nat>, words: Words, head: nat, n: nat)
    requires Started(addr, words, head, n) && n < |addr| && NoDup(addr)
    ensures Started(addr, words[addr[n] := head], addr[n], n + 1)
  {
  }

  /** Nothing outside the new slab's page is written. */
  ghost predicate SameOutside(words: Words, words': Words, p: Place) {
    forall w :: w in words && !(p.Page() <= w < p.slab) ==> w in words' && words'[w] == words[w]
  }

  lemma GrowChains(sh: Shape, m: Slabs, words: Words, frees: Frees, s: nat, slab: Slab, words': Words)
    requires Sound(sh) && PlacesOk(sh, m) && ChainsOk(sh, m, words, frees) && s !in m
    requires PlacesOk(sh, m[s := slab])
    requires var p := PlaceOf(sh, m[s := slab], s);
      SameOutside(words, words', p) && ChainOk(sh, p, slab, words', Down(sh.count))
    ensures ChainsOk(sh, m[s := slab], words', frees[s := Down(sh.count)])
  {
    hide Separate, Down, ChainOk, Sound, Placed, SameOutside;
    var m' := m[s := slab];
    forall t | t in m ensures ChainOk(sh, PlaceOf(sh, m', t), m[t], words', frees[t]) {
      assert PlaceOf(sh, m', t) == PlaceOf(sh, m, t);
      ChainOutside(sh, PlaceOf(sh, m, t), m[t], words, frees[t], PlaceOf(sh, m', s), words');
    }
  }

  lemma ChainOutside(sh: Shape, p: Place, slab: Slab, words: Words, free: seq<nat>, q: Place, words': Words)
    requires Sound(sh) && Placed(sh, p) && Placed(sh, q) && p.slab != q.slab
    requires ChainOk(sh, p, slab, words, free) && SameOutside(words, words', q)
    ensures ChainOk(sh, p, slab, words', free)
  {
    hide Chain;
    var addr := WordsOf(sh, p);
    forall i | 0 <= i < |addr| ensures addr[i] in words' && words'[addr[i]] == words[addr[i]] {
      SlotBounds(sh, p, i);
      PagesApart(sh, p, q);
      assert addr[i] in words;
    }
    assert Reading(words', addr) == Reading(words, addr);
  }

  /** The objects of the new slab, made by the constructor. */
  ghost predicate Made<T(!new)>(sh: Shape, p: Place, objs: map<nat, T>, n: nat, ready: T -> bool) {
    forall i: nat :: i < n ==> ObjAt(sh, p, i) in objs && ready(objs[ObjAt(sh, p, i)])
  }

  ghost predicate SameObjs<T(!new)>(sh: Shape, objs: map<nat, T>, objs': map<nat, T>, p: Place) {
    forall o :: o in objs && !(p.base <= o < p.base + Span(sh)) ==> o in objs' && objs'[o] == objs[o]
  }

  /** Every object not there before is in the new slab. */
  ghost predicate NewObjs<T(!new)>(sh: Shape, objs: map<nat, T>, objs': map<nat, T>, p: Place) {
    forall o :: o in objs' ==> o in objs || p.base <= o < p.base + Span(sh)
  }

  lemma ObjsOutside<T(!new)>(sh: Shape, m: Slabs, s: nat, slab: Slab, objs: map<nat, T>, objs': map<nat, T>)
    requires Sound(sh) && PlacesOk(sh, m[s := slab]) && s !in m
    requires SameObjs(sh, objs, objs', PlaceOf(sh, m[s := slab], s))
    requires forall t, i: nat :: t in m && i < sh.count ==> ObjAt(sh, PlaceOf(sh, m, t), i) in objs
    ensures forall t, i: nat :: t in m && i < sh.count ==>
              var o := ObjAt(sh, PlaceOf(sh, m, t), i); o in objs' && objs'[o] == objs[o]
  {
    var m' := m[s := slab];
    var p := PlaceOf(sh, m', s);
    forall t, i: nat | t in m && i < sh.count
      ensures var o := ObjAt(sh, PlaceOf(sh, m, t), i); o in objs' && objs'[o] == objs[o]
    {
      var q := PlaceOf(sh, m', t);
      assert q == PlaceOf(sh, m, t);
      OffSlab(sh, p, q, i);
    }
  }

  lemma OffSlab(sh: Shape, p: Place, q: Place, i: nat)
    requires Sound(sh) && Placed(sh, p) && Placed(sh, q) && Separate(sh, p, q) && p.slab != q.slab && i < sh.count
    ensures !(p.base <= ObjAt(sh, q, i) < p.base + Span(sh))
  {
    hide Offset, Multiple;
    SlotBounds(sh, q, i);
    PagesApart(sh, p, q);
  }

  lemma GrowObjs<T(!new)>(sh: Shape, m: Slabs, s: nat, slab: Slab, objs: map<nat, T>, objs': map<nat, T>, frees: Frees,
                          ready: T -> bool)
    requires Sound(sh) && PlacesOk(sh, m[s := slab]) && s !in m && ObjsOk(sh, m, objs, frees, ready)
    requires var p := PlaceOf(sh, m[s := slab], s); SameObjs(sh, objs, objs', p) && Made(sh, p, objs', sh.count, ready)
    requires forall t :: t in m ==> forall i :: i in frees[t] ==> i < sh.count
    ensures ObjsOk(sh, m[s := slab], objs', frees[s := Down(sh.count)], ready)
  {
    hide Separate, Placed, Sound, ObjAt, Down, SameObjs;
    DownFacts(sh.count);
    ObjsOutside(sh, m, s, slab, objs, objs');
    var m' := m[s := slab];
    assert forall t :: t in m ==> PlaceOf(sh, m', t) == PlaceOf(sh, m, t);
  }

  /** A new slab holds no live object. */
  lemma GrowLive(sh: Shape, m: Slabs, frees: Frees, s: nat, slab: Slab)
    requires frees.Keys == m.Keys && s !in m
    ensures frees[s := Down(sh.count)].Keys == m[s := slab].Keys
    ensures forall x :: Live(sh, m[s := slab], frees[s := Down(sh.count)], x) <==> Live(sh, m, frees, x)
  {
    DownFacts(sh.count);
    hide ObjAt, Down;
    var m', frees' := m[s := slab], frees[s := Down(sh.count)];
    assert forall t :: t in m ==> PlaceOf(sh, m', t) == PlaceOf(sh, m, t);
    forall x, t, j: nat ensures LivesIn(sh, m', frees', x, t, j) <==> LivesIn(sh, m, frees, x, t, j) {
    }
  }

  // ---------- which list a slab is on ----------

  /** The three lists, linked, and on each the slabs it is for. */
  ghost predicate ListsOk(m: Slabs, count: nat, full: nat, fulls: seq<nat>, partial: nat, partials: seq<nat>,
                          empty: nat,
                          empties: seq<nat>)
  {
    && Links(m, full, fulls) && Links(m, partial, partials) && Links(m, empty, empties)
    && Sorted(m, count, fulls, partials, empties)
  }

  /** Only the use count of slab s, and fields other than links, may differ. */
  ghost predicate UsedElsewhere(m: Slabs, m': Slabs, s: nat) {
    SameLinks(m, m') && m.Keys == m'.Keys && forall t :: t in m && t != s ==> m'[t].used == m[t].used
  }

  lemma ListsApart(m: Slabs, count: nat, fulls: seq<nat>, partials: seq<nat>, empties: seq<nat>)
    requires Sorted(m, count, fulls, partials, empties) && count > 0
    ensures forall x :: x in fulls ==> x !in partials && x !in empties
    ensures forall x :: x in partials ==> x !in empties
  {
  }

  /** The links are still there after a change of use counts. */
  lemma LinksStill(m: Slabs, m1: Slabs, count: nat, full: nat, fulls: seq<nat>, partial: nat, partials: seq<nat>,
                   empty: nat,
                   empties: seq<nat>)
    requires ListsOk(m, count, full, fulls, partial, partials, empty, empties) && SameLinks(m, m1) && count > 0
    ensures Links(m1, full, fulls) && Links(m1, partial, partials) && Links(m1, empty, empties)
    ensures NoDup(fulls) && NoDup(partials) && NoDup(empties)
    ensures forall x :: x in fulls ==> x !in partials && x !in empties
    ensures forall x :: x in partials ==> x !in empties
  {
    LinksKept(m, m1, full, fulls);
    LinksKept(m, m1, partial, partials);
    LinksKept(m, m1, empty, empties);
    ListsApart(m, count, fulls, partials, empties);
  }

  lemma EmptyToPartial(m: Slabs, m1: Slabs, count: nat, full: nat, fulls: seq<nat>, partial: nat, partials: seq<nat>,
                       empty: nat, empties: seq<nat>, k: nat)
    requires ListsOk(m, count, full, fulls, partial, partials, empty, empties) && k < |empties|
    requires UsedElsewhere(m, m1, empties[k]) && empties[k] in m1 && 0 < m1[empties[k]].used < count
    ensures Movable(m1, empties[k], partial)
    ensures var s, m2 := empties[k], Moved(m1, empties[k], partial);
      SameBodies(m1, m2) &&
      ListsOk(m2, count, full, fulls, s, [s] + partials, UnlinkHead(m1, empty, s), Without(empties, k))
  {
    hide Links, Moved, NoDup, SameLinks;
    LinksStill(m, m1, count, full, fulls, partial, partials, empty, empties);
    WithoutFacts(empties, k);
    Transfer(m1, empty, empties, k, partial, partials, full, fulls);
  }

  lemma PartialToFull(m: Slabs, m1: Slabs, count: nat, full: nat, fulls: seq<nat>, partial: nat, partials: seq<nat>,
                      empty: nat, empties: seq<nat>, k: nat)
    requires ListsOk(m, count, full, fulls, partial, partials, empty, empties) && k < |partials| && count > 0
    requires UsedElsewhere(m, m1, partials[k]) && partials[k] in m1 && m1[partials[k]].used == count
    ensures Movable(m1, partials[k], full)
    ensures var s, m2 := partials[k], Moved(m1, partials[k], full);
      SameBodies(m1, m2) &&
      ListsOk(m2, count, s, [s] + fulls, UnlinkHead(m1, partial, s), Without(partials, k), empty, empties)
  {
    hide Links, Moved, NoDup, SameLinks;
    LinksStill(m, m1, count, full, fulls, partial, partials, empty, empties);
    WithoutFacts(partials, k);
    Transfer(m1, partial, partials, k, full, fulls, empty, empties);
  }

  lemma PartialToEmpty(m: Slabs, m1: Slabs, count: nat, full: nat, fulls: seq<nat>, partial: nat, partials: seq<nat>,
                       empty: nat, empties: seq<nat>, k: nat)
    requires ListsOk(m, count, full, fulls, partial, partials, empty, empties) && k < |partials| && count > 0
    requires UsedElsewhere(m, m1, partials[k]) && partials[k] in m1 && m1[partials[k]].used == 0
    ensures Movable(m1, partials[k], empty)
    ensures var s, m2 := partials[k], Moved(m1, partials[k], empty);
      SameBodies(m1, m2) &&
      ListsOk(m2, count, full, fulls, UnlinkHead(m1, partial, s), Without(partials, k), s, [s] + empties)
  {
    hide Links, Moved, NoDup, SameLinks;
    LinksStill(m, m1, count, full, fulls, partial, partials, empty, empties);
    WithoutFacts(partials, k);
    Transfer(m1, partial, partials, k, empty, empties, full, fulls);
  }

  lemma FullToPartial(m: Slabs, m1: Slabs, count: nat, full: nat, fulls: seq<nat>, partial: nat, partials: seq<nat>,
                      empty: nat, empties: seq<nat>, k: nat)
    requires ListsOk(m, count, full, fulls, partial, partials, empty, empties) && k < |fulls| && count > 0
    requires UsedElsewhere(m, m1, fulls[k]) && fulls[k] in m1 && 0 < m1[fulls[k]].used < count
    ensures Movable(m1, fulls[k], partial)
    ensures var s, m2 := fulls[k], Moved(m1, fulls[k], partial);
      SameBodies(m1, m2) &&
      ListsOk(m2, count, UnlinkHead(m1, full, s), Without(fulls, k), s, [s] + partials, empty, empties)
  {
    hide Links, Moved, NoDup, SameLinks;
    LinksStill(m, m1, count, full, fulls, partial, partials, empty, empties);
    WithoutFacts(fulls, k);
    Transfer(m1, full, fulls, k, partial, partials, empty, empties);
  }

  lemma PartialStays(m: Slabs, m1: Slabs, count: nat, full: nat, fulls: seq<nat>, partial: nat, partials: seq<nat>,
                     empty: nat, empties: seq<nat>, s: nat)
    requires ListsOk(m, count, full, fulls, partial, partials, empty, empties) && s in partials && count > 0
    requires UsedElsewhere(m, m1, s) && s in m1 && 0 < m1[s].used < count
    ensures ListsOk(m1, count, full, fulls, partial, partials, empty, empties)
  {
    LinksStill(m, m1, count, full, fulls, partial, partials, empty, empties);
    hide Links, NoDup;
  }

  /** Some reading of the three lists is in order. */
  ghost predicate SomeLists(m: Slabs, count: nat, full: nat, partial: nat, empty: nat) {
    exists fulls, partials, empties :: ListsOk(m, count, full, fulls, partial, partials, empty, empties)
  }

  /** With fewer than two objects to a slab nothing belongs on the partial list. */
  lemma NothingPartial(m: Slabs, count: nat, full: nat, partial: nat, empty: nat)
    requires count < 2 && SomeLists(m, count, full, partial, empty)
    ensures partial == 0
  {
    var fulls, partials, empties :| ListsOk(m, count, full, fulls, partial, partials, empty, empties);
    HeadIn(m, partial, partials);
    hide Links;
  }

  /** The caches of one object, and of none, to a slab: 8 bytes aligned to 2048, and 100 bytes aligned to 4096. */
  lemma SmallSlabExample()
    ensures NewShape(8, 2048).count == 1 && NewShape(100, 4096).count == 0
  {
    assert 2048 % 2048 == 0;
    assert 4096 % 4096 == 0;
  }

  /** A new slab goes to the front of the empty ones. */
  lemma GrowLists(m: Slabs, count: nat, full: nat, fulls: seq<nat>, partial: nat, partials: seq<nat>, empty: nat,
                  empties: seq<nat>, s: nat, slab: Slab)
    requires ListsOk(m, count, full, fulls, partial, partials, empty, empties) && (count > 0 || empties == [])
    requires s !in m && s != 0 && slab.used == 0
    ensures empty != 0 ==> empty in m
    ensures var m2 := PushFront(m[s := slab], empty, s);
      SameBodies(m[s := slab], m2) && ListsOk(m2, count, full, fulls, partial, partials, s, [s] + empties)
  {
    if count > 0 { ListsApart(m, count, fulls, partials, empties); }
    LinksGrow(m, s, slab, full, fulls);
    LinksGrow(m, s, slab, partial, partials);
    LinksGrow(m, s, slab, empty, empties);
    HeadIn(m, empty, empties);
    hide Links;
    var m1 := m[s := slab];
    PushLinks(m1, empty, empties, s);
    PushOther(m1, empty, empties, s, full, fulls);
    PushOther(m1, empty, empties, s, partial, partials);
    PushBodies(m1, empty, s);
    hide PushFront;
  }

  lemma GrowPlaces(sh: Shape, m: Slabs, s: nat, slab: Slab)
    requires PlacesOk(sh, m) && s !in m
    requires var p := PlaceOf(sh, m[s := slab], s);
      Placed(sh, p) && Separate(sh, p, p) && forall t :: t in m ==> Separate(sh, p, PlaceOf(sh, m, t))
    ensures PlacesOk(sh, m[s := slab])
  {
    var m' := m[s := slab];
    assert forall t :: t in m ==> PlaceOf(sh, m', t) == PlaceOf(sh, m, t);
    forall t, u | t in m' && u in m' ensures Separate(sh, PlaceOf(sh, m', t), PlaceOf(sh, m', u)) {
      if u == s {
        assert Separate(sh, PlaceOf(sh, m', u), PlaceOf(sh, m', t));
      }
    }
  }

  /** Slot offsets and the bound of the initialisation loops. */
  lemma LoopTest(sh: Shape, i: nat)
    requires sh.trueSize > 0 && i <= sh.count
    ensures Offset(sh, i) < Span(sh) <==> i < sh.count
    ensures Offset(sh, i) + sh.trueSize == Offset(sh, i + 1)
    ensures Offset(sh, i) / sh.trueSize == i
  {
    if i < sh.count {
      OffsetGap(sh, i, sh.count);
    }
    DivModUnique(i, 0, sh.trueSize);
  }

  lemma WordInPage(sh: Shape, p: Place, i: nat, words0: Words, words: Words, v: nat)
    requires Sound(sh) && Placed(sh, p) && i < sh.count && SameOutside(words0, words, p)
    ensures SameOutside(words0, words[WordAt(sh, p, i) := v], p)
  {
    SlotBounds(sh, p, i);
    hide WordAt, Placed, Sound;
  }

  lemma ObjInSpan<T(!new)>(sh: Shape, p: Place, i: nat, objs0: map<nat, T>, objs: map<nat, T>, x: T, ready: T -> bool)
    requires Sound(sh) && Placed(sh, p) && i < sh.count && SameObjs(sh, objs0, objs, p) && Made(sh, p, objs, i, ready)
    requires ready(x) && NewObjs(sh, objs0, objs, p)
    ensures SameObjs(sh, objs0, objs[ObjAt(sh, p, i) := x], p) && Made(sh, p, objs[ObjAt(sh, p, i) := x], i + 1, ready)
    ensures NewObjs(sh, objs0, objs[ObjAt(sh, p, i) := x], p)
  {
    SlotBounds(sh, p, i);
    assert p.base <= ObjAt(sh, p, i);
    hide ObjAt, Placed, Sound, Offset;
  }

  // ---------- the contents of a cache, step by step ----------

  ghost predicate ContentsOk<T(!new)>(sh: Shape, m: Slabs, words: Words, frees: Frees, objs: map<nat, T>,
                               ready: T -> bool) {
    && Sound(sh) && PlacesOk(sh, m) && ChainsOk(sh, m, words, frees) && ObjsOk(sh, m, objs, frees, ready)
    && frees.Keys == m.Keys
  }

  /** The live objects, and what they hold. */
  ghost predicate LiveAs<T(!new)>(sh: Shape, m: Slabs, frees: Frees, objs: map<nat, T>, m': Slabs, frees': Frees,
                                  objs': map<nat, T>, o: nat, more: bool)
    requires frees.Keys == m.Keys && frees'.Keys == m'.Keys
  {
    && (forall x :: Live(sh, m', frees', x) <==> if x == o then more else Live(sh, m, frees, x))
    && (forall x :: Live(sh, m, frees, x) && x != o ==> x in objs && x in objs' && objs'[x] == objs[x])
  }

  lemma LiveObject<T(!new)>(sh: Shape, m: Slabs, words: Words, frees: Frees, objs: map<nat, T>, ready: T -> bool,
                     x: nat)
    requires ContentsOk(sh, m, words, frees, objs, ready) && Live(sh, m, frees, x)
    ensures x in objs && x != 0
  {
    var s, i :| LivesIn(sh, m, frees, x, s, i);
    assert Placed(sh, PlaceOf(sh, m, s));
  }

  lemma MoveContents<T(!new)>(sh: Shape, m: Slabs, m': Slabs, words: Words, frees: Frees, objs: map<nat, T>,
                       ready: T -> bool)
    requires ContentsOk(sh, m, words, frees, objs, ready) && SameBodies(m, m')
    ensures ContentsOk(sh, m', words, frees, objs, ready)
    ensures forall x :: Live(sh, m', frees, x) <==> Live(sh, m, frees, x)
  {
    hide Sound, PlacesOk, ObjsOk, Live;
    ChainsKept(sh, m, m', words, frees);
    PlacesKept(sh, m, m');
    ObjsKept(sh, m, m', objs, frees, ready);
    LiveKept(sh, m, m', frees);
  }

  lemma TakeContents<T(!new)>(sh: Shape, m: Slabs, words: Words, frees: Frees, s: nat, m': Slabs, words': Words,
                       frees': Frees,
                              objs: map<nat, T>, ready: T -> bool)
    requires ContentsOk(sh, m, words, frees, objs, ready) && TookAt(m, words, frees, s, m', words', frees')
    ensures ContentsOk(sh, m', words', frees', objs, ready)
    ensures var o := ObjAt(sh, PlaceOf(sh, m, s), frees[s][0]);
      o in objs && ready(objs[o]) && o != 0 && !Live(sh, m, frees, o)
      && LiveAs(sh, m, frees, objs, m', frees', objs, o, true)
  {
    hide Sound, PlacesOk, ChainsOk, ObjsOk, Live, ObjAt, Taken;
    TakeChains(sh, m, words, frees, s, m', words', frees');
    TakeLive(sh, m, words, frees, s, m', words', frees', objs, ready);
    PlacesKept(sh, m, m');
    var o := ObjAt(sh, PlaceOf(sh, m, s), frees[s][0]);
    forall x | Live(sh, m, frees, x) ensures x in objs {
      LiveObject(sh, m, words, frees, objs, ready, x);
    }
    LiveObject(sh, m', words', frees', objs, ready, o);
  }

  lemma GiveContents<T(!new)>(sh: Shape, m: Slabs, words: Words, frees: Frees, s: nat, i: nat, m': Slabs, words': Words,
                              frees': Frees, objs: map<nat, T>, x: T, ready: T -> bool)
    requires ContentsOk(sh, m, words, frees, objs, ready) && ready(x)
    requires GaveAt(sh, m, words, frees, s, i, m', words', frees') && i !in frees[s]
    ensures var o := ObjAt(sh, PlaceOf(sh, m, s), i);
      && ContentsOk(sh, m', words', frees', objs[o := x], ready)
      && LiveAs(sh, m, frees, objs, m', frees', objs[o := x], o, false)
  {
    hide Sound, PlacesOk, ChainsOk, ObjsOk, Live, ObjAt, WordAt;
    GiveChains(sh, m, words, frees, s, i, m', words', frees');
    PlacesKept(sh, m, m');
    assert forall j :: j in frees'[s] <==> j in frees[s] || j == i;
    LiveLess(sh, m, frees, m', frees', s, i);
    GiveObjs(sh, m, frees, s, i, m', frees', objs, x, ready);
    forall y | Live(sh, m, frees, y) ensures y in objs {
      LiveObject(sh, m, words, frees, objs, ready, y);
    }
  }

  lemma GrowContents<T(!new)>(sh: Shape, m: Slabs, words: Words, frees: Frees, objs: map<nat, T>, s: nat, slab: Slab,
                              words': Words, objs': map<nat, T>, ready: T -> bool)
    requires ContentsOk(sh, m, words, frees, objs, ready) && s !in m && slab.used == 0
    requires var p := PlaceOf(sh, m[s := slab], s);
      && Placed(sh, p) && Separate(sh, p, p) && (forall t :: t in m ==> Separate(sh, p, PlaceOf(sh, m, t)))
      && Started(WordsOf(sh, p), words', slab.free, sh.count) && Made(sh, p, objs', sh.count, ready)
      && SameOutside(words, words', p) && SameObjs(sh, objs, objs', p)
    ensures var m', frees' := m[s := slab], frees[s := Down(sh.count)];
      && ContentsOk(sh, m', words', frees', objs', ready)
      && (forall x :: Live(sh, m', frees', x) <==> Live(sh, m, frees, x))
      && (forall x :: Live(sh, m, frees, x) ==> x in objs && x in objs' && objs'[x] == objs[x])
  {
    hide Sound, Placed, Separate, Started, Made, SameOutside, SameObjs, ObjAt, WordAt, Down, ChainOk;
    GrowPlaces(sh, m, s, slab);
    StartedChain(sh, PlaceOf(sh, m[s := slab], s), slab, words');
    GrowChains(sh, m, words, frees, s, slab, words');
    SlotsInRange(sh, m, words, frees);
    GrowObjs(sh, m, s, slab, objs, objs', frees, ready);
    GrowLive(sh, m, frees, s, slab);
    ObjsOutside(sh, m, s, slab, objs, objs');
  }

  lemma SlotsInRange(sh: Shape, m: Slabs, words: Words, frees: Frees)
    requires ChainsOk(sh, m, words, frees)
    ensures forall t :: t in m ==> forall i :: i in frees[t] ==> i < sh.count
  {
    forall t | t in m ensures forall i :: i in frees[t] ==> i < sh.count {
      FreeListNoDup(sh, PlaceOf(sh, m, t), m[t], words, frees[t]);
    }
  }

  lemma KeysOf<T(!new)>(sh: Shape, m: Slabs, words: Words, frees: Frees, objs: map<nat, T>, ready: T -> bool)
    requires ContentsOk(sh, m, words, frees, objs, ready)
    ensures frees.Keys == m.Keys
  {
  }

  /** The free pointer, and the object `takeobject` computes from it. */
  lemma TakeFacts<T(!new)>(sh: Shape, m: Slabs, words: Words, frees: Frees, objs: map<nat, T>, ready: T -> bool, s: nat)
    requires ContentsOk(sh, m, words, frees, objs, ready) && s in m
    ensures s in frees && (m[s].free == 0 <==> frees[s] == [])
    ensures frees[s] != [] ==>
              m[s].free in words && ObjOfWord(sh, PlaceOf(sh, m, s), m[s].free) ==
              ObjAt(sh, PlaceOf(sh, m, s), frees[s][0])
  {
    hide Sound, Placed, Separate, ObjsOk, WordAt, ObjAt, ObjOfWord;
    var p := PlaceOf(sh, m, s);
    assert ChainOk(sh, p, m[s], words, frees[s]);
    if frees[s] != [] {
      TakeOwn(sh, p, m[s], words, frees[s]);
      TakeReturn(sh, p, frees[s][0]);
    } else {
      EmptyChain(sh, p, m[s], words);
    }
  }

  lemma EmptyChain(sh: Shape, p: Place, slab: Slab, words: Words)
    requires ChainOk(sh, p, slab, words, [])
    ensures slab.free == 0
  {
  }

  /** A slab whose use count allows it has a free slot; taking one counts it. */
  lemma UseCount<T(!new)>(sh: Shape, m: Slabs, words: Words, frees: Frees, objs: map<nat, T>, ready: T -> bool, s: nat)
    requires ContentsOk(sh, m, words, frees, objs, ready) && s in m
    ensures s in frees && m[s].used + |frees[s]| == sh.count
  {
    assert ChainOk(sh, PlaceOf(sh, m, s), m[s], words, frees[s]);
  }

  lemma TookCounts(m: Slabs, words: Words, frees: Frees, s: nat, m': Slabs, words': Words, frees': Frees)
    requires TookAt(m, words, frees, s, m', words', frees')
    ensures UsedElsewhere(m, m', s) && s in m' && m'[s].used == m[s].used + 1
  {
  }

  /** The slab of a live object, and its free word. */
  lemma GiveFacts<T(!new)>(sh: Shape, m: Slabs, words: Words, frees: Frees, objs: map<nat, T>, ready: T -> bool, o: nat,
                           s: nat, i: nat)
    requires ContentsOk(sh, m, words, frees, objs, ready) && LivesIn(sh, m, frees, o, s, i)
    ensures s in frees && o in objs && m[s].used > 0 && sh.trueSize > 0
    ensures WordOfObj(sh, PlaceOf(sh, m, s), o) == WordAt(sh, PlaceOf(sh, m, s), i)
    ensures WordAt(sh, PlaceOf(sh, m, s), i) in words && words[WordAt(sh, PlaceOf(sh, m, s), i)] == 0
    ensures sh.Direct() ==> SlabOf(o) == s
  {
    hide Sound, Placed, Separate, WordAt, ObjAt, WordOfObj, SlabOf;
    var p := PlaceOf(sh, m, s);
    assert ChainOk(sh, p, m[s], words, frees[s]);
    GiveOwn(sh, p, m[s], words, frees[s], i);
    TakeReturn(sh, p, i);
  }

  /** In indirect mode the object areas tell which slab an object is in. */
  lemma AreaTells(sh: Shape, m: Slabs, frees: Frees, o: nat, s: nat, i: nat, t: nat)
    requires Sound(sh) && PlacesOk(sh, m) && frees.Keys == m.Keys && LivesIn(sh, m, frees, o, s, i) && t in m
    requires !sh.Direct()
    ensures m[t].base <= o < m[t].base + Span(sh) <==> t == s
  {
    var p, q := PlaceOf(sh, m, s), PlaceOf(sh, m, t);
    hide Offset, Multiple;
    SlotBounds(sh, p, i);
    if t != s {
      assert Separate(sh, p, q);
    }
  }

  /** A slab with a live object is full or partial. */
  lemma InUse(m: Slabs, count: nat, fulls: seq<nat>, partials: seq<nat>, empties: seq<nat>, s: nat)
    requires Sorted(m, count, fulls, partials, empties) && s in m && m[s].used > 0
    ensures s in fulls || s in partials
  {
  }

  lemma GaveCounts(sh: Shape, m: Slabs, words: Words, frees: Frees, s: nat, i: nat, m': Slabs, words': Words,
                   frees': Frees)
    requires GaveAt(sh, m, words, frees, s, i, m', words', frees')
    ensures UsedElsewhere(m, m', s) && s in m && s in m' && m'[s].used + 1 == m[s].used
  {
  }

  /** Writing to a live object touches no free one. */
  lemma StoreContents<T(!new)>(sh: Shape, m: Slabs, words: Words, frees: Frees, objs: map<nat, T>, ready: T -> bool,
                        o: nat,
                               x: T)
    requires ContentsOk(sh, m, words, frees, objs, ready) && Live(sh, m, frees, o)
    ensures ContentsOk(sh, m, words, frees, objs[o := x], ready)
  {
    hide ObjAt, Sound, ChainOk, Separate, Placed;
    var s, i :| LivesIn(sh, m, frees, o, s, i);
    SlotsInRange(sh, m, words, frees);
    forall t, j | t in m && j in frees[t] ensures ObjAt(sh, PlaceOf(sh, m, t), j) != o {
      if ObjAt(sh, PlaceOf(sh, m, t), j) == o {
        OneSlot(sh, m, t, j, s, i);
      }
    }
  }
}
