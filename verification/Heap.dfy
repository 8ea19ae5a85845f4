/** kernel/mem/heap.c on values: twelve caches of blocks, seen as one map from pointer to bytes. */
module HeapState {
  import opened Bytes

  const CACHE_COUNT := 12
  const MAX_SIZE := 65536
  const HEADER := 16

  /** allocsizes. */
  function SizeOf(i: nat): nat
    requires i < CACHE_COUNT
  {
    [32, 64, 128, 256, 512, 1024, 2048, 4096, 8192, 16384, 32768, 65536][i]
  }

  /** A heap object: the two header words and the data area. */
  datatype Block = Block(cap: nat, len: nat, data: seq<Byte>) {
    ghost predicate Fits(i: nat)
      requires i < CACHE_COUNT
    {
      cap == SizeOf(i) == |data| && len <= cap
    }

    ghost function Bytes(): seq<Byte> {
      if len <= |data| then data[..len] else []
    }
  }

  type Objects = map<nat, Block>

  /** The first cache whose size suffices. */
  ghost predicate Suits(i: nat, size: nat) {
    i < CACHE_COUNT && size <= SizeOf(i) && forall j :: 0 <= j < i ==> SizeOf(j) < size
  }

  lemma SuitsItself(i: nat, j: nat)
    requires i < CACHE_COUNT && Suits(j, SizeOf(i))
    ensures i == j
  {
  }

  ghost predicate HomesLive(live: seq<iset<nat>>, home: map<nat, nat>) {
    |live| == CACHE_COUNT &&
    forall p :: p in home ==> p >= HEADER && home[p] < CACHE_COUNT && p - HEADER in live[home[p]]
  }

  ghost predicate LiveHomed(live: seq<iset<nat>>, home: map<nat, nat>) {
    |live| == CACHE_COUNT &&
    forall i, o :: 0 <= i < CACHE_COUNT && o in live[i] ==> o + HEADER in home && home[o + HEADER] == i
  }

  ghost predicate BlocksFit(objs: seq<Objects>, live: seq<iset<nat>>) {
    |objs| == |live| == CACHE_COUNT &&
    forall i, o :: 0 <= i < CACHE_COUNT && o in live[i] ==> o in objs[i] && objs[i][o].Fits(i)
  }

  ghost predicate ObjsApart(objs: seq<Objects>) {
    |objs| == CACHE_COUNT &&
    forall i, j, o :: 0 <= i < CACHE_COUNT && 0 <= j < CACHE_COUNT && i != j && o in objs[i] ==> o !in objs[j]
  }

  /** Which cache each live pointer belongs to, block by block. */
  ghost predicate HomeOk(objs: seq<Objects>, live: seq<iset<nat>>, home: map<nat, nat>) {
    HomesLive(live, home) && LiveHomed(live, home) && BlocksFit(objs, live) && ObjsApart(objs)
  }

  ghost function BlockOf(objs: seq<Objects>, live: seq<iset<nat>>, home: map<nat, nat>, p: nat): Block
    requires HomeOk(objs, live, home) && p in home
  {
    objs[home[p]][p - HEADER]
  }

  /** The heap as its users see it: live pointers and their bytes. */
  ghost function View(objs: seq<Objects>, live: seq<iset<nat>>, home: map<nat, nat>): map<nat, seq<Byte>>
    requires HomeOk(objs, live, home)
  {
    map p | p in home :: BlockOf(objs, live, home, p).Bytes()
  }

  /** Cache i after a step: its live objects but o hold what they held, and no other cache's memory is met. */
  ghost predicate Steady(objs: seq<Objects>, live: seq<iset<nat>>, i: nat, m: Objects, o: nat)
    requires |objs| == |live| == CACHE_COUNT && i < CACHE_COUNT
  {
    && (forall x :: x in live[i] && x != o ==> x in objs[i] && x in m && m[x] == objs[i][x])
    && (forall j, x :: 0 <= j < CACHE_COUNT && j != i && x in m ==> x !in objs[j])
  }

  /** A block comes in, or a live one changes. */
  lemma PutBlock(objs: seq<Objects>, live: seq<iset<nat>>, home: map<nat, nat>, i: nat, m: Objects, o: nat)
    requires HomeOk(objs, live, home) && i < CACHE_COUNT && Steady(objs, live, i, m, o) && o in m && m[o].Fits(i)
    ensures o !in live[i] ==> o + HEADER !in home
    ensures HomeOk(objs[i := m], live[i := live[i] + iset{o}], home[o + HEADER := i])
    ensures View(objs[i := m], live[i := live[i] + iset{o}], home[o + HEADER := i]) ==
            View(objs, live, home)[o + HEADER := m[o].Bytes()]
  {
    AtHome(objs, live, home, i, m, o);
    PutHome(live, home, i, o);
    hide HomesLive, LiveHomed;
    StillApart(objs, live, i, m, o);
    PutFit(objs, live, i, m, o);
    PutView(objs, live, home, i, m, o);
  }

  lemma AtHome(objs: seq<Objects>, live: seq<iset<nat>>, home: map<nat, nat>, i: nat, m: Objects, o: nat)
    requires HomeOk(objs, live, home) && i < CACHE_COUNT && Steady(objs, live, i, m, o) && o in m
    ensures o + HEADER in home ==> home[o + HEADER] == i && o in live[i]
  {
    hide LiveHomed, ObjsApart;
  }

  lemma PutHome(live: seq<iset<nat>>, home: map<nat, nat>, i: nat, o: nat)
    requires HomesLive(live, home) && LiveHomed(live, home) && i < CACHE_COUNT
    requires o + HEADER in home ==> home[o + HEADER] == i
    ensures HomesLive(live[i := live[i] + iset{o}], home[o + HEADER := i])
    ensures LiveHomed(live[i := live[i] + iset{o}], home[o + HEADER := i])
  {
  }

  lemma StillApart(objs: seq<Objects>, live: seq<iset<nat>>, i: nat, m: Objects, o: nat)
    requires ObjsApart(objs) && |live| == CACHE_COUNT && i < CACHE_COUNT && Steady(objs, live, i, m, o)
    ensures ObjsApart(objs[i := m])
  {
  }

  lemma PutFit(objs: seq<Objects>, live: seq<iset<nat>>, i: nat, m: Objects, o: nat)
    requires BlocksFit(objs, live) && i < CACHE_COUNT && Steady(objs, live, i, m, o) && o in m && m[o].Fits(i)
    ensures BlocksFit(objs[i := m], live[i := live[i] + iset{o}])
  {
  }

  lemma PutView(objs: seq<Objects>, live: seq<iset<nat>>, home: map<nat, nat>, i: nat, m: Objects, o: nat)
    requires HomeOk(objs, live, home) && i < CACHE_COUNT && Steady(objs, live, i, m, o) && o in m
    requires HomeOk(objs[i := m], live[i := live[i] + iset{o}], home[o + HEADER := i])
    ensures View(objs[i := m], live[i := live[i] + iset{o}], home[o + HEADER := i]) ==
            View(objs, live, home)[o + HEADER := m[o].Bytes()]
  {
    hide HomesLive, LiveHomed, ObjsApart;
    var objs', live', home' := objs[i := m], live[i := live[i] + iset{o}], home[o + HEADER := i];
    forall p | p in home && p != o + HEADER ensures BlockOf(objs', live', home', p) == BlockOf(objs, live, home, p) {
      SameBlock(objs, live, home, i, m, o, p);
    }
  }

  lemma SameBlock(objs: seq<Objects>, live: seq<iset<nat>>, home: map<nat, nat>, i: nat, m: Objects, o: nat, p: nat)
    requires HomeOk(objs, live, home) && i < CACHE_COUNT && Steady(objs, live, i, m, o) && p in home && p != o + HEADER
    ensures p >= HEADER && home[p] < CACHE_COUNT && p - HEADER in objs[i := m][home[p]]
    ensures objs[i := m][home[p]][p - HEADER] == objs[home[p]][p - HEADER]
  {
    hide LiveHomed, ObjsApart;
    assert p - HEADER in live[home[p]];
  }

  /** A live block goes away. */
  lemma DropBlock(objs: seq<Objects>, live: seq<iset<nat>>, home: map<nat, nat>, i: nat, m: Objects, o: nat)
    requires HomeOk(objs, live, home) && i < CACHE_COUNT && Steady(objs, live, i, m, o) && o in live[i]
    ensures HomeOk(objs[i := m], live[i := live[i] - iset{o}], home - {o + HEADER})
    ensures View(objs[i := m], live[i := live[i] - iset{o}], home - {o + HEADER}) ==
            View(objs, live, home) - {o + HEADER}
  {
    DropHome(live, home, i, o);
    hide HomesLive, LiveHomed;
    StillApart(objs, live, i, m, o);
    DropFit(objs, live, i, m, o);
    DropView(objs, live, home, i, m, o);
  }

  lemma DropHome(live: seq<iset<nat>>, home: map<nat, nat>, i: nat, o: nat)
    requires HomesLive(live, home) && LiveHomed(live, home) && i < CACHE_COUNT && o in live[i]
    ensures HomesLive(live[i := live[i] - iset{o}], home - {o + HEADER})
    ensures LiveHomed(live[i := live[i] - iset{o}], home - {o + HEADER})
  {
  }

  lemma DropFit(objs: seq<Objects>, live: seq<iset<nat>>, i: nat, m: Objects, o: nat)
    requires BlocksFit(objs, live) && i < CACHE_COUNT && Steady(objs, live, i, m, o)
    ensures BlocksFit(objs[i := m], live[i := live[i] - iset{o}])
  {
  }

  lemma DropView(objs: seq<Objects>, live: seq<iset<nat>>, home: map<nat, nat>, i: nat, m: Objects, o: nat)
    requires HomeOk(objs, live, home) && i < CACHE_COUNT && Steady(objs, live, i, m, o)
    requires HomeOk(objs[i := m], live[i := live[i] - iset{o}], home - {o + HEADER})
    ensures View(objs[i := m], live[i := live[i] - iset{o}], home - {o + HEADER}) ==
            View(objs, live, home) - {o + HEADER}
  {
    hide HomesLive, LiveHomed, ObjsApart;
    var objs', live', home' := objs[i := m], live[i := live[i] - iset{o}], home - {o + HEADER};
    forall p | p in home && p != o + HEADER ensures BlockOf(objs', live', home', p) == BlockOf(objs, live, home, p) {
      SameBlock(objs, live, home, i, m, o, p);
    }
  }

  /** The bytes `krealloc` promises: the old ones as far as they go, zeros beyond. */
  function Resized(bytes: seq<Byte>, size: nat): seq<Byte> {
    if size <= |bytes| then bytes[..size] else bytes + Zeros(size - |bytes|)
  }

  /** As far as both reach the bytes are the same, and what is new is zero. */
  lemma ResizedIs(bytes: seq<Byte>, size: nat)
    ensures |Resized(bytes, size)| == size
    ensures forall i :: 0 <= i < size ==> Resized(bytes, size)[i] == if i < |bytes| then bytes[i] else 0
  {
  }

  lemma SteadyStore(objs: seq<Objects>, live: seq<iset<nat>>, i: nat, m: Objects, o: nat, b: Block)
    requires |objs| == |live| == CACHE_COUNT && i < CACHE_COUNT && Steady(objs, live, i, m, o) && o in m
    ensures Steady(objs, live, i, m[o := b], o)
  {
  }

  lemma EmptyView(objs: seq<Objects>, live: seq<iset<nat>>)
    requires HomeOk(objs, live, map[])
    ensures View(objs, live, map[]) == map[]
  {
  }
}
