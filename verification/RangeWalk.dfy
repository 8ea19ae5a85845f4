/**
 kernel/mem/vmm.c, `change_map` and `insert_range` on values: the nodes of the list, how a removal gets along it,
 what becomes of the links back, and what a list must be for `vmm_map`.
 */
module RangeWalk {
  import opened Options
  import opened Paging
  import opened RangeList
  import opened RangeLinks

  type PageTable = map<nat, nat>   // page address to physical address

  class Range {
    var next: Range?
    var prev: Range?
    var r: Region

    constructor (r: Region)
      ensures this.r == r
    {
      this.r := r;
    }
  }

  ghost function At(nodes: seq<Range>, i: int): Range? {
    if 0 <= i < |nodes| then nodes[i] else null
  }

  ghost function RegionsOf(ns: seq<Range>): (rs: seq<Region>)
    reads ns`r
    ensures |rs| == |ns| && forall i :: 0 <= i < |rs| ==> rs[i] == ns[i].r
  {
    if ns == [] then [] else [ns[0].r] + RegionsOf(ns[1..])
  }

  ghost function PrevsOf(ns: seq<Range>): (ps: seq<Range?>)
    reads ns`prev
    ensures |ps| == |ns| && forall i :: 0 <= i < |ps| ==> ps[i] == ns[i].prev
  {
    if ns == [] then [] else [ns[0].prev] + PrevsOf(ns[1..])
  }

  /** [a, a + size) ends within the space and meets no range. */
  ghost predicate Fits(rs: seq<Region>, end: nat, a: nat, size: nat) {
    a + size <= end && forall i :: 0 <= i < |rs| ==> rs[i].Top() <= a || a + size <= rs[i].start
  }

  /** Nothing fits at an address from the hint up to addr. */
  ghost predicate NoneBelow(rs: seq<Region>, end: nat, hint: nat, addr: nat, size: nat) {
    forall b :: hint <= b < addr ==> !Fits(rs, end, b, size)
  }

  /** The least fitting address from the hint on; none exactly when none fits. */
  ghost predicate LeastFit(rs: seq<Region>, end: nat, hint: nat, size: nat, found: Option<nat>) {
    match found
    case Some(a) => hint <= a && Fits(rs, end, a, size) && NoneBelow(rs, end, hint, a, size)
    case None => forall b :: hint <= b ==> !Fits(rs, end, b, size)
  }

  /** The search has passed the ranges before k and has no use for an address below addr. */
  ghost predicate Passed(rs: seq<Region>, end: nat, k: nat, hint: nat, addr: nat, size: nat) {
    && k <= |rs| && hint <= addr
    && (forall i :: 0 <= i < k ==> rs[i].Top() <= addr)
    && NoneBelow(rs, end, hint, addr, size)
  }

  lemma FoundFits(rs: seq<Region>, end: nat, k: nat, hint: nat, addr: nat, size: nat)
    requires Sorted(rs) && Passed(rs, end, k, hint, addr, size) && addr + size <= end && size > 0
    requires k < |rs| ==> addr + size <= rs[k].start
    ensures LeastFit(rs, end, hint, size, Some(addr))
  {
  }

  lemma NoneFits(rs: seq<Region>, end: nat, k: nat, hint: nat, addr: nat, size: nat)
    requires Passed(rs, end, k, hint, addr, size) && end < addr + size
    ensures LeastFit(rs, end, hint, size, None)
  {
  }

  lemma SkipsRange(rs: seq<Region>, end: nat, k: nat, hint: nat, addr: nat, size: nat)
    requires Passed(rs, end, k, hint, addr, size) && k < |rs| && rs[k].start < addr + size
    ensures Passed(rs, end, k + 1, hint, if addr < rs[k].Top() then rs[k].Top() else addr, size)
  {
  }

  predicate OnPages(r: Region) {
    r.start % PAGE_SIZE == 0 && r.size % PAGE_SIZE == 0
  }

  predicate Aligned(rs: seq<Region>) {
    forall i :: 0 <= i < |rs| ==> OnPages(rs[i])
  }

  // ---------- the progress of a removal ----------

  /** p is p0 without the pages of [lo, hi) that rs0 covers and todo does not cover any more. */
  ghost predicate PagesLeft(p0: PageTable, p: PageTable, rs0: seq<Region>, todo: seq<Region>, lo: nat,
                            hi: nat) {
    && (forall a: nat :: a in p <==> a in p0 && !(lo <= a < hi && Lookup(rs0, a).Some? && Lookup(todo, a).None?))
    && (forall a :: a in p ==> a in p0 && p[a] == p0[a])
    && (forall a: nat :: Lookup(todo, a).Some? ==> Lookup(rs0, a).Some?)
  }

  function Without(p: PageTable, lo: nat, hi: nat): PageTable {
    map a | a in p && !(lo <= a < hi) :: p[a]
  }

  /** One page further. */
  lemma NextPage(p: PageTable, lo: nat, hi: nat)
    requires (forall a :: a in p ==> a % PAGE_SIZE == 0) && hi % PAGE_SIZE == 0 && lo <= hi
    ensures Without(p, lo, hi) - {hi} == Without(p, lo, hi + PAGE_SIZE)
    ensures hi !in Without(p, lo, hi) ==> Without(p, lo, hi) - {hi} == Without(p, lo, hi)
  {
    forall a | a in p && hi < a ensures hi + PAGE_SIZE <= a {
      assert a % PAGE_SIZE == 0;
    }
  }

  /** The pages a visit to r removes. */
  function Removed(p: PageTable, r: Region, lo: nat, hi: nat): PageTable {
    Without(p, Max(lo, r.start), Min(hi, r.Top()))
  }

  lemma {:induction false} PagesStep(p0: PageTable, p: PageTable, rs0: seq<Region>, r: Region, rest: seq<Region>,
                                     todo: seq<Region>, lo: nat, hi: nat)
    requires PagesLeft(p0, p, rs0, [r] + rest, lo, hi) && Sorted([r] + rest)
    requires forall a: nat :: Lookup(todo, a).Some? ==> Lookup([r] + rest, a).Some?
    requires forall a: nat :: lo <= a < hi ==> Lookup(todo, a) == Lookup(rest, a)
    ensures PagesLeft(p0, Removed(p, r, lo, hi), rs0, todo, lo, hi)
  {
    var p' := Removed(p, r, lo, hi);
    forall a: nat
      ensures a in p' <==> a in p0 && !(lo <= a < hi && Lookup(rs0, a).Some? && Lookup(todo, a).None?)
    {
      SortedTail(r, rest, a);
    }
  }

  lemma SortedTail(r: Region, rest: seq<Region>, a: nat)
    requires Sorted([r] + rest)
    ensures Sorted(rest)
    ensures Lookup([r] + rest, a) == if r.Has(a) then Some(r.At(a)) else Lookup(rest, a)
    ensures r.Has(a) ==> Lookup(rest, a).None?
  {
    var s := [r] + rest;
    assert s[1..] == rest && s[0] == r;
    assert forall i :: 0 <= i < |rest| ==> rest[i] == s[i + 1];
    if r.Has(a) {
      LookupMiss(rest, a);
    }
  }

  /** `done` is final, `todo` is still to be visited, `cut` is what the list will be. */
  ghost predicate Progress(cut: seq<Region>, rs0: seq<Region>, p0: PageTable, p: PageTable, done: seq<Region>,
                           todo: seq<Region>, lo: nat, hi: nat)
    requires lo < hi
  {
    && cut == done + CutAll(todo, lo, hi)
    && Sorted(todo) && Aligned(todo)
    && PagesLeft(p0, p, rs0, todo, lo, hi)
  }

  lemma ProgressVisit(cut: seq<Region>, rs0: seq<Region>, p0: PageTable, p: PageTable, done: seq<Region>, r: Region,
                      rest: seq<Region>, lo: nat, hi: nat)
    requires lo < hi && Progress(cut, rs0, p0, p, done, [r] + rest, lo, hi)
    ensures Progress(cut, rs0, p0, Removed(p, r, lo, hi), done + Cut(r, lo, hi), rest, lo, hi)
  {
    var todo := [r] + rest;
    assert todo[1..] == rest && todo[0] == r;
    assert done + (Cut(r, lo, hi) + CutAll(rest, lo, hi)) == (done + Cut(r, lo, hi)) + CutAll(rest, lo, hi);
    assert forall i :: 0 <= i < |rest| ==> rest[i] == todo[i + 1];
    hide CutAll, Cut, Removed;
    forall a: nat ensures Lookup(rest, a).Some? ==> Lookup(todo, a).Some? { SortedTail(r, rest, a); }
    PagesStep(p0, p, rs0, r, rest, rest, lo, hi);
    SortedTail(r, rest, 0);
  }

  /** After a split the part behind the hole is visited again, to no effect. */
  lemma ProgressSplit(cut: seq<Region>, rs0: seq<Region>, p0: PageTable, p: PageTable, done: seq<Region>, r: Region,
                      rest: seq<Region>, lo: nat, hi: nat)
    requires lo < hi && Progress(cut, rs0, p0, p, done, [r] + rest, lo, hi) && r.start < lo && hi < r.Top()
    requires lo % PAGE_SIZE == 0 && hi % PAGE_SIZE == 0
    ensures Progress(cut, rs0, p0, Removed(p, r, lo, hi), done + [r.(size := lo - r.start)],
                     [SplitOff(r, lo, hi)] + rest, lo, hi)
    ensures forall i :: 0 <= i < |[SplitOff(r, lo, hi)] + rest| ==> hi <= ([SplitOff(r, lo, hi)] + rest)[i].start
  {
    var tail := SplitOff(r, lo, hi);
    assert ([r] + rest)[0] == r;
    TailOrder(r, rest, tail);
    SplitCuts(r, rest, lo, hi, done);
    hide CutAll, Cut, Removed, SplitOff, PagesLeft, Sorted, Aligned;
    SplitPages(rs0, p0, p, r, rest, lo, hi);
  }

  lemma TailOrder(r: Region, rest: seq<Region>, tail: Region)
    requires Sorted([r] + rest) && Aligned([r] + rest)
    requires r.start < tail.start < tail.Top() == r.Top() && tail.start % PAGE_SIZE == 0
    ensures Sorted([tail] + rest) && Aligned([tail] + rest)
    ensures forall i :: 0 <= i < |[tail] + rest| ==> tail.start <= ([tail] + rest)[i].start
  {
    var todo, cut := [r] + rest, [tail] + rest;
    assert OnPages(tail) by {
      assert todo[0] == r && OnPages(r);
      PagesBetween(r.start, r.size);
      PagesBetween(tail.start, r.Top());
    }
    hide OnPages;
    forall i | 0 < i < |cut| ensures cut[i] == todo[i] {
    }
    forall i, j | 0 <= i < j < |cut| ensures cut[i].Top() <= cut[j].start {
      assert todo[i].Top() <= todo[j].start;
    }
  }

  lemma SplitCuts(r: Region, rest: seq<Region>, lo: nat, hi: nat, done: seq<Region>)
    requires r.start < lo < hi < r.Top()
    ensures done + CutAll([r] + rest, lo, hi) ==
            (done + [r.(size := lo - r.start)]) + CutAll([SplitOff(r, lo, hi)] + rest, lo, hi)
  {
    var tail := SplitOff(r, lo, hi);
    assert ([r] + rest)[1..] == rest && ([tail] + rest)[1..] == rest;
    assert Cut(tail, lo, hi) == [tail];
  }

  lemma SplitPages(rs0: seq<Region>, p0: PageTable, p: PageTable, r: Region, rest: seq<Region>, lo: nat, hi: nat)
    requires r.start < lo < hi < r.Top() && Sorted([r] + rest) && Sorted([SplitOff(r, lo, hi)] + rest)
    requires PagesLeft(p0, p, rs0, [r] + rest, lo, hi)
    ensures PagesLeft(p0, Removed(p, r, lo, hi), rs0, [SplitOff(r, lo, hi)] + rest, lo, hi)
  {
    var tail := SplitOff(r, lo, hi);
    hide Removed, PagesLeft, Lookup;
    forall a: nat
      ensures Lookup([tail] + rest, a).Some? ==> Lookup([r] + rest, a).Some?
      ensures lo <= a < hi ==> Lookup([tail] + rest, a) == Lookup(rest, a)
    {
      SortedTail(r, rest, a);
      SortedTail(tail, rest, a);
    }
    PagesStep(p0, p, rs0, r, rest, [tail] + rest, lo, hi);
  }

  lemma ProgressStarts(rs: seq<Region>, p: PageTable, lo: nat, hi: nat)
    requires lo < hi && Sorted(rs) && Aligned(rs)
    ensures Progress(CutAll(rs, lo, hi), rs, p, p, rs[..0], rs[0..], lo, hi)
  {
    assert rs[..0] == [] && rs[0..] == rs;
  }

  lemma ProgressEnds(cut: seq<Region>, rs0: seq<Region>, p0: PageTable, p: PageTable, rs: seq<Region>, lo: nat,
                     hi: nat)
    requires lo < hi && Progress(cut, rs0, p0, p, rs[..|rs|], rs[|rs|..], lo, hi)
    ensures rs == cut && PagesLeft(p0, p, rs0, [], lo, hi)
  {
    assert rs[|rs|..] == [] && rs[..|rs|] + [] == rs;
  }

  /** The list after visiting entry k, and where the walk goes on. */
  function NextList(rs: seq<Region>, k: nat, lo: nat, hi: nat): seq<Region>
    requires k < |rs| && lo < hi
  {
    rs[..k] + Cut(rs[k], lo, hi) + rs[k + 1..]
  }

  function NextIndex(rs: seq<Region>, k: nat, lo: nat, hi: nat): nat
    requires k < |rs| && lo < hi
  {
    if Splits(rs[k], lo, hi) then k + 1 else k + |Cut(rs[k], lo, hi)|
  }

  /** What one turn of the walk keeps, and how far it has come. */
  ghost predicate Turned(cut: seq<Region>, rs0: seq<Region>, p0: PageTable, p': PageTable, rs: seq<Region>, k: nat,
                         rs': seq<Region>, k': nat, split: bool, lo: nat, hi: nat)
    requires lo < hi
  {
    && k' <= |rs'| && Progress(cut, rs0, p0, p', rs'[..k'], rs'[k'..], lo, hi)
    && (split ==> |rs'| - k' == |rs| - k && forall i :: k' <= i < |rs'| ==> hi <= rs'[i].start)
    && (!split ==> |rs'| - k' == |rs| - k - 1 && k < |rs| && rs'[k'..] == rs[k + 1..])
  }

  lemma TurnSplit(cut: seq<Region>, rs0: seq<Region>, p0: PageTable, p: PageTable, done: seq<Region>, r: Region,
                  rest: seq<Region>, lo: nat, hi: nat)
    requires lo < hi && lo % PAGE_SIZE == 0 && hi % PAGE_SIZE == 0 && Splits(r, lo, hi)
    requires Progress(cut, rs0, p0, p, done, [r] + rest, lo, hi)
    ensures var rs' := done + Cut(r, lo, hi) + rest;
      Turned(cut, rs0, p0, Removed(p, r, lo, hi), done + [r] + rest, |done|, rs', |done| + 1, true, lo, hi)
  {
    ProgressSplit(cut, rs0, p0, p, done, r, rest, lo, hi);
    hide Progress, Sorted, Removed, SplitOff;
    var pieces := Cut(r, lo, hi);
    var rs' := done + pieces + rest;
    assert rs'[..|done| + 1] == done + [pieces[0]];
    assert rs'[|done| + 1..] == [pieces[1]] + rest;
    forall i | |done| + 1 <= i < |rs'| ensures hi <= rs'[i].start {
      assert rs'[i] == ([pieces[1]] + rest)[i - (|done| + 1)];
    }
  }

  lemma TurnVisit(cut: seq<Region>, rs0: seq<Region>, p0: PageTable, p: PageTable, done: seq<Region>, r: Region,
                  rest: seq<Region>, lo: nat, hi: nat)
    requires lo < hi && lo % PAGE_SIZE == 0 && hi % PAGE_SIZE == 0 && !Splits(r, lo, hi)
    requires Progress(cut, rs0, p0, p, done, [r] + rest, lo, hi)
    ensures var pieces := Cut(r, lo, hi);
      Turned(cut, rs0, p0, Removed(p, r, lo, hi), done + [r] + rest, |done|, done + pieces + rest, |done + pieces|,
             false, lo, hi)
  {
    ProgressVisit(cut, rs0, p0, p, done, r, rest, lo, hi);
    hide Progress, Sorted, Removed, Cut;
    var pieces := Cut(r, lo, hi);
    var rs' := done + pieces + rest;
    assert rs'[..|done + pieces|] == done + pieces;
    assert rs'[|done + pieces|..] == rest == (done + [r] + rest)[|done| + 1..];
  }

  /** One turn of the walk: where the list and the walk stand after visiting node k. */
  lemma Turn(cut: seq<Region>, rs0: seq<Region>, p0: PageTable, p: PageTable, rs: seq<Region>, k: nat, lo: nat,
             hi: nat)
    requires lo < hi && lo % PAGE_SIZE == 0 && hi % PAGE_SIZE == 0
    requires k < |rs| && Progress(cut, rs0, p0, p, rs[..k], rs[k..], lo, hi)
    ensures rs[k].size > 0 && rs[k].start % PAGE_SIZE == 0 && rs[k].size % PAGE_SIZE == 0
    ensures Turned(cut, rs0, p0, Removed(p, rs[k], lo, hi), rs, k, NextList(rs, k, lo, hi), NextIndex(rs, k, lo, hi),
                   Splits(rs[k], lo, hi), lo, hi)
  {
    var r, rest := rs[k], rs[k + 1..];
    assert rs[k..][0] == r && rs[k..] == [r] + rest;
    TurnCases(cut, rs0, p0, p, rs, k, lo, hi);
  }

  lemma TurnCases(cut: seq<Region>, rs0: seq<Region>, p0: PageTable, p: PageTable, rs: seq<Region>, k: nat, lo: nat,
                  hi: nat)
    requires lo < hi && lo % PAGE_SIZE == 0 && hi % PAGE_SIZE == 0
    requires k < |rs| && Progress(cut, rs0, p0, p, rs[..k], [rs[k]] + rs[k + 1..], lo, hi)
    ensures Turned(cut, rs0, p0, Removed(p, rs[k], lo, hi), rs, k, NextList(rs, k, lo, hi), NextIndex(rs, k, lo, hi),
                   Splits(rs[k], lo, hi), lo, hi)
  {
    hide Progress, Turned, Removed, Splits, Sorted;
    var r, rest := rs[k], rs[k + 1..];
    assert rs[..k] + [r] + rest == rs;
    if Splits(r, lo, hi) {
      TurnSplit(cut, rs0, p0, p, rs[..k], r, rest, lo, hi);
    } else {
      TurnVisit(cut, rs0, p0, p, rs[..k], r, rest, lo, hi);
    }
  }

  // ---------- the marks along the walk ----------

  function SplitMarks(ms: Marks, k: nat): Marks
    requires k < |ms|
  {
    ms[..k + 1] + [true] + WithFirst(ms[k + 1..], true)
  }

  /** The marks after visiting entry k, its own `prev` being right if it is unlinked. */
  function NextMarks(rs: seq<Region>, ms: Marks, k: nat, lo: nat, hi: nat): Marks
    requires k < |rs| == |ms|
  {
    if Covered(rs[k], lo, hi) then DropMarks(ms, k) else if Splits(rs[k], lo, hi) then SplitMarks(ms, k) else ms
  }

  /** The marks before k are final, cm is what the marks will be, and the next unlinking finds its link right. */
  ghost predicate MarksLeft(cm: Marks, rs: seq<Region>, ms: Marks, k: nat, lo: nat, hi: nat)
    requires lo < hi
  {
    && k <= |rs| == |ms|
    && cm == ms[..k] + CutMarks(rs[k..], ms[k..], lo, hi)
    && Guarded(rs[k..], ms[k..], lo, hi)
  }

  lemma NoneCovered(rs: seq<Region>, ms: Marks, lo: nat, hi: nat)
    requires |ms| == |rs| && forall i :: 0 <= i < |rs| ==> !Covered(rs[i], lo, hi)
    ensures Guarded(rs, ms, lo, hi)
  {
    GuardedIs(rs, ms, lo, hi);
  }

  lemma DropTurn(cm: Marks, done: seq<Region>, dm: Marks, r: Region, m: bool, rest: seq<Region>, rm: Marks, lo: nat,
                 hi: nat)
    requires lo < hi && |dm| == |done| && |rm| == |rest| && Sorted([r] + rest) && Covered(r, lo, hi)
    requires cm == dm + CutMarks([r] + rest, [m] + rm, lo, hi) && Guarded([r] + rest, [m] + rm, lo, hi)
    ensures m && cm == dm + CutMarks(rest, WithFirst(rm, true), lo, hi) && Guarded(rest, WithFirst(rm, true), lo, hi)
  {
    var todo := [r] + rest;
    assert todo[0] == r && todo[1..] == rest && ([m] + rm)[1..] == rm;
    if rest != [] && !Covered(rest[0], lo, hi) {
      assert todo[0].Top() <= todo[1].start;
      assert forall i :: 0 <= i < |rest| ==> rest[i] == todo[i + 1];
      NoneLater(rest, lo, hi);
      NoneCovered(rest, WithFirst(rm, true), lo, hi);
    }
  }

  lemma SplitTurn(cm: Marks, dm: Marks, r: Region, m: bool, rest: seq<Region>, rm: Marks, lo: nat, hi: nat)
    requires lo < hi && |rm| == |rest| && Sorted([r] + rest) && Splits(r, lo, hi)
    requires cm == dm + CutMarks([r] + rest, [m] + rm, lo, hi)
    ensures var todo, tm := [SplitOff(r, lo, hi)] + rest, [true] + WithFirst(rm, true);
      cm == dm + [m] + CutMarks(todo, tm, lo, hi) && Guarded(todo, tm, lo, hi)
  {
    var todo, tm := [SplitOff(r, lo, hi)] + rest, [true] + WithFirst(rm, true);
    assert ([r] + rest)[0] == r && ([r] + rest)[1..] == rest && ([m] + rm)[1..] == rm;
    assert todo[1..] == rest && tm[1..] == WithFirst(rm, true);
    forall i | 0 <= i < |todo| ensures !Covered(todo[i], lo, hi) {
      if i > 0 { assert todo[i] == ([r] + rest)[i]; }
    }
    NoneCovered(todo, tm, lo, hi);
  }

  lemma StayTurn(cm: Marks, dm: Marks, r: Region, m: bool, rest: seq<Region>, rm: Marks, lo: nat, hi: nat)
    requires lo < hi && |rm| == |rest| && !Splits(r, lo, hi) && !Covered(r, lo, hi)
    requires cm == dm + CutMarks([r] + rest, [m] + rm, lo, hi) && Guarded([r] + rest, [m] + rm, lo, hi)
    ensures cm == dm + [m] + CutMarks(rest, rm, lo, hi) && Guarded(rest, rm, lo, hi)
  {
    assert ([r] + rest)[0] == r && ([r] + rest)[1..] == rest && ([m] + rm)[1..] == rm;
  }

  lemma MarksDrop(cm: Marks, done: seq<Region>, dm: Marks, r: Region, m: bool, rest: seq<Region>, rm: Marks, lo: nat,
                  hi: nat)
    requires lo < hi && |dm| == |done| && |rm| == |rest| && Sorted([r] + rest) && Covered(r, lo, hi)
    requires cm == dm + CutMarks([r] + rest, [m] + rm, lo, hi) && Guarded([r] + rest, [m] + rm, lo, hi)
    ensures m && MarksLeft(cm, done + rest, dm + WithFirst(rm, true), |done|, lo, hi)
  {
    hide CutMarks, Guarded, Sorted, WithFirst;
    DropTurn(cm, done, dm, r, m, rest, rm, lo, hi);
    Around(done, rest);
    Around(dm, WithFirst(rm, true));
  }

  lemma MarksSplit(cm: Marks, done: seq<Region>, dm: Marks, r: Region, m: bool, rest: seq<Region>, rm: Marks, lo: nat,
                   hi: nat)
    requires lo < hi && |dm| == |done| && |rm| == |rest| && Sorted([r] + rest) && Splits(r, lo, hi)
    requires cm == dm + CutMarks([r] + rest, [m] + rm, lo, hi)
    ensures var todo, tm := [SplitOff(r, lo, hi)] + rest, [true] + WithFirst(rm, true);
      MarksLeft(cm, done + [r.(size := lo - r.start)] + todo, dm + [m] + tm, |done| + 1, lo, hi)
  {
    hide CutMarks, Guarded, Sorted, WithFirst, SplitOff;
    SplitTurn(cm, dm, r, m, rest, rm, lo, hi);
    Around(done + [r.(size := lo - r.start)], [SplitOff(r, lo, hi)] + rest);
    Around(dm + [m], [true] + WithFirst(rm, true));
  }

  lemma MarksStay(cm: Marks, done: seq<Region>, dm: Marks, r: Region, r': Region, m: bool, rest: seq<Region>, rm: Marks,
                  lo: nat, hi: nat)
    requires lo < hi && |dm| == |done| && |rm| == |rest| && !Splits(r, lo, hi) && !Covered(r, lo, hi)
    requires cm == dm + CutMarks([r] + rest, [m] + rm, lo, hi) && Guarded([r] + rest, [m] + rm, lo, hi)
    ensures MarksLeft(cm, done + [r'] + rest, dm + [m] + rm, |done| + 1, lo, hi)
  {
    hide CutMarks, Guarded;
    StayTurn(cm, dm, r, m, rest, rm, lo, hi);
    Around(done + [r'], rest);
    Around(dm + [m], rm);
  }

  lemma NextCovered(rs: seq<Region>, ms: Marks, k: nat, lo: nat, hi: nat)
    requires lo < hi && k < |rs| == |ms| && Covered(rs[k], lo, hi)
    ensures NextList(rs, k, lo, hi) == rs[..k] + rs[k + 1..] && NextIndex(rs, k, lo, hi) == k
    ensures NextMarks(rs, ms, k, lo, hi) == ms[..k] + WithFirst(ms[k + 1..], true)
  {
    CutOne(rs[k], lo, hi);
    assert rs[..k] + [] + rs[k + 1..] == rs[..k] + rs[k + 1..];
  }

  lemma NextSplit(rs: seq<Region>, ms: Marks, k: nat, lo: nat, hi: nat)
    requires lo < hi && k < |rs| == |ms| && Splits(rs[k], lo, hi)
    ensures NextList(rs, k, lo, hi) ==
            rs[..k] + [rs[k].(size := lo - rs[k].start)] + ([SplitOff(rs[k], lo, hi)] + rs[k + 1..])
    ensures NextMarks(rs, ms, k, lo, hi) == ms[..k] + [ms[k]] + ([true] + WithFirst(ms[k + 1..], true))
    ensures NextIndex(rs, k, lo, hi) == k + 1
  {
    hide Cut, SplitOff, WithFirst;
    CutOne(rs[k], lo, hi);
    assert ms[..k + 1] == ms[..k] + [ms[k]];
  }

  lemma NextStay(rs: seq<Region>, ms: Marks, k: nat, lo: nat, hi: nat)
    requires lo < hi && k < |rs| == |ms| && !Splits(rs[k], lo, hi) && !Covered(rs[k], lo, hi)
    ensures |Cut(rs[k], lo, hi)| == 1 && NextList(rs, k, lo, hi) == rs[..k] + [Cut(rs[k], lo, hi)[0]] + rs[k + 1..]
    ensures NextMarks(rs, ms, k, lo, hi) == ms[..k] + [ms[k]] + ms[k + 1..] && NextIndex(rs, k, lo, hi) == k + 1
  {
    hide Cut;
    CutOne(rs[k], lo, hi);
  }

  lemma MarksTurn(cm: Marks, rs: seq<Region>, ms: Marks, k: nat, lo: nat, hi: nat)
    requires lo < hi && k < |rs| && Sorted(rs[k..]) && MarksLeft(cm, rs, ms, k, lo, hi)
    ensures Covered(rs[k], lo, hi) ==> ms[k]
    ensures MarksLeft(cm, NextList(rs, k, lo, hi), NextMarks(rs, ms, k, lo, hi), NextIndex(rs, k, lo, hi), lo, hi)
  {
    var r, m, rest, rm := rs[k], ms[k], rs[k + 1..], ms[k + 1..];
    assert rs[k..] == [r] + rest && ms[k..] == [m] + rm;
    hide *;
    if Covered(r, lo, hi) {
      NextCovered(rs, ms, k, lo, hi);
      MarksDrop(cm, rs[..k], ms[..k], r, m, rest, rm, lo, hi);
    } else if Splits(r, lo, hi) {
      NextSplit(rs, ms, k, lo, hi);
      MarksSplit(cm, rs[..k], ms[..k], r, m, rest, rm, lo, hi);
    } else {
      NextStay(rs, ms, k, lo, hi);
      MarksStay(cm, rs[..k], ms[..k], r, Cut(r, lo, hi)[0], m, rest, rm, lo, hi);
    }
  }

  lemma CutOne(r: Region, lo: nat, hi: nat)
    requires lo < hi
    ensures Covered(r, lo, hi) ==> Cut(r, lo, hi) == [] && !Splits(r, lo, hi)
    ensures Splits(r, lo, hi) ==> Cut(r, lo, hi) == [r.(size := lo - r.start), SplitOff(r, lo, hi)]
    ensures !Covered(r, lo, hi) && !Splits(r, lo, hi) ==> |Cut(r, lo, hi)| == 1
  {
  }

  // ---------- links, on values ----------

  function Last(before: Range?, ns: seq<Range>): Range? {
    if ns == [] then before else ns[|ns| - 1]
  }

  /** Whether the link ps[i] of each node names the node before it, `before` being before the first. */
  ghost function MarksAfter(before: Range?, ns: seq<Range>, ps: seq<Range?>): (ms: Marks)
    requires |ps| == |ns|
    ensures |ms| == |ns| && forall i :: 0 <= i < |ms| ==> ms[i] == (ps[i] == if i == 0 then before else ns[i - 1])
  {
    seq(|ns|, i requires 0 <= i < |ns| => ps[i] == if i == 0 then before else ns[i - 1])
  }

  ghost function MarksOf(ns: seq<Range>, ps: seq<Range?>): (ms: Marks)
    requires |ps| == |ns|
    ensures |ms| == |ns|
  {
    MarksAfter(null, ns, ps)
  }

  lemma MarksConcat(before: Range?, xs: seq<Range>, ps: seq<Range?>, ys: seq<Range>, qs: seq<Range?>)
    requires |ps| == |xs| && |qs| == |ys|
    ensures MarksAfter(before, xs + ys, ps + qs) == MarksAfter(before, xs, ps) + MarksAfter(Last(before, xs), ys, qs)
  {
    hide MarksAfter;
    var ms := MarksAfter(before, xs + ys, ps + qs);
    forall i | 0 <= i < |ms| ensures ms[i] == (MarksAfter(before, xs, ps) + MarksAfter(Last(before, xs), ys, qs))[i] {
    }
  }

  lemma MarksSlices(ns: seq<Range>, ps: seq<Range?>, b: nat)
    requires |ps| == |ns| && b <= |ns|
    ensures MarksOf(ns, ps)[..b] == MarksOf(ns[..b], ps[..b])
    ensures MarksOf(ns, ps)[b..] == MarksAfter(Last(null, ns[..b]), ns[b..], ps[b..])
    ensures Last(null, ns[..b]) == At(ns, b - 1)
  {
    MarksConcat(null, ns[..b], ps[..b], ns[b..], ps[b..]);
    hide MarksAfter;
    assert ns[..b] + ns[b..] == ns && ps[..b] + ps[b..] == ps;
  }

  ghost function FirstLink(ps: seq<Range?>, to: Range?): (r: seq<Range?>)
    ensures |r| == |ps|
  {
    if ps == [] then [] else [to] + ps[1..]
  }

  lemma MarksFirst(before: Range?, ns: seq<Range>, ps: seq<Range?>, was: Range?, to: Range?)
    requires |ps| == |ns|
    ensures MarksAfter(before, ns, FirstLink(ps, to)) == WithFirst(MarksAfter(was, ns, ps), to == before)
  {
    hide MarksAfter;
  }

  lemma MarksMoved(before: Range?, ns: seq<Range>, ps: seq<Range?>, was: Range?)
    requires |ps| == |ns| && (ps != [] ==> ps[0] != before)
    ensures MarksAfter(before, ns, ps) == WithFirst(MarksAfter(was, ns, ps), false)
  {
    hide MarksAfter;
  }

  /** No link leads to a node from its own on. */
  ghost predicate Backward(ns: seq<Range>, ps: seq<Range?>)
    requires |ps| == |ns|
  {
    forall i, j :: 0 <= i <= j < |ns| ==> ps[i] != ns[j]
  }

  ghost predicate NodesIn(ns: seq<Range>, ps: seq<Range?>, all: set<Range>)
    requires |ps| == |ns|
  {
    forall i :: 0 <= i < |ns| ==> ns[i] in all && (ps[i] == null || ps[i] in all)
  }

  /** The first link is null; every other one may be stale, but leads backwards or out of the list. */
  ghost predicate BacksOf(ns: seq<Range>, ps: seq<Range?>, all: set<Range>) {
    |ps| == |ns| && (ps != [] ==> ps[0] == null) && NodesIn(ns, ps, all) && Backward(ns, ps)
  }

  /** Entry j once nodes b to i are taken out. */
  lemma JumpAt(ns: seq<Range>, ps: seq<Range?>, b: nat, i: nat, j: nat)
    requires |ps| == |ns| && b <= i < |ns| && j < |ns| - (i + 1 - b)
    ensures var ns', ps', d := ns[..b] + ns[i + 1..], ps[..b] + FirstLink(ps[i + 1..], At(ns, b - 1)), i + 1 - b;
      && ns'[j] == ns[if j < b then j else j + d]
      && ps'[j] == if j < b then ps[j] else if j == b then At(ns, b - 1) else ps[j + d]
  {
  }

  lemma JumpBacks(ns: seq<Range>, ps: seq<Range?>, all: set<Range>, b: nat, i: nat)
    requires BacksOf(ns, ps, all) && b <= i < |ns| && forall j, k :: 0 <= j < k < |ns| ==> ns[j] != ns[k]
    ensures BacksOf(ns[..b] + ns[i + 1..], ps[..b] + FirstLink(ps[i + 1..], At(ns, b - 1)), all)
  {
    hide FirstLink;
    var ns', ps', d := ns[..b] + ns[i + 1..], ps[..b] + FirstLink(ps[i + 1..], At(ns, b - 1)), i + 1 - b;
    forall j | 0 <= j < |ns'| ensures ns'[j] in all && (ps'[j] == null || ps'[j] in all) {
      JumpAt(ns, ps, b, i, j);
    }
    forall j, k | 0 <= j <= k < |ns'| ensures ps'[j] != ns'[k] {
      JumpAt(ns, ps, b, i, j);
      JumpAt(ns, ps, b, i, k);
    }
    if ps' != [] {
      JumpAt(ns, ps, b, i, 0);
    }
  }

  /** Nodes b to i taken out, and the link behind the gap written. */
  lemma JumpLinks(ns: seq<Range>, ps: seq<Range?>, b: nat, i: nat)
    requires |ps| == |ns| && b <= i < |ns|
    ensures MarksOf(ns[..b] + ns[i + 1..], ps[..b] + FirstLink(ps[i + 1..], At(ns, b - 1))) ==
            MarksOf(ns, ps)[..b] + WithFirst(MarksOf(ns, ps)[i + 1..], true)
  {
    hide MarksAfter, FirstLink, WithFirst;
    var before := Last(null, ns[..b]);
    MarksSlices(ns, ps, b);
    MarksSlices(ns, ps, i + 1);
    MarksConcat(null, ns[..b], ps[..b], ns[i + 1..], FirstLink(ps[i + 1..], before));
    MarksFirst(before, ns[i + 1..], ps[i + 1..], Last(null, ns[..i + 1]), before);
  }

  /** One node taken out, and the link behind it written. */
  lemma DropLinks(ns: seq<Range>, ps: seq<Range?>, all: set<Range>, i: nat)
    requires BacksOf(ns, ps, all) && |ps| == |ns| && 0 < i < |ns| && forall j, k :: 0 <= j < k < |ns| ==> ns[j] != ns[k]
    ensures var ns', ps' := ns[..i] + ns[i + 1..], ps[..i] + FirstLink(ps[i + 1..], ns[i - 1]);
      BacksOf(ns', ps', all) && MarksOf(ns', ps') == DropMarks(MarksOf(ns, ps), i)
  {
    hide BacksOf, MarksOf, FirstLink, WithFirst;
    JumpBacks(ns, ps, all, i, i);
    JumpLinks(ns, ps, i, i);
  }

  /** Entry j once a node is put at index p. */
  lemma PutAt(ns: seq<Range>, ps: seq<Range?>, p: nat, node: Range, rest: seq<Range?>, j: nat)
    requires p <= |ns| == |ps| && |rest| == |ns| - p && j <= |ns|
    ensures var ns', ps' := ns[..p] + [node] + ns[p..], ps[..p] + [At(ns, p - 1)] + rest;
      && ns'[j] == (if j < p then ns[j] else if j == p then node else ns[j - 1])
      && ps'[j] == if j < p then ps[j] else if j == p then At(ns, p - 1) else rest[j - p - 1]
  {
  }

  lemma PutBacks(ns: seq<Range>, ps: seq<Range?>, all: set<Range>, p: nat, node: Range, rest: seq<Range?>)
    requires BacksOf(ns, ps, all) && p <= |ns| && node !in all && |rest| == |ns| - p
    requires forall j, k :: 0 <= j < k < |ns| ==> ns[j] != ns[k]
    requires forall j :: 0 <= j < |rest| ==> rest[j] == ps[p + j] || (j == 0 && rest[j] == node)
    ensures BacksOf(ns[..p] + [node] + ns[p..], ps[..p] + [At(ns, p - 1)] + rest, all + {node})
  {
    var ns', ps' := ns[..p] + [node] + ns[p..], ps[..p] + [At(ns, p - 1)] + rest;
    forall j | 0 <= j < |ns'| ensures ns'[j] in all + {node} && (ps'[j] == null || ps'[j] in all + {node}) {
      PutAt(ns, ps, p, node, rest, j);
    }
    forall j, k | 0 <= j <= k < |ns'| ensures ps'[j] != ns'[k] {
      PutAt(ns, ps, p, node, rest, j);
      PutAt(ns, ps, p, node, rest, k);
    }
    PutAt(ns, ps, p, node, rest, 0);
  }

  lemma PutMarks(ns: seq<Range>, ps: seq<Range?>, p: nat, node: Range, rest: seq<Range?>)
    requires |ps| == |ns| && p <= |ns| && |rest| == |ns| - p
    ensures MarksOf(ns[..p] + [node] + ns[p..], ps[..p] + [At(ns, p - 1)] + rest) ==
            MarksOf(ns, ps)[..p] + [true] + MarksAfter(node, ns[p..], rest)
  {
    hide MarksAfter;
    var before := Last(null, ns[..p]);
    MarksSlices(ns, ps, p);
    MarksConcat(null, ns[..p], ps[..p], [node] + ns[p..], [before] + rest);
    MarksConcat(before, [node], [before], ns[p..], rest);
    assert MarksAfter(before, [node], [before]) == [true];
    assert ns[..p] + [node] + ns[p..] == ns[..p] + ([node] + ns[p..]);
    assert ps[..p] + [before] + rest == ps[..p] + ([before] + rest);
  }

  lemma FirstOnly(ps: seq<Range?>, to: Range?)
    ensures forall j :: 0 <= j < |ps| ==> FirstLink(ps, to)[j] == ps[j] || (j == 0 && FirstLink(ps, to)[j] == to)
  {
  }

  /** A node put behind node i, told to both of its neighbours. */
  lemma CopyLinks(ns: seq<Range>, ps: seq<Range?>, all: set<Range>, i: nat, copy: Range)
    requires BacksOf(ns, ps, all) && |ps| == |ns| && i < |ns| && copy !in all
    requires forall j, k :: 0 <= j < k < |ns| ==> ns[j] != ns[k]
    ensures var ns', ps' := ns[..i + 1] + [copy] + ns[i + 1..], ps[..i + 1] + [ns[i]] + FirstLink(ps[i + 1..], copy);
      BacksOf(ns', ps', all + {copy}) && MarksOf(ns', ps') == SplitMarks(MarksOf(ns, ps), i)
  {
    hide MarksAfter, BacksOf, FirstLink, WithFirst;
    FirstOnly(ps[i + 1..], copy);
    assert forall j {:trigger ps[i + 1..][j]} :: 0 <= j < |ps| - (i + 1) ==> ps[i + 1..][j] == ps[i + 1 + j];
    PutBacks(ns, ps, all, i + 1, copy, FirstLink(ps[i + 1..], copy));
    PutMarks(ns, ps, i + 1, copy, FirstLink(ps[i + 1..], copy));
    MarksSlices(ns, ps, i + 1);
    MarksFirst(copy, ns[i + 1..], ps[i + 1..], Last(null, ns[..i + 1]), copy);
  }

  /** The links after a node is put at index p: its successor is told only at the front. */
  ghost function PutLinks(ns: seq<Range>, ps: seq<Range?>, p: nat, node: Range): seq<Range?>
    requires p <= |ns| == |ps|
  {
    ps[..p] + [At(ns, p - 1)] + (if p == 0 then FirstLink(ps[p..], node) else ps[p..])
  }

  lemma LinkLinks(ns: seq<Range>, ps: seq<Range?>, all: set<Range>, p: nat, node: Range)
    requires BacksOf(ns, ps, all) && p <= |ns| && node !in all
    requires forall j, k :: 0 <= j < k < |ns| ==> ns[j] != ns[k]
    ensures var ns', ps' := ns[..p] + [node] + ns[p..], PutLinks(ns, ps, p, node);
      BacksOf(ns', ps', all + {node}) && MarksOf(ns', ps') == LinkMarks(MarksOf(ns, ps), p)
  {
    var rest := if p == 0 then FirstLink(ps[p..], node) else ps[p..];
    PutBacks(ns, ps, all, p, node, rest);
    assert p < |ns| ==> ps[p] != node;
    hide MarksAfter, BacksOf, WithFirst;
    PutMarks(ns, ps, p, node, rest);
    MarksSlices(ns, ps, p);
    var before := Last(null, ns[..p]);
    if p == 0 {
      MarksFirst(node, ns[p..], ps[p..], before, node);
    } else {
      MarksMoved(node, ns[p..], ps[p..], before);
    }
  }

  // ---------- a walk that will meet a stale link ----------

  /** One call of `change_map`: the list, marks and pages it starts from, and the link it will unlink through first. */
  datatype Call = Call(rs: seq<Region>, ms: Marks, pages: PageTable, lo: nat, hi: nat, link: Prev, w: Range?) {
    ghost predicate Ok() {
      && lo < hi && lo % PAGE_SIZE == 0 && hi % PAGE_SIZE == 0
      && Sorted(rs) && Aligned(rs) && Possible(rs, ms, link, lo, hi)
    }

    /** The first covered range from k on. */
    ghost function Ahead(k: nat): nat
      requires k <= |rs|
    {
      k + FirstCovered(rs[k..], lo, hi)
    }
  }

  /** Up to k every range is shrunk in its place, and no node has left the list. */
  ghost predicate AstrayOf(c: Call, ns: seq<Range>, ps: seq<Range?>, rs: seq<Region>, p: PageTable, k: nat)
    requires c.Ok()
  {
    && k <= |ns| == |ps| == |rs| == |c.rs|
    && rs == ShrunkAll(c.rs[..k], c.lo, c.hi) + c.rs[k..] && PagesLeft(c.pages, p, c.rs, c.rs[k..], c.lo, c.hi)
    && (c.Ahead(k) < |ns| ==> ps[c.Ahead(k)] == c.w)
    && match c.link
       case Right => false
       case Earlier(b) =>
         c.Ahead(k) == FirstCovered(c.rs, c.lo, c.hi) && c.w == At(ns, b - 1) && MarksOf(ns, ps) == c.ms
       case Gone => c.w != null && c.w !in ns
  }

  lemma AheadFacts(c: Call, k: nat)
    requires c.Ok() && !c.link.Right? && k < |c.rs|
    ensures !Splits(c.rs[k], c.lo, c.hi) && OnPages(c.rs[k]) && c.rs[k].size > 0
    ensures c.Ahead(k) == k <==> Covered(c.rs[k], c.lo, c.hi)
    ensures !Covered(c.rs[k], c.lo, c.hi) ==> c.Ahead(k + 1) == c.Ahead(k)
    ensures Covered(c.rs[k], c.lo, c.hi) ==> c.Ahead(k + 1) == k + 1 || c.Ahead(k + 1) == |c.rs|
  {
    CoveredFacts(c.rs, FirstCovered(c.rs, c.lo, c.hi), c.lo, c.hi);
    assert c.rs[k..][0] == c.rs[k] && c.rs[k..][1..] == c.rs[k + 1..];
    if Covered(c.rs[k], c.lo, c.hi) && k + 1 < |c.rs| && !Covered(c.rs[k + 1], c.lo, c.hi) {
      NoneLater(c.rs[k + 1..], c.lo, c.hi);
    }
  }

  /** One range further, the range at k shrunk and its pages gone. */
  lemma ShrunkMore(c: Call, rs: seq<Region>, p: PageTable, k: nat)
    requires c.Ok() && k < |rs| == |c.rs| && rs == ShrunkAll(c.rs[..k], c.lo, c.hi) + c.rs[k..]
    requires PagesLeft(c.pages, p, c.rs, c.rs[k..], c.lo, c.hi)
    ensures rs[k] == c.rs[k]
    ensures rs[k := Shrunk(c.rs[k], c.lo, c.hi)] == ShrunkAll(c.rs[..k + 1], c.lo, c.hi) + c.rs[k + 1..]
    ensures PagesLeft(c.pages, Removed(p, c.rs[k], c.lo, c.hi), c.rs, c.rs[k + 1..], c.lo, c.hi)
  {
    hide PagesLeft, Shrunk, Removed, ShrunkAll, Aligned, Possible;
    ShrunkOne(c.rs, k, c.lo, c.hi);
    var r, rest := c.rs[k], c.rs[k + 1..];
    assert c.rs[k..] == [r] + rest && Sorted(c.rs[k..]);
    forall a: nat ensures Lookup(rest, a).Some? ==> Lookup([r] + rest, a).Some? { SortedTail(r, rest, a); }
    PagesStep(c.pages, p, c.rs, r, rest, rest, c.lo, c.hi);
  }

  lemma StayAstray(c: Call, ns: seq<Range>, ps: seq<Range?>, rs: seq<Region>, p: PageTable, k: nat)
    requires c.Ok() && k < |ns| && AstrayOf(c, ns, ps, rs, p, k) && !Covered(c.rs[k], c.lo, c.hi)
    ensures rs[k] == c.rs[k] && NextIndex(rs, k, c.lo, c.hi) == k + 1
    ensures AstrayOf(c, ns, ps, NextList(rs, k, c.lo, c.hi), Removed(p, rs[k], c.lo, c.hi), k + 1)
  {
    hide MarksOf, PagesLeft, Removed, ShrunkAll, Shrunk, NextList, NextIndex, Covered, Splits;
    AheadFacts(c, k);
    ShrunkMore(c, rs, p, k);
    ShrunkNext(rs, k, c.lo, c.hi);
  }

  lemma ShrunkNext(rs: seq<Region>, k: nat, lo: nat, hi: nat)
    requires lo < hi && k < |rs| && !Covered(rs[k], lo, hi) && !Splits(rs[k], lo, hi)
    ensures NextList(rs, k, lo, hi) == rs[k := Shrunk(rs[k], lo, hi)] && NextIndex(rs, k, lo, hi) == k + 1
  {
    assert Cut(rs[k], lo, hi) == [Shrunk(rs[k], lo, hi)];
  }

  lemma FreeAstray(c: Call, ns: seq<Range>, ps: seq<Range?>, rs: seq<Region>, p: PageTable, k: nat)
    requires c.Ok() && k < |ns| && AstrayOf(c, ns, ps, rs, p, k) && Covered(c.rs[k], c.lo, c.hi) && c.link.Gone?
    ensures rs[k] == c.rs[k] && ps[k] == c.w
    ensures var ps' := ps[..k + 1] + FirstLink(ps[k + 1..], ps[k]);
      AstrayOf(c, ns, ps', rs[k := rs[k].(size := 0)], Removed(p, rs[k], c.lo, c.hi), k + 1)
  {
    hide MarksOf, PagesLeft, Removed, ShrunkAll;
    AheadFacts(c, k);
    ShrunkMore(c, rs, p, k);
  }

  /** At the first covered range the list jumps back, and from there on goes as meant, on the ranges that are left. */
  lemma JumpAstray(c: Call, ns: seq<Range>, ps: seq<Range?>, rs: seq<Region>, p: PageTable, k: nat)
    requires c.Ok() && k < |ns| && AstrayOf(c, ns, ps, rs, p, k) && Covered(c.rs[k], c.lo, c.hi) && c.link.Earlier?
    ensures rs[k] == c.rs[k] && ps[k] == c.w && c.link.b < k
    ensures var b := c.link.b;
      var rs', ms' := rs[..b] + rs[k + 1..], c.ms[..b] + WithFirst(c.ms[k + 1..], true);
      && Progress(CutList(c.rs, c.link, c.lo, c.hi), c.rs, c.pages, Removed(p, rs[k], c.lo, c.hi), rs'[..b], rs'[b..],
                  c.lo, c.hi)
      && MarksLeft(CutLinks(c.rs, c.ms, c.link, c.lo, c.hi), rs', ms', b, c.lo, c.hi)
  {
    hide MarksOf, PagesLeft, Removed, CutAll, CutMarks, ShrunkAll, Guarded, Sorted;
    var b, lo, hi := c.link.b, c.lo, c.hi;
    AheadFacts(c, k);
    ShrunkMore(c, rs, p, k);
    JumpCuts(c.rs, c.ms, b, k, lo, hi);
    assert rs[..b] == ShrunkAll(c.rs[..b], lo, hi) by { ShrunkPrefix(c.rs, rs, b, k, lo, hi); }
    var rs', ms' := rs[..b] + rs[k + 1..], c.ms[..b] + WithFirst(c.ms[k + 1..], true);
    assert rs[k + 1..] == c.rs[k + 1..];
    assert rs'[..b] == rs[..b] && rs'[b..] == c.rs[k + 1..];
    assert ms'[..b] == c.ms[..b] && ms'[b..] == WithFirst(c.ms[k + 1..], true);
    assert Sorted(c.rs[k + 1..]) && Aligned(c.rs[k + 1..]) by { SortedFrom(c.rs, k + 1); }
  }

  lemma SortedFrom(rs: seq<Region>, k: nat)
    requires Sorted(rs) && Aligned(rs) && k <= |rs|
    ensures Sorted(rs[k..]) && Aligned(rs[k..])
  {
  }

  lemma ShrunkPrefix(rs0: seq<Region>, rs: seq<Region>, b: nat, k: nat, lo: nat, hi: nat)
    requires lo < hi && b <= k <= |rs0| && rs == ShrunkAll(rs0[..k], lo, hi) + rs0[k..]
    ensures rs[..b] == ShrunkAll(rs0[..b], lo, hi)
  {
  }

  /** The cut of the list that is left, around its first covered range. */
  lemma JumpCuts(rs: seq<Region>, ms: Marks, b: nat, k: nat, lo: nat, hi: nat)
    requires lo < hi && Sorted(rs) && |ms| == |rs| && b <= k < |rs| && k == FirstCovered(rs, lo, hi)
    ensures CutAll(Bypassed(rs, b, k), lo, hi) == ShrunkAll(rs[..b], lo, hi) + CutAll(rs[k + 1..], lo, hi)
    ensures CutMarks(Bypassed(rs, b, k), ms[..b] + [true] + ms[k + 1..], lo, hi) ==
            ms[..b] + CutMarks(rs[k + 1..], WithFirst(ms[k + 1..], true), lo, hi)
    ensures Guarded(rs[k + 1..], WithFirst(ms[k + 1..], true), lo, hi)
  {
    hide CutAll, CutMarks, Guarded, Sorted, Plain, ShrunkAll, FirstCovered, Covered, WithFirst;
    BeforeCovered(rs, b, k, lo, hi);
    var todo, tm := rs[k..], [true] + ms[k + 1..];
    assert todo == [rs[k]] + rs[k + 1..];
    CutConcat(rs[..b], todo, lo, hi);
    PlainCut(rs[..b], lo, hi);
    CoveredFirst(rs[k], rs[k + 1..], lo, hi);
    assert ms[..b] + [true] + ms[k + 1..] == ms[..b] + tm;
    PlainMarks(rs[..b], ms[..b], todo, tm, lo, hi);
    RightFirst(rs[k], rs[k + 1..], tm, lo, hi);
    DropTurn(CutMarks(todo, tm, lo, hi), [], [], rs[k], true, rs[k + 1..], ms[k + 1..], lo, hi);
  }

  lemma BeforeCovered(rs: seq<Region>, b: nat, k: nat, lo: nat, hi: nat)
    requires Sorted(rs) && b <= k < |rs| && k == FirstCovered(rs, lo, hi)
    ensures Plain(rs[..b], lo, hi) && Sorted(rs[k..]) && Covered(rs[k], lo, hi)
  {
    CoveredFacts(rs, k, lo, hi);
  }

  lemma RightFirst(r: Region, rest: seq<Region>, ms: Marks, lo: nat, hi: nat)
    requires Covered(r, lo, hi) && |ms| == |rest| + 1 && ms[0]
    ensures Guarded([r] + rest, ms, lo, hi)
  {
  }

  lemma CoveredFirst(r: Region, rest: seq<Region>, lo: nat, hi: nat)
    requires lo < hi && Covered(r, lo, hi)
    ensures CutAll([r] + rest, lo, hi) == CutAll(rest, lo, hi)
  {
    assert ([r] + rest)[1..] == rest;
  }

  // The five cases of the walk, on values: the next list, the next index and the pages that go.

  lemma WholeCut(rs: seq<Region>, ms: Marks, k: nat, p: PageTable, lo: nat, hi: nat)
    requires k < |rs| == |ms| && lo < hi && Covered(rs[k], lo, hi)
    ensures NextList(rs, k, lo, hi) == rs[..k] + rs[k + 1..] && NextIndex(rs, k, lo, hi) == k
    ensures NextMarks(rs, ms, k, lo, hi) == ms[..k] + WithFirst(ms[k + 1..], true)
    ensures Removed(p, rs[k], lo, hi) == Without(p, rs[k].start, rs[k].Top())
  {
    assert rs[..k] + [] + rs[k + 1..] == rs[..k] + rs[k + 1..];
  }

  lemma SplitCut(rs: seq<Region>, ms: Marks, k: nat, p: PageTable, lo: nat, hi: nat)
    requires k < |rs| == |ms| && rs[k].start < lo < hi < rs[k].Top()
    ensures NextList(rs, k, lo, hi) ==
            rs[..k] + [rs[k].(size := lo - rs[k].start), SplitOff(rs[k], lo, hi)] + rs[k + 1..]
    ensures NextIndex(rs, k, lo, hi) == k + 1 && Removed(p, rs[k], lo, hi) == Without(p, lo, hi)
    ensures NextMarks(rs, ms, k, lo, hi) == SplitMarks(ms, k)
  {
  }

  lemma FrontCut(rs: seq<Region>, ms: Marks, k: nat, p: PageTable, lo: nat, hi: nat)
    requires k < |rs| == |ms| && lo <= rs[k].start < hi < rs[k].Top()
    ensures NextList(rs, k, lo, hi) == rs[k := TrimFront(rs[k], hi)] && NextIndex(rs, k, lo, hi) == k + 1
    ensures Removed(p, rs[k], lo, hi) == Without(p, rs[k].start, hi) && NextMarks(rs, ms, k, lo, hi) == ms
  {
  }

  lemma BackCut(rs: seq<Region>, ms: Marks, k: nat, p: PageTable, lo: nat, hi: nat)
    requires k < |rs| == |ms| && rs[k].start < lo < rs[k].Top() <= hi
    ensures NextList(rs, k, lo, hi) == rs[k := rs[k].(size := lo - rs[k].start)] && NextIndex(rs, k, lo, hi) == k + 1
    ensures Removed(p, rs[k], lo, hi) == Without(p, lo, rs[k].Top()) && NextMarks(rs, ms, k, lo, hi) == ms
  {
  }

  lemma OutsideCut(rs: seq<Region>, ms: Marks, k: nat, p: PageTable, lo: nat, hi: nat)
    requires k < |rs| == |ms| && lo < hi && (hi <= rs[k].start || rs[k].Top() <= lo) && rs[k].size > 0
    ensures NextList(rs, k, lo, hi) == rs && NextIndex(rs, k, lo, hi) == k + 1
    ensures Removed(p, rs[k], lo, hi) == p && NextMarks(rs, ms, k, lo, hi) == ms
  {
  }

  predicate Within(rs: seq<Region>, lo: nat, hi: nat) {
    forall i :: 0 <= i < |rs| ==> lo <= rs[i].start && rs[i].Top() <= hi
  }

  /** The least fitting address is the hint or the end of a range, so it is page aligned. */
  lemma FitIsAligned(rs: seq<Region>, end: nat, hint: nat, size: nat, a: nat)
    requires LeastFit(rs, end, hint, size, Some(a)) && Aligned(rs) && hint % PAGE_SIZE == 0 && size > 0
    ensures a % PAGE_SIZE == 0 && (a == hint || exists i :: 0 <= i < |rs| && rs[i].Top() == a)
  {
    if a != hint {
      assert !Fits(rs, end, a - 1, size);
    }
  }

  lemma InsertWithin(rs: seq<Region>, r: Region, lo: nat, hi: nat)
    requires Within(rs, lo, hi) && lo <= r.start && r.Top() <= hi
    ensures Within(Insert(rs, r), lo, hi)
  {
    var p := Position(rs, r.start);
    var s := JoinRight(r, rs[p..]);
    assert Within(s, lo, hi);
    hide JoinRight;
    assert Within(rs[..p], lo, hi);
  }

  lemma JoinOnPages(a: Region, b: Region)
    requires OnPages(a) && OnPages(b)
    ensures OnPages(Join(a, b))
  {
  }

  lemma InsertAligned(rs: seq<Region>, r: Region)
    requires Aligned(rs) && r.start % PAGE_SIZE == 0 && r.size % PAGE_SIZE == 0
    ensures Aligned(Insert(rs, r))
  {
    assert OnPages(r);
    hide OnPages;
    forall a, b | OnPages(a) && OnPages(b) ensures OnPages(Join(a, b)) { JoinOnPages(a, b); }
    hide Join, Continues;
    var p := Position(rs, r.start);
    assert Aligned(JoinRight(r, rs[p..])) && Aligned(rs[..p]);
    hide JoinRight;
  }

  /** What a list must be for `vmm_map`. */
  ghost predicate GoodList(rs: seq<Region>, lo: nat, hi: nat) {
    Sorted(rs) && Coalesced(rs) && Aligned(rs) && Within(rs, lo, hi)
  }

  lemma EmptyGood(lo: nat, hi: nat)
    ensures GoodList([], lo, hi)
  {
  }

  /** Lookups after adding r: r where r reaches, the old list elsewhere. */
  ghost predicate Adds(rs: seq<Region>, r: Region, rs': seq<Region>) {
    forall a: nat :: Lookup(rs', a) == if r.Has(a) then Some(r.At(a)) else Lookup(rs, a)
  }

  lemma InsertGood(rs: seq<Region>, r: Region, lo: nat, hi: nat, hint: nat)
    requires GoodList(rs, lo, hi) && r.size > 0 && r.size % PAGE_SIZE == 0 && hint % PAGE_SIZE == 0 && lo <= hint
    requires LeastFit(rs, hi, hint, r.size, Some(r.start))
    ensures Sorted(rs) && Apart(r, rs) && GoodList(Insert(rs, r), lo, hi) && Adds(rs, r, Insert(rs, r))
  {
    FitIsAligned(rs, hi, hint, r.size, r.start);
    InsertWithin(rs, r, lo, hi);
    InsertAligned(rs, r);
    hide LeastFit, Aligned, Within, Insert;
    forall a: nat ensures Lookup(Insert(rs, r), a) == if r.Has(a) then Some(r.At(a)) else Lookup(rs, a) {
      InsertMeaning(rs, r, a);
    }
    InsertMeaning(rs, r, 0);
  }

  /** The first range of an empty list, wherever it ends. */
  lemma InsertFirst(r: Region, lo: nat, hi: nat)
    requires r.size > 0 && r.Top() > hi
    ensures Sorted([]) && Apart(r, []) && !GoodList(Insert([], r), lo, hi) && Adds([], r, Insert([], r))
  {
    assert Insert([], r) == [r];
    assert !Within([r], lo, hi);
  }

  lemma PagesBetween(a: nat, b: nat)
    requires a % PAGE_SIZE == 0 && b % PAGE_SIZE == 0
    ensures a <= b ==> (b - a) % PAGE_SIZE == 0
    ensures (a + b) % PAGE_SIZE == 0
  {
  }

  /** The pieces are aligned when the range and the interval are. */
  lemma CutAligned(r: Region, lo: nat, hi: nat, s: nat, e: nat)
    requires lo < hi && lo % PAGE_SIZE == 0 && hi % PAGE_SIZE == 0 && Aligned([r]) && Within([r], s, e)
    ensures Aligned(Cut(r, lo, hi)) && Within(Cut(r, lo, hi), s, e)
  {
    assert [r][0] == r && r.start % PAGE_SIZE == 0 && r.size % PAGE_SIZE == 0;
    PagesBetween(r.start, r.size);
    PagesBetween(r.start, lo);
    PagesBetween(r.start, hi);
    PagesBetween(lo, r.Top());
    PagesBetween(hi, r.Top());
    assert r.size - (hi - r.start) == r.Top() - hi && r.size - (r.Top() - lo) == lo - r.start;
  }

  lemma {:induction false} CutAllAligned(rs: seq<Region>, lo: nat, hi: nat, s: nat, e: nat)
    requires lo < hi && lo % PAGE_SIZE == 0 && hi % PAGE_SIZE == 0 && Aligned(rs) && Within(rs, s, e)
    ensures Aligned(CutAll(rs, lo, hi)) && Within(CutAll(rs, lo, hi), s, e)
  {
    if rs != [] {
      CutAligned(rs[0], lo, hi, s, e);
      CutAllAligned(rs[1..], lo, hi, s, e);
      hide Cut;
    }
  }

  /** Removing an interval leaves a good list good: sorted, aligned, inside the space and still coalesced. */
  lemma CutAllGood(rs: seq<Region>, lo: nat, hi: nat, s: nat, e: nat)
    requires GoodList(rs, s, e) && lo < hi && lo % PAGE_SIZE == 0 && hi % PAGE_SIZE == 0
    ensures GoodList(CutAll(rs, lo, hi), s, e)
  {
    hide Sorted, Coalesced, Aligned, Within, CutAll;
    CutAllSorted(rs, lo, hi);
    CutAllCoalesced(rs, lo, hi);
    CutAllAligned(rs, lo, hi, s, e);
  }

  lemma EmptyFit(end: nat, hint: nat, bytes: nat)
    requires bytes > 0 && hint + bytes <= end
    ensures LeastFit([], end, hint, bytes, Some(hint))
  {
  }
}
