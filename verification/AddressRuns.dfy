/**
 Whole runs of maps and unmaps of one address space (kernel/mem/vmm.c): `insert_range` as `vmm_map` calls it and
 `change_map` with free = true.  The state is the list of ranges and which links back are right; an unmap goes on
 with the run when the first range it unlinks has its link right, which is exactly when `change_map` does what it is
 meant to do.
 */
module AddressRuns {
  import opened Options
  import opened Paging
  import opened RangeList
  import opened RangeLinks
  import opened RangeWalk
  import opened AddressSpace

  datatype State = State(rs: seq<Region>, ms: Marks)

  /** A range goes in, an interval goes out. */
  datatype Op = MapAt(r: Region) | Unmap(lo: nat, hi: nat)

  ghost predicate Fitting(rs: seq<Region>, r: Region, start: nat, end: nat) {
    && r.size > 0 && r.start % PAGE_SIZE == 0 && r.size % PAGE_SIZE == 0
    && start <= r.start && r.Top() <= end && Apart(r, rs)
  }

  ghost predicate OpOk(s: State, op: Op, start: nat, end: nat) {
    && |s.ms| == |s.rs|
    && match op
       case MapAt(r) => Fitting(s.rs, r, start, end)
       case Unmap(lo, hi) =>
         lo < hi && lo % PAGE_SIZE == 0 && hi % PAGE_SIZE == 0 && Guarded(s.rs, s.ms, lo, hi)
  }

  ghost function After(s: State, op: Op, start: nat, end: nat): State
    requires OpOk(s, op, start, end)
  {
    match op
    case MapAt(r) => State(Insert(s.rs, r), InsertMarks(s.rs, s.ms, r))
    case Unmap(lo, hi) => State(CutAll(s.rs, lo, hi), CutMarks(s.rs, s.ms, lo, hi))
  }

  ghost predicate Run(states: seq<State>, ops: seq<Op>, start: nat, end: nat) {
    && |states| == |ops| + 1 && states[0] == State([], [])
    && forall n :: 0 <= n < |ops| ==>
         OpOk(states[n], ops[n], start, end) && states[n + 1] == After(states[n], ops[n], start, end)
  }

  /** What an operation says of address a, where it was mapped to `was`. */
  function Says(op: Op, a: nat, was: Option<Backing>): Option<Backing> {
    match op
    case MapAt(r) => if r.Has(a) then Some(r.At(a)) else was
    case Unmap(lo, hi) => if lo <= a < hi then None else was
  }

  /** What the last operation that touched address a left there. */
  function Meaning(ops: seq<Op>, a: nat): Option<Backing> {
    if ops == [] then None else Says(ops[|ops| - 1], a, Meaning(ops[..|ops| - 1], a))
  }

  lemma MapKeeps(rs: seq<Region>, r: Region, start: nat, end: nat)
    requires GoodList(rs, start, end) && Fitting(rs, r, start, end)
    ensures GoodList(Insert(rs, r), start, end) && Adds(rs, r, Insert(rs, r))
  {
    InsertWithin(rs, r, start, end);
    InsertAligned(rs, r);
    hide Aligned, Within, Insert, Lookup, Sorted, Coalesced, Apart;
    forall a: nat ensures Lookup(Insert(rs, r), a) == if r.Has(a) then Some(r.At(a)) else Lookup(rs, a) {
      InsertMeaning(rs, r, a);
    }
    InsertMeaning(rs, r, 0);
  }

  /** A good list, and a first range without a predecessor. */
  ghost predicate StateOk(s: State, start: nat, end: nat) {
    GoodList(s.rs, start, end) && |s.ms| == |s.rs| && (s.ms != [] ==> s.ms[0])
  }

  lemma StepKeeps(s: State, op: Op, start: nat, end: nat)
    requires StateOk(s, start, end) && OpOk(s, op, start, end)
    ensures StateOk(After(s, op, start, end), start, end)
    ensures forall a: nat :: Lookup(After(s, op, start, end).rs, a) == Says(op, a, Lookup(s.rs, a))
  {
    hide Insert, CutAll, Lookup, Sorted, Coalesced, Aligned, Within, Apart, InsertMarks, CutMarks, Guarded;
    match op
    case MapAt(r) =>
      MapKeeps(s.rs, r, start, end);
      InsertMarksHead(s.rs, s.ms, r);
    case Unmap(lo, hi) =>
      CutAllMeaning(s.rs, lo, hi);
      CutAllGood(s.rs, lo, hi, start, end);
      CutMarksHead(s.rs, s.ms, lo, hi);
  }

  /**
   In every state of every run the list is sorted, coalesced, aligned and inside the space, and every address is
   mapped to what the last operation that touched it said.
   */
  lemma {:induction false} RunMeaning(states: seq<State>, ops: seq<Op>, start: nat, end: nat, n: nat)
    requires Run(states, ops, start, end) && n < |states|
    ensures StateOk(states[n], start, end)
    ensures forall a: nat :: Lookup(states[n].rs, a) == Meaning(ops[..n], a)
  {
    hide GoodList, After, OpOk;
    if n == 0 {
      EmptyGood(start, end);
    } else {
      RunMeaning(states, ops, start, end, n - 1);
      StepKeeps(states[n - 1], ops[n - 1], start, end);
      assert ops[..n][..n - 1] == ops[..n - 1] && ops[..n][n - 1] == ops[n - 1];
    }
  }

  /** No map of the run is a middle insert without a merge. */
  ghost predicate Tidy(states: seq<State>, ops: seq<Op>) {
    |states| == |ops| + 1 && forall n :: 0 <= n < |ops| && ops[n].MapAt? ==> KeepsBack(states[n].rs, ops[n].r)
  }

  lemma TidyStep(s: State, op: Op, start: nat, end: nat)
    requires OpOk(s, op, start, end) && AllRight(s.ms) && (op.MapAt? ==> KeepsBack(s.rs, op.r))
    ensures AllRight(After(s, op, start, end).ms) && |After(s, op, start, end).ms| == |After(s, op, start, end).rs|
  {
    hide Insert, CutAll, InsertMarks, CutMarks, Guarded, AllRight, KeepsBack, Apart;
    match op
    case MapAt(r) => InsertMarksRight(s.rs, s.ms, r);
    case Unmap(lo, hi) => CutMarksRight(s.rs, s.ms, lo, hi);
  }

  /** In such a run every link is right in every state, so any unmap may come next. */
  lemma {:induction false} TidyRun(states: seq<State>, ops: seq<Op>, start: nat, end: nat, n: nat, lo: nat, hi: nat)
    requires Run(states, ops, start, end) && Tidy(states, ops) && n < |states| && lo < hi
    ensures AllRight(states[n].ms) && |states[n].ms| == |states[n].rs|
    ensures Guarded(states[n].rs, states[n].ms, lo, hi)
  {
    hide Guarded, KeepsBack, OpOk, After;
    if n > 0 {
      TidyRun(states, ops, start, end, n - 1, lo, hi);
      TidyStep(states[n - 1], ops[n - 1], start, end);
    }
    CutMarksRight(states[n].rs, states[n].ms, lo, hi);
  }

  // ---------- the list is decided by its meaning ----------

  /** The same range; what an anonymous range keeps in the file fields does not count. */
  predicate Alike(a: Region, b: Region) {
    && a.start == b.start && a.size == b.size && a.flags == b.flags && a.prot == b.prot
    && (a.flags.file ==> a.vnode == b.vnode && a.offset == b.offset)
  }

  predicate AllAlike(rs: seq<Region>, rs': seq<Region>) {
    |rs| == |rs'| && forall i :: 0 <= i < |rs| ==> Alike(rs[i], rs'[i])
  }

  ghost predicate SameMeaning(rs: seq<Region>, rs': seq<Region>) {
    forall a: nat :: Lookup(rs, a) == Lookup(rs', a)
  }

  /** The first mapped address is the start of the first range. */
  lemma FirstMapped(rs: seq<Region>, a: nat)
    requires Sorted(rs) && rs != []
    ensures Lookup(rs, rs[0].start) == Some(rs[0].At(rs[0].start))
    ensures Lookup(rs, a).Some? ==> rs[0].start <= a
  {
    LookupAt(rs, 0, rs[0].start);
    if Lookup(rs, a).Some? {
      LookupBounds(rs, a);
    }
  }

  lemma SameStart(rs: seq<Region>, rs': seq<Region>)
    requires Sorted(rs) && Sorted(rs') && rs != [] && rs' != [] && SameMeaning(rs, rs')
    ensures rs[0].start == rs'[0].start && rs[0].At(rs[0].start) == rs'[0].At(rs[0].start)
  {
    FirstMapped(rs, rs'[0].start);
    FirstMapped(rs', rs[0].start);
  }

  /** Where another list of the same meaning has a longer first range, the second range continues the first. */
  lemma NextContinues(rs: seq<Region>, rs': seq<Region>)
    requires Sorted(rs) && Sorted(rs') && rs != [] && rs' != [] && SameMeaning(rs, rs')
    requires rs[0].Top() < rs'[0].Top()
    ensures |rs| > 1 && Continues(rs[0], rs[0 + 1])
  {
    SameStart(rs, rs');
    var a := rs[0].Top();
    LookupAt(rs', 0, a);
    LookupBounds(rs, a);
    var i :| 0 <= i < |rs| && rs[i].Has(a);
    assert i == 1;
    LookupAt(rs, 1, a);
  }

  /** A coalesced first range reaches as far as that of any list of the same meaning. */
  lemma ReachesAsFar(rs: seq<Region>, rs': seq<Region>)
    requires Sorted(rs) && Sorted(rs') && Coalesced(rs) && rs != [] && rs' != [] && SameMeaning(rs, rs')
    ensures rs'[0].Top() <= rs[0].Top()
  {
    if rs[0].Top() < rs'[0].Top() {
      NextContinues(rs, rs');
      assert false;
    }
  }

  lemma TailMeaning(rs: seq<Region>, rs': seq<Region>)
    requires Sorted(rs) && Sorted(rs') && rs != [] && rs' != [] && SameMeaning(rs, rs')
    requires rs[0].start == rs'[0].start && rs[0].Top() == rs'[0].Top()
    ensures Sorted(rs[1..]) && Sorted(rs'[1..]) && SameMeaning(rs[1..], rs'[1..])
  {
    forall a: nat ensures Lookup(rs[1..], a) == Lookup(rs'[1..], a) {
      if rs[0].Has(a) {
        LookupMiss(rs[1..], a);
        LookupMiss(rs'[1..], a);
      } else {
        assert Lookup(rs, a) == Lookup(rs', a);
      }
    }
  }

  /** Sorted, coalesced lists that map every address alike are the same list. */
  lemma {:induction false} Canonical(rs: seq<Region>, rs': seq<Region>)
    requires Sorted(rs) && Sorted(rs') && Coalesced(rs) && Coalesced(rs') && SameMeaning(rs, rs')
    ensures AllAlike(rs, rs')
  {
    if rs == [] && rs' != [] {
      FirstMapped(rs', 0);
      assert false;
    } else if rs' == [] && rs != [] {
      FirstMapped(rs, 0);
      assert false;
    } else if rs != [] {
      SameStart(rs, rs');
      ReachesAsFar(rs, rs');
      ReachesAsFar(rs', rs);
      TailMeaning(rs, rs');
      CoalescedParts(rs, 1);
      CoalescedParts(rs', 1);
      Canonical(rs[1..], rs'[1..]);
      hide Sorted, Coalesced, Lookup;
      assert Alike(rs[0], rs'[0]);
      forall i | 0 <= i < |rs| ensures Alike(rs[i], rs'[i]) {
        if i > 0 { assert Alike(rs[1..][i - 1], rs'[1..][i - 1]); }
      }
    }
  }

  /** Two runs that leave the same meaning leave the same list, whatever they did on the way. */
  lemma RunsAgree(states: seq<State>, ops: seq<Op>, states': seq<State>, ops': seq<Op>, start: nat, end: nat)
    requires Run(states, ops, start, end) && Run(states', ops', start, end)
    requires forall a: nat :: Meaning(ops, a) == Meaning(ops', a)
    ensures AllAlike(states[|ops|].rs, states'[|ops'|].rs)
  {
    hide Sorted, Coalesced, Aligned, Within, Meaning, AllAlike, Lookup;
    RunMeaning(states, ops, start, end, |ops|);
    RunMeaning(states', ops', start, end, |ops'|);
    assert ops[..|ops|] == ops && ops'[..|ops'|] == ops';
    Canonical(states[|ops|].rs, states'[|ops'|].rs);
  }

  // ---------- taking back a map ----------

  /** Removing what was just inserted gives the list from before, merges and splits undone. */
  lemma MapThenUnmap(s: State, r: Region, start: nat, end: nat)
    requires StateOk(s, start, end) && Fitting(s.rs, r, start, end)
    ensures AllAlike(CutAll(Insert(s.rs, r), r.start, r.Top()), s.rs)
    ensures Guarded(Insert(s.rs, r), InsertMarks(s.rs, s.ms, r), r.start, r.Top())
  {
    hide Sorted, Coalesced, Aligned, Within, AllAlike, Lookup, Insert, CutAll, InsertMarks, Guarded;
    MapKeeps(s.rs, r, start, end);
    var with := Insert(s.rs, r);
    PagesBetween(r.start, r.size);
    CutAllMeaning(with, r.start, r.Top());
    CutAllGood(with, r.start, r.Top(), start, end);
    forall a: nat ensures Lookup(CutAll(with, r.start, r.Top()), a) == Lookup(s.rs, a) {
      if r.Has(a) { ApartMisses(s.rs, r, a); }
    }
    Canonical(CutAll(with, r.start, r.Top()), s.rs);
    JustMapped(s.rs, s.ms, r);
  }

  lemma ApartMisses(rs: seq<Region>, r: Region, a: nat)
    requires Apart(r, rs) && r.Has(a)
    ensures Lookup(rs, a).None?
  {
    LookupMiss(rs, a);
  }

  /** The only range that can lie inside the one just inserted is that one, and its own link is right. */
  lemma JustMapped(rs: seq<Region>, ms: Marks, r: Region)
    requires |ms| == |rs| && Sorted(rs) && r.size > 0 && Apart(r, rs)
    ensures Guarded(Insert(rs, r), InsertMarks(rs, ms, r), r.start, r.Top())
  {
    hide Guarded, InsertMarks, Insert, FirstCovered, Covered, Merges, Sorted, Apart;
    var p, with, m := Position(rs, r.start), Insert(rs, r), InsertMarks(rs, ms, r);
    GuardedIs(with, m, r.start, r.Top());
    if Merges(rs, p, r) {
      forall i | 0 <= i < |with| ensures !Covered(with[i], r.start, r.Top()) {
        NotCovered(rs, r, i);
      }
    } else {
      InsertedAt(rs, ms, r);
      Surrounded(rs, r);
    }
  }

  lemma Surrounded(rs: seq<Region>, r: Region)
    requires Sorted(rs) && r.size > 0 && Apart(r, rs)
    ensures var p := Position(rs, r.start);
      FirstCovered(rs[..p] + [r] + rs[p..], r.start, r.Top()) == p
  {
    var p := Position(rs, r.start);
    var with := rs[..p] + [r] + rs[p..];
    assert with[p] == r && Covered(r, r.start, r.Top());
    forall i | 0 <= i < p ensures !Covered(with[i], r.start, r.Top()) {
      assert with[i] == rs[i];
    }
    FirstIs(with, p, r.start, r.Top());
  }

  lemma FirstIs(rs: seq<Region>, p: nat, lo: nat, hi: nat)
    requires p < |rs| && Covered(rs[p], lo, hi) && forall i :: 0 <= i < p ==> !Covered(rs[i], lo, hi)
    ensures FirstCovered(rs, lo, hi) == p
  {
    hide Covered;
  }

  lemma InsertedAt(rs: seq<Region>, ms: Marks, r: Region)
    requires |ms| == |rs| && !Merges(rs, Position(rs, r.start), r)
    ensures var p := Position(rs, r.start);
      Insert(rs, r) == rs[..p] + [r] + rs[p..] && InsertMarks(rs, ms, r)[p]
  {
    var p := Position(rs, r.start);
    assert rs[..p] + ([r] + rs[p..]) == rs[..p] + [r] + rs[p..];
    assert p > 0 ==> rs[..p][p - 1] == rs[p - 1];
    assert p < |rs| ==> rs[p..][0] == rs[p];
  }

  lemma InJoinRight(r: Region, rs: seq<Region>, x: Region)
    requires x in JoinRight(r, rs)
    ensures x in rs || x == if rs != [] && Continues(r, rs[0]) then Join(r, rs[0]) else r
    ensures x in JoinRight(r, rs)[1..] ==> x in rs
  {
  }

  lemma InJoinLeft(left: seq<Region>, s: seq<Region>, x: Region)
    requires |s| > 0 && x in JoinLeft(left, s)
    ensures x in left || x in s[1..] ||
            x == if left != [] && Continues(left[|left| - 1], s[0]) then Join(left[|left| - 1], s[0]) else s[0]
  {
    assert forall y :: y in s ==> y == s[0] || y in s[1..];
  }

  lemma ApartUncovered(rs: seq<Region>, r: Region, x: Region)
    requires Sorted(rs) && Apart(r, rs) && r.size > 0 && x in rs
    ensures !Covered(x, r.start, r.Top())
  {
  }

  /** A range merged with r reaches out of it. */
  lemma NotCovered(rs: seq<Region>, r: Region, i: nat)
    requires Sorted(rs) && r.size > 0 && Apart(r, rs) && Merges(rs, Position(rs, r.start), r) && i < |Insert(rs, r)|
    ensures !Covered(Insert(rs, r)[i], r.start, r.Top())
  {
    hide Sorted, Apart, JoinLeft, JoinRight;
    var p, x := Position(rs, r.start), Insert(rs, r)[i];
    var left, s := rs[..p], JoinRight(r, rs[p..]);
    InJoinLeft(left, s, x);
    InJoinRight(r, rs[p..], s[0]);
    FirstOfJoin(r, rs[p..]);
    if x in rs {
      ApartUncovered(rs, r, x);
    } else if x in s[1..] {
      InJoinRight(r, rs[p..], x);
    } else {
      assert p > 0 ==> left[p - 1] == rs[p - 1];
      FirstSizes(rs, p);
    }
  }

  lemma FirstOfJoin(r: Region, rs: seq<Region>)
    ensures JoinRight(r, rs)[0] == if rs != [] && Continues(r, rs[0]) then Join(r, rs[0]) else r
  {
  }

  lemma FirstSizes(rs: seq<Region>, p: nat)
    requires Sorted(rs) && p <= |rs|
    ensures (p < |rs| ==> rs[p].size > 0 && rs[p..][0] == rs[p]) && (p > 0 ==> rs[p - 1].size > 0)
  {
  }

  // ---------- a run that goes wrong ----------

  const A := Region(0x1000, 0x1000, Flags(false, false), 3, 0, 0)
  const B := A.(start := 0x3000)
  const C := A.(start := 0x5000)

  lemma First()
    ensures Insert([], A) == [A] && InsertMarks([], [], A) == [true]
  {
  }

  lemma Second()
    ensures Insert([A], C) == [A, C] && InsertMarks([A], [true], C) == [true, true]
  {
    assert [A][..1] == [A] && [A][1..] == [];
    assert [true][..1] == [true] && [true][1..] == [];
    assert Position([A][1..], C.start) == 0;
    assert Position([A], C.start) == 1;
  }

  lemma ThirdPlace()
    ensures Position([A, C], B.start) == 1 && !Merges([A, C], 1, B)
  {
    assert [A, C][1..] == [C];
    assert Position([C], B.start) == 0;
  }

  lemma ThirdList()
    ensures Insert([A, C], B) == [A, B, C] && InsertMarks([A, C], [true, true], B) == [true, true, false]
  {
    ThirdPlace();
    assert [A, C][..1] == [A] && [A, C][1..] == [C];
    assert [true, true][..1] == [true] && [true, true][1..] == [true];
  }

  lemma ThirdCovered()
    ensures FirstCovered([A, B, C], 0x5000, 0x6000) == 2 && !Guarded([A, B, C], [true, true, false], 0x5000, 0x6000)
    ensures Sorted([A, B, C]) && Aligned([A, B, C])
  {
    FirstIs([A, B, C], 2, 0x5000, 0x6000);
    GuardedIs([A, B, C], [true, true, false], 0x5000, 0x6000);
  }

  lemma Bypass()
    ensures CutList([A, B, C], Earlier(1), 0x5000, 0x6000) == [A]
    ensures Lookup([A], 0x3000).None? && Lookup([A, B, C], 0x3000).Some?
  {
    ThirdCovered();
    assert Bypassed([A, B, C], 1, 2) == [A, C];
    assert [A, C][1..] == [C] && [C][1..] == [] && [A][1..] == [];
    assert Cut(A, 0x5000, 0x6000) == [A] && Cut(C, 0x5000, 0x6000) == [];
    assert CutAll([C], 0x5000, 0x6000) == [];
    assert [A, B, C][1..] == [B, C];
  }

  lemma Fitted(rs: seq<Region>, hint: nat, least: Option<nat>)
    requires LeastFit(rs, 0x8000, hint, 0x1000, least) && hint + 0x1000 <= 0x8000
    requires forall i :: 0 <= i < |rs| ==> rs[i].Top() <= hint || hint + 0x1000 <= rs[i].start
    ensures least == Some(hint)
  {
    assert Fits(rs, 0x8000, hint, 0x1000);
  }

  lemma Page(n: nat)
    requires n % PAGE_SIZE == 0
    ensures PageDown(n) == n && PageUp(n) == n
  {
  }

  lemma EmptyBacks(space: Space)
    requires space.nodes == [] && space.Chain()
    ensures space.Backs() && space.Regions() == [] && space.Marks() == [] && GoodList([], 0x1000, 0x8000)
  {
    EmptyGood(0x1000, 0x8000);
  }

  method OneMap() returns (space: Space)
    ensures fresh(space) && fresh(space.all) && space.start == 0x1000 && space.end == 0x8000
    ensures space.Valid() && space.Backs() && space.pages == map[]
    ensures space.Regions() == [A] && space.Marks() == [true]
  {
    hide GoodList, LeastFit, Adds, Insert, InsertMarks, BacksOf, MarksOf, PrevsOf, RegionsOf, PageDown, PageUp;
    Page(0x1000);
    First();
    space := new Space(0x1000, 0x8000);
    EmptyBacks(space);
    var got;
    ghost var least;
    got, least := space.Map(0x1000, 0x1000, false, A.flags, A.prot, A.vnode, A.offset);
  }

  method TwoMaps() returns (space: Space)
    ensures fresh(space) && fresh(space.all) && space.start == 0x1000 && space.end == 0x8000
    ensures space.Valid() && space.Backs() && space.pages == map[]
    ensures space.Regions() == [A, C] && space.Marks() == [true, true]
  {
    hide GoodList, LeastFit, Adds, Insert, InsertMarks, BacksOf, MarksOf, PrevsOf, RegionsOf, PageDown, PageUp;
    Page(0x1000);
    Page(0x5000);
    Second();
    space := OneMap();
    space.InAll();
    assert |space.nodes| == 1 && space.nodes[0] in space.nodes && space.nodes[0] in space.all;
    var got;
    ghost var least;
    got, least := space.Map(0x5000, 0x1000, false, C.flags, C.prot, C.vnode, C.offset);
    Fitted([A], 0x5000, least);
  }

  /** Node 2 is linked back to node 0, so the ranges from index 1 on will be bypassed. */
  lemma StaleLink(space: Space, was: seq<Range>, ps: seq<Range?>)
    requires |was| == |ps| == 2 && space.Put(was, ps, 1) && ps[1] == was[0]
    ensures |space.nodes| == 3 && space.nodes[2].prev == space.nodes[0]
  {
    assert space.nodes[2] == was[1] && space.Prevs()[2] == ps[1] && space.nodes[0] == was[0];
  }

  lemma RightLink(space: Space)
    requires |space.nodes| == 2 && space.Marks() == [true, true]
    ensures space.Prevs()[1] == space.nodes[0]
  {
    space.MarkAt(1);
  }

  lemma LinkOfC(space: Space, link: Prev)
    requires space.Chain() && |space.nodes| == 3 && space.nodes[2].prev == space.nodes[0]
    requires space.Regions() == [A, B, C] && space.Marks() == [true, true, false]
    requires space.LinkIs(link, 0x5000, 0x6000)
    ensures link == Earlier(1)
  {
    ThirdCovered();
    assert space.nodes[2].prev in space.nodes;
  }

  /** Maps A, then C, then B between them: C's link back still names A. */
  method ThreeMaps() returns (space: Space)
    ensures fresh(space) && fresh(space.all) && space.Valid() && space.Backs() && space.pages == map[]
    ensures space.Regions() == [A, B, C] && space.Marks() == [true, true, false]
    ensures |space.nodes| == 3 && space.nodes[2].prev == space.nodes[0]
  {
    hide GoodList, LeastFit, Adds, Insert, InsertMarks, BacksOf, MarksOf, PrevsOf, RegionsOf, PageDown, PageUp;
    Page(0x1000);
    Page(0x3000);
    ThirdPlace();
    ThirdList();
    space := TwoMaps();
    RightLink(space);
    space.InAll();
    ghost var was, ps := space.nodes, space.Prevs();
    var got;
    ghost var least;
    got, least := space.Map(0x3000, 0x1000, false, B.flags, B.prot, B.vnode, B.offset);
    Fitted([A, C], 0x3000, least);
    StaleLink(space, was, ps);
  }

  /**
   Unmapping C after that: the list jumps back to A, and B, which nobody unmapped, is gone from it while its pages
   would stay.
   */
  method LostRangeExample() returns (space: Space, ghost link: Prev)
    ensures fresh(space) && space.Chain() && space.Regions() == [A] && link == Earlier(1)
    ensures Lookup([A, B, C], 0x3000).Some? && Lookup(space.Regions(), 0x3000).None?
  {
    hide GoodList, BacksOf, MarksOf, PrevsOf, RegionsOf, CutAll, Guarded, FirstCovered, Sorted, Aligned, Lookup,
         Removes, PagesLeft, CutMarks, CutList, InsertMarks, Insert, Space.LinkIs, Space.Chain;
    ThirdCovered();
    Bypass();
    space := ThreeMaps();
    forall l: Prev | space.LinkIs(l, 0x5000, 0x6000) ensures l == Earlier(1) {
      LinkOfC(space, l);
    }
    link := space.ChangeMap(0x5000, 0x1000);
  }
}
