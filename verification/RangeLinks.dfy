/**
 Which `prev` links of a list of ranges are right.  kernel/mem/vmm.c follows `next` to walk the list but unlinks
 a range through its `prev`, and `insert_range` leaves the `prev` of a successor stale.  `marks` says of each range
 whether its `prev` names the range before it, null for the first.
 */
module RangeLinks {
  import opened Options
  import opened RangeList

  type Marks = seq<bool>

  /** The range lies wholly inside [lo, hi): `change_map` unlinks it. */
  predicate Covered(r: Region, lo: nat, hi: nat) {
    lo <= r.start && r.Top() <= hi
  }

  /** The interval lies inside the range: `change_map` splits it. */
  predicate Splits(r: Region, lo: nat, hi: nat) {
    r.start < lo && hi < r.Top()
  }

  /** The marks of the ranges behind a place where links were written. */
  function WithFirst(ms: Marks, right: bool): (r: Marks)
    ensures |r| == |ms|
  {
    if ms == [] then [] else [right] + ms[1..]
  }

  /** Index of the first covered range; |rs| when there is none. */
  function FirstCovered(rs: seq<Region>, lo: nat, hi: nat): (p: nat)
    ensures p <= |rs| && (p < |rs| ==> Covered(rs[p], lo, hi))
    ensures forall i :: 0 <= i < p ==> !Covered(rs[i], lo, hi)
  {
    if rs == [] || Covered(rs[0], lo, hi) then 0 else 1 + FirstCovered(rs[1..], lo, hi)
  }

  /** The first range to be unlinked, if any, has its `prev` right; unlinking it makes that of the next one right. */
  predicate Guarded(rs: seq<Region>, ms: Marks, lo: nat, hi: nat)
    requires |ms| == |rs|
  {
    rs != [] ==> if Covered(rs[0], lo, hi) then ms[0] else Guarded(rs[1..], ms[1..], lo, hi)
  }

  lemma {:induction false} GuardedIs(rs: seq<Region>, ms: Marks, lo: nat, hi: nat)
    requires |ms| == |rs|
    ensures var p := FirstCovered(rs, lo, hi);
      Guarded(rs, ms, lo, hi) <==> p == |rs| || ms[p]
  {
    if rs != [] && !Covered(rs[0], lo, hi) {
      GuardedIs(rs[1..], ms[1..], lo, hi);
    }
  }

  /** The marks after an interval is removed. */
  function CutMarks(rs: seq<Region>, ms: Marks, lo: nat, hi: nat): (r: Marks)
    requires |ms| == |rs| && lo < hi
    ensures |r| == |CutAll(rs, lo, hi)|
    decreases |rs|
  {
    if rs == [] then []
    else if Covered(rs[0], lo, hi) then CutMarks(rs[1..], WithFirst(ms[1..], ms[0]), lo, hi)
    else if Splits(rs[0], lo, hi) then [ms[0], true] + CutMarks(rs[1..], WithFirst(ms[1..], true), lo, hi)
    else [ms[0]] + CutMarks(rs[1..], ms[1..], lo, hi)
  }

  predicate AllRight(ms: Marks) {
    forall i :: 0 <= i < |ms| ==> ms[i]
  }

  /** Removal never spoils a link. */
  lemma {:induction false} CutMarksRight(rs: seq<Region>, ms: Marks, lo: nat, hi: nat)
    requires |ms| == |rs| && lo < hi && AllRight(ms)
    ensures AllRight(CutMarks(rs, ms, lo, hi)) && Guarded(rs, ms, lo, hi)
    decreases |rs|
  {
    GuardedIs(rs, ms, lo, hi);
    if rs != [] {
      CutMarksRight(rs[1..], ms[1..], lo, hi);
      assert WithFirst(ms[1..], true) == ms[1..];
    }
  }

  /** The first mark stays right. */
  lemma {:induction false} CutMarksHead(rs: seq<Region>, ms: Marks, lo: nat, hi: nat)
    requires |ms| == |rs| && lo < hi && (ms != [] ==> ms[0])
    ensures var r := CutMarks(rs, ms, lo, hi); r != [] ==> r[0]
    decreases |rs|
  {
    if rs != [] && Covered(rs[0], lo, hi) {
      CutMarksHead(rs[1..], WithFirst(ms[1..], ms[0]), lo, hi);
    }
  }

  // ---------- the marks after an insertion ----------

  /** A range linked at index p: in the middle, its successor is not told. */
  function LinkMarks(ms: Marks, p: nat): (r: Marks)
    requires p <= |ms|
    ensures |r| == |ms| + 1
  {
    ms[..p] + [true] + WithFirst(ms[p..], p == 0)
  }

  /** Range i is taken out by an operation that writes the `prev` of the range behind it. */
  function DropMarks(ms: Marks, i: nat): (r: Marks)
    requires i < |ms|
    ensures |r| == |ms| - 1
  {
    ms[..i] + WithFirst(ms[i + 1..], true)
  }

  /** The merges of a range linked at index p of rs, first with what follows, then with what comes before. */
  function MergeMarks(rs: seq<Region>, linked: Marks, p: nat, r: Region): Marks
    requires p <= |rs| && |linked| == |rs| + 1
  {
    var merged := if p < |rs| && Continues(r, rs[p]) then DropMarks(linked, p + 1) else linked;
    if p > 0 && Continues(rs[p - 1], r) then DropMarks(merged, p) else merged
  }

  /** The marks after `insert_range`. */
  function InsertMarks(rs: seq<Region>, ms: Marks, r: Region): (m: Marks)
    requires |ms| == |rs|
    ensures |m| == |Insert(rs, r)|
  {
    var p := Position(rs, r.start);
    MergeMarks(rs, LinkMarks(ms, p), p, r)
  }

  /** With all links right, an insertion keeps them right exactly at an end of the list or with a merge. */
  lemma InsertMarksRight(rs: seq<Region>, ms: Marks, r: Region)
    requires |ms| == |rs| && AllRight(ms)
    ensures AllRight(InsertMarks(rs, ms, r)) <==> KeepsBack(rs, r)
  {
    hide AllRight, Continues, LinkMarks, DropMarks;
    var p := Position(rs, r.start);
    LinkRight(ms, p);
    var linked := LinkMarks(ms, p);
    if p < |rs| && Continues(r, rs[p]) {
      DropRight(linked, p + 1);
      DropRight(DropMarks(linked, p + 1), p);
    } else {
      DropRight(linked, p);
    }
  }

  /** All are right but for the successor, and that one too at an end of the list. */
  ghost predicate RightBut(ms: Marks, i: nat) {
    forall j :: 0 <= j < |ms| && j != i ==> ms[j]
  }

  lemma LinkRight(ms: Marks, p: nat)
    requires AllRight(ms) && p <= |ms|
    ensures RightBut(LinkMarks(ms, p), p + 1) && |LinkMarks(ms, p)| == |ms| + 1
    ensures AllRight(LinkMarks(ms, p)) <==> p == 0 || p == |ms|
  {
    var linked := LinkMarks(ms, p);
    if 0 < p < |ms| {
      assert !linked[p + 1];
    }
  }

  /** Taking range i out repairs the one behind it. */
  lemma DropRight(ms: Marks, i: nat)
    requires i < |ms| && (RightBut(ms, i) || RightBut(ms, i + 1) || AllRight(ms))
    ensures AllRight(DropMarks(ms, i)) && |DropMarks(ms, i)| == |ms| - 1
  {
  }

  /** The first mark is right after every insertion. */
  lemma InsertMarksHead(rs: seq<Region>, ms: Marks, r: Region)
    requires |ms| == |rs| && (ms != [] ==> ms[0])
    ensures var m := InsertMarks(rs, ms, r); m != [] && m[0]
  {
  }

  // ---------- ranges before the first covered one ----------

  /** With a covered range in the list no range is split, and the covered ones stand together. */
  lemma CoveredFacts(rs: seq<Region>, p: nat, lo: nat, hi: nat)
    requires Sorted(rs) && p < |rs| && Covered(rs[p], lo, hi)
    ensures forall i :: 0 <= i < |rs| ==> !Splits(rs[i], lo, hi)
    ensures forall i :: 0 <= i < p ==> rs[i].Top() <= hi
    ensures forall i :: p <= i < |rs| ==> lo <= rs[i].start
  {
  }

  /** Behind an uncovered range that starts at lo or later nothing is covered. */
  lemma NoneLater(rs: seq<Region>, lo: nat, hi: nat)
    requires Sorted(rs) && rs != [] && lo <= rs[0].start && !Covered(rs[0], lo, hi)
    ensures forall i :: 0 <= i < |rs| ==> !Covered(rs[i], lo, hi)
  {
  }

  /** What a visit leaves in the range itself. */
  function Shrunk(r: Region, lo: nat, hi: nat): Region
    requires lo < hi
  {
    if Covered(r, lo, hi) then r.(size := 0)
    else if Splits(r, lo, hi) then r.(size := lo - r.start)
    else Cut(r, lo, hi)[0]
  }

  function ShrunkAll(rs: seq<Region>, lo: nat, hi: nat): (s: seq<Region>)
    requires lo < hi
    ensures |s| == |rs|
  {
    seq(|rs|, i requires 0 <= i < |rs| => Shrunk(rs[i], lo, hi))
  }

  lemma ShrunkOne(rs: seq<Region>, k: nat, lo: nat, hi: nat)
    requires lo < hi && k < |rs|
    ensures ShrunkAll(rs[..k + 1], lo, hi) == ShrunkAll(rs[..k], lo, hi) + [Shrunk(rs[k], lo, hi)]
  {
    hide Shrunk;
  }

  ghost predicate Plain(rs: seq<Region>, lo: nat, hi: nat) {
    forall i :: 0 <= i < |rs| ==> !Covered(rs[i], lo, hi) && !Splits(rs[i], lo, hi)
  }

  /** Ranges that are neither covered nor split stay in their places. */
  lemma {:induction false} PlainCut(rs: seq<Region>, lo: nat, hi: nat)
    requires Plain(rs, lo, hi) && lo < hi
    ensures CutAll(rs, lo, hi) == ShrunkAll(rs, lo, hi)
  {
    if rs != [] {
      PlainCut(rs[1..], lo, hi);
      assert Cut(rs[0], lo, hi) == [Shrunk(rs[0], lo, hi)];
      assert ShrunkAll(rs, lo, hi) == [Shrunk(rs[0], lo, hi)] + ShrunkAll(rs[1..], lo, hi);
    }
  }

  lemma StayMarks(r: Region, m: bool, rest: seq<Region>, rm: Marks, lo: nat, hi: nat)
    requires !Covered(r, lo, hi) && !Splits(r, lo, hi) && lo < hi && |rm| == |rest|
    ensures CutMarks([r] + rest, [m] + rm, lo, hi) == [m] + CutMarks(rest, rm, lo, hi)
  {
    assert ([r] + rest)[0] == r && ([r] + rest)[1..] == rest && ([m] + rm)[1..] == rm;
  }

  lemma {:induction false} PlainMarks(rs: seq<Region>, ms: Marks, rest: seq<Region>, ns: Marks, lo: nat, hi: nat)
    requires Plain(rs, lo, hi) && lo < hi && |ms| == |rs| && |ns| == |rest|
    ensures CutMarks(rs + rest, ms + ns, lo, hi) == ms + CutMarks(rest, ns, lo, hi)
  {
    hide CutMarks, Covered, Splits;
    if rs == [] {
      assert rs + rest == rest && ms + ns == ns;
    } else {
      var r, m := rs[0], ms[0];
      PlainMarks(rs[1..], ms[1..], rest, ns, lo, hi);
      StayMarks(r, m, rs[1..] + rest, ms[1..] + ns, lo, hi);
      assert rs + rest == [r] + (rs[1..] + rest) && ms + ns == [m] + (ms[1..] + ns);
      assert ms + CutMarks(rest, ns, lo, hi) == [m] + (ms[1..] + CutMarks(rest, ns, lo, hi));
    }
  }

  lemma {:induction false} CutConcat(xs: seq<Region>, ys: seq<Region>, lo: nat, hi: nat)
    requires lo < hi
    ensures CutAll(xs + ys, lo, hi) == CutAll(xs, lo, hi) + CutAll(ys, lo, hi)
  {
    if xs == [] {
      assert xs + ys == ys;
    } else {
      assert (xs + ys)[1..] == xs[1..] + ys;
      CutConcat(xs[1..], ys, lo, hi);
    }
  }

  // ---------- what an unlinking through a stale link leaves ----------

  /** The list without the ranges from index b up to the first covered one. */
  function Bypassed(rs: seq<Region>, b: nat, p: nat): seq<Region> {
    if b <= p <= |rs| then rs[..b] + rs[p..] else rs
  }

  /** An entry of a sequence with a part left out. */
  lemma SliceAt<T>(s: seq<T>, b: nat, c: nat, j: nat)
    requires b <= c <= |s| && j < |s| - (c - b)
    ensures (s[..b] + s[c..])[j] == s[if j < b then j else j + (c - b)]
  {
  }

  lemma Around<T>(a: seq<T>, b: seq<T>)
    ensures (a + b)[..|a|] == a && (a + b)[|a|..] == b
  {
  }

  lemma BypassedSorted(rs: seq<Region>, b: nat, p: nat)
    requires Sorted(rs) && b <= p <= |rs|
    ensures var s := Bypassed(rs, b, p);
      Sorted(s) && forall i {:trigger s[i]} :: 0 <= i < |s| ==> s[i] == rs[if i < b then i else i + p - b]
  {
    var s := Bypassed(rs, b, p);
    forall i | 0 <= i < |s| ensures s[i] == rs[if i < b then i else i + p - b] {
      SliceAt(rs, b, p, i);
    }
    hide Bypassed;
  }

  lemma BypassedLookup(rs: seq<Region>, b: nat, p: nat, a: nat)
    requires Sorted(rs) && b <= p <= |rs|
    ensures Lookup(Bypassed(rs, b, p), a) ==
              if exists i :: b <= i < p && rs[i].Has(a) then None else Lookup(rs, a)
  {
    hide Lookup, Bypassed;
    var s := Bypassed(rs, b, p);
    BypassedSorted(rs, b, p);
    assert |s| == |rs| - (p - b) by { BypassedLength(rs, b, p); }
    if i :| 0 <= i < |rs| && rs[i].Has(a) {
      LookupAt(rs, i, a);
      assert forall j :: 0 <= j < |rs| && rs[j].Has(a) ==> j == i;
      hide Sorted;
      if b <= i < p {
        LookupMiss(s, a);
      } else {
        LookupAt(s, if i < b then i else i - (p - b), a);
      }
    } else {
      hide Sorted;
      LookupMiss(rs, a);
      LookupMiss(s, a);
    }
  }

  lemma BypassedLength(rs: seq<Region>, b: nat, p: nat)
    requires b <= p <= |rs|
    ensures |Bypassed(rs, b, p)| == |rs| - (p - b)
  {
  }

  /** Bypassing a range that is not covered loses addresses outside the interval. */
  lemma BypassedDiffers(rs: seq<Region>, b: nat, p: nat, lo: nat, hi: nat)
    requires Sorted(rs) && lo < hi && b < p < |rs| && p == FirstCovered(rs, lo, hi)
    ensures var a := rs[p - 1].start;
      && a < lo && Lookup(rs, a).Some? && Lookup(CutAll(Bypassed(rs, b, p), lo, hi), a).None?
    ensures CutAll(Bypassed(rs, b, p), lo, hi) != CutAll(rs, lo, hi)
  {
    var a := rs[p - 1].start;
    CoveredFacts(rs, p, lo, hi);
    LookupAt(rs, p - 1, a);
    BypassedSorted(rs, b, p);
    BypassedLookup(rs, b, p, a);
    assert rs[p - 1].Has(a);
    CutAllLookup(Bypassed(rs, b, p), lo, hi, a);
    CutAllLookup(rs, lo, hi, a);
  }

  /** Ranges that were freed but stay in the list map nothing, and all others what they did outside the interval. */
  lemma {:induction false} ShrunkLookup(rs: seq<Region>, lo: nat, hi: nat, a: nat)
    requires Sorted(rs) && lo < hi && forall i :: 0 <= i < |rs| ==> !Splits(rs[i], lo, hi)
    ensures Lookup(ShrunkAll(rs, lo, hi), a) == if lo <= a < hi then None else Lookup(rs, a)
  {
    if rs != [] {
      var s := ShrunkAll(rs, lo, hi);
      assert s[1..] == ShrunkAll(rs[1..], lo, hi);
      ShrunkLookup(rs[1..], lo, hi, a);
      if rs[0].Has(a) {
        LookupMiss(rs[1..], a);
      }
    }
  }

  /** A list with a freed range in it is not the list meant. */
  lemma ShrunkDiffers(rs: seq<Region>, p: nat, lo: nat, hi: nat)
    requires Sorted(rs) && lo < hi && p < |rs| && Covered(rs[p], lo, hi)
    ensures ShrunkAll(rs, lo, hi) != CutAll(rs, lo, hi)
  {
    CutAllSorted(rs, lo, hi);
    assert ShrunkAll(rs, lo, hi)[p].size == 0;
  }

  // ---------- what `change_map` makes of a list ----------

  /** What the `prev` of the first covered range names: its predecessor, an earlier range, or one no longer there. */
  datatype Prev = Right | Earlier(b: nat) | Gone

  ghost predicate Possible(rs: seq<Region>, ms: Marks, link: Prev, lo: nat, hi: nat) {
    && |ms| == |rs|
    && match link
       case Right => Guarded(rs, ms, lo, hi)
       case Earlier(b) => b < FirstCovered(rs, lo, hi) < |rs|
       case Gone => FirstCovered(rs, lo, hi) < |rs|
  }

  /** Meant; or with the ranges in between gone; or with the freed ranges still in it. */
  function CutList(rs: seq<Region>, link: Prev, lo: nat, hi: nat): seq<Region>
    requires lo < hi
  {
    match link
    case Right => CutAll(rs, lo, hi)
    case Earlier(b) => CutAll(Bypassed(rs, b, FirstCovered(rs, lo, hi)), lo, hi)
    case Gone => ShrunkAll(rs, lo, hi)
  }

  function CutLinks(rs: seq<Region>, ms: Marks, link: Prev, lo: nat, hi: nat): Marks
    requires lo < hi && |ms| == |rs| && !link.Gone?
    requires link.Earlier? ==> link.b <= FirstCovered(rs, lo, hi) < |rs|
  {
    match link
    case Right => CutMarks(rs, ms, lo, hi)
    case Earlier(b) =>
      var p := FirstCovered(rs, lo, hi);
      CutMarks(Bypassed(rs, b, p), ms[..b] + [true] + ms[p + 1..], lo, hi)
  }

  /** Exactly [lo, hi) is gone from what the addresses map to. */
  ghost predicate Removes(rs: seq<Region>, rs': seq<Region>, lo: nat, hi: nat) {
    forall a: nat :: Lookup(rs', a) == if lo <= a < hi then None else Lookup(rs, a)
  }

  /**
   The list is the one meant exactly when the link is right.  The addresses are mapped as meant also when the link
   names a range no longer there, with freed ranges left in the list; with a link to an earlier range, the ranges
   in between are lost.
   */
  lemma CutListExact(rs: seq<Region>, ms: Marks, link: Prev, lo: nat, hi: nat)
    requires Sorted(rs) && lo < hi && Possible(rs, ms, link, lo, hi)
    ensures CutList(rs, link, lo, hi) == CutAll(rs, lo, hi) <==> link.Right?
    ensures Removes(rs, CutList(rs, link, lo, hi), lo, hi) <==> !link.Earlier?
    ensures link.Earlier? ==>
              var a := rs[FirstCovered(rs, lo, hi) - 1].start;
              a < lo && Lookup(rs, a).Some? && Lookup(CutList(rs, link, lo, hi), a).None?
  {
    var p := FirstCovered(rs, lo, hi);
    hide Lookup, CutAll, ShrunkAll, Bypassed, Guarded;
    match link
    case Right =>
      CutAllMeaning(rs, lo, hi);
    case Earlier(b) =>
      BypassedDiffers(rs, b, p, lo, hi);
    case Gone =>
      CoveredFacts(rs, p, lo, hi);
      ShrunkDiffers(rs, p, lo, hi);
      hide Sorted;
      forall a: nat ensures Lookup(ShrunkAll(rs, lo, hi), a) == if lo <= a < hi then None else Lookup(rs, a) {
        ShrunkLookup(rs, lo, hi, a);
      }
  }
}
