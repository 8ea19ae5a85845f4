/**
 The meaning of a list of address-space ranges: what each address is mapped to.
 kernel/mem/vmm.c keeps the list sorted and merges neighbours that continue each other.
 */
module RangeList {
  import opened Options

  /** The flag bits a range keeps (VMM_PERMANENT_FLAGS_MASK). */
  datatype Flags = Flags(file: bool, shared: bool)

  /** `struct vmm_range` without its links.  `vnode` and `offset` mean something only for a file range. */
  datatype Region = Region(start: nat, size: nat, flags: Flags, prot: nat, vnode: nat, offset: nat) {
    function Top(): nat { start + size }

    predicate Has(a: nat) { start <= a < Top() }

    /** What address a of the region is backed by. */
    function At(a: nat): Backing
      requires Has(a)
    {
      Backing(flags, prot, if flags.file then Some((vnode, offset + (a - start))) else None)
    }
  }

  datatype Backing = Backing(flags: Flags, prot: nat, file: Option<(nat, nat)>)

  function Lookup(rs: seq<Region>, a: nat): Option<Backing> {
    if rs == [] then None
    else if rs[0].Has(a) then Some(rs[0].At(a))
    else Lookup(rs[1..], a)
  }

  predicate Sorted(rs: seq<Region>) {
    && (forall i :: 0 <= i < |rs| ==> rs[i].size > 0)
    && (forall i, j :: 0 <= i < j < |rs| ==> rs[i].Top() <= rs[j].start)
  }

  /** b continues a: adjacent, same flags and protection, and for files the next bytes of the same file. */
  predicate Continues(a: Region, b: Region) {
    && a.Top() == b.start && a.flags == b.flags && a.prot == b.prot
    && (a.flags.file ==> a.vnode == b.vnode && a.offset + a.size == b.offset)
  }

  predicate Coalesced(rs: seq<Region>) {
    forall i :: 0 <= i < |rs| - 1 ==> !Continues(rs[i], rs[i + 1])
  }

  // ---------- lookups ----------

  lemma {:induction false} LookupAt(rs: seq<Region>, i: nat, a: nat)
    requires Sorted(rs) && i < |rs| && rs[i].Has(a)
    ensures Lookup(rs, a) == Some(rs[i].At(a))
  {
    if i > 0 {
      LookupAt(rs[1..], i - 1, a);
    }
  }

  lemma {:induction false} LookupMiss(rs: seq<Region>, a: nat)
    requires forall i :: 0 <= i < |rs| ==> !rs[i].Has(a)
    ensures Lookup(rs, a).None?
  {
    if rs != [] {
      LookupMiss(rs[1..], a);
    }
  }

  lemma {:induction false} LookupConcat(xs: seq<Region>, ys: seq<Region>, a: nat)
    ensures Lookup(xs + ys, a) == if Lookup(xs, a).Some? then Lookup(xs, a) else Lookup(ys, a)
  {
    if xs == [] {
      assert xs + ys == ys;
    } else {
      assert (xs + ys)[1..] == xs[1..] + ys;
      LookupConcat(xs[1..], ys, a);
    }
  }

  lemma {:induction false} LookupBounds(rs: seq<Region>, a: nat)
    requires Lookup(rs, a).Some?
    ensures exists i :: 0 <= i < |rs| && rs[i].Has(a)
  {
    if !rs[0].Has(a) {
      LookupBounds(rs[1..], a);
      var i :| 0 <= i < |rs[1..]| && rs[1..][i].Has(a);
      assert rs[i + 1].Has(a);
    }
  }

  // ---------- removing an interval ----------

  /** What is left of one range when [lo, hi) is taken away, branch by branch as `change_map` does it. */
  function Cut(r: Region, lo: nat, hi: nat): (pieces: seq<Region>)
    requires lo < hi
  {
    if r.start >= lo && r.Top() <= hi then
      []
    else if lo > r.start && hi < r.Top() then
      [r.(size := lo - r.start), SplitOff(r, lo, hi)]
    else if hi > r.start && r.start >= lo then
      [TrimFront(r, hi)]
    else if lo < r.Top() && r.Top() <= hi then
      [r.(size := r.size - (r.Top() - lo))]
    else
      [r]
  }

  function SplitOff(r: Region, lo: nat, hi: nat): Region
    requires r.start < lo <= hi < r.Top()
  {
    r.(start := hi, size := r.Top() - hi,
       offset := if r.flags.file then r.offset + ((lo - r.start) + (hi - lo)) else r.offset)
  }

  function TrimFront(r: Region, hi: nat): Region
    requires r.start < hi < r.Top()
  {
    r.(start := hi, size := r.size - (hi - r.start),
       offset := if r.flags.file then r.offset + (hi - r.start) else r.offset)
  }

  function CutAll(rs: seq<Region>, lo: nat, hi: nat): seq<Region>
    requires lo < hi
  {
    if rs == [] then [] else Cut(rs[0], lo, hi) + CutAll(rs[1..], lo, hi)
  }

  lemma CutShape(r: Region, lo: nat, hi: nat)
    requires lo < hi && r.size > 0
    ensures Sorted(Cut(r, lo, hi))
    ensures forall i :: 0 <= i < |Cut(r, lo, hi)| ==>
              r.start <= Cut(r, lo, hi)[i].start && Cut(r, lo, hi)[i].Top() <= r.Top()
  {
  }

  /** The pieces lie inside the range, in order, and every surviving address keeps its backing. */
  lemma CutMeaning(r: Region, lo: nat, hi: nat, a: nat)
    requires lo < hi && r.size > 0
    ensures Sorted(Cut(r, lo, hi))
    ensures forall i :: 0 <= i < |Cut(r, lo, hi)| ==>
              r.start <= Cut(r, lo, hi)[i].start && Cut(r, lo, hi)[i].Top() <= r.Top()
    ensures Lookup(Cut(r, lo, hi), a) == if r.Has(a) && !(lo <= a < hi) then Some(r.At(a)) else None
  {
    CutShape(r, lo, hi);
    var pieces := Cut(r, lo, hi);
    if i :| 0 <= i < |pieces| && pieces[i].Has(a) {
      LookupAt(pieces, i, a);
    } else {
      LookupMiss(pieces, a);
    }
  }

  lemma {:induction false} CutAllSorted(rs: seq<Region>, lo: nat, hi: nat)
    requires Sorted(rs) && lo < hi
    ensures Sorted(CutAll(rs, lo, hi))
    ensures rs != [] ==> forall i :: 0 <= i < |CutAll(rs, lo, hi)| ==> rs[0].start <= CutAll(rs, lo, hi)[i].start
  {
    if rs != [] {
      CutMeaning(rs[0], lo, hi, 0);
      CutAllSorted(rs[1..], lo, hi);
      hide Cut, Lookup;
      var pieces, rest := Cut(rs[0], lo, hi), CutAll(rs[1..], lo, hi);
      assert |rs| > 1 ==> rs[0].Top() <= rs[1..][0].start;
      assert forall j :: 0 <= j < |rest| ==> rs[0].Top() <= rest[j].start;
    }
  }

  lemma {:induction false} CutAllLookup(rs: seq<Region>, lo: nat, hi: nat, a: nat)
    requires Sorted(rs) && lo < hi
    ensures Lookup(CutAll(rs, lo, hi), a) == if lo <= a < hi then None else Lookup(rs, a)
  {
    if rs != [] {
      CutMeaning(rs[0], lo, hi, a);
      CutAllLookup(rs[1..], lo, hi, a);
      LookupConcat(Cut(rs[0], lo, hi), CutAll(rs[1..], lo, hi), a);
      if rs[0].Has(a) {
        LookupMiss(rs[1..], a);
      }
      hide Cut, Sorted;
    }
  }

  /** From a sorted list, removing [lo, hi) gives a sorted list with exactly those addresses gone. */
  lemma CutAllMeaning(rs: seq<Region>, lo: nat, hi: nat)
    requires Sorted(rs) && lo < hi
    ensures Sorted(CutAll(rs, lo, hi))
    ensures forall a: nat :: Lookup(CutAll(rs, lo, hi), a) == if lo <= a < hi then None else Lookup(rs, a)
  {
    hide Sorted, CutAll, Lookup;
    CutAllSorted(rs, lo, hi);
    forall a: nat ensures Lookup(CutAll(rs, lo, hi), a) == if lo <= a < hi then None else Lookup(rs, a) {
      CutAllLookup(rs, lo, hi, a);
    }
  }

  /** b is where a was up to its end: what continues into one continues into the other. */
  lemma SameFront(x: Region, a: Region, b: Region)
    requires b == a.(size := b.size)
    ensures Continues(x, a) <==> Continues(x, b)
  {
  }

  /** The first piece of a cut list starts where the list did, or further on. */
  lemma {:induction false} FirstPiece(rs: seq<Region>, lo: nat, hi: nat)
    requires Sorted(rs) && lo < hi && rs != [] && CutAll(rs, lo, hi) != []
    ensures var f := CutAll(rs, lo, hi)[0];
      f.start > rs[0].start || f == rs[0].(size := f.size)
  {
    if Cut(rs[0], lo, hi) == [] {
      CutAllSorted(rs[1..], lo, hi);
      assert |rs| > 1 ==> rs[1..][0] == rs[1];
    }
  }

  /** The last piece of a cut range ends where the range did, as its continuation, or before. */
  lemma LastPiece(r: Region, lo: nat, hi: nat, y: Region)
    requires lo < hi && r.size > 0 && Cut(r, lo, hi) != []
    ensures var pieces := Cut(r, lo, hi);
      var l := pieces[|pieces| - 1];
      (l.Top() < r.Top() || (l.Top() == r.Top() && (Continues(l, y) <==> Continues(r, y))))
      && Coalesced(pieces)
  {
  }

  /** What is left of the first range does not continue into what is left of the others. */
  lemma GapStays(rs: seq<Region>, lo: nat, hi: nat)
    requires Sorted(rs) && |rs| > 1 && !Continues(rs[0], rs[1]) && lo < hi && Sorted(rs[1..])
    requires Cut(rs[0], lo, hi) != [] && CutAll(rs[1..], lo, hi) != []
    ensures var pieces := Cut(rs[0], lo, hi);
      Coalesced(pieces) && !Continues(pieces[|pieces| - 1], CutAll(rs[1..], lo, hi)[0])
  {
    hide Cut, CutAll;
    var pieces, f := Cut(rs[0], lo, hi), CutAll(rs[1..], lo, hi)[0];
    FirstPiece(rs[1..], lo, hi);
    LastPiece(rs[0], lo, hi, f);
    if f == rs[1].(size := f.size) {
      SameFront(rs[0], rs[1], f);
    }
  }

  /** Neighbours that did not continue each other still do not, and the sides of the gap never do. */
  lemma {:induction false} CutAllCoalesced(rs: seq<Region>, lo: nat, hi: nat)
    requires Sorted(rs) && Coalesced(rs) && lo < hi
    ensures Coalesced(CutAll(rs, lo, hi))
  {
    if rs != [] {
      assert Sorted(rs[1..]);
      CoalescedParts(rs, 1);
      hide Sorted, Cut, Continues;
      CutAllCoalesced(rs[1..], lo, hi);
      var pieces, rest := Cut(rs[0], lo, hi), CutAll(rs[1..], lo, hi);
      if pieces != [] && rest != [] {
        assert |rs| > 1 && !Continues(rs[0], rs[0 + 1]);
        GapStays(rs, lo, hi);
        ConcatCoalesced(pieces, rest);
      } else if pieces != [] {
        assert rs[0].size > 0 by { FirstSize(rs); }
        LastPiece(rs[0], lo, hi, rs[0]);
        assert pieces + rest == pieces;
      }
    }
  }

  lemma FirstSize(rs: seq<Region>)
    requires Sorted(rs) && rs != []
    ensures rs[0].size > 0
  {
  }

  lemma ConcatCoalesced(xs: seq<Region>, ys: seq<Region>)
    requires Coalesced(xs) && Coalesced(ys) && xs != [] && ys != [] && !Continues(xs[|xs| - 1], ys[0])
    ensures Coalesced(xs + ys)
  {
    var t := xs + ys;
    forall i | 0 <= i < |t| - 1 ensures !Continues(t[i], t[i + 1]) {
      if i + 1 < |xs| {
        assert !Continues(xs[i], xs[i + 1]);
      } else if i >= |xs| {
        assert !Continues(ys[i - |xs|], ys[i - |xs| + 1]);
      }
    }
  }

  // ---------- inserting a range ----------

  function Join(a: Region, b: Region): Region {
    a.(size := a.size + b.size)
  }

  /** How many ranges of the list start below a. */
  function Position(rs: seq<Region>, a: nat): (p: nat)
    ensures p <= |rs|
    ensures forall i :: 0 <= i < p ==> rs[i].start < a
    ensures p < |rs| ==> a <= rs[p].start
  {
    if rs == [] || a <= rs[0].start then 0 else 1 + Position(rs[1..], a)
  }

  /** [r] in front of rs, merged with the first range when that one continues r. */
  function JoinRight(r: Region, rs: seq<Region>): (s: seq<Region>)
    ensures |s| > 0
  {
    if rs != [] && Continues(r, rs[0]) then [Join(r, rs[0])] + rs[1..] else [r] + rs
  }

  /** left before s, the last of left merged with the first of s when s continues it. */
  function JoinLeft(left: seq<Region>, s: seq<Region>): seq<Region>
    requires |s| > 0
  {
    if left != [] && Continues(left[|left| - 1], s[0])
    then left[..|left| - 1] + [Join(left[|left| - 1], s[0])] + s[1..]
    else left + s
  }

  /** `insert_range`: the new range in its place, then merged to the right, then to the left. */
  function Insert(rs: seq<Region>, r: Region): seq<Region> {
    var p := Position(rs, r.start);
    JoinLeft(rs[..p], JoinRight(r, rs[p..]))
  }

  /** A range put at index p of the list is merged with one of its neighbours there. */
  predicate Merges(rs: seq<Region>, p: nat, r: Region)
    requires p <= |rs|
  {
    (p < |rs| && Continues(r, rs[p])) || (p > 0 && Continues(rs[p - 1], r))
  }

  /** The inserts that leave every `prev` link right: at an end of the list, or merged. */
  predicate KeepsBack(rs: seq<Region>, r: Region) {
    var p := Position(rs, r.start);
    p == 0 || p == |rs| || Merges(rs, p, r)
  }

  predicate Apart(r: Region, rs: seq<Region>) {
    forall i :: 0 <= i < |rs| ==> rs[i].Top() <= r.start || r.Top() <= rs[i].start
  }

  lemma JoinMeaning(a: Region, b: Region, x: nat)
    requires Continues(a, b)
    ensures Join(a, b).Has(x) <==> a.Has(x) || b.Has(x)
    ensures a.Has(x) ==> Join(a, b).At(x) == a.At(x)
    ensures b.Has(x) ==> Join(a, b).At(x) == b.At(x)
  {
  }

  lemma LookupJoin(a: Region, b: Region, rest: seq<Region>, x: nat)
    requires Continues(a, b)
    ensures Lookup([Join(a, b)] + rest, x) == Lookup([a, b] + rest, x)
  {
    JoinMeaning(a, b, x);
    assert ([a, b] + rest)[1..] == [b] + rest;
    assert ([b] + rest)[1..] == rest && ([Join(a, b)] + rest)[1..] == rest;
  }

  lemma JoinRightSorted(r: Region, rs: seq<Region>)
    requires r.size > 0 && Sorted(rs) && forall i :: 0 <= i < |rs| ==> r.Top() <= rs[i].start
    ensures Sorted(JoinRight(r, rs))
    ensures JoinRight(r, rs)[0].start == r.start
    ensures forall i :: 0 <= i < |JoinRight(r, rs)| ==> r.start <= JoinRight(r, rs)[i].start
  {
    var t := JoinRight(r, rs);
    if rs != [] && Continues(r, rs[0]) {
      assert forall i :: 0 < i < |t| ==> t[i] == rs[i];
    } else {
      assert forall i :: 0 < i < |t| ==> t[i] == rs[i - 1];
    }
  }

  lemma JoinRightLookup(r: Region, rs: seq<Region>, x: nat)
    ensures Lookup(JoinRight(r, rs), x) == Lookup([r] + rs, x)
  {
    if rs != [] && Continues(r, rs[0]) {
      LookupJoin(r, rs[0], rs[1..], x);
      assert [r, rs[0]] + rs[1..] == [r] + rs;
    }
  }

  lemma JoinRightCoalesced(r: Region, rs: seq<Region>)
    requires Coalesced(rs)
    ensures Coalesced(JoinRight(r, rs))
  {
    var t := JoinRight(r, rs);
    if rs != [] && Continues(r, rs[0]) {
      forall i | 0 <= i < |t| - 1 ensures !Continues(t[i], t[i + 1]) {
        assert t[i + 1] == rs[i + 1];
        assert !Continues(rs[i], rs[i + 1]);
      }
    } else {
      forall i | 0 <= i < |t| - 1 ensures !Continues(t[i], t[i + 1]) {
        assert t[i + 1] == rs[i];
        if i > 0 {
          assert t[i] == rs[i - 1] && !Continues(rs[i - 1], rs[i - 1 + 1]);
        }
      }
    }
  }

  lemma JoinLeftSorted(left: seq<Region>, s: seq<Region>)
    requires |s| > 0 && Sorted(left) && Sorted(s)
    requires forall i, j :: 0 <= i < |left| && 0 <= j < |s| ==> left[i].Top() <= s[j].start
    ensures Sorted(JoinLeft(left, s))
  {
    var t, n := JoinLeft(left, s), |left| - 1;
    if left != [] && Continues(left[n], s[0]) {
      assert forall i :: 0 <= i < n ==> t[i] == left[i];
      assert forall i :: n < i < |t| ==> t[i] == s[i - n];
      assert t[n] == Join(left[n], s[0]);
    }
  }

  lemma JoinLeftLookup(left: seq<Region>, s: seq<Region>, x: nat)
    requires |s| > 0
    ensures Lookup(JoinLeft(left, s), x) == Lookup(left + s, x)
  {
    var n := |left| - 1;
    if left != [] && Continues(left[n], s[0]) {
      var l, b := left[n], s[0];
      assert JoinLeft(left, s) == left[..n] + ([Join(l, b)] + s[1..]);
      assert left + s == left[..n] + ([l, b] + s[1..]);
      LookupConcat(left[..n], [Join(l, b)] + s[1..], x);
      LookupConcat(left[..n], [l, b] + s[1..], x);
      LookupJoin(l, b, s[1..], x);
    }
  }

  lemma JoinLeftCoalesced(left: seq<Region>, s: seq<Region>)
    requires |s| > 0 && Coalesced(left) && Coalesced(s)
    ensures Coalesced(JoinLeft(left, s))
  {
    var n, t := |left| - 1, JoinLeft(left, s);
    forall i | 0 <= i < |t| - 1 ensures !Continues(t[i], t[i + 1]) {
      if i < n {
        assert !Continues(left[i], left[i + 1]);
      } else if left != [] && Continues(left[n], s[0]) {
        assert t[i + 1] == s[i - n + 1] && !Continues(s[i - n], s[i - n + 1]);
      } else if i > n {
        assert t[i] == s[i - |left|] && t[i + 1] == s[i - |left| + 1];
        assert !Continues(s[i - |left|], s[i - |left| + 1]);
      }
    }
  }

  lemma InsertLookup(rs: seq<Region>, r: Region, x: nat)
    requires Sorted(rs) && Apart(r, rs)
    ensures Lookup(Insert(rs, r), x) == if r.Has(x) then Some(r.At(x)) else Lookup(rs, x)
  {
    var p := Position(rs, r.start);
    var left, right := rs[..p], rs[p..];
    assert rs == left + right;
    JoinRightLookup(r, right, x);
    JoinLeftLookup(left, JoinRight(r, right), x);
    LookupConcat(left, JoinRight(r, right), x);
    LookupConcat(left, right, x);
    assert ([r] + right)[1..] == right;
    if r.Has(x) {
      LookupMiss(left, x);
    }
  }

  lemma CoalescedParts(rs: seq<Region>, p: nat)
    requires Coalesced(rs) && p <= |rs|
    ensures Coalesced(rs[..p]) && Coalesced(rs[p..])
  {
    forall i | 0 <= i < |rs[p..]| - 1 ensures !Continues(rs[p..][i], rs[p..][i + 1]) {
      assert !Continues(rs[p + i], rs[p + i + 1]);
    }
  }

  lemma InsertSorted(rs: seq<Region>, r: Region)
    requires Sorted(rs) && r.size > 0 && Apart(r, rs)
    ensures Sorted(Insert(rs, r))
  {
    var p := Position(rs, r.start);
    assert forall i :: 0 <= i < p ==> rs[i].Top() <= r.start;
    assert forall i :: p <= i < |rs| ==> r.Top() <= rs[i].start;
    hide JoinLeft;
    JoinRightSorted(r, rs[p..]);
    hide JoinRight;
    JoinLeftSorted(rs[..p], JoinRight(r, rs[p..]));
  }

  /** Inserting a range that overlaps none keeps the list sorted and coalesced and adds exactly that range. */
  lemma InsertMeaning(rs: seq<Region>, r: Region, x: nat)
    requires Sorted(rs) && r.size > 0 && Apart(r, rs)
    ensures Sorted(Insert(rs, r))
    ensures Lookup(Insert(rs, r), x) == if r.Has(x) then Some(r.At(x)) else Lookup(rs, x)
    ensures Coalesced(rs) ==> Coalesced(Insert(rs, r))
  {
    hide Lookup, JoinLeft, JoinRight, Sorted, Apart, Coalesced;
    InsertLookup(rs, r, x);
    InsertSorted(rs, r);
    if Coalesced(rs) {
      var p := Position(rs, r.start);
      CoalescedParts(rs, p);
      JoinRightCoalesced(r, rs[p..]);
      JoinLeftCoalesced(rs[..p], JoinRight(r, rs[p..]));
    }
  }
}
