/**
 kernel/mem/vmm.c: the doubly linked list of ranges of one address space, with its page table.
 The methods follow the links as the source does; `nodes` lists the ranges in list order.
 */
module AddressSpace {
  import opened Options
  import opened Paging
  import opened RangeList
  import opened RangeLinks
  import opened RangeWalk

  class Space {
    const start: nat
    const end: nat
    var ranges: Range?
    var pages: PageTable
    ghost var nodes: seq<Range>
    ghost var all: set<Range>      // every node that was ever in the list

    constructor (start: nat, end: nat)
      ensures this.start == start && this.end == end && all == {}
      ensures ranges == null && nodes == [] && pages == map[] && Chain() && BackChain()
    {
      this.start := start;
      this.end := end;
      ranges := null;
      pages := map[];
      nodes, all := [], {};
    }

    ghost function NodeAt(i: int): Range?
      reads this`nodes
    {
      if 0 <= i < |nodes| then nodes[i] else null
    }

    /** Following `next` from `ranges` visits the nodes in order. */
    ghost predicate Chain()
      reads this`ranges, this`nodes, nodes`next
    {
      && (forall i, j :: 0 <= i < j < |nodes| ==> nodes[i] != nodes[j])
      && ranges == NodeAt(0)
      && forall i {:trigger nodes[i].next} :: 0 <= i < |nodes| ==> nodes[i].next == NodeAt(i + 1)
    }

    /** `prev` points back along the same chain. */
    ghost predicate BackChain()
      reads this`nodes, nodes`prev
    {
      forall i {:trigger nodes[i].prev} :: 0 <= i < |nodes| ==> nodes[i].prev == NodeAt(i - 1)
    }

    ghost function Regions(): (rs: seq<Region>)
      reads this`nodes, nodes`r
      ensures |rs| == |nodes| && forall i :: 0 <= i < |rs| ==> rs[i] == nodes[i].r
    {
      RegionsOf(nodes)
    }

    // ---------- looking for room ----------

    /**
     `get_free_range`.  On a list that is not empty: the least fitting address from the hint on, or none
     exactly when none fits.  On the empty list the hint itself comes back, whether it fits or not.
     */
    method GetFreeRange(hint: nat, size: nat) returns (found: Option<nat>)
      requires Chain() && Sorted(Regions()) && size > 0
      requires start <= hint <= end
      requires forall i :: 0 <= i < |nodes| ==> start <= nodes[i].r.start && nodes[i].r.Top() <= end
      ensures nodes == [] ==> found == Some(hint)
      ensures nodes != [] ==> LeastFit(Regions(), end, hint, size, found)
    {
      var addr: nat := hint;
      if ranges == null {
        return Some(addr);
      }
      ghost var rs := Regions();
      var range: Range := ranges;
      if range.r.start != start && addr < range.r.start && range.r.start - addr >= size {
        FoundFits(rs, end, 0, hint, addr, size);
        return Some(addr);
      }
      ghost var k := 0;
      assert Passed(rs, end, 0, hint, addr, size);
      hide Fits, NoneBelow, Passed, LeastFit, Sorted;
      while range.next != null
        invariant 0 <= k < |nodes| && range == nodes[k] && addr <= end
        invariant Passed(rs, end, k, hint, addr, size) && rs[k].start < addr + size
        decreases |nodes| - k
      {
        SkipsRange(rs, end, k, hint, addr, size);
        if addr < range.r.Top() {
          addr := range.r.Top();
        }
        if addr < range.next.r.start {
          var freeSize := range.next.r.start - addr;
          if freeSize >= size {
            FoundFits(rs, end, k + 1, hint, addr, size);
            return Some(addr);
          }
        }
        range := range.next;
        k := k + 1;
      }
      SkipsRange(rs, end, k, hint, addr, size);
      if addr < range.r.Top() {
        addr := range.r.Top();
      }
      if addr != end && end - addr >= size {
        FoundFits(rs, end, k + 1, hint, addr, size);
        return Some(addr);
      }
      NoneFits(rs, end, k + 1, hint, addr, size);
      return None;
    }

    ghost function Prevs(): (ps: seq<Range?>)
      reads this`nodes, nodes`prev
      ensures |ps| == |nodes| && forall i :: 0 <= i < |ps| ==> ps[i] == nodes[i].prev
    {
      PrevsOf(nodes)
    }

    ghost function Marks(): (ms: Marks)
      reads this`nodes, nodes`prev
      ensures |ms| == |nodes|
    {
      MarksOf(nodes, Prevs())
    }

    ghost predicate Backs()
      reads this`nodes, this`all, nodes`prev
    {
      BacksOf(nodes, Prevs(), all)
    }

    /** What the `prev` of node k names: the end of the first b nodes, or a node that has left the list. */
    ghost predicate Names(k: nat, b: Option<nat>)
      requires k < |nodes|
      reads this`nodes, nodes`prev
    {
      match b
      case Some(n) => n <= k && nodes[k].prev == NodeAt(n - 1)
      case None => nodes[k].prev != null && nodes[k].prev !in nodes
    }

    lemma MarkAt(k: nat)
      requires k < |nodes|
      ensures Marks()[k] == (nodes[k].prev == NodeAt(k - 1))
    {
    }

    lemma NamesSome(k: nat) returns (b: Option<nat>)
      requires Chain() && Backs() && k < |nodes|
      ensures Names(k, b) && (Marks()[k] <==> b == Some(k))
    {
      hide MarksOf;
      assert Marks()[k] == (nodes[k].prev == NodeAt(k - 1)) by { MarkAt(k); }
      if nodes[k].prev == null {
        b := Some(0);
      } else if nodes[k].prev !in nodes {
        b := None;
      } else {
        var j :| 0 <= j < |nodes| && nodes[j] == nodes[k].prev;
        assert Prevs()[k] == nodes[j];
        b := Some(j + 1);
      }
    }

    // ---------- removing an interval ----------

    ghost predicate PagesAligned()
      reads this`pages
    {
      forall a :: a in pages ==> a % PAGE_SIZE == 0
    }

    /** The page removal of `destroy_range`: the pages of [base, base + size) leave the page table. */
    method DestroyRange(base: nat, size: nat)
      requires base % PAGE_SIZE == 0 && size % PAGE_SIZE == 0 && PagesAligned()
      modifies this`pages
      ensures pages == Without(old(pages), base, base + size) && PagesAligned()
    {
      var offset := 0;
      assert pages == Without(pages, base, base + 0);
      hide Without;
      while offset < size
        invariant 0 <= offset <= size && offset % PAGE_SIZE == 0
        invariant pages == Without(old(pages), base, base + offset) && PagesAligned()
      {
        var virt := base + offset;
        PagesBetween(base, offset);
        NextPage(old(pages), base, virt);
        if virt in pages {
          pages := pages - {virt};
        }
        offset := offset + PAGE_SIZE;
      }
    }

    /** The links of the list was, nodes b to i passed over. */
    ghost predicate PassedOver(was: seq<Range>, b: nat, i: nat)
      requires b <= i < |was|
      reads was`next
    {
      && (forall j {:trigger was[j].next} :: 0 <= j < b ==>
            was[j].next == if j + 1 == b then At(was, i + 1) else was[j + 1])
      && (forall j {:trigger was[j].next} :: i < j < |was| ==> was[j].next == At(was, j + 1))
    }

    lemma PassedOverChain(was: seq<Range>, b: nat, i: nat)
      requires b <= i < |was| && (forall j, k :: 0 <= j < k < |was| ==> was[j] != was[k]) && PassedOver(was, b, i)
      requires nodes == was[..b] + was[i + 1..] && ranges == (if b == 0 then At(was, i + 1) else was[0])
      ensures Chain()
    {
      assert forall j {:trigger nodes[j]} :: 0 <= j < |nodes| ==> nodes[j] == was[if j < b then j else j + (i + 1 - b)];
    }

    /** The links of the nodes before b and from c on, the first of the latter written. */
    lemma NewPrevs(was: seq<Range>, ps: seq<Range?>, b: nat, c: nat, w: Range?)
      requires b <= c <= |was| == |ps|
      requires forall j {:trigger was[j].prev} :: 0 <= j < |was| ==> was[j].prev == if j == c then w else ps[j]
      ensures PrevsOf(was[..b] + was[c..]) == ps[..b] + FirstLink(ps[c..], w)
    {
      hide PrevsOf;
      var ns := was[..b] + was[c..];
      assert forall j {:trigger ns[j]} :: 0 <= j < |ns| ==> ns[j] == was[if j < b then j else j + (c - b)];
    }

    /** The two writes of an unlinking. */
    method WriteLinks(range: Range)
      requires range in all && (range.prev == null || range.prev in all) && (range.next == null || range.next in all)
      modifies this`ranges, all`next, all`prev
      ensures ranges == if old(range.prev) == null then old(range.next) else old(ranges)
      ensures forall x :: x in all ==>
                && x.next == (if x == old(range.prev) then old(range.next) else old(x.next))
                && x.prev == (if x == old(range.next) then old(range.prev) else old(x.prev))
    {
      if range.prev != null {
        range.prev.next := range.next;
      } else {
        ranges := range.next;
      }
      if range.next != null {
        range.next.prev := range.prev;
      }
    }

    /** What they do to the nodes of the list: w was the `prev` of node i. */
    lemma LinksWritten(was: seq<Range>, ps: seq<Range?>, i: nat, w: Range?)
      requires i < |was| == |ps| && forall j, k :: 0 <= j < k < |was| ==> was[j] != was[k]
      requires forall j {:trigger was[j]} :: 0 <= j < |was| ==>
                 && was[j].next == (if was[j] == w then At(was, i + 1) else At(was, j + 1))
                 && was[j].prev == (if was[j] == At(was, i + 1) then w else ps[j])
      ensures forall j {:trigger was[j].prev} :: 0 <= j < |was| ==> was[j].prev == if j == i + 1 then w else ps[j]
      ensures forall b :: 0 <= b <= i && w == At(was, b - 1) ==> PassedOver(was, b, i)
    {
      hide PassedOver;
      forall b | 0 <= b <= i && w == At(was, b - 1) ensures PassedOver(was, b, i) {
        NextsWritten(was, b, i);
      }
    }

    lemma NextsWritten(was: seq<Range>, b: nat, i: nat)
      requires b <= i < |was| && forall j, k :: 0 <= j < k < |was| ==> was[j] != was[k]
      requires forall j {:trigger was[j]} :: 0 <= j < |was| ==>
                 was[j].next == (if was[j] == At(was, b - 1) then At(was, i + 1) else At(was, j + 1))
      ensures PassedOver(was, b, i)
    {
      forall j | 0 <= j < |was| ensures was[j].next == if j == b - 1 then At(was, i + 1) else At(was, j + 1) {
      }
    }

    lemma ChainNext(i: nat)
      requires Chain() && Backs() && i < |nodes|
      ensures nodes[i] in all && nodes[i].next == At(nodes, i + 1) && (nodes[i].next == null || nodes[i].next in all)
      ensures (nodes[i].prev == null || nodes[i].prev in all) && ranges == nodes[0]
      ensures forall j, k :: 0 <= j < k < |nodes| ==> nodes[j] != nodes[k]
    {
      InAll();
    }

    /**
     The unlinking of `change_map`, through the node's own `prev`.  The list goes on behind the node that `prev`
     names; when that one has left the list, the node stays in it.
     */
    method Unlink(range: Range, ghost i: nat, ghost b: Option<nat>)
      requires Chain() && Backs() && i < |nodes| && range == nodes[i] && Names(i, b)
      modifies this`ranges, this`nodes, all`next, all`prev
      ensures Chain() && range.next == old(range.next)
      ensures b.Some? ==> nodes == old(nodes)[..b.value] + old(nodes)[i + 1..]
      ensures b.Some? ==> Prevs() == old(Prevs())[..b.value] + FirstLink(old(Prevs())[i + 1..], old(range.prev))
      ensures b.None? ==> nodes == old(nodes)
      ensures b.None? ==> Prevs() == old(Prevs())[..i + 1] + FirstLink(old(Prevs())[i + 1..], old(range.prev))
    {
      hide BacksOf, PrevsOf, FirstLink, PassedOver;
      InAll();
      ChainNext(i);
      ghost var was, ps, w := nodes, Prevs(), range.prev;
      WriteLinks(range);
      LinksWritten(was, ps, i, w);
      Relink(range, was, ps, i, b, w);
    }

    /** The list the written links make. */
    ghost method Relink(range: Range, was: seq<Range>, ps: seq<Range?>, i: nat, b: Option<nat>, w: Range?)
      requires nodes == was && i < |was| == |ps| && forall j, k :: 0 <= j < k < |was| ==> was[j] != was[k]
      requires ranges == if w == null then At(was, i + 1) else was[0]
      requires forall j {:trigger was[j].prev} :: 0 <= j < |was| ==> was[j].prev == if j == i + 1 then w else ps[j]
      requires b.Some? ==> b.value <= i && w == At(was, b.value - 1) && PassedOver(was, b.value, i)
      requires b.None? ==>
                 w != null && forall j {:trigger was[j].next} :: 0 <= j < |was| ==> was[j].next == At(was, j + 1)
      modifies this`nodes
      ensures Chain()
      ensures b.Some? ==> nodes == was[..b.value] + was[i + 1..] && Prevs() == ps[..b.value] + FirstLink(ps[i + 1..], w)
      ensures b.None? ==> nodes == was && Prevs() == ps[..i + 1] + FirstLink(ps[i + 1..], w)
    {
      hide PrevsOf, FirstLink, PassedOver;
      if b.Some? {
        nodes := nodes[..b.value] + nodes[i + 1..];
        PassedOverChain(was, b.value, i);
        NewPrevs(was, ps, b.value, i + 1, w);
      } else {
        NewPrevs(was, ps, i + 1, i + 1, w);
        assert nodes[..i + 1] + nodes[i + 1..] == nodes;
      }
    }

    /** The relinking of a split: a copy of the range, holding r, goes behind it. */
    method LinkCopy(range: Range, r: Region, ghost i: nat) returns (copy: Range)
      requires Chain() && Backs() && i < |nodes| && range == nodes[i]
      modifies this`nodes, this`all, nodes`next, nodes`prev
      ensures Chain() && Backs() && fresh(copy) && copy.r == r && all == old(all) + {copy}
      ensures nodes == old(nodes)[..i + 1] + [copy] + old(nodes)[i + 1..]
      ensures Marks() == SplitMarks(old(Marks()), i)
    {
      hide BacksOf, MarksOf, SplitMarks, PrevsOf, FirstLink;
      InAll();
      copy := new Range(r);
      ghost var was, ps := nodes, Prevs();
      CopyLinks(was, ps, all, i, copy);
      copy.next := range.next;
      if range.next != null {
        range.next.prev := copy;
      }
      copy.prev := range;
      range.next := copy;
      nodes, all := nodes[..i + 1] + [copy] + nodes[i + 1..], all + {copy};
      PutChain(was, i + 1, copy);
      NewPrevsWith(was, ps, i + 1, copy, copy);
    }

    /** A node linked at index p of the chain was. */
    lemma PutChain(was: seq<Range>, p: nat, node: Range)
      requires p <= |was| && node !in was && nodes == was[..p] + [node] + was[p..]
      requires forall j, k :: 0 <= j < k < |was| ==> was[j] != was[k]
      requires forall j {:trigger was[j].next} :: 0 <= j < |was| ==>
                 was[j].next == if j + 1 == p then node else At(was, j + 1)
      requires node.next == At(was, p) && ranges == (if p == 0 then node else At(was, 0))
      ensures Chain()
    {
      assert forall j {:trigger nodes[j]} :: 0 <= j < |nodes| ==>
               nodes[j] == if j < p then was[j] else if j == p then node else was[j - 1];
    }

    /** The same with a new node in between. */
    lemma NewPrevsWith(was: seq<Range>, ps: seq<Range?>, p: nat, node: Range, w: Range?)
      requires p <= |was| == |ps|
      requires forall j {:trigger was[j].prev} :: 0 <= j < |was| ==> was[j].prev == if j == p then w else ps[j]
      ensures PrevsOf(was[..p] + [node] + was[p..]) == ps[..p] + [node.prev] + FirstLink(ps[p..], w)
    {
      hide PrevsOf;
      var ns := was[..p] + [node] + was[p..];
      assert forall j {:trigger ns[j]} :: 0 <= j < |ns| ==>
               ns[j] == if j < p then was[j] else if j == p then node else was[j - 1];
    }

    /** What one visit leaves behind: the next list, its marks, the pages, and where the walk goes on. */
    ghost predicate Visited(rs: seq<Region>, ms: Marks, p: PageTable, k: nat, lo: nat, hi: nat, next: Range?)
      requires lo < hi && k < |rs| == |ms|
      reads this, nodes
    {
      && Chain() && Backs() && PagesAligned()
      && Regions() == NextList(rs, k, lo, hi) && Marks() == NextMarks(rs, ms, k, lo, hi)
      && next == NodeAt(NextIndex(rs, k, lo, hi)) && pages == Removed(p, rs[k], lo, hi)
    }

    /** What unlinking node k through a `prev` that names node b - 1 leaves behind. */
    ghost predicate Jumped(rs: seq<Region>, ms: Marks, p: PageTable, b: nat, k: nat, lo: nat, hi: nat, next: Range?)
      requires b <= k < |rs| == |ms|
      reads this, nodes
    {
      && Chain() && Backs() && PagesAligned()
      && Regions() == rs[..b] + rs[k + 1..] && Marks() == ms[..b] + WithFirst(ms[k + 1..], true)
      && next == NodeAt(b) && pages == Removed(p, rs[k], lo, hi)
    }

    /** What unlinking node k through a `prev` that has left the list leaves behind: the freed node stays. */
    ghost predicate Freed(was: seq<Range>, ps: seq<Range?>, rs: seq<Region>, p: PageTable, k: nat, lo: nat, hi: nat,
                          next: Range?)
      requires k < |was| == |ps| == |rs|
      reads this, nodes
    {
      && Chain() && Backs() && PagesAligned() && nodes == was
      && Prevs() == ps[..k + 1] + FirstLink(ps[k + 1..], ps[k]) && Regions() == rs[k := rs[k].(size := 0)]
      && next == NodeAt(k + 1) && pages == Removed(p, rs[k], lo, hi)
    }

    lemma InAll()
      requires Backs()
      ensures forall x :: x in nodes ==> x in all && (x.prev == null || x.prev in all)
    {
      forall x | x in nodes ensures x in all && (x.prev == null || x.prev in all) {
        var i :| 0 <= i < |nodes| && nodes[i] == x;
        assert Prevs()[i] == x.prev;
      }
    }

    lemma FreedLinks(ns: seq<Range>, ps: seq<Range?>, k: nat)
      requires BacksOf(ns, ps, all) && k < |ns| && ps[k] !in ns
      ensures BacksOf(ns, ps[..k + 1] + FirstLink(ps[k + 1..], ps[k]), all)
    {
    }

    /** The unlinking, told in values. */
    method TakeOut(range: Range, ghost k: nat, ghost b: Option<nat>)
      requires Chain() && Backs() && k < |nodes| && range == nodes[k] && Names(k, b)
      modifies this`ranges, this`nodes, all`next, all`prev
      ensures Chain() && Backs() && range.next == old(range.next)
      ensures b.Some? ==> Marks() == old(Marks())[..b.value] + WithFirst(old(Marks())[k + 1..], true)
      ensures b.Some? ==> Regions() == old(Regions())[..b.value] + old(Regions())[k + 1..]
      ensures b.Some? ==> range !in nodes && range.next == NodeAt(b.value)
      ensures b.None? ==> nodes == old(nodes)
      ensures b.None? ==> Prevs() == old(Prevs())[..k + 1] + FirstLink(old(Prevs())[k + 1..], old(Prevs())[k])
    {
      hide BacksOf, MarksOf, FirstLink, PrevsOf, RegionsOf, WithFirst, Chain;
      ghost var was, ps := nodes, Prevs();
      ChainNext(k);
      if b.Some? {
        JumpBacks(was, ps, all, b.value, k);
        JumpLinks(was, ps, b.value, k);
        TakenOut(was, b.value, k);
      } else {
        FreedLinks(was, ps, k);
      }
      Unlink(range, k, b);
      if b.Some? {
        JumpRegions(was, b.value, k + 1);
      }
    }

    method VisitWhole(range: Range, addr: nat, top: nat, ghost k: nat, ghost b: Option<nat>) returns (next: Range?)
      requires Chain() && Backs() && PagesAligned() && k < |nodes| && range == nodes[k] && Names(k, b)
      requires OnPages(range.r) && addr < top && Covered(range.r, addr, top)
      modifies this`ranges, this`nodes, this`pages, all
      ensures b.Some? ==> Jumped(old(Regions()), old(Marks()), old(pages), b.value, k, addr, top, next)
      ensures b.None? ==> Freed(old(nodes), old(Prevs()), old(Regions()), old(pages), k, addr, top, next)
    {
      hide Removed, Without, Chain, Backs, MarksOf, FirstLink, PrevsOf, RegionsOf, WithFirst, Names, PagesAligned;
      ghost var rs := Regions();
      WholeCut(rs, Marks(), k, pages, addr, top);
      ChainNext(k);
      TakeOut(range, k, b);
      Reclaim(range);
      next := range.next;
      if b.None? {
        assert Regions() == rs[k := rs[k].(size := 0)];
      }
    }

    lemma JumpRegions(ns: seq<Range>, b: nat, c: nat)
      requires b <= c <= |ns|
      ensures RegionsOf(ns[..b] + ns[c..]) == RegionsOf(ns)[..b] + RegionsOf(ns)[c..]
    {
      hide RegionsOf;
      var ns', rs' := ns[..b] + ns[c..], RegionsOf(ns)[..b] + RegionsOf(ns)[c..];
      forall j | 0 <= j < |ns'| ensures RegionsOf(ns')[j] == rs'[j] {
        SliceAt(ns, b, c, j);
        SliceAt(RegionsOf(ns), b, c, j);
      }
    }

    lemma TakenOut(ns: seq<Range>, b: nat, i: nat)
      requires b <= i < |ns| && forall j, k :: 0 <= j < k < |ns| ==> ns[j] != ns[k]
      ensures ns[i] !in ns[..b] + ns[i + 1..]
    {
    }

    /** `destroy_range` of the whole range and `free_range`: its pages are gone and its size is zero from now on. */
    method Reclaim(range: Range)
      requires PagesAligned() && OnPages(range.r)
      modifies this`pages, range`r
      ensures range.r == old(range.r).(size := 0)
      ensures pages == Without(old(pages), old(range.r).start, old(range.r).Top()) && PagesAligned()
    {
      DestroyRange(range.r.start, range.r.size);
      range.r := range.r.(size := 0);
    }

    /** The split: the range keeps what is below the hole, a new node takes what is above. */
    method SplitRange(range: Range, addr: nat, top: nat, ghost k: nat) returns (next: Range)
      requires Chain() && Backs() && PagesAligned() && k < |nodes| && range == nodes[k]
      requires addr % PAGE_SIZE == 0 && top % PAGE_SIZE == 0
      requires range.r.start < addr < top < range.r.Top()
      modifies this, nodes
      ensures Chain() && Backs() && Marks() == SplitMarks(old(Marks()), k) && all == old(all) + {next}
      ensures fresh(next) && k + 1 < |nodes| && next == nodes[k + 1] && ranges == old(ranges)
      ensures nodes == old(nodes)[..k + 1] + [next] + old(nodes)[k + 1..]
      ensures range.r == old(range.r).(size := addr - old(range.r).start) && next.r == SplitOff(old(range.r), addr, top)
      ensures forall i :: 0 <= i < |old(nodes)| && i != k ==> old(nodes)[i].r == old(nodes[i].r)
      ensures pages == old(Without(pages, addr, top)) && PagesAligned()
    {
      hide Chain, Backs, MarksOf, SplitMarks, Without, PrevsOf, PagesAligned;
      ChainNext(k);
      PagesBetween(addr, top);
      var r := range.r;
      DestroyRange(addr, top - addr);
      range.r := range.r.(size := addr - range.r.start);
      var tail := r.(start := top, size := r.Top() - top);
      if range.r.flags.file {
        tail := tail.(offset := tail.offset + (range.r.size + (top - addr)));
      }
      next := LinkCopy(range, tail, k);
    }

    method VisitSplit(range: Range, addr: nat, top: nat, ghost k: nat) returns (next: Range?)
      requires Chain() && Backs() && PagesAligned() && k < |nodes| && range == nodes[k]
      requires addr % PAGE_SIZE == 0 && top % PAGE_SIZE == 0
      requires range.r.start < addr < top < range.r.Top()
      modifies this, nodes
      ensures forall x :: x in all ==> x in old(all) || fresh(x)
      ensures Visited(old(Regions()), old(Marks()), old(pages), k, addr, top, next)
    {
      hide NextList, NextIndex, NextMarks, Removed, Without, BacksOf, MarksOf, PrevsOf, RegionsOf, SplitOff, SplitMarks;
      ghost var rs := Regions();
      SplitCut(rs, Marks(), k, pages, addr, top);
      next := SplitRange(range, addr, top, k);
      assert Regions() == rs[..k] + [range.r, next.r] + rs[k + 1..];
    }

    /** Cuts the front off one range. */
    method TrimRange(range: Range, top: nat)
      requires PagesAligned() && range.r.start % PAGE_SIZE == 0 && top % PAGE_SIZE == 0
      requires range.r.start < top < range.r.Top()
      modifies range`r, this`pages
      ensures range.r == TrimFront(old(range.r), top)
      ensures pages == old(Without(pages, range.r.start, top)) && PagesAligned()
    {
      var diff := top - range.r.start;
      DestroyRange(range.r.start, diff);
      range.r := range.r.(start := range.r.start + diff, size := range.r.size - diff);
      if range.r.flags.file {
        range.r := range.r.(offset := range.r.offset + diff);
      }
    }

    method VisitFront(range: Range, addr: nat, top: nat, ghost k: nat) returns (next: Range?)
      requires Chain() && Backs() && PagesAligned() && k < |nodes| && range == nodes[k]
      requires range.r.start % PAGE_SIZE == 0 && top % PAGE_SIZE == 0
      requires addr <= range.r.start < top < range.r.Top()
      modifies this`pages, range`r
      ensures Prevs() == old(Prevs())
      ensures Visited(old(Regions()), old(Marks()), old(pages), k, addr, top, next)
    {
      hide NextList, NextIndex, NextMarks, Removed, Without, BacksOf, MarksOf, PrevsOf, RegionsOf, TrimFront;
      ghost var rs := Regions();
      FrontCut(rs, Marks(), k, pages, addr, top);
      TrimRange(range, top);
      assert Regions() == rs[k := range.r];
      next := range.next;
    }

    /** Cuts the back off one range. */
    method DropRange(range: Range, addr: nat)
      requires PagesAligned() && OnPages(range.r) && addr % PAGE_SIZE == 0 && range.r.start < addr < range.r.Top()
      modifies range`r, this`pages
      ensures range.r == old(range.r.(size := addr - range.r.start))
      ensures pages == old(Without(pages, addr, range.r.Top())) && PagesAligned()
    {
      PagesBetween(range.r.start, range.r.size);
      PagesBetween(addr, range.r.Top());
      var diff := range.r.Top() - addr;
      range.r := range.r.(size := range.r.size - diff);
      DestroyRange(range.r.start + range.r.size, diff);
    }

    method VisitBack(range: Range, addr: nat, top: nat, ghost k: nat) returns (next: Range?)
      requires Chain() && Backs() && PagesAligned() && k < |nodes| && range == nodes[k]
      requires OnPages(range.r) && addr % PAGE_SIZE == 0 && range.r.start < addr < range.r.Top() <= top
      modifies this`pages, range`r
      ensures Prevs() == old(Prevs())
      ensures Visited(old(Regions()), old(Marks()), old(pages), k, addr, top, next)
    {
      hide NextList, NextIndex, NextMarks, Removed, Without, BacksOf, MarksOf, PrevsOf, RegionsOf;
      ghost var rs := Regions();
      BackCut(rs, Marks(), k, pages, addr, top);
      DropRange(range, addr);
      assert Regions() == rs[k := range.r];
      next := range.next;
    }

    lemma VisitOutside(k: nat, lo: nat, hi: nat)
      requires Chain() && Backs() && PagesAligned() && k < |nodes| && nodes[k].r.size > 0
      requires lo < hi && (hi <= nodes[k].r.start || nodes[k].r.Top() <= lo)
      ensures Visited(Regions(), Marks(), pages, k, lo, hi, nodes[k].next)
    {
      hide NextList, NextIndex, NextMarks, Removed, BacksOf, MarksOf, PrevsOf, RegionsOf;
      OutsideCut(Regions(), Marks(), k, pages, lo, hi);
    }

    /** A right `prev` makes unlinking what it is meant to be. */
    lemma JumpedRight(rs: seq<Region>, ms: Marks, p: PageTable, k: nat, lo: nat, hi: nat, next: Range?)
      requires lo < hi && k < |rs| == |ms| && Covered(rs[k], lo, hi) && Jumped(rs, ms, p, k, k, lo, hi, next)
      ensures Visited(rs, ms, p, k, lo, hi, next)
    {
      hide NextList, NextIndex, NextMarks, Removed, BacksOf, MarksOf, PrevsOf, RegionsOf;
      WholeCut(rs, ms, k, p, lo, hi);
    }

    /** The loop body of `change_map`: one of the five cases. */
    method VisitRange(range: Range, addr: nat, top: nat, ghost k: nat, ghost b: Option<nat>) returns (next: Range?)
      requires Chain() && Backs() && PagesAligned() && k < |nodes| && range == nodes[k] && Names(k, b)
      requires addr < top && addr % PAGE_SIZE == 0 && top % PAGE_SIZE == 0
      requires OnPages(range.r) && range.r.size > 0
      modifies this, all
      ensures forall x :: x in all ==> x in old(all) || fresh(x)
      ensures !Covered(old(range.r), addr, top) || b == Some(k) ==>
                Visited(old(Regions()), old(Marks()), old(pages), k, addr, top, next)
      ensures Covered(old(range.r), addr, top) && b.Some? ==>
                Jumped(old(Regions()), old(Marks()), old(pages), b.value, k, addr, top, next)
      ensures Covered(old(range.r), addr, top) && b.None? ==>
                Freed(old(nodes), old(Prevs()), old(Regions()), old(pages), k, addr, top, next)
      ensures !Covered(old(range.r), addr, top) && !Splits(old(range.r), addr, top) ==>
                nodes == old(nodes) && Prevs() == old(Prevs())
    {
      hide Chain, Backs, PagesAligned, Visited, Jumped, Freed, Names;
      InAll();
      if range.r.start >= addr && range.r.Top() <= top {
        ghost var rs, ms, p := Regions(), Marks(), pages;
        next := VisitWhole(range, addr, top, k, b);
        if b == Some(k) {
          JumpedRight(rs, ms, p, k, addr, top, next);
        }
      } else if addr > range.r.start && top < range.r.Top() {
        next := VisitSplit(range, addr, top, k);
      } else if top > range.r.start && range.r.start >= addr {
        next := VisitFront(range, addr, top, k);
      } else if addr < range.r.Top() && range.r.Top() <= top {
        next := VisitBack(range, addr, top, k);
      } else {
        VisitOutside(k, addr, top);
        next := range.next;
      }
    }

    /**
     Where the walk of `change_map` stands: at node k, everything before it final.  `cut` and `cm` are what the
     list and its marks will be.
     */
    ghost predicate Walking(cut: seq<Region>, cm: Marks, rs0: seq<Region>, p0: PageTable, lo: nat, hi: nat,
                            range: Range?, k: nat, splits: nat)
      requires lo < hi
      reads this, nodes
    {
      && Chain() && Backs() && k <= |nodes| && range == NodeAt(k) && PagesAligned()
      && Progress(cut, rs0, p0, pages, Regions()[..k], Regions()[k..], lo, hi)
      && MarksLeft(cm, Regions(), Marks(), k, lo, hi)
      && (splits == 0 ==> forall i :: k <= i < |nodes| ==> hi <= nodes[i].r.start)
    }

    /** Where it stands before it has met the stale link, or once it has met one that leads out of the list. */
    ghost predicate Astray(c: Call, range: Range?, k: nat)
      requires c.Ok()
      reads this, nodes
    {
      Chain() && Backs() && PagesAligned() && range == NodeAt(k) && AstrayOf(c, nodes, Prevs(), Regions(), pages, k)
    }

    ghost predicate Underway(c: Call, astray: bool, range: Range?, k: nat, splits: nat)
      requires c.Ok()
      reads this, nodes
    {
      if astray then splits == 1 && Astray(c, range, k)
      else
        && !c.link.Gone?
        && Walking(CutList(c.rs, c.link, c.lo, c.hi), CutLinks(c.rs, c.ms, c.link, c.lo, c.hi), c.rs, c.pages, c.lo,
                   c.hi, range, k, splits)
    }

    /** The link the walk will unlink through first. */
    ghost predicate LinkIs(link: Prev, lo: nat, hi: nat)
      reads this, nodes
    {
      && Possible(Regions(), Marks(), link, lo, hi)
      && (link.Right? <==> Guarded(Regions(), Marks(), lo, hi))
      && (!link.Right? ==>
            var w := nodes[FirstCovered(Regions(), lo, hi)].prev;
            if link.Earlier? then w == NodeAt(link.b - 1) else w != null && w !in nodes)
    }

    lemma SomeLink(lo: nat, hi: nat) returns (link: Prev, w: Range?)
      requires Chain() && Backs()
      ensures LinkIs(link, lo, hi) && Possible(Regions(), Marks(), link, lo, hi)
      ensures link.Right? <==> Guarded(Regions(), Marks(), lo, hi)
      ensures !link.Right? ==>
                FirstCovered(Regions(), lo, hi) < |nodes| && w == nodes[FirstCovered(Regions(), lo, hi)].prev
    {
      hide Guarded, FirstCovered, MarksOf, BacksOf, RegionsOf, PrevsOf;
      var p := FirstCovered(Regions(), lo, hi);
      GuardedIs(Regions(), Marks(), lo, hi);
      link, w := Right, null;
      if !Guarded(Regions(), Marks(), lo, hi) {
        var b := NamesSome(p);
        w := nodes[p].prev;
        link := match b case Some(n) => Earlier(n) case None => Gone;
      }
    }

    lemma WalkStarts(c: Call)
      requires Chain() && Backs() && PagesAligned() && c.Ok() && c.link.Right?
      requires c.rs == Regions() && c.ms == Marks() && c.pages == pages
      ensures Underway(c, false, ranges, 0, 1)
    {
      hide Sorted, Aligned, Progress, Chain, BacksOf, MarksOf, Guarded, CutMarks, CutAll, RegionsOf, PrevsOf;
      ProgressStarts(Regions(), pages, c.lo, c.hi);
      assert Regions()[0..] == Regions() && Marks()[0..] == Marks();
      assert ranges == NodeAt(0) by { ChainHead(); }
    }

    lemma ChainHead()
      requires Chain()
      ensures ranges == NodeAt(0)
    {
    }

    lemma StrayStarts(c: Call)
      requires Chain() && Backs() && PagesAligned() && c.Ok() && !c.link.Right? && LinkIs(c.link, c.lo, c.hi)
      requires c.w == nodes[FirstCovered(Regions(), c.lo, c.hi)].prev
      requires c.rs == Regions() && c.ms == Marks() && c.pages == pages
      ensures Underway(c, true, ranges, 0, 1)
    {
      hide Sorted, Aligned, Chain, BacksOf, MarksOf, Guarded, RegionsOf, PrevsOf, FirstCovered;
      assert c.rs[0..] == c.rs && ShrunkAll(c.rs[..0], c.lo, c.hi) == [];
      ChainHead();
    }

    /** A turn of the list of values is a turn of the walk. */
    lemma WalkTurns(cut: seq<Region>, cm: Marks, rs0: seq<Region>, p0: PageTable, rs: seq<Region>, ms: Marks,
                    p: PageTable, lo: nat, hi: nat, next: Range?, k: nat, splits: nat, splits': nat)
      requires lo < hi && k < |rs| == |ms| && Visited(rs, ms, p, k, lo, hi, next)
      requires Turned(cut, rs0, p0, Removed(p, rs[k], lo, hi), rs, k, NextList(rs, k, lo, hi), NextIndex(rs, k, lo, hi),
                      Splits(rs[k], lo, hi), lo, hi)
      requires MarksLeft(cm, NextList(rs, k, lo, hi), NextMarks(rs, ms, k, lo, hi), NextIndex(rs, k, lo, hi), lo, hi)
      requires splits == 0 ==> forall i :: k <= i < |rs| ==> hi <= rs[i].start
      requires splits' == if Splits(rs[k], lo, hi) then 0 else splits
      ensures Walking(cut, cm, rs0, p0, lo, hi, next, NextIndex(rs, k, lo, hi), splits')
      ensures |nodes| - NextIndex(rs, k, lo, hi) == |rs| - k - (if Splits(rs[k], lo, hi) then 0 else 1)
      ensures Splits(rs[k], lo, hi) ==> splits != 0
    {
      hide NextList, NextIndex, NextMarks, Removed, Progress, MarksLeft, BacksOf, MarksOf, RegionsOf, PrevsOf, Chain;
      var k' := NextIndex(rs, k, lo, hi);
      var rs' := Regions();
      if !Splits(rs[k], lo, hi) && splits == 0 {
        forall i | k' <= i < |rs'| ensures hi <= rs'[i].start {
          assert rs'[i] == rs'[k'..][i - k'] == rs[k + 1..][i - k'];
        }
      }
      assert forall i :: 0 <= i < |nodes| ==> nodes[i].r == rs'[i];
    }

    /** What the next turn needs to know of node k. */
    ghost predicate Ready(range: Range, k: nat, b: Option<nat>)
      reads this, nodes, range
    {
      && Chain() && Backs() && PagesAligned() && k < |nodes| && range == nodes[k] && Names(k, b)
      && OnPages(range.r) && range.r.size > 0
    }

    lemma WalkReady(cut: seq<Region>, cm: Marks, rs0: seq<Region>, p0: PageTable, lo: nat, hi: nat, range: Range,
                    k: nat, splits: nat)
      returns (b: Option<nat>)
      requires lo < hi && lo % PAGE_SIZE == 0 && hi % PAGE_SIZE == 0
      requires Walking(cut, cm, rs0, p0, lo, hi, range, k, splits)
      ensures Ready(range, k, b) && (Covered(range.r, lo, hi) ==> b == Some(k))
      ensures var rs, ms := Regions(), Marks();
        && Turned(cut, rs0, p0, Removed(pages, rs[k], lo, hi), rs, k, NextList(rs, k, lo, hi),
                  NextIndex(rs, k, lo, hi), Splits(rs[k], lo, hi), lo, hi)
        && MarksLeft(cm, NextList(rs, k, lo, hi), NextMarks(rs, ms, k, lo, hi), NextIndex(rs, k, lo, hi), lo, hi)
    {
      hide Turned, MarksLeft, NextList, NextMarks, NextIndex, Removed, BacksOf, MarksOf, RegionsOf, PrevsOf, Chain,
           CutAll, PagesLeft;
      Turn(cut, rs0, p0, pages, Regions(), k, lo, hi);
      MarksTurn(cm, Regions(), Marks(), k, lo, hi);
      b := NamesSome(k);
    }

    lemma StrayReady(c: Call, range: Range, k: nat) returns (b: Option<nat>)
      requires c.Ok() && Astray(c, range, k)
      ensures Ready(range, k, b) && range.r == c.rs[k] && !Splits(range.r, c.lo, c.hi)
      ensures Covered(range.r, c.lo, c.hi) ==> b == match c.link case Earlier(n) => Some(n) case _ => None
    {
      hide MarksOf, BacksOf, PagesLeft, RegionsOf, PrevsOf, Chain, ShrunkAll, Splits, Covered, Sorted, Aligned,
           Possible;
      AheadFacts(c, k);
      StrayAt(c, k);
      b := NamesSome(k);
      if Covered(range.r, c.lo, c.hi) {
        b := match c.link case Earlier(n) => Some(n) case _ => None;
        EarlierBefore(c);
      }
    }

    lemma EarlierBefore(c: Call)
      requires c.Ok()
      ensures c.link.Earlier? ==> c.link.b < FirstCovered(c.rs, c.lo, c.hi)
    {
    }

    lemma StrayAt(c: Call, k: nat)
      requires c.Ok() && AstrayOf(c, nodes, Prevs(), Regions(), pages, k) && k < |nodes|
      ensures nodes[k].r == c.rs[k]
    {
      hide MarksOf, PagesLeft, RegionsOf, PrevsOf, ShrunkAll;
      assert Regions()[k] == c.rs[k..][0];
    }

    /** The turn of a walk astray, told from the values before it. */
    lemma StrayTurns(c: Call, ns: seq<Range>, ps: seq<Range?>, rs: seq<Region>, ms: Marks, p: PageTable, k: nat,
                     next: Range?)
      returns (astray: bool, k': nat)
      requires c.Ok() && k < |ns| == |ms| && AstrayOf(c, ns, ps, rs, p, k) && ms == MarksOf(ns, ps)
      requires rs[k] == c.rs[k] && !Splits(rs[k], c.lo, c.hi)
      requires !Covered(rs[k], c.lo, c.hi) ==> Visited(rs, ms, p, k, c.lo, c.hi, next) && nodes == ns && Prevs() == ps
      requires Covered(rs[k], c.lo, c.hi) && c.link.Earlier? && c.link.b <= k ==>
                 Jumped(rs, ms, p, c.link.b, k, c.lo, c.hi, next)
      requires Covered(rs[k], c.lo, c.hi) && c.link.Gone? ==> Freed(ns, ps, rs, p, k, c.lo, c.hi, next)
      ensures Underway(c, astray, next, k', 1) && k' <= |nodes| && |nodes| - k' < |ns| - k
    {
      hide MarksOf, BacksOf, PagesLeft, RegionsOf, PrevsOf, Chain, ShrunkAll, Splits, Covered, Possible, Sorted,
           Aligned, NextList, NextIndex, NextMarks, Removed, Progress, MarksLeft, WithFirst, FirstLink, CutList,
           CutLinks;
      if !Covered(rs[k], c.lo, c.hi) {
        StayAstray(c, ns, ps, rs, p, k);
        astray, k' := true, k + 1;
      } else if c.link.Gone? {
        FreeAstray(c, ns, ps, rs, p, k);
        astray, k' := true, k + 1;
      } else {
        JumpAstray(c, ns, ps, rs, p, k);
        astray, k' := false, c.link.b;
      }
    }

    /** One turn of the loop. */
    method TurnOn(range: Range, addr: nat, top: nat, ghost c: Call, ghost astray: bool, ghost k: nat, ghost splits: nat)
      returns (next: Range?, ghost astray': bool, ghost k': nat, ghost splits': nat)
      requires c.Ok() && addr == c.lo && top == c.hi && Underway(c, astray, range, k, splits) && k <= |nodes|
      modifies this, all
      ensures Underway(c, astray', next, k', splits') && k' <= |nodes|
      ensures forall x :: x in all ==> x in old(all) || fresh(x)
      ensures splits' + |nodes| - k' < splits + |old(nodes)| - k
    {
      hide Walking, Astray, Turned, MarksLeft, NextList, NextIndex, NextMarks, Removed, Visited, Jumped, Freed, CutList,
           CutLinks, AstrayOf, Chain, Backs, PagesAligned, Names, RegionsOf, PrevsOf, MarksOf, Guarded, FirstCovered;
      ghost var ns, ps, rs, ms, p := nodes, Prevs(), Regions(), Marks(), pages;
      ghost var cut, cm := [], [];
      ghost var b;
      if astray {
        b := StrayReady(c, range, k);
        StrayParts(c, range, k);
      } else {
        cut, cm := CutList(c.rs, c.link, c.lo, c.hi), CutLinks(c.rs, c.ms, c.link, c.lo, c.hi);
        b := WalkReady(cut, cm, c.rs, c.pages, c.lo, c.hi, range, k, splits);
        SplitsLeft(cut, cm, c, range, k, splits);
      }
      assert range.prev == null || range != ranges by { HeadPrev(range, k, b); }
      next := VisitRange(range, addr, top, k, b);
      if astray {
        astray', k' := StrayTurns(c, ns, ps, rs, ms, p, k, next);
        splits' := 1;
      } else {
        k', splits' := NextIndex(rs, k, c.lo, c.hi), if Splits(rs[k], c.lo, c.hi) then 0 else splits;
        WalkTurns(cut, cm, c.rs, c.pages, rs, ms, p, c.lo, c.hi, next, k, splits, splits');
        astray' := false;
      }
    }

    lemma StrayParts(c: Call, range: Range?, k: nat)
      requires c.Ok() && Astray(c, range, k)
      ensures AstrayOf(c, nodes, Prevs(), Regions(), pages, k)
    {
    }

    lemma SplitsLeft(cut: seq<Region>, cm: Marks, c: Call, range: Range?, k: nat, splits: nat)
      requires c.Ok() && Walking(cut, cm, c.rs, c.pages, c.lo, c.hi, range, k, splits)
      ensures splits == 0 ==> forall i :: k <= i < |nodes| ==> c.hi <= Regions()[i].start
    {
    }

    /** The assertion at the head of the loop. */
    lemma HeadPrev(range: Range, k: nat, b: Option<nat>)
      requires Ready(range, k, b)
      ensures range.prev == null || range != ranges
    {
      assert Prevs()[0] == nodes[0].prev;
    }

    lemma WalkEnds(c: Call, astray: bool, k: nat, splits: nat)
      requires c.Ok() && Underway(c, astray, null, k, splits) && k <= |nodes|
      ensures Chain() && Backs() && PagesAligned()
      ensures Regions() == CutList(c.rs, c.link, c.lo, c.hi) && PagesLeft(c.pages, pages, c.rs, [], c.lo, c.hi)
      ensures !c.link.Gone? ==> Marks() == CutLinks(c.rs, c.ms, c.link, c.lo, c.hi)
    {
      hide CutAll, PagesLeft, CutMarks, MarksOf, BacksOf, RegionsOf, PrevsOf, Chain, ShrunkAll, Sorted, Aligned,
           Guarded, Bypassed;
      if astray {
        assert k == |c.rs| && c.rs[..k] == c.rs && c.rs[k..] == [];
      } else {
        assert k == |Regions()|;
        ProgressEnds(CutList(c.rs, c.link, c.lo, c.hi), c.rs, c.pages, pages, Regions(), c.lo, c.hi);
        assert Marks()[k..] == [] && Marks()[..k] == Marks();
      }
    }

    /**
     `change_map` with free = true.  Exactly the pages of [addr, addr + size) leave the page table.  The list is the
     one meant exactly when the first range to be unlinked has its `prev` right; then it stays sorted, aligned,
     coalesced and inside the space when it was, and its links back are as `CutMarks` says.  Otherwise, what it is
     instead depends on what that `prev` names.
     */
    method ChangeMap(addr: nat, size: nat) returns (ghost link: Prev)
      requires Chain() && Backs() && Sorted(Regions()) && Aligned(Regions()) && PagesAligned()
      requires size > 0 && addr % PAGE_SIZE == 0 && size % PAGE_SIZE == 0
      modifies this, all
      ensures Chain() && Backs() && PagesAligned()
      ensures PagesLeft(old(pages), pages, old(Regions()), [], addr, addr + size)
      ensures old(LinkIs(link, addr, addr + size))
      ensures link.Right? <==> Guarded(old(Regions()), old(Marks()), addr, addr + size)
      ensures Regions() == CutList(old(Regions()), link, addr, addr + size)
      ensures Regions() == CutAll(old(Regions()), addr, addr + size) <==> link.Right?
      ensures Removes(old(Regions()), Regions(), addr, addr + size) <==> !link.Earlier?
      ensures link.Right? ==> Marks() == CutMarks(old(Regions()), old(Marks()), addr, addr + size)
      ensures old(Valid()) && link.Right? ==> Valid()
      ensures old(BackChain()) ==> link.Right? && BackChain()
    {
      hide Chain, Backs, Sorted, Aligned, PagesAligned, PagesLeft, CutList, CutLinks, GoodList, Removes, Guarded,
           CutAll, CutMarks, RegionsOf, PrevsOf, MarksOf, AllRight, FirstCovered, LinkIs, Possible, BackChain;
      var top := addr + size;
      PagesBetween(addr, size);
      ghost var w;
      link, w := SomeLink(addr, top);
      ghost var c := Call(Regions(), Marks(), pages, addr, top, link, w);
      Outcome(c);
      BackMarks();
      Walk(addr, top, c);
      BackMarks();
    }

    /** The loop. */
    method Walk(addr: nat, top: nat, ghost c: Call)
      requires Chain() && Backs() && PagesAligned() && c.Ok() && LinkIs(c.link, c.lo, c.hi)
      requires !c.link.Right? ==> c.w == nodes[FirstCovered(Regions(), c.lo, c.hi)].prev
      requires c.rs == Regions() && c.ms == Marks() && c.pages == pages && addr == c.lo && top == c.hi
      modifies this, all
      ensures Chain() && Backs() && PagesAligned()
      ensures Regions() == CutList(c.rs, c.link, c.lo, c.hi) && PagesLeft(c.pages, pages, c.rs, [], c.lo, c.hi)
      ensures !c.link.Gone? ==> Marks() == CutLinks(c.rs, c.ms, c.link, c.lo, c.hi)
    {
      hide Underway, Chain, Backs, PagesAligned, PagesLeft, CutList, CutLinks, RegionsOf, PrevsOf, MarksOf, Sorted,
           Aligned, Guarded, FirstCovered;
      var range := ranges;
      ghost var k: nat, splits: nat, astray := 0, 1, !c.link.Right?;
      if astray {
        StrayStarts(c);
      } else {
        WalkStarts(c);
      }
      while range != null
        invariant Underway(c, astray, range, k, splits) && k <= |nodes|
        invariant forall x :: x in all ==> x in old(all) || fresh(x)
        decreases splits + |nodes| - k
      {
        range, astray, k, splits := TurnOn(range, addr, top, c, astray, k, splits);
      }
      WalkEnds(c, astray, k, splits);
    }

    /** All links are right exactly when all marks are. */
    lemma BackMarks()
      ensures BackChain() <==> AllRight(Marks())
    {
      hide PrevsOf;
    }

    /** What follows from the values alone. */
    lemma Outcome(c: Call)
      requires c.Ok() && (c.link.Right? <==> Guarded(c.rs, c.ms, c.lo, c.hi))
      ensures c.link.Earlier? ==> c.link.b <= FirstCovered(c.rs, c.lo, c.hi) < |c.rs|
      ensures CutList(c.rs, c.link, c.lo, c.hi) == CutAll(c.rs, c.lo, c.hi) <==> c.link.Right?
      ensures Removes(c.rs, CutList(c.rs, c.link, c.lo, c.hi), c.lo, c.hi) <==> !c.link.Earlier?
      ensures c.link.Right? ==> CutLinks(c.rs, c.ms, c.link, c.lo, c.hi) == CutMarks(c.rs, c.ms, c.lo, c.hi)
      ensures GoodList(c.rs, start, end) ==> GoodList(CutAll(c.rs, c.lo, c.hi), start, end)
      ensures AllRight(c.ms) ==> c.link.Right? && AllRight(CutMarks(c.rs, c.ms, c.lo, c.hi))
    {
      hide Sorted, Aligned, Removes, Guarded, CutAll, CutMarks, GoodList, AllRight;
      CutListExact(c.rs, c.ms, c.link, c.lo, c.hi);
      if GoodList(c.rs, start, end) {
        CutAllGood(c.rs, c.lo, c.hi, start, end);
      }
      if AllRight(c.ms) {
        CutMarksRight(c.rs, c.ms, c.lo, c.hi);
      }
    }

    // ---------- inserting a range ----------

    /** The search of `insert_range`: the last range that starts below the new one. */
    method FindBefore(node: Range) returns (range: Range, ghost k: nat)
      requires Chain() && Sorted(Regions()) && nodes != [] && node.r.size > 0 && Apart(node.r, Regions())
      requires nodes[0].r.start < node.r.Top()
      ensures k < |nodes| && range == nodes[k] && Position(Regions(), node.r.start) == k + 1
    {
      hide RegionsOf;
      ghost var rs := Regions();
      range := ranges;
      k := 0;
      while range.next != null
        invariant k < |nodes| && range == nodes[k] && rs[k].Top() <= node.r.start
        decreases |nodes| - k
      {
        if node.r.start >= range.r.Top() && node.r.start < range.next.r.start {
          PlaceAfter(rs, node.r, k);
          return;
        }
        range := range.next;
        k := k + 1;
      }
      PlaceAfter(rs, node.r, k);
    }

    /** The whole search: the node to link behind, none for the front, and its place. */
    method FindPlace(node: Range) returns (range: Range?, ghost p: nat)
      requires Chain() && Sorted(Regions()) && node.r.size > 0 && Apart(node.r, Regions())
      ensures p <= |nodes| && range == NodeAt(p - 1) && p == Position(Regions(), node.r.start)
      ensures Insert(Regions(), node.r) == JoinLeft(Regions()[..p], JoinRight(node.r, Regions()[p..]))
    {
      hide JoinLeft, JoinRight, RegionsOf;
      if ranges == null || node.r.Top() <= ranges.r.start {
        range, p := null, 0;
      } else {
        range, p := FindBefore(node);
        p := p + 1;
      }
    }

    method LinkFront(node: Range)
      requires Chain() && node !in nodes
      modifies this`ranges, this`nodes, nodes`prev, node`next, node`prev
      ensures Chain() && nodes == [node] + old(nodes)
      ensures Prevs() == [null] + FirstLink(old(Prevs()), node)
    {
      hide PrevsOf, FirstLink;
      ghost var was, ps := nodes, Prevs();
      node.next := ranges;
      if ranges != null {
        ranges.prev := node;
      }
      ranges := node;
      node.prev := null;
      nodes := [node] + nodes;
      assert was[..0] + [node] + was[0..] == nodes && ps[0..] == ps;
      PutChain(was, 0, node);
      NewPrevsWith(was, ps, 0, node, node);
      assert ps[..0] + [node.prev] + FirstLink(ps, node) == [null] + FirstLink(ps, node);
    }

    /** A node put between two others does not become its successor's `prev`. */
    method LinkBehind(range: Range, node: Range, ghost k: nat)
      requires Chain() && node !in nodes && k < |nodes| && range == nodes[k]
      modifies this`nodes, range`next, node`next, node`prev
      ensures Chain() && nodes == old(nodes)[..k + 1] + [node] + old(nodes)[k + 1..]
      ensures Prevs() == old(Prevs())[..k + 1] + [range] + old(Prevs())[k + 1..]
    {
      hide PrevsOf, FirstLink;
      ghost var was, ps := nodes, Prevs();
      node.next := range.next;
      node.prev := range;
      range.next := node;
      nodes := was[..k + 1] + [node] + was[k + 1..];
      PutChain(was, k + 1, node);
      ghost var w: Range? := if k + 1 < |ps| then ps[k + 1] else null;
      NewPrevsWith(was, ps, k + 1, node, w);
      SameFirst(ps[k + 1..], w);
    }

    lemma SameFirst(ps: seq<Range?>, w: Range?)
      requires ps != [] ==> ps[0] == w
      ensures FirstLink(ps, w) == ps
    {
    }

    /** The list was with one node more at index p, and the links back that makes. */
    ghost predicate Put(was: seq<Range>, ps: seq<Range?>, p: nat)
      requires |ps| == |was|
      reads this`nodes, nodes`prev
    {
      && p <= |was| && |nodes| == |was| + 1
      && nodes == was[..p] + [nodes[p]] + was[p..] && Prevs() == PutLinks(was, ps, p, nodes[p])
    }

    /** Linking behind range, or in front when there is none; in the middle the successor's link goes stale. */
    method LinkAt(range: Range?, node: Range, ghost p: nat)
      requires Chain() && Backs() && node !in all && p <= |nodes| && range == NodeAt(p - 1)
      modifies this`ranges, this`nodes, this`all, nodes`next, nodes`prev, node`next, node`prev
      ensures Chain() && Backs() && all == old(all) + {node} && node.prev == range
      ensures nodes == old(nodes)[..p] + [node] + old(nodes)[p..] && Marks() == LinkMarks(old(Marks()), p)
      ensures Put(old(nodes), old(Prevs()), p)
    {
      hide BacksOf, MarksOf, PrevsOf, FirstLink, LinkMarks;
      InAll();
      ghost var was, ps := nodes, Prevs();
      Distinct();
      LinkLinks(was, ps, all, p, node);
      if range == null {
        LinkFront(node);
        assert was[..0] + [node] + was[0..] == nodes && ps[0..] == ps;
        assert PutLinks(was, ps, 0, node) == [null] + FirstLink(ps, node);
      } else {
        LinkBehind(range, node, p - 1);
      }
      all := all + {node};
      Middle(was, node, p);
    }

    lemma Middle(was: seq<Range>, node: Range, p: nat)
      requires p <= |was| && nodes == was[..p] + [node] + was[p..]
      ensures nodes[p] == node
    {
    }

    lemma Distinct()
      requires Chain()
      ensures forall j, k :: 0 <= j < k < |nodes| ==> nodes[j] != nodes[k]
    {
    }

    /** The list of values after a node is linked. */
    lemma LinkedRegions(was: seq<Range>, rs: seq<Region>, p: nat, node: Range)
      requires p <= |was| == |rs| && nodes == was[..p] + [node] + was[p..]
      requires forall j :: 0 <= j < |was| ==> was[j].r == rs[j]
      ensures nodes[p] == node && Regions()[p] == node.r && Regions()[..p] == rs[..p] && Regions()[p + 1..] == rs[p..]
      ensures forall x :: x in nodes ==> x in was || x == node
    {
      hide RegionsOf;
      forall j | 0 <= j < |nodes| ensures nodes[j] == if j < p then was[j] else if j == p then node else was[j - 1] {
      }
    }

    /** What both merges do: node q takes the size of the node behind it, which is passed over. */
    lemma Merged(was: seq<Range>, ps: seq<Range?>, rs: seq<Region>, q: nat, node: Range)
      requires q + 1 < |was| == |ps| == |rs| && was[q] == node && nodes == was[..q + 1] + was[q + 2..]
      requires ranges == was[0] && forall j, k :: 0 <= j < k < |was| ==> was[j] != was[k]
      requires forall j {:trigger was[j].next} :: 0 <= j < |was| ==>
                 was[j].next == if j == q then At(was, q + 2) else At(was, j + 1)
      requires forall j {:trigger was[j].prev} :: 0 <= j < |was| ==> was[j].prev == if j == q + 2 then node else ps[j]
      requires forall j {:trigger was[j].r} :: 0 <= j < |was| && j != q + 1 ==>
                 was[j].r == if j == q then Join(rs[q], rs[q + 1]) else rs[j]
      ensures Chain() && Prevs() == ps[..q + 1] + FirstLink(ps[q + 2..], node)
      ensures Regions() == rs[..q] + [Join(rs[q], rs[q + 1])] + rs[q + 2..]
    {
      hide PrevsOf, RegionsOf, FirstLink, Join;
      assert PassedOver(was, q + 1, q + 1);
      PassedOverChain(was, q + 1, q + 1);
      NewPrevs(was, ps, q + 1, q + 2, node);
      MergedRegions(was, rs, q, Join(rs[q], rs[q + 1]));
    }

    lemma MergedRegions(was: seq<Range>, rs: seq<Region>, q: nat, r: Region)
      requires q + 1 < |was| == |rs|
      requires forall j {:trigger was[j].r} :: 0 <= j < |was| && j != q + 1 ==> was[j].r == if j == q then r else rs[j]
      ensures RegionsOf(was[..q + 1] + was[q + 2..]) == rs[..q] + [r] + rs[q + 2..]
    {
      hide RegionsOf;
      var ns, rs' := was[..q + 1] + was[q + 2..], rs[..q] + [r] + rs[q + 2..];
      forall j | 0 <= j < |ns| ensures RegionsOf(ns)[j] == rs'[j] {
        SliceAt(was, q + 1, q + 2, j);
      }
    }

    /** The node at index p is taken over by its predecessor and freed. */
    method GiveUp(node: Range, kept: Range, ghost p: nat)
      requires Chain() && Backs() && 0 < p < |nodes| && nodes[p] == node && nodes[p - 1] == kept
      modifies this`nodes, nodes`r, nodes`next, nodes`prev
      ensures Chain() && Backs() && Marks() == DropMarks(old(Marks()), p) && kept.prev == old(kept.prev)
      ensures nodes == old(nodes)[..p] + old(nodes)[p + 1..]
      ensures var rs := old(Regions());
        Regions() == rs[..p - 1] + [Join(rs[p - 1], rs[p])] + rs[p + 1..]
    {
      hide BacksOf, MarksOf, PrevsOf, RegionsOf, FirstLink, DropMarks, WithFirst;
      ghost var was, ps, rs := nodes, Prevs(), Regions();
      Distinct();
      DropLinks(was, ps, all, p);
      kept.r := kept.r.(size := kept.r.size + node.r.size);
      kept.next := node.next;
      if node.next != null {
        node.next.prev := kept;
      }
      node.r := node.r.(size := 0);
      nodes := was[..p] + was[p + 1..];
      Merged(was, ps, rs, p - 1, kept);
    }

    /** Merges the node with its successor when that one continues it. */
    method MergeNext(node: Range, ghost p: nat)
      requires Chain() && Backs() && p < |nodes| && nodes[p] == node
      modifies this`nodes, nodes`r, nodes`next, nodes`prev
      ensures Chain() && Backs() && p < |nodes| && nodes[p] == node && node.prev == old(node.prev)
      ensures NodeAt(p - 1) == old(NodeAt(p - 1))
      ensures forall j :: 0 <= j < |nodes| ==> nodes[j] in old(nodes)
      ensures var rs, ms := old(Regions()), old(Marks());
        Marks() == if p + 1 < |rs| && Continues(rs[p], rs[p + 1]) then DropMarks(ms, p + 1) else ms
      ensures var rs := old(Regions());
        !(p + 1 < |rs| && Continues(rs[p], rs[p + 1])) ==> nodes == old(nodes) && Prevs() == old(Prevs())
      ensures Regions()[..p] == old(Regions())[..p]
      ensures Regions()[p..] == JoinRight(old(Regions())[p], old(Regions())[p + 1..])
    {
      hide JoinRight, Continues, Join, BacksOf, MarksOf, PrevsOf, RegionsOf, DropMarks;
      ghost var rs := Regions();
      JoinRightAt(rs, p);
      if node.next != null && Continues(node.r, node.next.r) {
        GiveUp(node.next, node, p + 1);
        Slices(rs[..p], Join(rs[p], rs[p + 1]), rs[p + 2..]);
      }
    }

    /** Merges the node into its predecessor when it continues that one. */
    method MergePrev(node: Range, ghost p: nat)
      requires Chain() && Backs() && p < |nodes| && nodes[p] == node && node.prev == NodeAt(p - 1)
      modifies this`nodes, nodes`r, nodes`next, nodes`prev
      ensures Chain() && Backs()
      ensures forall x :: x in nodes ==> x in old(nodes)
      ensures var rs, ms := old(Regions()), old(Marks());
        Marks() == if p > 0 && Continues(rs[p - 1], rs[p]) then DropMarks(ms, p) else ms
      ensures var rs := old(Regions());
        !(p > 0 && Continues(rs[p - 1], rs[p])) ==> nodes == old(nodes) && Prevs() == old(Prevs())
      ensures Regions() == JoinLeft(old(Regions())[..p], old(Regions())[p..])
    {
      hide JoinLeft, Continues, Join, BacksOf, MarksOf, PrevsOf, RegionsOf, DropMarks;
      ghost var rs := Regions();
      JoinLeftAt(rs, p);
      if node.prev != null && Continues(node.prev.r, node.r) {
        GiveUp(node, node.prev, p);
      }
    }

    /** The fragmentation check of `insert_range`. */
    method Merge(node: Range, ghost p: nat, ghost was: seq<Region>)
      requires Chain() && Backs() && p < |nodes| && nodes[p] == node && node.prev == NodeAt(p - 1)
      requires p <= |was| && Regions()[..p] == was[..p] && Regions()[p + 1..] == was[p..]
      modifies this`nodes, nodes`r, nodes`next, nodes`prev
      ensures Chain() && Backs()
      ensures forall x :: x in nodes ==> x in old(nodes)
      ensures Regions() == JoinLeft(was[..p], JoinRight(old(node.r), was[p..]))
      ensures Marks() == MergeMarks(was, old(Marks()), p, old(node.r))
      ensures !Merges(was, p, old(node.r)) ==> nodes == old(nodes) && Prevs() == old(Prevs())
    {
      hide JoinLeft, JoinRight, Backs, MarksOf, PrevsOf, RegionsOf, DropMarks, Continues, Chain;
      ghost var rs := Regions();
      MergedAt(rs, was, p);
      MergeNext(node, p);
      MergedStep(rs[p], was, Regions(), p);
      MergePrev(node, p);
    }

    /** Linking, and the fragmentation check. */
    method InsertAt(range: Range?, node: Range, ghost p: nat)
      requires Chain() && Backs() && node !in all && p <= |nodes| && range == NodeAt(p - 1)
      modifies this`ranges, this`nodes, this`all, nodes, node
      ensures Chain() && Backs() && all == old(all) + {node}
      ensures Regions() == JoinLeft(old(Regions())[..p], JoinRight(old(node.r), old(Regions())[p..]))
      ensures Marks() == MergeMarks(old(Regions()), LinkMarks(old(Marks()), p), p, old(node.r))
      ensures !Merges(old(Regions()), p, old(node.r)) ==> Put(old(nodes), old(Prevs()), p)
      ensures forall x :: x in nodes ==> x in old(nodes) || x == node
    {
      hide JoinLeft, JoinRight, BacksOf, MarksOf, PrevsOf, RegionsOf, LinkMarks, Chain, PutLinks, Merges;
      ghost var rs, was := Regions(), nodes;
      LinkAt(range, node, p);
      LinkedRegions(was, rs, p, node);
      Merge(node, p, rs);
    }

    /**
     `insert_range`: the list, followed by `next`, becomes the old one with the new range inserted and merged.
     The links back are then as `InsertMarks` says.  When all were right before, they stay right exactly when the new
     range goes to an end of the list or continues or is continued by a neighbour, which the list before the call tells.
     */
    method InsertRange(node: Range)
      requires Chain() && Backs() && Sorted(Regions()) && node !in all
      requires node.r.size > 0 && Apart(node.r, Regions())
      modifies this`ranges, this`nodes, this`all, nodes, node
      ensures Chain() && Backs() && all == old(all) + {node} && Regions() == Insert(old(Regions()), old(node.r))
      ensures Marks() == InsertMarks(old(Regions()), old(Marks()), old(node.r))
      ensures Unmerged(old(Regions()), old(nodes), old(Prevs()), old(node.r))
      ensures forall x :: x in nodes ==> x in old(nodes) || x == node
      ensures old(BackChain()) ==> (BackChain() <==> KeepsBack(old(Regions()), old(node.r)))
    {
      hide *;
      var range, p := FindPlace(node);
      MarksAre(Regions(), Marks(), node.r, p);
      BackMarks();
      ghost var rs, was, ps, r := Regions(), nodes, Prevs(), node.r;
      InsertAt(range, node, p);
      BackMarks();
      UnmergedIs(rs, was, ps, r, p);
    }

    lemma UnmergedIs(rs: seq<Region>, was: seq<Range>, ps: seq<Range?>, r: Region, p: nat)
      requires |rs| == |was| == |ps| && p == Position(rs, r.start) && (!Merges(rs, p, r) ==> Put(was, ps, p))
      ensures Unmerged(rs, was, ps, r)
    {
    }

    /** Without a merge the insertion is one node more, and only that node is told. */
    ghost predicate Unmerged(rs: seq<Region>, was: seq<Range>, ps: seq<Range?>, r: Region)
      requires |rs| == |was| == |ps|
      reads this`nodes, nodes`prev
    {
      var p := Position(rs, r.start);
      !Merges(rs, p, r) ==> Put(was, ps, p)
    }

    lemma MarksAre(rs: seq<Region>, ms: Marks, r: Region, p: nat)
      requires |ms| == |rs| && p == Position(rs, r.start)
      ensures InsertMarks(rs, ms, r) == MergeMarks(rs, LinkMarks(ms, p), p, r)
      ensures AllRight(ms) ==> (AllRight(InsertMarks(rs, ms, r)) <==> KeepsBack(rs, r))
    {
      if AllRight(ms) {
        InsertMarksRight(rs, ms, r);
      }
    }

    // ---------- vmm_map ----------

    /** What every run of `Map` keeps; the backward links are not part of it. */
    ghost predicate Valid()
      reads this, nodes
    {
      Chain() && GoodList(Regions(), start, end)
    }

    /** An empty list is not checked against the end of the space: the one place no range is looked at. */
    predicate Unchecked(hint: nat, bytes: nat)
      reads this
    {
      ranges == null && hint + bytes > end
    }

    method Search(hint: nat, bytes: nat) returns (found: Option<nat>)
      requires Valid() && bytes > 0 && start <= hint <= end
      ensures nodes == [] ==> found == Some(hint)
      ensures !Unchecked(hint, bytes) ==> LeastFit(Regions(), end, hint, bytes, found)
    {
      found := GetFreeRange(hint, bytes);
      if nodes == [] && hint + bytes <= end {
        EmptyFit(end, hint, bytes);
      }
    }

    /** The new range, where it fits or, unchecked, into the empty list. */
    method Place(r: Region, ghost hint: nat)
      requires Valid() && Backs() && r.size > 0 && r.size % PAGE_SIZE == 0 && hint % PAGE_SIZE == 0 && start <= hint
      requires if Unchecked(r.start, r.size) then r.start == hint
               else LeastFit(Regions(), end, hint, r.size, Some(r.start))
      modifies this`ranges, this`nodes, this`all, nodes
      ensures Chain() && Backs() && (Valid() <==> !old(Unchecked(r.start, r.size)))
      ensures Regions() == Insert(old(Regions()), r) && Adds(old(Regions()), r, Regions())
      ensures Marks() == InsertMarks(old(Regions()), old(Marks()), r)
      ensures Unmerged(old(Regions()), old(nodes), old(Prevs()), r)
      ensures forall x :: x in all ==> x in old(all) || fresh(x)
    {
      hide GoodList, LeastFit, Adds, Insert, Apart, Sorted, BacksOf, MarksOf, PrevsOf, RegionsOf, InsertMarks, Unmerged;
      ghost var rs := Regions();
      if Unchecked(r.start, r.size) {
        assert rs == [] by { assert nodes == []; }
        InsertFirst(r, start, end);
      } else {
        InsertGood(Regions(), r, start, end, hint);
      }
      var node := new Range(r);
      InsertRange(node);
    }

    /**
     The list part of `vmm_map`.  The least fitting address from the rounded hint on is taken, or the hint
     itself when `exact` is asked for; then exactly the new range is added to what the addresses map to.
     The ranges stay inside the space exactly when the search looked at one.
     */
    method Map(addr: nat, size: nat, exact: bool, flags: Flags, prot: nat, vnode: nat, offset: nat)
      returns (got: Option<nat>, ghost least: Option<nat>)
      requires Valid() && Backs() && start % PAGE_SIZE == 0 && start <= PageDown(addr) < end
      modifies this`ranges, this`nodes, this`all, nodes
      ensures Chain() && Backs() && (Valid() <==> got.None? || !old(Unchecked(PageDown(addr), PageUp(size))))
      ensures forall x :: x in all ==> x in old(all) || fresh(x)
      ensures size == 0 ==> got.None?
      ensures size > 0 && !old(Unchecked(PageDown(addr), PageUp(size))) ==>
                LeastFit(old(Regions()), end, PageDown(addr), PageUp(size), least)
      ensures size > 0 && old(nodes) == [] ==> least == Some(PageDown(addr))
      ensures size > 0 ==> got == if exact && least != Some(PageDown(addr)) then None else least
      ensures got.None? ==> Regions() == old(Regions()) && Marks() == old(Marks())
      ensures got.Some? ==>
                var r := Region(got.value, PageUp(size), flags, prot, vnode, offset);
                && Regions() == Insert(old(Regions()), r) && Adds(old(Regions()), r, Regions())
                && Marks() == InsertMarks(old(Regions()), old(Marks()), r)
                && Unmerged(old(Regions()), old(nodes), old(Prevs()), r)
    {
      hide LeastFit, Adds, GoodList, Insert, InsertMarks, BacksOf, MarksOf, PrevsOf, RegionsOf, Unmerged;
      var hint, bytes := PageDown(addr), PageUp(size);
      least := None;
      if bytes == 0 {
        return None, None;
      }
      got := Search(hint, bytes);
      least := got;
      if got.None? || (exact && got.value != hint) {
        got := None;
        return;
      }
      Place(Region(got.value, bytes, flags, prot, vnode, offset), hint);
    }
  }

  lemma TwoPages(rs: seq<Region>)
    requires Adds([], Region(0x2000, 0x2000, Flags(false, false), 3, 0, 0), rs)
    ensures Lookup(rs, 0x3000).Some?
  {
  }

  lemma WholePages()
    ensures PageDown(0x2000) == 0x2000 && PageUp(0x2000) == 0x2000 && 0x1000 % PAGE_SIZE == 0
  {
  }

  /** Two pages asked for one page before the end of an empty space are granted, one of them outside. */
  method UncheckedExample() returns (got: Option<nat>, space: Space)
    ensures space.start == 0x1000 && space.end == 0x3000 && got == Some(0x2000)
    ensures space.Chain() && !space.Valid() && Lookup(space.Regions(), 0x3000).Some?
  {
    hide LeastFit, GoodList, KeepsBack, Lookup, Adds, PageDown, PageUp;
    space := new Space(0x1000, 0x3000);
    EmptyGood(0x1000, 0x3000);
    WholePages();
    assert space.Regions() == [];
    ghost var least;
    got, least := space.Map(0x2000, 0x2000, false, Flags(false, false), 3, 0, 0);
    TwoPages(space.Regions());
  }

  /** Three separate pages, the middle one inserted last: one of the inserts that lose a backward link. */
  lemma MiddleInsertExample()
    ensures var a := Region(0x1000, 0x1000, Flags(false, false), 3, 0, 0);
      var b, c := a.(start := 0x3000), a.(start := 0x5000);
      && Sorted([a, c]) && Apart(b, [a, c])
      && Position([a, c], b.start) == 1 && Insert([a, c], b) == [a, b, c] && !KeepsBack([a, c], b)
  {
    var a := Region(0x1000, 0x1000, Flags(false, false), 3, 0, 0);
    var b, c := a.(start := 0x3000), a.(start := 0x5000);
    assert Position([a, c], b.start) == 1;
    assert [a, c][..1] == [a] && [a, c][1..] == [c];
  }

  /** The neighbours of a node linked at index p of the list was. */
  lemma MergedAt(rs: seq<Region>, was: seq<Region>, p: nat)
    requires p < |rs| && p <= |was| && rs[..p] == was[..p] && rs[p + 1..] == was[p..]
    ensures |was| == |rs| - 1 && (p + 1 < |rs| ==> rs[p + 1] == was[p])
  {
    assert p + 1 < |rs| ==> rs[p + 1..][0] == was[p..][0];
  }

  /** The same after a merge with what follows. */
  lemma MergedStep(r: Region, was: seq<Region>, rs: seq<Region>, p: nat)
    requires p <= |was| && p < |rs| && rs[..p] == was[..p] && rs[p..] == JoinRight(r, was[p..])
    ensures p > 0 ==> (Continues(rs[p - 1], rs[p]) <==> Continues(was[p - 1], r))
  {
    assert rs[p] == rs[p..][0];
    assert p > 0 ==> rs[..p][p - 1] == was[..p][p - 1];
  }

  lemma JoinLeftAt(rs: seq<Region>, p: nat)
    requires p < |rs|
    ensures JoinLeft(rs[..p], rs[p..]) ==
              if p > 0 && Continues(rs[p - 1], rs[p]) then rs[..p - 1] + [Join(rs[p - 1], rs[p])] + rs[p + 1..] else rs
  {
    assert p > 0 ==> rs[..p][..p - 1] == rs[..p - 1];
    assert rs[p..][1..] == rs[p + 1..] && rs == rs[..p] + rs[p..];
  }

  lemma JoinRightAt(rs: seq<Region>, p: nat)
    requires p < |rs|
    ensures JoinRight(rs[p], rs[p + 1..]) ==
              if p + 1 < |rs| && Continues(rs[p], rs[p + 1]) then [Join(rs[p], rs[p + 1])] + rs[p + 2..] else rs[p..]
  {
    assert p + 1 < |rs| ==> rs[p + 1..][1..] == rs[p + 2..];
    assert rs[p..] == [rs[p]] + rs[p + 1..];
  }

  lemma Slices(xs: seq<Region>, y: Region, zs: seq<Region>)
    ensures var s := xs + [y] + zs;
      s[..|xs|] == xs && s[|xs|] == y && s[|xs| + 1..] == zs && s[|xs|..] == [y] + zs
  {
  }

  /** The new range starts behind the k first ranges and before the rest. */
  lemma PlaceAfter(rs: seq<Region>, r: Region, k: nat)
    requires Sorted(rs) && k < |rs| && rs[k].Top() <= r.start && (k + 1 < |rs| ==> r.start < rs[k + 1].start)
    ensures Position(rs, r.start) == k + 1
  {
  }
}
