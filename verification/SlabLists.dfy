/**
 kernel/mem/slab.c: the slab headers in memory, keyed by address, and the doubly linked lists that run
 through them.  Address 0 is the null pointer.
 */
module SlabLists {
  datatype Slab = Slab(next: nat, prev: nat, used: nat, free: nat, base: nat)

  type Slabs = map<nat, Slab>

  function At(nodes: seq<nat>, i: int): nat {
    if 0 <= i < |nodes| then nodes[i] else 0
  }

  ghost predicate NoDup(nodes: seq<nat>) {
    forall i, j :: 0 <= i < j < |nodes| ==> nodes[i] != nodes[j]
  }

  /** The list from head is exactly nodes, linked both ways. */
  ghost predicate Links(m: Slabs, head: nat, nodes: seq<nat>) {
    && head == At(nodes, 0) && NoDup(nodes)
    && (forall s :: s in nodes ==> s in m && s != 0)
    && (forall i {:trigger m[nodes[i]]} :: 0 <= i < |nodes| ==>
          m[nodes[i]].next == At(nodes, i + 1) && m[nodes[i]].prev == At(nodes, i - 1))
  }

  /** Same slabs with the same links. */
  ghost predicate SameLinks(m: Slabs, m': Slabs) {
    m.Keys == m'.Keys && forall s :: s in m ==> m'[s].next == m[s].next && m'[s].prev == m[s].prev
  }

  /** Same slabs, only links changed. */
  ghost predicate SameBodies(m: Slabs, m': Slabs) {
    m.Keys == m'.Keys && forall s :: s in m ==> m'[s] == m[s].(next := m'[s].next, prev := m'[s].prev)
  }

  lemma LinksKept(m: Slabs, m': Slabs, head: nat, nodes: seq<nat>)
    requires Links(m, head, nodes) && SameLinks(m, m')
    ensures Links(m', head, nodes)
  {
    forall i | 0 <= i < |nodes|
      ensures m'[nodes[i]].next == At(nodes, i + 1) && m'[nodes[i]].prev == At(nodes, i - 1)
    {
      assert nodes[i] in m && m[nodes[i]].next == At(nodes, i + 1);
    }
  }

  // ---------- putting a slab in front ----------

  function PushFront(m: Slabs, head: nat, s: nat): Slabs
    requires s in m && (head != 0 ==> head in m)
  {
    var m1 := m[s := m[s].(next := head, prev := 0)];
    if head != 0 then m1[head := m1[head].(prev := s)] else m1
  }

  lemma PushBodies(m: Slabs, head: nat, s: nat)
    requires s in m && (head != 0 ==> head in m) && s != head
    ensures SameBodies(m, PushFront(m, head, s))
    ensures forall x :: x in m && x != s && x != head ==> PushFront(m, head, s)[x] == m[x]
  {
  }

  lemma PushLinks(m: Slabs, head: nat, nodes: seq<nat>, s: nat)
    requires Links(m, head, nodes) && s in m && s != 0 && s !in nodes
    ensures head != 0 ==> head in nodes
    ensures Links(PushFront(m, head, s), s, [s] + nodes)
  {
    assert nodes != [] ==> head == nodes[0] && nodes[0] in nodes;
    var m', list := PushFront(m, head, s), [s] + nodes;
    assert forall i {:trigger list[i]} :: 0 < i < |list| ==> list[i] == nodes[i - 1];
    forall i | 0 <= i < |list| ensures m'[list[i]].next == At(list, i + 1) && m'[list[i]].prev == At(list, i - 1) {
      if i > 0 {
        assert list[i] == nodes[i - 1] && nodes[i - 1] in m;
        assert m[nodes[i - 1]].next == At(nodes, i) && m[nodes[i - 1]].prev == At(nodes, i - 2);
        assert i > 1 ==> nodes[i - 1] != nodes[0];
      }
    }
  }

  lemma PushOther(m: Slabs, head: nat, nodes: seq<nat>, s: nat, other: nat, list: seq<nat>)
    requires Links(m, head, nodes) && s in m && s != 0 && s !in nodes
    requires Links(m, other, list) && s !in list && forall x :: x in list ==> x !in nodes
    ensures head != 0 ==> head in nodes
    ensures Links(PushFront(m, head, s), other, list)
  {
    assert nodes != [] ==> head == nodes[0] && nodes[0] in nodes;
    PushBodies(m, head, s);
    var m' := PushFront(m, head, s);
    forall i | 0 <= i < |list| ensures m'[list[i]].next == At(list, i + 1) && m'[list[i]].prev == At(list, i - 1) {
      assert list[i] in list && m'[list[i]] == m[list[i]];
    }
  }

  // ---------- taking a slab out ----------

  function UnlinkMap(m: Slabs, s: nat): Slabs
    requires s in m && (m[s].prev != 0 ==> m[s].prev in m) && (m[s].next != 0 ==> m[s].next in m)
  {
    var m1 := if m[s].prev != 0 then m[m[s].prev := m[m[s].prev].(next := m[s].next)] else m;
    if m[s].next != 0 then m1[m[s].next := m1[m[s].next].(prev := m[s].prev)] else m1
  }

  function UnlinkHead(m: Slabs, head: nat, s: nat): nat
    requires s in m
  {
    if m[s].prev == 0 then m[s].next else head
  }

  function Without(nodes: seq<nat>, k: nat): seq<nat>
    requires k < |nodes|
  {
    nodes[..k] + nodes[k + 1..]
  }

  /** The neighbours of node k. */
  lemma Neighbours(m: Slabs, head: nat, nodes: seq<nat>, k: nat)
    requires Links(m, head, nodes) && k < |nodes|
    ensures nodes[k] in m && m[nodes[k]].next == At(nodes, k + 1) && m[nodes[k]].prev == At(nodes, k - 1)
    ensures m[nodes[k]].prev != 0 <==> k > 0
    ensures m[nodes[k]].next != 0 <==> k + 1 < |nodes|
    ensures m[nodes[k]].prev != 0 ==> m[nodes[k]].prev in nodes && m[nodes[k]].prev in m
    ensures m[nodes[k]].next != 0 ==> m[nodes[k]].next in nodes && m[nodes[k]].next in m
  {
    assert nodes[k] in nodes && nodes[k] in m && m[nodes[k]].next == At(nodes, k + 1);
    assert k > 0 ==> nodes[k - 1] in nodes;
    assert k + 1 < |nodes| ==> nodes[k + 1] in nodes;
  }

  lemma UnlinkBodies(m: Slabs, head: nat, nodes: seq<nat>, k: nat)
    requires Links(m, head, nodes) && k < |nodes|
    requires nodes[k] in m && (m[nodes[k]].prev != 0 ==> m[nodes[k]].prev in m)
    requires m[nodes[k]].next != 0 ==> m[nodes[k]].next in m
    ensures SameBodies(m, UnlinkMap(m, nodes[k]))
    ensures forall x :: x in m && x !in nodes ==> UnlinkMap(m, nodes[k])[x] == m[x]
  {
    Neighbours(m, head, nodes, k);
    hide Links;
  }

  /** The links of node j once node k is out. */
  lemma UnlinkedAt(m: Slabs, head: nat, nodes: seq<nat>, k: nat, j: nat)
    requires Links(m, head, nodes) && k < |nodes| && j < |nodes| && j != k
    requires nodes[k] in m && (m[nodes[k]].prev != 0 ==> m[nodes[k]].prev in m)
    requires m[nodes[k]].next != 0 ==> m[nodes[k]].next in m
    ensures nodes[j] in m
    ensures UnlinkMap(m, nodes[k])[nodes[j]].next == At(nodes, if j + 1 == k then k + 1 else j + 1)
    ensures UnlinkMap(m, nodes[k])[nodes[j]].prev == At(nodes, if j - 1 == k then k - 1 else j - 1)
  {
    Neighbours(m, head, nodes, k);
    Neighbours(m, head, nodes, j);
    assert j == k - 1 || (k > 0 ==> nodes[j] != nodes[k - 1]);
    assert j == k + 1 || (k + 1 < |nodes| ==> nodes[j] != nodes[k + 1]);
    hide Links, NoDup;
  }

  lemma WithoutFacts(nodes: seq<nat>, k: nat)
    requires k < |nodes| && NoDup(nodes)
    ensures NoDup(Without(nodes, k)) && nodes[k] !in Without(nodes, k)
    ensures forall x :: x in nodes <==> x == nodes[k] || x in Without(nodes, k)
  {
    var list := Without(nodes, k);
    assert forall i {:trigger list[i]} :: 0 <= i < |list| ==> list[i] == nodes[if i < k then i else i + 1];
    assert nodes == nodes[..k] + [nodes[k]] + nodes[k + 1..];
  }

  /** Place i of the list without node k. */
  lemma WithoutAt(nodes: seq<nat>, k: nat, i: int)
    requires k < |nodes|
    ensures At(Without(nodes, k), i) == if i < k then At(nodes, i) else At(nodes, i + 1)
    ensures |Without(nodes, k)| == |nodes| - 1
  {
  }

  /** The head and the members of the list without node k. */
  lemma UnlinkedEnds(m: Slabs, head: nat, nodes: seq<nat>, k: nat)
    requires Links(m, head, nodes) && k < |nodes| && nodes[k] in m
    ensures UnlinkHead(m, head, nodes[k]) == At(Without(nodes, k), 0) && NoDup(Without(nodes, k))
    ensures forall s :: s in Without(nodes, k) ==> s in m && s != 0
  {
    Neighbours(m, head, nodes, k);
    WithoutFacts(nodes, k);
    WithoutAt(nodes, k, 0);
    hide Without, NoDup;
  }

  lemma UnlinkLinks(m: Slabs, head: nat, nodes: seq<nat>, k: nat)
    requires Links(m, head, nodes) && k < |nodes|
    requires nodes[k] in m && (m[nodes[k]].prev != 0 ==> m[nodes[k]].prev in m)
    requires m[nodes[k]].next != 0 ==> m[nodes[k]].next in m
    ensures Links(UnlinkMap(m, nodes[k]), UnlinkHead(m, head, nodes[k]), Without(nodes, k))
  {
    UnlinkedEnds(m, head, nodes, k);
    UnlinkBodies(m, head, nodes, k);
    var m', list := UnlinkMap(m, nodes[k]), Without(nodes, k);
    forall i | 0 <= i < |list| ensures m'[list[i]].next == At(list, i + 1) && m'[list[i]].prev == At(list, i - 1) {
      hide *;
      UnlinkedOf(m, head, nodes, k, i);
    }
    hide UnlinkMap, NoDup, Without, UnlinkHead, At;
  }

  lemma UnlinkedOf(m: Slabs, head: nat, nodes: seq<nat>, k: nat, i: nat)
    requires Links(m, head, nodes) && k < |nodes| && i < |Without(nodes, k)|
    requires nodes[k] in m && (m[nodes[k]].prev != 0 ==> m[nodes[k]].prev in m)
    requires m[nodes[k]].next != 0 ==> m[nodes[k]].next in m
    ensures var m', list := UnlinkMap(m, nodes[k]), Without(nodes, k);
      list[i] in m' && m'[list[i]].next == At(list, i + 1) && m'[list[i]].prev == At(list, i - 1)
  {
    hide UnlinkMap, Links, Without, SameBodies;
    WithoutAt(nodes, k, i - 1);
    WithoutAt(nodes, k, i);
    WithoutAt(nodes, k, i + 1);
    UnlinkedAt(m, head, nodes, k, if i < k then i else i + 1);
    assert UnlinkMap(m, nodes[k]).Keys == m.Keys by { UnlinkKeys(m, nodes[k]); }
  }

  lemma UnlinkKeys(m: Slabs, s: nat)
    requires s in m && (m[s].prev != 0 ==> m[s].prev in m) && (m[s].next != 0 ==> m[s].next in m)
    ensures UnlinkMap(m, s).Keys == m.Keys
  {
  }

  lemma UnlinkOther(m: Slabs, head: nat, nodes: seq<nat>, k: nat, other: nat, list: seq<nat>)
    requires Links(m, head, nodes) && k < |nodes|
    requires nodes[k] in m && (m[nodes[k]].prev != 0 ==> m[nodes[k]].prev in m)
    requires m[nodes[k]].next != 0 ==> m[nodes[k]].next in m
    requires Links(m, other, list) && forall x :: x in list ==> x !in nodes
    ensures Links(UnlinkMap(m, nodes[k]), other, list)
  {
    UnlinkBodies(m, head, nodes, k);
    var m' := UnlinkMap(m, nodes[k]);
    forall i | 0 <= i < |list| ensures m'[list[i]].next == At(list, i + 1) && m'[list[i]].prev == At(list, i - 1) {
      assert list[i] in list && m'[list[i]] == m[list[i]];
    }
  }

  /** Slab k of list a moves to the front of list b; list c is not touched. */
  lemma Transfer(m: Slabs, a: nat, from: seq<nat>, k: nat, b: nat, to: seq<nat>, c: nat, others: seq<nat>)
    requires Links(m, a, from) && Links(m, b, to) && Links(m, c, others) && k < |from|
    requires forall x :: x in from ==> x !in to && x !in others
    requires forall x :: x in to ==> x !in others
    ensures Movable(m, from[k], b)
    ensures var m' := Moved(m, from[k], b);
      && Links(m', UnlinkHead(m, a, from[k]), Without(from, k)) && Links(m', from[k], [from[k]] + to)
      && Links(m', c, others) && SameBodies(m, m')
  {
    var s := from[k];
    Neighbours(m, a, from, k);
    UnlinkBodies(m, a, from, k);
    UnlinkLinks(m, a, from, k);
    UnlinkOther(m, a, from, k, b, to);
    UnlinkOther(m, a, from, k, c, others);
    assert NoDup(from) && s in from;
    WithoutFacts(from, k);
    HeadIn(m, b, to);
    var m1 := UnlinkMap(m, s);
    hide Links, UnlinkMap, PushFront;
    PushLinks(m1, b, to, s);
    PushOther(m1, b, to, s, UnlinkHead(m, a, s), Without(from, k));
    PushOther(m1, b, to, s, c, others);
    PushBodies(m1, b, s);
    BodiesTwice(m, m1, PushFront(m1, b, s));
  }

  lemma HeadIn(m: Slabs, head: nat, nodes: seq<nat>)
    requires Links(m, head, nodes)
    ensures head != 0 ==> head in nodes && head in m
    ensures head == 0 <==> nodes == []
  {
    assert nodes != [] ==> nodes[0] in nodes;
  }

  lemma BodiesTwice(m: Slabs, m1: Slabs, m2: Slabs)
    requires SameBodies(m, m1) && SameBodies(m1, m2)
    ensures SameBodies(m, m2)
  {
    assert forall s :: s in m ==> m1[s].used == m[s].used && m1[s].free == m[s].free && m1[s].base == m[s].base;
  }

  /** Slab s can be moved in front of list b. */
  predicate Movable(m: Slabs, s: nat, b: nat) {
    && s in m && (m[s].prev != 0 ==> m[s].prev in m) && (m[s].next != 0 ==> m[s].next in m)
    && (b != 0 ==> b in m)
  }

  function Moved(m: Slabs, s: nat, b: nat): Slabs
    requires Movable(m, s, b)
  {
    PushFront(UnlinkMap(m, s), b, s)
  }

  /** A new header breaks no list. */
  lemma LinksGrow(m: Slabs, s: nat, slab: Slab, head: nat, nodes: seq<nat>)
    requires Links(m, head, nodes) && s !in m
    ensures Links(m[s := slab], head, nodes) && s !in nodes
  {
    var m' := m[s := slab];
    forall i | 0 <= i < |nodes|
      ensures m'[nodes[i]].next == At(nodes, i + 1) && m'[nodes[i]].prev == At(nodes, i - 1)
    {
      assert nodes[i] in nodes && m[nodes[i]].next == At(nodes, i + 1);
    }
  }

  lemma SameBodiesSelf(m: Slabs)
    ensures SameBodies(m, m)
  {
  }
}
