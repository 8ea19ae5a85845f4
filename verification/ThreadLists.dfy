/**
 The intrusive lists that run through `struct thread`: the run queues through `next` and `prev`
 (kernel/sys/scheduler.c), the waiters of a semaphore through `sleep_next` and `sleep_prev`
 (kernel/sys/semaphore.c).  A semaphore's list grows at its head and shrinks at its tail, so in order of
 arrival it is a list that is followed along `sleep_prev`, with `sleep_next` pointing back.
 */
module ThreadLists {
  import opened Options
  import opened SchedulerState
  import opened SleepInvariant

  /** One link field of every thread; a thread that is no key has null in it. */
  type Chain = map<Tid, Tid>

  function Link(m: Chain, t: Tid): Option<Tid> {
    if t in m then Some(m[t]) else None
  }

  function SetLink(m: Chain, t: Tid, to: Option<Tid>): Chain {
    match to
    case Some(u) => m[t := u]
    case None => m - {t}
  }

  datatype Ends = Ends(first: Option<Tid>, last: Option<Tid>)

  function At(q: seq<Tid>, i: int): Option<Tid> {
    if 0 <= i < |q| then Some(q[i]) else None
  }

  /** The list between the two ends is exactly q, linked both ways. */
  ghost predicate Linked(e: Ends, next: Chain, prev: Chain, q: seq<Tid>) {
    && Distinct(q) && e == Ends(At(q, 0), At(q, |q| - 1))
    && (forall i {:trigger Link(next, q[i])} {:trigger Link(prev, q[i])} :: 0 <= i < |q| ==>
          Link(next, q[i]) == At(q, i + 1) && Link(prev, q[i]) == At(q, i - 1))
  }

  lemma LinkedAt(e: Ends, next: Chain, prev: Chain, q: seq<Tid>, j: nat)
    requires Linked(e, next, prev, q) && j < |q|
    ensures Link(next, q[j]) == At(q, j + 1) && Link(prev, q[j]) == At(q, j - 1)
  {
  }

  /** The two link fields are as before in every thread of q. */
  ghost predicate SameIn(q: seq<Tid>, next: Chain, prev: Chain, next': Chain, prev': Chain) {
    forall u :: u in q ==> Link(next', u) == Link(next, u) && Link(prev', u) == Link(prev, u)
  }

  /** A list none of whose threads had a link written is still the same list. */
  lemma Untouched(e: Ends, next: Chain, prev: Chain, next': Chain, prev': Chain, q: seq<Tid>)
    requires Linked(e, next, prev, q) && SameIn(q, next, prev, next', prev')
    ensures Linked(e, next', prev', q)
  {
    forall i | 0 <= i < |q| ensures Link(next', q[i]) == At(q, i + 1) && Link(prev', q[i]) == At(q, i - 1) {
      assert q[i] in q && Link(next, q[i]) == At(q, i + 1);
    }
  }

  // ---------- adding at the last end ----------

  function AppendNext(next: Chain, last: Option<Tid>, t: Tid): Chain {
    SetLink(match last case Some(u) => SetLink(next, u, Some(t)) case None => next, t, None)
  }

  lemma AppendLinks(e: Ends, next: Chain, prev: Chain, q: seq<Tid>, t: Tid)
    requires Linked(e, next, prev, q) && t !in q
    ensures var e' := Ends(if e.last.None? then Some(t) else e.first, Some(t));
      Linked(e', AppendNext(next, e.last, t), SetLink(prev, t, e.last), q + [t])
    ensures e.first.None? <==> e.last.None?
    ensures forall u :: u != t && u !in q ==>
              && Link(AppendNext(next, e.last, t), u) == Link(next, u)
              && Link(SetLink(prev, t, e.last), u) == Link(prev, u)
  {
    var next', prev', q' := AppendNext(next, e.last, t), SetLink(prev, t, e.last), q + [t];
    assert q != [] ==> e.last == Some(q[|q| - 1]) && q[|q| - 1] in q;
    forall i | 0 <= i < |q'| ensures Link(next', q'[i]) == At(q', i + 1) && Link(prev', q'[i]) == At(q', i - 1) {
      if i < |q| {
        LinkedAt(e, next, prev, q, i);
        assert q'[i] == q[i] != t;
        assert i < |q| - 1 ==> q[i] != q[|q| - 1];
      }
    }
  }

  // ---------- unlinking any place ----------

  function UnlinkNext(next: Chain, before: Option<Tid>, after: Option<Tid>): Chain {
    match before case Some(u) => SetLink(next, u, after) case None => next
  }

  function UnlinkEnds(e: Ends, before: Option<Tid>, after: Option<Tid>): Ends {
    Ends(if before.Some? then e.first else after, if after.Some? then e.last else before)
  }

  /** The links of node m once node j is out. */
  lemma UnlinkedAt(e: Ends, next: Chain, prev: Chain, q: seq<Tid>, j: nat, m: nat)
    requires Linked(e, next, prev, q) && j < |q| && m < |q| && m != j
    ensures Link(UnlinkNext(next, At(q, j - 1), At(q, j + 1)), q[m]) == At(q, if m + 1 == j then j + 1 else m + 1)
    ensures Link(UnlinkNext(prev, At(q, j + 1), At(q, j - 1)), q[m]) == At(q, if m - 1 == j then j - 1 else m - 1)
  {
    LinkedAt(e, next, prev, q, m);
    assert j > 0 && m != j - 1 ==> q[m] != q[j - 1];
    assert j + 1 < |q| && m != j + 1 ==> q[m] != q[j + 1];
    hide Linked, Distinct;
  }

  lemma UnlinkFrame(next: Chain, prev: Chain, q: seq<Tid>, j: nat, u: Tid)
    requires j < |q| && u !in q
    ensures Link(UnlinkNext(next, At(q, j - 1), At(q, j + 1)), u) == Link(next, u)
    ensures Link(UnlinkNext(prev, At(q, j + 1), At(q, j - 1)), u) == Link(prev, u)
  {
    assert j > 0 ==> q[j - 1] in q;
    assert j + 1 < |q| ==> q[j + 1] in q;
  }

  lemma UnlinkLinks(e: Ends, next: Chain, prev: Chain, q: seq<Tid>, j: nat)
    requires Linked(e, next, prev, q) && j < |q|
    ensures var before, after := At(q, j - 1), At(q, j + 1);
      && Link(prev, q[j]) == before && Link(next, q[j]) == after
      && Linked(UnlinkEnds(e, before, after), UnlinkNext(next, before, after), UnlinkNext(prev, after, before),
                RemoveAt(q, j))
  {
    hide UnlinkNext, Distinct;
    var before, after, rest := At(q, j - 1), At(q, j + 1), RemoveAt(q, j);
    var next', prev' := UnlinkNext(next, before, after), UnlinkNext(prev, after, before);
    LinkedAt(e, next, prev, q, j);
    RemovedAt(q, j);
    forall i | 0 <= i < |rest|
      ensures Link(next', rest[i]) == At(rest, i + 1) && Link(prev', rest[i]) == At(rest, i - 1)
    {
      UnlinkedAt(e, next, prev, q, j, if i < j then i else i + 1);
    }
  }

  /** Unlinking, and clearing both links of the thread taken out. */
  lemma TakeLinks(e: Ends, next: Chain, prev: Chain, q: seq<Tid>, j: nat)
    requires Linked(e, next, prev, q) && j < |q|
    ensures var before, after := At(q, j - 1), At(q, j + 1);
      && Link(prev, q[j]) == before && Link(next, q[j]) == after
      && Linked(UnlinkEnds(e, before, after), UnlinkNext(next, before, after) - {q[j]},
                UnlinkNext(prev, after, before) - {q[j]}, RemoveAt(q, j))
  {
    UnlinkLinks(e, next, prev, q, j);
    RemovedAt(q, j);
    var before, after := At(q, j - 1), At(q, j + 1);
    var next', prev' := UnlinkNext(next, before, after), UnlinkNext(prev, after, before);
    Untouched(UnlinkEnds(e, before, after), next', prev', next' - {q[j]}, prev' - {q[j]}, RemoveAt(q, j));
  }

  // ---------- the run queues ----------

  ghost predicate QueuesLinked(ends: seq<Ends>, next: Chain, prev: Chain, queue: seq<seq<Tid>>) {
    |ends| == |queue| && forall p :: 0 <= p < |queue| ==> Linked(ends[p], next, prev, queue[p])
  }

  /** No thread is in two queues. */
  ghost predicate Apart(queue: seq<seq<Tid>>) {
    forall p, r, u :: 0 <= p < |queue| && 0 <= r < |queue| && u in queue[p] && u in queue[r] ==> p == r
  }

  lemma QueuesApart(k: Kernel)
    requires QueueInv(k)
    ensures |k.queue| == RUN_QUEUE_COUNT && Apart(k.queue)
    ensures forall p, u :: 0 <= p < |k.queue| && u in k.queue[p] ==> u in k.threads && k.threads[u].queued
  {
    forall p, r, u | 0 <= p < |k.queue| && 0 <= r < |k.queue| && u in k.queue[p] && u in k.queue[r] ensures p == r {
      assert k.threads[u].priority == p && k.threads[u].priority == r;
    }
  }

  lemma QueuesUnlink(ends: seq<Ends>, next: Chain, prev: Chain, queue: seq<seq<Tid>>, p: nat, j: nat)
    requires QueuesLinked(ends, next, prev, queue) && Apart(queue) && p < |queue| && j < |queue[p]|
    ensures var before, after := At(queue[p], j - 1), At(queue[p], j + 1);
      && Link(prev, queue[p][j]) == before && Link(next, queue[p][j]) == after
      && QueuesLinked(ends[p := UnlinkEnds(ends[p], before, after)], UnlinkNext(next, before, after),
                      UnlinkNext(prev, after, before), queue[p := RemoveAt(queue[p], j)])
  {
    var q := queue[p];
    var before, after := At(q, j - 1), At(q, j + 1);
    var next', prev' := UnlinkNext(next, before, after), UnlinkNext(prev, after, before);
    UnlinkLinks(ends[p], next, prev, q, j);
    forall r | 0 <= r < |queue| && r != p ensures Linked(ends[r], next', prev', queue[r]) {
      forall u | u in queue[r] ensures Link(next', u) == Link(next, u) && Link(prev', u) == Link(prev, u) {
        UnlinkFrame(next, prev, q, j, u);
      }
      Untouched(ends[r], next, prev, next', prev', queue[r]);
    }
  }

  lemma QueuesAppend(ends: seq<Ends>, next: Chain, prev: Chain, queue: seq<seq<Tid>>, p: nat, t: Tid)
    requires QueuesLinked(ends, next, prev, queue) && Apart(queue) && p < |queue|
    requires forall r :: 0 <= r < |queue| ==> t !in queue[r]
    ensures |ends| == |queue|
    ensures var last := ends[p].last;
      QueuesLinked(ends[p := Ends(if last.None? then Some(t) else ends[p].first, Some(t))],
                   AppendNext(next, last, t), SetLink(prev, t, last), queue[p := queue[p] + [t]])
  {
    var next', prev' := AppendNext(next, ends[p].last, t), SetLink(prev, t, ends[p].last);
    AppendLinks(ends[p], next, prev, queue[p], t);
    hide AppendNext, SetLink;
    forall r | 0 <= r < |queue| && r != p ensures Linked(ends[r], next', prev', queue[r]) {
      Untouched(ends[r], next, prev, next', prev', queue[r]);
    }
  }

  // ---------- the semaphores ----------

  /** `struct semaphore`: the counter, its spinlock and the two ends of its list of waiters. */
  datatype Cell = Cell(i: int, locked: bool, head: Option<Tid>, tail: Option<Tid>)

  ghost predicate CellLinked(c: Cell, sleepNext: Chain, sleepPrev: Chain, sem: Semaphore) {
    && c.i == sem.i && (c.locked <==> sem.lock.Some?)
    && Linked(Ends(c.tail, c.head), sleepPrev, sleepNext, sem.waiters)
  }

  ghost predicate Waits(sems: map<SemId, Semaphore>, t: Tid) {
    exists s :: s in sems && t in sems[s].waiters
  }

  /** Every semaphore's list is its waiters in order of arrival; a thread that waits nowhere has null links. */
  ghost predicate SemsLinked(cells: map<SemId, Cell>, sleepNext: Chain, sleepPrev: Chain, sems: map<SemId, Semaphore>)
  {
    && cells.Keys == sems.Keys
    && (forall s :: s in sems ==> CellLinked(cells[s], sleepNext, sleepPrev, sems[s]))
    && (forall t :: t in sleepNext || t in sleepPrev ==> Waits(sems, t))
  }

  /** No thread waits for two semaphores. */
  ghost predicate WaitersApart(sems: map<SemId, Semaphore>) {
    forall s, r, t :: s in sems && r in sems && t in sems[s].waiters && t in sems[r].waiters ==> s == r
  }

  lemma WaitOnce(k: Kernel)
    requires MembersInv(k)
    ensures WaitersApart(k.sems)
    ensures forall t :: Waits(k.sems, t) ==> t in k.threads && k.threads[t].mode.Blocking?
  {
    forall s, r, t | s in k.sems && r in k.sems && t in k.sems[s].waiters && t in k.sems[r].waiters ensures s == r {
      assert k.threads[t].mode == Blocking(s) && k.threads[t].mode == Blocking(r);
    }
  }

  /** The other semaphores' lists when one semaphore's cell and links of its own waiters, or of t, are written. */
  lemma CellsFrame(cells: map<SemId, Cell>, sleepNext: Chain, sleepPrev: Chain, sems: map<SemId, Semaphore>,
                   sleepNext': Chain, sleepPrev': Chain, s: SemId, t: Tid)
    requires SemsLinked(cells, sleepNext, sleepPrev, sems) && WaitersApart(sems) && s in sems
    requires forall r :: r in sems && r != s ==> t !in sems[r].waiters
    requires forall u :: u != t && u !in sems[s].waiters ==>
               Link(sleepNext', u) == Link(sleepNext, u) && Link(sleepPrev', u) == Link(sleepPrev, u)
    ensures forall r :: r in sems && r != s ==> CellLinked(cells[r], sleepNext', sleepPrev', sems[r])
  {
    forall r | r in sems && r != s ensures CellLinked(cells[r], sleepNext', sleepPrev', sems[r]) {
      Untouched(Ends(cells[r].tail, cells[r].head), sleepPrev, sleepNext, sleepPrev', sleepNext', sems[r].waiters);
    }
  }

  /** One semaphore's list has been changed, and no link outside it was written. */
  lemma CellWritten(cells: map<SemId, Cell>, sleepNext: Chain, sleepPrev: Chain, sems: map<SemId, Semaphore>,
                    sleepNext': Chain, sleepPrev': Chain, s: SemId, t: Tid, cell: Cell, sem: Semaphore)
    requires SemsLinked(cells, sleepNext, sleepPrev, sems) && WaitersApart(sems) && s in sems
    requires forall r :: r in sems && r != s ==> t !in sems[r].waiters
    requires forall u :: u != t && u !in sems[s].waiters ==>
               Link(sleepNext', u) == Link(sleepNext, u) && Link(sleepPrev', u) == Link(sleepPrev, u)
    requires CellLinked(cell, sleepNext', sleepPrev', sem)
    requires forall u :: (u == t || u in sems[s].waiters) && (u in sleepNext' || u in sleepPrev') ==> u in sem.waiters
    ensures SemsLinked(cells[s := cell], sleepNext', sleepPrev', sems[s := sem])
  {
    hide CellLinked, WaitersApart;
    CellsFrame(cells, sleepNext, sleepPrev, sems, sleepNext', sleepPrev', s, t);
    var sems' := sems[s := sem];
    forall u | u in sleepNext' || u in sleepPrev' ensures Waits(sems', u) {
      if u == t || u in sems[s].waiters {
        assert s in sems' && u in sems'[s].waiters;
      } else {
        assert Link(sleepNext', u) == Link(sleepNext, u) && Link(sleepPrev', u) == Link(sleepPrev, u);
        var r :| r in sems && u in sems[r].waiters;
        assert r in sems' && u in sems'[r].waiters;
      }
    }
  }

  lemma SemsAppend(cells: map<SemId, Cell>, sleepNext: Chain, sleepPrev: Chain, sems: map<SemId, Semaphore>,
                   s: SemId, t: Tid, cell: Cell, sem: Semaphore)
    requires SemsLinked(cells, sleepNext, sleepPrev, sems) && WaitersApart(sems) && s in sems && !Waits(sems, t)
    requires sem.waiters == sems[s].waiters + [t] && cell.i == sem.i && (cell.locked <==> sem.lock.Some?)
    requires cell.head == Some(t) && cell.tail == (if cells[s].tail.None? then Some(t) else cells[s].tail)
    ensures SemsLinked(cells[s := cell], SetLink(sleepNext, t, cells[s].head),
                       AppendNext(sleepPrev, cells[s].head, t), sems[s := sem])
    ensures cells[s].head != Some(t)
  {
    hide SetLink, AppendNext, Linked;
    var head := cells[s].head;
    assert CellLinked(cells[s], sleepNext, sleepPrev, sems[s]);
    assert t !in sems[s].waiters;
    LinkedDistinct(Ends(cells[s].tail, head), sleepPrev, sleepNext, sems[s].waiters);
    AppendLinks(Ends(cells[s].tail, head), sleepPrev, sleepNext, sems[s].waiters, t);
    CellWritten(cells, sleepNext, sleepPrev, sems, SetLink(sleepNext, t, head), AppendNext(sleepPrev, head, t),
                s, t, cell, sem);
  }

  lemma SemsTake(cells: map<SemId, Cell>, sleepNext: Chain, sleepPrev: Chain, sems: map<SemId, Semaphore>,
                 s: SemId, j: nat, cell: Cell, sem: Semaphore)
    requires SemsLinked(cells, sleepNext, sleepPrev, sems) && WaitersApart(sems) && s in sems && j < |sems[s].waiters|
    requires sem.waiters == RemoveAt(sems[s].waiters, j) && cell.i == sem.i && (cell.locked <==> sem.lock.Some?)
    requires Ends(cell.tail, cell.head) ==
               UnlinkEnds(Ends(cells[s].tail, cells[s].head), At(sems[s].waiters, j - 1), At(sems[s].waiters, j + 1))
    ensures var t, older, newer := sems[s].waiters[j], At(sems[s].waiters, j - 1), At(sems[s].waiters, j + 1);
      && Link(sleepNext, t) == older && Link(sleepPrev, t) == newer
      && SemsLinked(cells[s := cell], UnlinkNext(sleepNext, newer, older) - {t},
                    UnlinkNext(sleepPrev, older, newer) - {t}, sems[s := sem])
  {
    hide UnlinkNext, UnlinkEnds, Linked, At, RemoveAt;
    var q := sems[s].waiters;
    var t, older, newer := q[j], At(q, j - 1), At(q, j + 1);
    var sleepNext', sleepPrev' := UnlinkNext(sleepNext, newer, older) - {t}, UnlinkNext(sleepPrev, older, newer) - {t};
    assert CellLinked(cells[s], sleepNext, sleepPrev, sems[s]) && t in q;
    assert Distinct(q) by { LinkedDistinct(Ends(cells[s].tail, cells[s].head), sleepPrev, sleepNext, q); }
    TakeLinks(Ends(cells[s].tail, cells[s].head), sleepPrev, sleepNext, q, j);
    RemovedAt(q, j);
    forall u | u != t && u !in q
      ensures Link(sleepNext', u) == Link(sleepNext, u) && Link(sleepPrev', u) == Link(sleepPrev, u)
    {
      UnlinkFrame(sleepPrev, sleepNext, q, j, u);
    }
    CellWritten(cells, sleepNext, sleepPrev, sems, sleepNext', sleepPrev', s, t, cell, sem);
  }

  /** The counter, the lock and the history may change under the same waiters. */
  lemma SemsCounted(cells: map<SemId, Cell>, sleepNext: Chain, sleepPrev: Chain, sems: map<SemId, Semaphore>,
                    s: SemId, cell: Cell, sem: Semaphore)
    requires SemsLinked(cells, sleepNext, sleepPrev, sems) && s in sems
    requires cell == cells[s].(i := cell.i, locked := cell.locked) && sem.waiters == sems[s].waiters
    requires cell.i == sem.i && (cell.locked <==> sem.lock.Some?)
    ensures SemsLinked(cells[s := cell], sleepNext, sleepPrev, sems[s := sem])
  {
    hide Linked;
    var sems' := sems[s := sem];
    forall t | Waits(sems, t) ensures Waits(sems', t) {
      var r :| r in sems && t in sems[r].waiters;
      assert r in sems' && t in sems'[r].waiters;
    }
  }

  /**
   What the test in `remove_current_thread` finds out: a thread that waits for no other semaphore is on this
   one's list exactly when it has a link, or is both ends of the list.
   */
  lemma OnListExact(cells: map<SemId, Cell>, sleepNext: Chain, sleepPrev: Chain, sems: map<SemId, Semaphore>,
                    s: SemId, t: Tid)
    requires SemsLinked(cells, sleepNext, sleepPrev, sems) && s in sems
    requires forall r :: r in sems && r != s ==> t !in sems[r].waiters
    ensures s in cells
    ensures t in sems[s].waiters <==>
              || t in sleepNext || t in sleepPrev || (cells[s].head == Some(t) && cells[s].tail == Some(t))
    ensures cells[s].head.None? && cells[s].tail.None? <==> sems[s].waiters == []
  {
    assert CellLinked(cells[s], sleepNext, sleepPrev, sems[s]);
    var q := sems[s].waiters;
    if t in q {
      var j :| 0 <= j < |q| && q[j] == t;
      LinkedAt(Ends(cells[s].tail, cells[s].head), sleepPrev, sleepNext, q, j);
    }
  }

  /** The same waiters at every semaphore. */
  lemma SameWaiters(sems: map<SemId, Semaphore>, s: SemId, sem: Semaphore)
    requires s in sems && sem.waiters == sems[s].waiters
    ensures WaitersApart(sems) ==> WaitersApart(sems[s := sem])
    ensures forall t :: Waits(sems[s := sem], t) ==> Waits(sems, t)
  {
    var sems' := sems[s := sem];
    assert forall r :: r in sems' ==> r in sems && sems'[r].waiters == sems[r].waiters;
  }

  lemma CellKnown(cells: map<SemId, Cell>, sleepNext: Chain, sleepPrev: Chain, sems: map<SemId, Semaphore>, s: SemId)
    requires SemsLinked(cells, sleepNext, sleepPrev, sems) && s in sems
    ensures s in cells && cells[s].i == sems[s].i && (cells[s].locked <==> sems[s].lock.Some?)
    ensures cells[s].tail == At(sems[s].waiters, 0) && (cells[s].tail.None? <==> cells[s].head.None?)
  {
    assert CellLinked(cells[s], sleepNext, sleepPrev, sems[s]);
  }

  /** Only the oldest waiter is the tail and only the newest is the head. */
  lemma EndsAt(cells: map<SemId, Cell>, sleepNext: Chain, sleepPrev: Chain, sems: map<SemId, Semaphore>, s: SemId,
               j: nat)
    requires SemsLinked(cells, sleepNext, sleepPrev, sems) && s in sems && j < |sems[s].waiters|
    ensures s in cells
    ensures cells[s].tail == Some(sems[s].waiters[j]) <==> j == 0
    ensures cells[s].head == Some(sems[s].waiters[j]) <==> j == |sems[s].waiters| - 1
  {
    assert CellLinked(cells[s], sleepNext, sleepPrev, sems[s]);
    assert Distinct(sems[s].waiters);
  }

  lemma LinkedDistinct(e: Ends, next: Chain, prev: Chain, q: seq<Tid>)
    requires Linked(e, next, prev, q)
    ensures Distinct(q) && (e.first.None? <==> q == []) && (e.last.None? <==> q == [])
    ensures forall t :: e.last == Some(t) ==> t in q
  {
  }
}
