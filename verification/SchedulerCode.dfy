/**
 kernel/sys/scheduler.c and kernel/sys/semaphore.c as code that updates the kernel state in place and follows
 the threads' own links.  `queue` and `sems` say what the lists and the semaphores mean: the run queues from
 head to last, the waiters in order of arrival, and the history.  Each method is proved to do to that meaning
 what the function of the same step does, so that what holds of every run of the step system holds of this
 code; the assertions of the source are its preconditions.
 */
module SchedulerCode {
  import opened Options
  import opened SchedulerState
  import opened SleepProtocol
  import opened SleepInvariant
  import opened SleepTheorems
  import opened ThreadLists

  class Scheduler {
    var runQueue: seq<Ends>
    var next: Chain
    var prev: Chain
    var bitmap: set<nat>
    var threads: map<Tid, Thread>
    var cpus: seq<Cpu>
    var cells: map<SemId, Cell>
    var sleepNext: Chain
    var sleepPrev: Chain
    ghost var queue: seq<seq<Tid>>
    ghost var sems: map<SemId, Semaphore>

    ghost function Value(): Kernel
      reads this
    {
      Kernel(queue, bitmap, threads, cpus, sems)
    }

    ghost predicate Queues()
      reads this`runQueue, this`next, this`prev, this`queue
    {
      QueuesLinked(runQueue, next, prev, queue)
    }

    ghost predicate Sems()
      reads this`cells, this`sleepNext, this`sleepPrev, this`sems
    {
      SemsLinked(cells, sleepNext, sleepPrev, sems)
    }

    /** Both kinds of list are what the ghost state says. */
    ghost predicate Links()
      reads this
    {
      Queues() && Sems()
    }

    /** Boot: all run queues and all lists of waiters are empty. */
    constructor (threads: map<Tid, Thread>, cpus: seq<Cpu>, init: map<SemId, nat>, ghost k: Kernel)
      requires Init(k) && k.threads == threads && k.cpus == cpus
      requires init.Keys == k.sems.Keys && forall s :: s in init ==> init[s] == k.sems[s].init
      ensures Links() && Value() == k && Inv(Value())
    {
      hide Inv, Init;
      InitInv(k);
      InitLinks(k);
      runQueue := seq(RUN_QUEUE_COUNT, _ => Ends(None, None));
      next, prev, sleepNext, sleepPrev := map[], map[], map[], map[];
      bitmap := {};
      this.threads, this.cpus := threads, cpus;
      cells := map s | s in init :: Cell(init[s], false, None, None);
      queue := k.queue;
      sems := k.sems;
    }

    /** Follows `next` from the head of run queue p to the first thread that may run on cpu, and unlinks it. */
    method QueueGetThread(p: nat, cpu: nat) returns (t: Option<Tid>)
      requires Queues() && Apart(queue) && p < |queue| && forall u :: u in queue[p] ==> u in threads
      modifies this`runQueue, this`next, this`prev, this`queue
      ensures Queues()
      ensures t.None? ==> queue == old(queue) && !HasEligible(old(queue[p]), threads, cpu)
      ensures t.Some? ==>
                var j := FirstEligible(old(queue[p]), threads, cpu);
                j < |old(queue[p])| && t.value == old(queue[p])[j]
                && queue == old(queue)[p := RemoveAt(old(queue[p]), j)]
    {
      ghost var q, j := queue[p], 0;
      hide Apart;
      t := runQueue[p].first;
      while t.Some? && !(threads[t.value].pin < 0 || threads[t.value].pin == cpu)
        invariant 0 <= j <= |q| && t == At(q, j) && forall m :: 0 <= m < j ==> !Eligible(threads, q[m], cpu)
        decreases |q| - j
        modifies {}
      {
        LinkedAt(runQueue[p], next, prev, q, j);
        t := Link(next, t.value);
        j := j + 1;
      }
      if t.None? {
        return None;
      }
      assert j == FirstEligible(q, threads, cpu);
      QueuesUnlink(runQueue, next, prev, queue, p, j);
      hide QueuesLinked;
      var before, after := Link(prev, t.value), Link(next, t.value);
      if before.Some? {
        next := SetLink(next, before.value, after);
      } else {
        runQueue := runQueue[p := runQueue[p].(first := after)];
      }
      if after.Some? {
        prev := SetLink(prev, after.value, before);
      } else {
        runQueue := runQueue[p := runQueue[p].(last := before)];
      }
      queue := queue[p := RemoveAt(q, j)];
    }

    method DequeueNextThread(cpu: nat, limit: int) returns (t: Option<Tid>)
      requires Queues() && QueueInv(Value())
      modifies this`runQueue, this`next, this`prev, this`queue, this`bitmap, this`threads
      ensures Queues() && QueueInv(Value())
      ensures (t, Value()) == DequeueNext(old(Value()), cpu, limit)
    {
      hide QueueInv, BestQueue, QueuesLinked, Apart;
      DequeueKeepsQueues(Value(), cpu, limit);
      if bitmap == {} {
        return None;
      }
      ghost var q := queue;
      MembersKnown(Value());
      QueuesApart(Value());
      ghost var best := BestQueue(q, threads, cpu, limit, 0);
      t := None;
      var i := 0;
      while i < RUN_QUEUE_COUNT && i <= limit && t.None?
        invariant 0 <= i <= RUN_QUEUE_COUNT == |queue| && threads == old(threads) && Queues()
        invariant t.None? ==> queue == q && bitmap == old(bitmap) && i <= best
        invariant t.Some? ==> i - 1 == best < RUN_QUEUE_COUNT && Unlinked(q, best, cpu, t.value)
        invariant t.Some? ==> bitmap == (if queue[best] == [] then old(bitmap) - {best} else old(bitmap))
      {
        t := QueueGetThread(i, cpu);
        assert t.Some? <==> HasEligible(q[i], threads, cpu);
        EmptyMeansNull(runQueue, next, prev, queue, i);
        if t.Some? && runQueue[i].first.None? {
          bitmap := bitmap - {i};
        }
        i := i + 1;
      }
      if t.Some? {
        threads := threads[t.value := threads[t.value].(queued := false)];
      }
    }

    /** `queue` is q without the first eligible thread of queue p, which is t. */
    ghost predicate Unlinked(q: seq<seq<Tid>>, p: nat, cpu: nat, t: Tid)
      reads this
    {
      && p < |q|
      && var j := FirstEligible(q[p], threads, cpu);
         j < |q[p]| && t == q[p][j] && queue == q[p := RemoveAt(q[p], j)]
    }

    /** Links the thread behind the last one of its queue, where it then stands once. */
    method EnqueueThread(cpu: nat, t: Tid)
      requires Queues() && QueueInv(Value()) && cpu < |cpus| && t in threads
      requires t != cpus[cpu].idle ==> !threads[t].running && !threads[t].queued
      modifies this`runQueue, this`next, this`prev, this`queue, this`bitmap, this`threads
      ensures Queues() && QueueInv(Value())
      ensures Value() == Enqueue(old(Value()), cpu, t)
      ensures t != cpus[cpu].idle ==> QueuedOnce(Value(), t) && runQueue[threads[t].priority].last == Some(t)
    {
      hide QueueInv, QueuesLinked, Apart, QueuedOnce;
      if t == cpus[cpu].idle {
        return;
      }
      Enqueued(Value(), cpu, t);
      ghost var k := Enqueue(Value(), cpu, t);
      var p := threads[t].priority;
      QueuesAppend(runQueue, next, prev, queue, p, t);
      threads := threads[t := threads[t].(queued := true)];
      bitmap := bitmap + {p};
      var ends := runQueue[p];
      prev := SetLink(prev, t, ends.last);
      if ends.last.Some? {
        next := SetLink(next, ends.last.value, Some(t));
      } else {
        ends := ends.(first := Some(t));
      }
      next := SetLink(next, t, None);
      runQueue := runQueue[p := ends.(last := Some(t))];
      queue := queue[p := queue[p] + [t]];
      assert Value() == k;
    }

    /**
     The CPU's thread pointer and the threads' own view stay in step; a thread left behind asleep has given
     its sleep lock up; no third thread is touched.
     */
    method SwitchThread(cpu: nat, next: Tid)
      requires cpu < |cpus| && next in threads && !threads[next].queued
      requires cpus[cpu].current.Some? ==> cpus[cpu].current.value in threads
      requires cpus[cpu].current != Some(next) ==> !threads[next].running
      modifies this`threads, this`cpus
      ensures Value() == Switch(old(Value()), cpu, next)
      ensures Switched(old(Value()), Value(), cpu, next)
    {
      hide Switched;
      SwitchEffect(Value(), cpu, next);
      var current := cpus[cpu].current;
      cpus := cpus[cpu := cpus[cpu].(current := Some(next))];
      if current.Some? {
        var th := threads[current.value].(running := false, on := None);
        if th.sleep {
          th := th.(sleepLock := false);
        }
        assert th == Leave(threads[current.value]);
        threads := threads[current.value := th];
      }
      threads := threads[next := threads[next].(running := true, on := Some(cpu), saved := false)];
    }

    /** What both passes below end with: t is suspended, queued again unless it sleeps, and `next` takes the CPU. */
    method SwitchAway(cpu: nat, t: Tid, requeue: bool, next: Tid)
      requires Queues() && QueueInv(Value()) && cpu < |cpus| && cpus[cpu].current == Some(t)
      requires t in threads && !threads[t].queued && next in threads && next != t
      requires !threads[next].queued && !threads[next].running
      modifies this`runQueue, this`next, this`prev, this`queue, this`bitmap, this`threads, this`cpus
      ensures Queues()
      ensures var k := Suspend(old(Value()), t);
        Value() == Switch(if requeue then Enqueue(k, cpu, t) else k, cpu, next)
    {
      hide QueueInv, QueuesLinked, Switch, Switched, QueuedOnce;
      ghost var k := Value();
      SuspendKeeps(k, t);
      threads := threads[t := threads[t].(saved := true, running := false)];
      if requeue {
        EnqueueThread(cpu, t);
      }
      SwitchThread(cpu, next);
    }

    /** The pass that starts in `yield`, for a sleep that may not be interrupted. */
    method Yield(cpu: nat, t: Tid)
      requires Links() && Inv(Value()) && Runs(Value(), cpu, t) && !threads[t].mode.Waking?
      modifies this`runQueue, this`next, this`prev, this`queue, this`bitmap, this`threads, this`cpus
      ensures Links() && Value() == YieldPass(old(Value()), cpu) && Inv(Value())
      ensures old(threads[t].sleep) ==>
                Dispatched(old(Value()), Value(), cpu, RUN_QUEUE_COUNT, None, old(cpus)[cpu].idle)
      ensures old(!threads[t].sleep) ==>
                var th := old(threads)[t];
                Dispatched(old(Value()), Value(), cpu, th.priority + 1, if th.idle then None else Some(t), t)
    {
      ghost var k := Value();
      hide QueueInv, CpuInv, ThreadsInv, SemInv, DequeueNext, Switch, Switched, QueuesLinked, SemsLinked, QueuedOnce,
           Dispatched;
      if threads[t].sleep { SleeperYields(k, cpu, t); } else { AwakeYields(k, cpu, t); }
      YieldKeeps(k, cpu, t);
      var sleeping := threads[t].sleep;
      var limit := if sleeping then ANY_PRIORITY else threads[t].priority;
      Dispatch(k, cpu, t, limit);
      var next := DequeueNextThread(cpu, limit);
      if next.Some? || sleeping {
        SwitchAway(cpu, t, !sleeping, if next.Some? then next.value else cpus[cpu].idle);
      }
    }

    /** The pass that starts in `preempt_callback`, after the timer hook saved the context. */
    method PreemptCallback(cpu: nat, t: Tid)
      requires Links() && Inv(Value()) && RunsNormal(Value(), cpu, t)
      modifies this`runQueue, this`next, this`prev, this`queue, this`bitmap, this`threads, this`cpus
      ensures Links() && Value() == PreemptPass(old(Value()), cpu) && Inv(Value())
      ensures var th := old(threads)[t];
        Dispatched(old(Value()), Value(), cpu, th.priority + 1, if th.idle then None else Some(t), t)
    {
      ghost var k := Value();
      hide QueueInv, CpuInv, ThreadsInv, SemInv, DequeueNext, Switch, Switched, QueuesLinked, SemsLinked, QueuedOnce,
           Dispatched;
      PreemptChooses(k, cpu, t);
      PreemptKeeps(k, cpu, t);
      Dispatch(k, cpu, t, threads[t].priority);
      var next := DequeueNextThread(cpu, threads[t].priority);
      if next.Some? {
        SwitchAway(cpu, t, true, next.value);
      } else {
        SwitchThread(cpu, t);
      }
    }

    method StopThread(cpu: nat)
      requires Links() && Inv(Value()) && CpuOk(Value(), cpu) && cpus[cpu].current.None?
      modifies this`runQueue, this`next, this`prev, this`queue, this`bitmap, this`threads, this`cpus
      ensures Links() && Value() == StopPass(old(Value()), cpu) && Inv(Value())
      ensures Dispatched(old(Value()), Value(), cpu, RUN_QUEUE_COUNT, None, old(cpus)[cpu].idle)
    {
      ghost var k := Value();
      hide QueueInv, CpuInv, ThreadsInv, SemInv, DequeueNext, Switch, Switched, QueuesLinked, SemsLinked, Dispatched;
      StopChooses(k, cpu);
      StopKeeps(k, cpu);
      DequeueTakes(k, cpu, ANY_PRIORITY);
      NextIsReady(k, cpu, DequeueNext(k, cpu, ANY_PRIORITY).0, DequeueNext(k, cpu, ANY_PRIORITY).1);
      var next := DequeueNextThread(cpu, ANY_PRIORITY);
      SwitchThread(cpu, if next.Some? then next.value else cpus[cpu].idle);
    }

    method ThreadExit(cpu: nat, t: Tid)
      requires Links() && Inv(Value()) && RunsNormal(Value(), cpu, t) && !threads[t].idle
      modifies this`runQueue, this`next, this`prev, this`queue, this`bitmap, this`threads, this`cpus
      ensures Links() && Value() == StopPass(Abandon(old(Value()), cpu), cpu) && Inv(Value())
      ensures Dispatched(old(Value()), Value(), cpu, RUN_QUEUE_COUNT, None, old(cpus)[cpu].idle)
      ensures t in threads && threads[t].dead && threads[t].on.None?
    {
      hide QueueInv, CpuInv, ThreadsInv, SemInv, StopPass, QueuesLinked, SemsLinked, Dispatched;
      ExitChooses(Value(), cpu, t);
      ExitKeeps(Value(), cpu, t);
      cpus := cpus[cpu := cpus[cpu].(current := None)];
      threads := threads[t := threads[t].(dead := true, on := None)];
      StopThread(cpu);
    }

    /** `sched_queue`: afterwards the thread runs or stands in the run queues once, whatever it did before. */
    method Queue(cpu: nat, t: Tid) returns (exists_: bool)
      requires Queues() && QueueInv(Value()) && cpu < |cpus| && t in threads
      modifies this`runQueue, this`next, this`prev, this`queue, this`bitmap, this`threads
      ensures Queues() && QueueInv(Value())
      ensures exists_ == (old(threads)[t].queued || old(threads)[t].running)
      ensures Value() == if exists_ then old(Value()) else Enqueue(old(Value()), cpu, t)
      ensures threads[t].running || QueuedOnce(Value(), t) || t == cpus[cpu].idle
    {
      if threads[t].queued || threads[t].running {
        QueuedMeansOnce(Value(), t);
        return true;
      }
      EnqueueThread(cpu, t);
      return false;
    }

    /**
     `sched_wakeup` with reason 0, once the sleep lock is taken.  A sleeper ends in the run queues, once and
     awake; any other thread is left alone.  The source asserts that the thread can be queued.
     */
    method Wakeup(cpu: nat, t: Tid) returns (woken: bool)
      requires Queues() && QueueInv(Value()) && cpu < |cpus| && t in threads
      requires threads[t].sleep ==> !threads[t].queued && !threads[t].running
      modifies this`runQueue, this`next, this`prev, this`queue, this`bitmap, this`threads
      ensures Queues() && QueueInv(Value())
      ensures Value() == SchedulerState.Wakeup(old(Value()), cpu, t).1
      ensures woken == old(threads)[t].sleep && !threads[t].sleep
      ensures woken && t != cpus[cpu].idle ==> QueuedOnce(Value(), t)
      ensures forall u :: u in threads && u != t ==> u in old(threads) && threads[u] == old(threads)[u]
    {
      if !threads[t].sleep {
        return false;
      }
      ghost var k := Value();
      threads := threads[t := threads[t].(sleep := false, mode := Normal)];
      FlagsDecideQueues(k, Value());
      hide QueueInv, QueuesLinked, QueuedOnce;
      var refused := Queue(cpu, t);
      assert !refused;
      return true;
    }

    // ---------- kernel/sys/semaphore.c ----------

    /** `insert_thread`: the thread goes behind everyone who waits for the semaphore. */
    method InsertThread(s: SemId, t: Tid)
      requires Sems() && WaitersApart(sems) && s in sems && !Waits(sems, t)
      modifies this`cells, this`sleepNext, this`sleepPrev, this`sems
      ensures Sems() && sems == old(sems)[s := old(sems)[s].(waiters := old(sems)[s].waiters + [t])]
    {
      hide SemsLinked, WaitersApart, Waits;
      CellKnown(cells, sleepNext, sleepPrev, sems, s);
      ghost var sem := sems[s].(waiters := sems[s].waiters + [t]);
      var c := cells[s];
      var older := c.head;
      SemsAppend(cells, sleepNext, sleepPrev, sems, s, t,
                 c.(head := Some(t), tail := if c.tail.None? then Some(t) else c.tail), sem);
      sleepNext := SetLink(sleepNext, t, older);
      sleepPrev := SetLink(sleepPrev, t, None);
      c := c.(head := Some(t));
      if c.tail.None? {
        c := c.(tail := Some(t));
      }
      if older.Some? {
        sleepPrev := SetLink(sleepPrev, older.value, Some(t));
      }
      assert sleepPrev == AppendNext(old(sleepPrev), older, t);
      cells, sems := cells[s := c], sems[s := sem];
    }

    /** `next_thread`: takes out the thread that has waited longest. */
    method NextThread(s: SemId) returns (t: Option<Tid>)
      requires Sems() && WaitersApart(sems) && s in sems
      modifies this`cells, this`sleepNext, this`sleepPrev, this`sems
      ensures Sems()
      ensures t.None? <==> old(sems)[s].waiters == []
      ensures t.None? ==> sems == old(sems)
      ensures t.Some? ==>
                && t.value == old(sems)[s].waiters[0]
                && sems == old(sems)[s := old(sems)[s].(waiters := old(sems)[s].waiters[1..])]
    {
      hide SemsLinked, WaitersApart;
      CellKnown(cells, sleepNext, sleepPrev, sems, s);
      ghost var q := sems[s].waiters;
      var c := cells[s];
      t := c.tail;
      if t.None? {
        return;
      }
      ghost var newer, sem := At(q, 1), sems[s].(waiters := q[1..]);
      SemsTake(cells, sleepNext, sleepPrev, sems, s, 0,
               c.(tail := newer, head := if newer.Some? then c.head else None), sem);
      c := c.(tail := Link(sleepPrev, t.value));
      if c.tail.Some? {
        sleepNext := SetLink(sleepNext, c.tail.value, None);
      } else {
        c := c.(head := None);
      }
      sleepPrev := SetLink(sleepPrev, t.value, None);
      sleepNext := SetLink(sleepNext, t.value, None);
      cells, sems := cells[s := c], sems[s := sem];
    }

    /** `remove_current_thread`: a thread that is still on the semaphore's list is taken out wherever it stands. */
    method RemoveCurrentThread(s: SemId, t: Tid)
      requires Sems() && WaitersApart(sems) && s in sems
      requires forall r :: r in sems && r != s ==> t !in sems[r].waiters
      modifies this`cells, this`sleepNext, this`sleepPrev, this`sems
      ensures Sems()
      ensures t !in old(sems)[s].waiters ==> sems == old(sems)
      ensures t in old(sems)[s].waiters ==>
                exists j :: 0 <= j < |old(sems)[s].waiters| && old(sems)[s].waiters[j] == t
                  && sems == old(sems)[s := old(sems)[s].(waiters := RemoveAt(old(sems)[s].waiters, j))]
    {
      hide SemsLinked, WaitersApart, RemoveAt;
      OnListExact(cells, sleepNext, sleepPrev, sems, s, t);
      CellKnown(cells, sleepNext, sleepPrev, sems, s);
      var c := cells[s];
      if (c.head.None? && c.tail.None?)
         || !(t in sleepNext || t in sleepPrev || (c.head == Some(t) && c.tail == Some(t))) {
        return;
      }
      ghost var q := sems[s].waiters;
      ghost var j :| 0 <= j < |q| && q[j] == t;
      EndsAt(cells, sleepNext, sleepPrev, sems, s, j);
      ghost var sem := sems[s].(waiters := RemoveAt(q, j));
      ghost var ends := UnlinkEnds(Ends(c.tail, c.head), At(q, j - 1), At(q, j + 1));
      SemsTake(cells, sleepNext, sleepPrev, sems, s, j, c.(tail := ends.first, head := ends.last), sem);
      var older, newer := Link(sleepNext, t), Link(sleepPrev, t);
      if c.head == Some(t) {
        c := c.(head := older);
      } else {
        sleepNext := SetLink(sleepNext, newer.value, older);
      }
      if c.tail == Some(t) {
        c := c.(tail := newer);
      } else {
        sleepPrev := SetLink(sleepPrev, older.value, newer);
      }
      sleepPrev := SetLink(sleepPrev, t, None);
      sleepNext := SetLink(sleepNext, t, None);
      cells, sems := cells[s := c], sems[s := sem];
    }

    /** Writes the counter and the lock of a semaphore, and its history with them. */
    method Count(s: SemId, i: int, locked: bool, ghost sem: Semaphore)
      requires Sems() && s in sems && sem.waiters == sems[s].waiters && sem.i == i && (locked <==> sem.lock.Some?)
      modifies this`cells, this`sems
      ensures Sems() && sems == old(sems)[s := sem] && (WaitersApart(old(sems)) ==> WaitersApart(sems))
      ensures forall t :: Waits(sems, t) ==> Waits(old(sems), t)
    {
      hide SemsLinked, WaitersApart, Waits;
      CellKnown(cells, sleepNext, sleepPrev, sems, s);
      SameWaiters(sems, s, sem);
      SemsCounted(cells, sleepNext, sleepPrev, sems, s, cells[s].(i := i, locked := locked), sem);
      cells, sems := cells[s := cells[s].(i := i, locked := locked)], sems[s := sem];
    }

    /** Writes the history only. */
    ghost method Record(s: SemId, sem: Semaphore)
      requires Sems() && s in sems && sem.waiters == sems[s].waiters
      requires sem.i == sems[s].i && (sem.lock.Some? <==> sems[s].lock.Some?)
      modifies this`sems
      ensures Sems() && sems == old(sems)[s := sem]
    {
      hide SemsLinked;
      CellKnown(cells, sleepNext, sleepPrev, sems, s);
      SemsCounted(cells, sleepNext, sleepPrev, sems, s, cells[s], sem);
      assert cells[s := cells[s]] == cells;
      sems := sems[s := sem];
    }

    /** The thread stands behind everyone who waits, and is marked asleep. */
    method Join(t: Tid, s: SemId)
      requires Sems() && WaitersApart(sems) && s in sems && t in threads && !Waits(sems, t)
      modifies this`cells, this`sleepNext, this`sleepPrev, this`sems, this`threads
      ensures var sem := old(sems)[s];
        Sems() && sems == old(sems)[s := sem.(waiters := sem.waiters + [t], arrived := sem.arrived + [t])]
      ensures threads == old(threads)[t := old(threads)[t].(sleepLock := true, sleep := true, mode := Blocking(s))]
    {
      hide SemsLinked, WaitersApart, Waits;
      InsertThread(s, t);
      Record(s, sems[s].(arrived := sems[s].arrived + [t]));
      threads := threads[t := threads[t].(sleepLock := true, sleep := true, mode := Blocking(s))];
    }

    /** `semaphore_wait` with the semaphore's lock free: true when the thread now has to yield. */
    method Wait(cpu: nat, t: Tid, s: SemId) returns (blocks: bool)
      requires Links() && Inv(Value()) && Enabled(Value(), Step.Wait(cpu, t, s))
      modifies this`cells, this`sleepNext, this`sleepPrev, this`sems, this`threads
      ensures Links() && Value() == WaitPart(old(Value()), t, s) && Inv(Value())
      ensures cells[s].i == old(cells)[s].i - 1 && (blocks <==> old(cells)[s].i <= 0)
      ensures blocks ==>
                && sems[s].waiters == old(sems)[s].waiters + [t]
                && threads == old(threads)[t := old(threads)[t].(sleepLock := true, sleep := true, mode := Blocking(s))]
      ensures !blocks ==> sems[s].waiters == old(sems)[s].waiters && threads == old(threads)
    {
      hide QueueInv, CpuInv, ThreadsInv, SemInv, QueuesLinked, SemsLinked, Waits, WaitersApart;
      AllCalm(Value(), t);
      WaitKeeps(Value(), cpu, t, s);
      WaitApart(Value());
      CellKnown(cells, sleepNext, sleepPrev, sems, s);
      Count(s, cells[s].i - 1, false, sems[s].(i := sems[s].i - 1));
      CellKnown(cells, sleepNext, sleepPrev, sems, s);
      blocks := cells[s].i < 0;
      if blocks {
        Join(t, s);
      } else {
        Record(s, Grant(sems[s], t));
      }
      CellKnown(cells, sleepNext, sleepPrev, sems, s);
    }

    method Test(cpu: nat, t: Tid, s: SemId) returns (taken: bool)
      requires Links() && Inv(Value()) && Enabled(Value(), Step.Test(cpu, t, s))
      modifies this`cells, this`sems
      ensures Links() && Value() == TestPart(old(Value()), t, s) && Inv(Value())
      ensures (taken <==> old(cells)[s].i > 0) && sems[s].waiters == old(sems)[s].waiters
      ensures cells[s].i == if taken then old(cells)[s].i - 1 else old(cells)[s].i
    {
      hide QueueInv, CpuInv, ThreadsInv, SemInv, QueuesLinked, SemsLinked, Waits, WaitersApart;
      TestKeeps(Value(), t, s);
      CellKnown(cells, sleepNext, sleepPrev, sems, s);
      taken := false;
      if cells[s].i > 0 {
        Count(s, cells[s].i - 1, false, Grant(sems[s].(i := sems[s].i - 1), t));
        taken := true;
      }
      CellKnown(cells, sleepNext, sleepPrev, sems, s);
    }

    /** Takes out the thread that has waited longest, if any, for t to wake; the semaphore's lock is then kept. */
    method PopWaiter(t: Tid, s: SemId) returns (popped: bool)
      requires Sems() && WaitersApart(sems) && s in sems && t in threads && sems[s].lock.None?
      modifies this`cells, this`sleepNext, this`sleepPrev, this`sems, this`threads
      ensures Sems() && (popped <==> old(sems)[s].waiters != [])
      ensures !popped ==> sems == old(sems) && threads == old(threads)
      ensures popped ==>
                var up, w := old(sems)[s], old(sems)[s].waiters[0];
                && sems == old(sems)[s := Grant(up.(waiters := up.waiters[1..], woken := up.woken + [w],
                                                    lock := Some(t)), w)]
                && threads == old(threads)[t := old(threads)[t].(mode := Waking(s, w))]
    {
      hide SemsLinked, WaitersApart;
      popped := false;
      var w := NextThread(s);
      if w.Some? {
        popped := true;
        CellKnown(cells, sleepNext, sleepPrev, sems, s);
        Count(s, cells[s].i, true, Grant(sems[s].(woken := sems[s].woken + [w.value], lock := Some(t)), w.value));
        threads := threads[t := threads[t].(mode := Waking(s, w.value))];
      }
    }

    /** `semaphore_signal` with the semaphore's lock free: true when a waiter was popped and the lock is kept. */
    method Signal(cpu: nat, t: Tid, s: SemId) returns (popped: bool)
      requires Links() && Inv(Value()) && Enabled(Value(), Step.Signal(cpu, t, s))
      modifies this`cells, this`sleepNext, this`sleepPrev, this`sems, this`threads
      ensures Links() && Value() == SignalPart(old(Value()), t, s) && Inv(Value())
      ensures cells[s].i == old(cells)[s].i + 1 && (popped <==> old(cells)[s].i < 0)
      ensures popped ==>
                && old(sems)[s].waiters != [] && sems[s].waiters == old(sems)[s].waiters[1..] && cells[s].locked
                && threads == old(threads)[t := old(threads)[t].(mode := Waking(s, old(sems)[s].waiters[0]))]
      ensures !popped ==> sems[s].waiters == old(sems)[s].waiters && threads == old(threads)
    {
      hide QueueInv, CpuInv, ThreadsInv, SemInv, QueuesLinked, SemsLinked, Waits, WaitersApart, Grant, Released,
           Enabled;
      SignalReady(Value(), cpu, t, s);
      WaitApart(Value());
      CellKnown(cells, sleepNext, sleepPrev, sems, s);
      Count(s, cells[s].i + 1, false, Released(sems[s], t));
      CellKnown(cells, sleepNext, sleepPrev, sems, s);
      popped := false;
      if cells[s].i <= 0 {
        popped := PopWaiter(t, s);
      }
      CellKnown(cells, sleepNext, sleepPrev, sems, s);
    }

    /** The rest of `semaphore_signal`, once the popped thread's sleep lock is free. */
    method FinishSignal(cpu: nat, t: Tid)
      requires Links() && Inv(Value()) && CanWake(Value(), cpu, t)
      modifies this
      ensures Links() && Value() == WakePart(old(Value()), cpu, t).1 && Inv(Value())
      ensures var s, w := old(threads)[t].mode.sem, old(threads)[t].mode.target;
        var p := old(threads)[w].priority;
        && w in threads && !threads[w].sleep && queue == old(queue)[p := old(queue)[p] + [w]]
        && s in cells && !cells[s].locked && threads[t].mode.Normal?
    {
      hide QueueInv, CpuInv, ThreadsInv, LockInv, WaiterInv, QueuesLinked, SemsLinked, Waits, WaitersApart, QueuedOnce;
      TargetAsleep(Value(), cpu, t);
      WakeKeeps(Value(), cpu, t);
      OwnIdle(Value(), cpu);
      AllCalm(Value(), threads[t].mode.target);
      var s, w := threads[t].mode.sem, threads[t].mode.target;
      var woken := Wakeup(cpu, w);
      assert woken;
      CellKnown(cells, sleepNext, sleepPrev, sems, s);
      Count(s, cells[s].i, false, sems[s].(lock := None, resumed := sems[s].resumed + [w]));
      threads := threads[t := threads[t].(mode := Normal)];
      CellKnown(cells, sleepNext, sleepPrev, sems, s);
    }
  }

  /** What a switch is for, field by field of the threads and the CPUs. */
  ghost predicate Switched(k: Kernel, k': Kernel, cpu: nat, next: Tid) {
    && cpu < |k.cpus| && next in k.threads && k'.threads.Keys == k.threads.Keys
    && k'.cpus == k.cpus[cpu := Cpu(Some(next), k.cpus[cpu].idle)] && k'.threads[next].running
    && (forall t :: t in k.threads && t != next && k.cpus[cpu].current == Some(t) ==>
          !k'.threads[t].running && k'.threads[t].on.None? && (k'.threads[t].sleep ==> !k'.threads[t].sleepLock))
    && (forall t :: t in k.threads && t != next && k.cpus[cpu].current != Some(t) ==> k'.threads[t] == k.threads[t])
    && (OnInv(k) && (k.threads[next].on.None? || k.cpus[cpu].current == Some(next)) ==> OnInv(k'))
  }

  lemma SwitchEffect(k: Kernel, cpu: nat, next: Tid)
    requires cpu < |k.cpus| && next in k.threads
    requires k.cpus[cpu].current.Some? ==> k.cpus[cpu].current.value in k.threads
    ensures Switched(k, Switch(k, cpu, next), cpu, next)
  {
    hide OnInv;
    if OnInv(k) && (k.threads[next].on.None? || k.cpus[cpu].current == Some(next)) {
      SwitchKeepsOn(k, cpu, next);
    }
  }

  lemma InitLinks(k: Kernel)
    requires Init(k)
    ensures k.queue == seq(RUN_QUEUE_COUNT, _ => []) && k.bitmap == {}
    ensures forall s :: s in k.sems ==> k.sems[s].i == k.sems[s].init && k.sems[s].lock.None? && k.sems[s].waiters == []
  {
  }

  lemma SignalReady(k: Kernel, cpu: nat, t: Tid, s: SemId)
    requires Inv(k) && Enabled(k, Step.Signal(cpu, t, s))
    ensures t in k.threads && !k.threads[t].mode.Waking? && s in k.sems && k.sems[s].lock.None?
    ensures Inv(SignalPart(k, t, s)) && |k.sems[s].waiters| == Below(k.sems[s].i)
    ensures var up := Released(k.sems[s], t);
      up.i == k.sems[s].i + 1 && up.waiters == k.sems[s].waiters && up.lock.None?
    ensures forall sem, w :: var up := Grant(sem, w); up.i == sem.i && up.waiters == sem.waiters && up.lock == sem.lock
  {
    hide QueueInv, CpuInv, ThreadsInv, SemInv;
    SignalKeeps(k, cpu, t, s);
    Counted(k, s);
  }

  lemma Enqueued(k: Kernel, cpu: nat, t: Tid)
    requires QueueInv(k) && cpu < |k.cpus| && t in k.threads && !k.threads[t].queued && t != k.cpus[cpu].idle
    ensures k.threads[t].priority < |k.queue| && Apart(k.queue) && forall p :: 0 <= p < |k.queue| ==> t !in k.queue[p]
    ensures QueueInv(Enqueue(k, cpu, t)) && QueuedOnce(Enqueue(k, cpu, t), t)
  {
    QueuesApart(k);
    EnqueueKeepsQueues(k, cpu, t);
    QueuedMeansOnce(Enqueue(k, cpu, t), t);
  }

  lemma SuspendKeeps(k: Kernel, t: Tid)
    requires QueueInv(k) && t in k.threads
    ensures QueueInv(Suspend(k, t)) && k.threads[t].priority < |k.queue|
  {
    FlagsDecideQueues(k, Suspend(k, t));
  }

  lemma WaitApart(k: Kernel)
    requires SemInv(k)
    ensures WaitersApart(k.sems)
    ensures forall t :: Waits(k.sems, t) ==> t in k.threads && k.threads[t].mode.Blocking?
  {
    hide LogsInv, BlockedInv, LockInv;
    WaitOnce(k);
  }

  lemma EmptyMeansNull(ends: seq<Ends>, next: Chain, prev: Chain, queue: seq<seq<Tid>>, p: nat)
    requires QueuesLinked(ends, next, prev, queue) && p < |queue|
    ensures |ends| == |queue| && (ends[p].first.None? <==> queue[p] == [])
  {
  }

  lemma MembersKnown(k: Kernel)
    requires QueueInv(k)
    ensures |k.queue| == RUN_QUEUE_COUNT
    ensures forall p, u :: 0 <= p < |k.queue| && u in k.queue[p] ==> u in k.threads
  {
  }

  /** What the code after a dequeue relies on: the assertions of `enqueue_thread` and `switch_thread`. */
  lemma Dispatch(k: Kernel, cpu: nat, t: Tid, limit: int)
    requires Inv(k) && Runs(k, cpu, t)
    ensures var (next, k1) := DequeueNext(k, cpu, limit);
      && k1.cpus == k.cpus && |k1.queue| == |k.queue| && t in k1.threads && k1.threads[t] == k.threads[t]
      && (next.Some? ==> next.value != t) && !k.threads[t].queued
      && (next.Some? || k.threads[t].sleep ==>
            var n := OrIdle(k, cpu, next);
            && n in k1.threads && n != t && !k1.threads[n].queued && !k1.threads[n].running)
  {
    var (next, k1) := DequeueNext(k, cpu, limit);
    DequeueTakes(k, cpu, limit);
    MembersKnown(k);
    MembersKnown(k1);
    OwnIdle(k, cpu);
    AllCalm(k, t);
    hide QueueInv, SemInv, DequeueNext;
    if next.Some? || k.threads[t].sleep {
      if next.Some? { AllCalm(k, next.value); }
      NextIsReady(k, cpu, next, k1);
    }
  }
}
