/** The invariant of the step system and its preservation by every step. */
module SleepInvariant {
  import opened Options
  import opened SchedulerState
  import opened SleepProtocol

  // ---------- the invariant ----------

  /** No thread occurs twice. */
  predicate Distinct(q: seq<Tid>) {
    forall i, j :: 0 <= i < j < |q| ==> q[i] != q[j]
  }

  /** Run queues: a thread is flagged QUEUED exactly when it is in the queue of its priority. */
  ghost predicate QueueInv(k: Kernel) {
    && |k.queue| == RUN_QUEUE_COUNT
    && (forall p :: p in k.bitmap <==> 0 <= p < RUN_QUEUE_COUNT && k.queue[p] != [])
    && (forall p :: 0 <= p < RUN_QUEUE_COUNT ==> Distinct(k.queue[p]))
    && (forall p, t :: 0 <= p < RUN_QUEUE_COUNT && t in k.queue[p] ==>
          t in k.threads && k.threads[t].queued && k.threads[t].priority == p)
    && (forall t :: t in k.threads ==>
          k.threads[t].priority < RUN_QUEUE_COUNT
          && (k.threads[t].queued ==> t in k.queue[k.threads[t].priority]))
  }

  /** `on` mirrors the CPUs' thread pointers. */
  ghost predicate OnInv(k: Kernel) {
    && (forall c :: 0 <= c < |k.cpus| && k.cpus[c].current.Some? ==> k.cpus[c].current.value in k.threads)
    && (forall t :: t in k.threads && k.threads[t].on.Some? ==> k.threads[t].on.value < |k.cpus|)
    && (forall t, c :: t in k.threads && 0 <= c < |k.cpus| ==>
          (k.threads[t].on == Some(c) <==> k.cpus[c].current == Some(t)))
  }

  /** Each CPU has its own idle thread, which runs nowhere else. */
  ghost predicate IdleInv(k: Kernel) {
    && (forall c :: 0 <= c < |k.cpus| ==> k.cpus[c].idle in k.threads && k.threads[k.cpus[c].idle].idle)
    && (forall c, d :: 0 <= c < d < |k.cpus| ==> k.cpus[c].idle != k.cpus[d].idle)
    && (forall t, c :: t in k.threads && 0 <= c < |k.cpus| && k.threads[t].idle && k.threads[t].on == Some(c) ==>
          k.cpus[c].idle == t)
  }

  ghost predicate CpuInv(k: Kernel) {
    OnInv(k) && IdleInv(k)
  }

  /** What holds of a thread whatever place it is in. */
  predicate Calm(th: Thread) {
    && (th.queued ==> !th.running && !th.sleep && !th.dead && th.saved && th.mode.Normal? && th.on.None? && !th.idle)
    && (th.sleep <==> th.mode.Blocking?)
    && (th.sleep ==> !th.dead && !th.idle)
    && (th.sleep ==> (th.sleepLock <==> th.on.Some?) && (th.saved <==> th.on.None?))
    && (!th.sleep ==> !th.sleepLock)
    && (th.mode.Waking? ==> th.on.Some?)
    && (th.running && !th.dead ==> th.on.Some?)
    && (th.on.Some? ==> !th.dead && !th.saved)
    && (th.dead ==> th.mode.Normal? && !th.idle)
    && (th.on.None? && !th.dead ==> th.saved)
  }

  /** Every thread is somewhere: on a CPU, on a run queue, asleep on a semaphore, idle or dead. */
  predicate Placed(th: Thread) {
    th.on.Some? || th.queued || th.sleep || th.idle || th.dead
  }

  ghost predicate ThreadsInv(k: Kernel, unplaced: set<Tid>) {
    forall t :: t in k.threads ==> Calm(k.threads[t]) && (t !in unplaced ==> Placed(k.threads[t]))
  }

  function Below(i: int): nat {
    if i < 0 then -i else 0
  }

  /** The counters of one semaphore. */
  predicate CountInv(sem: Semaphore) {
    && |sem.waiters| == Below(sem.i)
    && sem.i + sem.granted + |sem.waiters| == sem.init + sem.signalled
    && sem.arrived == sem.woken + sem.waiters
    && (sem.mutex ==> sem.init == 1 && |sem.holders| + sem.signalled == sem.granted)
    && Distinct(sem.waiters)
  }

  /** The thread popped by a signal still in flight, if any. */
  function InFlight(k: Kernel, sem: Semaphore): Option<Tid> {
    if sem.lock.Some? && sem.lock.value in k.threads && k.threads[sem.lock.value].mode.Waking?
    then Some(k.threads[sem.lock.value].mode.target) else None
  }

  /** Every popped waiter has been put back on a run queue, in order, but for the one in flight. */
  predicate LogInv(sem: Semaphore, inFlight: Option<Tid>) {
    sem.woken == sem.resumed + (match inFlight case Some(t) => [t] case None => [])
  }

  /** A semaphore's lock is held exactly by the thread that is waking one of its waiters. */
  ghost predicate OwnerInv(k: Kernel) {
    && (forall s :: s in k.sems && k.sems[s].lock.Some? ==> k.sems[s].lock.value in k.threads)
    && (forall u :: u in k.threads && k.threads[u].mode.Waking? ==> k.threads[u].mode.sem in k.sems)
    && (forall s, u :: s in k.sems && u in k.threads ==>
          (k.sems[s].lock == Some(u) <==> k.threads[u].mode.Waking? && k.threads[u].mode.sem == s))
  }

  /** The popped thread is blocked on the semaphore and no longer among its waiters. */
  ghost predicate TargetInv(k: Kernel) {
    && (forall u {:trigger k.threads[u]} :: u in k.threads && k.threads[u].mode.Waking? ==>
          k.threads[u].mode.sem in k.sems && k.threads[u].mode.target in k.threads)
    && (forall u, w {:trigger k.threads[u], k.threads[w]} ::
          u in k.threads && w in k.threads && k.threads[u].mode.Waking? && k.threads[u].mode.target == w ==>
            && k.threads[w].mode == Blocking(k.threads[u].mode.sem)
            && w !in k.sems[k.threads[u].mode.sem].waiters)
  }

  ghost predicate LockInv(k: Kernel) {
    OwnerInv(k) && TargetInv(k)
  }

  ghost predicate LogsInv(k: Kernel) {
    forall s :: s in k.sems ==> CountInv(k.sems[s]) && LogInv(k.sems[s], InFlight(k, k.sems[s]))
  }

  /** The waiters of a semaphore are blocked on it. */
  ghost predicate MembersInv(k: Kernel) {
    forall s, w :: s in k.sems && w in k.sems[s].waiters ==> w in k.threads && k.threads[w].mode == Blocking(s)
  }

  /** A thread blocked on a semaphore is one of its waiters, or the one popped by a signal in flight. */
  ghost predicate BlockedInv(k: Kernel) {
    && (forall t :: t in k.threads && k.threads[t].mode.Blocking? ==> k.threads[t].mode.sem in k.sems)
    && (forall s, t :: s in k.sems && t in k.threads && k.threads[t].mode == Blocking(s) ==>
          t in k.sems[s].waiters || InFlight(k, k.sems[s]) == Some(t))
  }

  ghost predicate WaiterInv(k: Kernel) {
    LogsInv(k) && MembersInv(k) && BlockedInv(k)
  }

  ghost predicate SemInv(k: Kernel) {
    LockInv(k) && WaiterInv(k)
  }

  ghost predicate Inv(k: Kernel) {
    QueueInv(k) && CpuInv(k) && ThreadsInv(k, {}) && SemInv(k)
  }

  lemma InitInv(k: Kernel)
    requires Init(k)
    ensures Inv(k)
  {
    hide QueueInv, CpuInv, ThreadsInv, SemInv, Init;
    InitCpus(k);
    InitSemaphores(k);
    InitThreads(k);
  }

  lemma InitThreads(k: Kernel)
    requires Init(k)
    ensures QueueInv(k) && ThreadsInv(k, {})
  {
  }

  lemma InitCpus(k: Kernel)
    requires Init(k)
    ensures CpuInv(k)
  {
  }

  lemma InitSemaphores(k: Kernel)
    requires Init(k)
    ensures SemInv(k)
  {
  }

  // ---------- the run queues ----------

  lemma RemovedAt(q: seq<Tid>, j: nat)
    requires j < |q| && Distinct(q)
    ensures Distinct(RemoveAt(q, j))
    ensures forall u :: u in RemoveAt(q, j) <==> u in q && u != q[j]
  {
    var rest := RemoveAt(q, j);
    assert forall m :: 0 <= m < |rest| ==> rest[m] == (if m < j then q[m] else q[m + 1]);
    forall u | u in q && u != q[j] ensures u in rest {
      var m :| 0 <= m < |q| && q[m] == u;
      assert rest[if m < j then m else m - 1] == u;
    }
  }

  lemma TakeAtKeepsQueues(k: Kernel, p: nat, j: nat)
    requires QueueInv(k) && p < |k.queue| && j < |k.queue[p]|
    ensures k.queue[p][j] in k.threads && k.threads[k.queue[p][j]].queued
    ensures QueueInv(TakeAt(k, p, j))
  {
    var t := k.queue[p][j];
    assert t in k.queue[p];
    RemovedAt(k.queue[p], j);
    var k' := TakeAt(k, p, j);
    forall r, u | 0 <= r < RUN_QUEUE_COUNT && u in k'.queue[r]
      ensures u in k'.threads && k'.threads[u].queued && k'.threads[u].priority == r
    {
      assert u in k.queue[r];
    }
  }

  lemma DequeueKeepsQueues(k: Kernel, cpu: nat, limit: int)
    requires QueueInv(k)
    ensures QueueInv(DequeueNext(k, cpu, limit).1)
    ensures DequeueNext(k, cpu, limit).0.Some? ==> k.threads[DequeueNext(k, cpu, limit).0.value].queued
  {
    var p := BestQueue(k.queue, k.threads, cpu, limit, 0);
    if k.bitmap != {} && p < |k.queue| {
      TakeAtKeepsQueues(k, p, FirstEligible(k.queue[p], k.threads, cpu));
    }
  }

  lemma EnqueueKeepsQueues(k: Kernel, cpu: nat, t: Tid)
    requires QueueInv(k) && cpu < |k.cpus| && t in k.threads && !k.threads[t].queued
    ensures QueueInv(Enqueue(k, cpu, t))
  {
    var p := k.threads[t].priority;
    var q := k.queue[p];
    assert t !in q;
    assert forall u :: u in q ==> u in q + [t];
  }

  // ---------- switching ----------

  /** The same semaphores and control points; threads may have been added. */
  predicate SameModes(k: Kernel, k': Kernel) {
    && k.sems == k'.sems
    && (forall t :: t in k.threads ==> t in k'.threads && k'.threads[t].mode == k.threads[t].mode)
    && (forall t :: t in k'.threads && t !in k.threads ==> k'.threads[t].mode.Normal?)
  }

  lemma ModesDecideSemaphores(k: Kernel, k': Kernel)
    requires SemInv(k) && SameModes(k, k')
    ensures SemInv(k')
  {
    ModesDecideLocks(k, k');
    ModesDecideWaiters(k, k');
  }

  lemma ModesDecideLocks(k: Kernel, k': Kernel)
    requires LockInv(k) && SameModes(k, k')
    ensures LockInv(k')
  {
  }

  lemma ModesDecideFlights(k: Kernel, k': Kernel)
    requires SameModes(k, k') && OwnerInv(k)
    ensures forall s :: s in k.sems ==> InFlight(k', k'.sems[s]) == InFlight(k, k.sems[s])
  {
  }

  lemma ModesDecideWaiters(k: Kernel, k': Kernel)
    requires WaiterInv(k) && SameModes(k, k') && OwnerInv(k)
    ensures WaiterInv(k')
  {
    hide CountInv, InFlight, OwnerInv, LogInv;
    ModesDecideFlights(k, k');
    assert LogsInv(k') by { hide MembersInv, BlockedInv; }
    hide LogsInv;
    assert MembersInv(k') by { hide BlockedInv; }
    hide MembersInv;
  }

  function Enter(th: Thread, cpu: nat): Thread {
    th.(running := true, on := Some(cpu), saved := false)
  }

  predicate SameFlags(k: Kernel, k': Kernel) {
    && k.queue == k'.queue && k.bitmap == k'.bitmap
    && k.threads.Keys == k'.threads.Keys
    && forall t :: t in k.threads ==>
         k'.threads[t].queued == k.threads[t].queued && k'.threads[t].priority == k.threads[t].priority
  }

  lemma FlagsDecideQueues(k: Kernel, k': Kernel)
    requires QueueInv(k) && SameFlags(k, k')
    ensures QueueInv(k')
  {
  }

  predicate SamePlaces(k: Kernel, k': Kernel) {
    && k.cpus == k'.cpus
    && k.threads.Keys == k'.threads.Keys
    && forall t :: t in k.threads ==> k'.threads[t].on == k.threads[t].on && k'.threads[t].idle == k.threads[t].idle
  }

  lemma PlacesDecideCpus(k: Kernel, k': Kernel)
    requires CpuInv(k) && SamePlaces(k, k')
    ensures CpuInv(k')
  {
  }

  lemma SwitchPlaces(k: Kernel, cpu: nat, next: Tid)
    requires cpu < |k.cpus| && next in k.threads
    requires k.cpus[cpu].current.Some? ==> k.cpus[cpu].current.value in k.threads
    ensures var k' := Switch(k, cpu, next);
      && k'.threads.Keys == k.threads.Keys
      && k'.cpus == k.cpus[cpu := k.cpus[cpu].(current := Some(next))]
      && forall t :: t in k.threads ==>
           && k'.threads[t].idle == k.threads[t].idle
           && k'.threads[t].on ==
                (if t == next then Some(cpu) else if k.cpus[cpu].current == Some(t) then None else k.threads[t].on)
  {
  }

  lemma SwitchKeepsOn(k: Kernel, cpu: nat, next: Tid)
    requires OnInv(k) && cpu < |k.cpus| && next in k.threads
    requires k.threads[next].on.None? || k.cpus[cpu].current == Some(next)
    ensures OnInv(Switch(k, cpu, next))
  {
    SwitchPlaces(k, cpu, next);
    hide Switch;
  }

  lemma SwitchKeepsIdle(k: Kernel, cpu: nat, next: Tid)
    requires IdleInv(k) && cpu < |k.cpus| && next in k.threads
    requires k.cpus[cpu].current.Some? ==> k.cpus[cpu].current.value in k.threads
    requires k.threads[next].idle ==> k.cpus[cpu].idle == next
    ensures IdleInv(Switch(k, cpu, next))
  {
    SwitchPlaces(k, cpu, next);
    hide Switch;
  }

  lemma SwitchKeepsCpus(k: Kernel, cpu: nat, next: Tid)
    requires CpuInv(k) && cpu < |k.cpus| && next in k.threads
    requires k.threads[next].on.None? || k.cpus[cpu].current == Some(next)
    requires k.threads[next].idle ==> k.cpus[cpu].idle == next
    ensures CpuInv(Switch(k, cpu, next))
  {
    SwitchKeepsOn(k, cpu, next);
    SwitchKeepsIdle(k, cpu, next);
    hide Switch, OnInv, IdleInv;
  }

  /** The outgoing thread and the incoming one are in order once both are updated. */
  predicate Switchable(k: Kernel, cpu: nat, next: Tid) {
    && cpu < |k.cpus| && next in k.threads
    && (k.cpus[cpu].current.Some? ==>
          var t := k.cpus[cpu].current.value;
          t in k.threads && (t != next ==> Calm(Leave(k.threads[t])) && Placed(Leave(k.threads[t]))))
    && (k.threads[next].on.None? || k.cpus[cpu].current == Some(next))
    && (k.threads[next].idle ==> k.cpus[cpu].idle == next)
    && Calm(Enter(if k.cpus[cpu].current == Some(next) then Leave(k.threads[next]) else k.threads[next], cpu))
  }

  ghost predicate OthersInv(k: Kernel, cpu: nat, next: Tid) {
    forall t :: t in k.threads && t != next && (cpu < |k.cpus| ==> k.cpus[cpu].current != Some(t)) ==>
      Calm(k.threads[t]) && Placed(k.threads[t])
  }

  lemma SwitchKeepsThreads(k: Kernel, cpu: nat, next: Tid)
    requires Switchable(k, cpu, next) && OthersInv(k, cpu, next)
    ensures ThreadsInv(Switch(k, cpu, next), {})
  {
  }

  lemma SwitchKeeps(k: Kernel, cpu: nat, next: Tid)
    requires QueueInv(k) && CpuInv(k) && SemInv(k)
    requires Switchable(k, cpu, next) && OthersInv(k, cpu, next)
    ensures Inv(Switch(k, cpu, next))
  {
    hide QueueInv, CpuInv, SemInv, ThreadsInv;
    FlagsDecideQueues(k, Switch(k, cpu, next));
    SwitchKeepsCpus(k, cpu, next);
    SwitchKeepsThreads(k, cpu, next);
    ModesDecideSemaphores(k, Switch(k, cpu, next));
  }

  /** What a dequeue leaves behind: the chosen thread, taken off its queue, and nothing else changed. */
  ghost predicate Taken(k: Kernel, next: Option<Tid>, k': Kernel) {
    && QueueInv(k') && k'.cpus == k.cpus && k'.sems == k.sems
    && (next.None? ==> k'.threads == k.threads)
    && (next.Some? ==>
          && next.value in k.threads && k.threads[next.value].queued
          && k'.threads == k.threads[next.value := k.threads[next.value].(queued := false)])
  }

  lemma DequeueTakes(k: Kernel, cpu: nat, limit: int)
    requires QueueInv(k)
    ensures Taken(k, DequeueNext(k, cpu, limit).0, DequeueNext(k, cpu, limit).1)
  {
    DequeueKeepsQueues(k, cpu, limit);
  }

  /** A thread fit to be switched to: the dequeued one, or the CPU's own idle thread. */
  predicate Ready(k: Kernel, cpu: nat, n: Tid) {
    && cpu < |k.cpus| && n in k.threads && Calm(k.threads[n])
    && k.threads[n].on.None? && !k.threads[n].queued && !k.threads[n].running
    && !k.threads[n].sleep && !k.threads[n].dead
    && (k.threads[n].idle ==> k.cpus[cpu].idle == n)
  }

  lemma NextIsReady(k: Kernel, cpu: nat, next: Option<Tid>, k': Kernel)
    requires CpuInv(k) && ThreadsInv(k, {}) && Taken(k, next, k')
    requires cpu < |k.cpus| && (next.None? ==> k.cpus[cpu].current != Some(k.cpus[cpu].idle))
    ensures Ready(k', cpu, OrIdle(k, cpu, next))
  {
    hide QueueInv;
  }

  lemma OwnIdle(k: Kernel, cpu: nat)
    requires CpuInv(k) && cpu < |k.cpus|
    ensures k.cpus[cpu].idle in k.threads && k.threads[k.cpus[cpu].idle].idle
    ensures forall t :: t in k.threads && k.cpus[cpu].current == Some(t) ==>
              k.threads[t].on == Some(cpu) && (k.threads[t].idle <==> k.cpus[cpu].idle == t)
  {
  }

  lemma SleepSwitches(k: Kernel, cpu: nat, t: Tid, next: Option<Tid>, k1: Kernel)
    requires ThreadsInv(k, {}) && Taken(k, next, k1) && cpu < |k.cpus|
    requires k.cpus[cpu].current == Some(t) && t in k.threads && k.threads[t].sleep && k.threads[t].on == Some(cpu)
    requires Ready(k1, cpu, OrIdle(k, cpu, next))
    ensures var k2 := Suspend(k1, t);
      Switchable(k2, cpu, OrIdle(k, cpu, next)) && OthersInv(k2, cpu, OrIdle(k, cpu, next))
  {
    hide QueueInv;
  }

  lemma SleepSame(k: Kernel, t: Tid, next: Option<Tid>, k1: Kernel)
    requires Taken(k, next, k1) && t in k.threads
    ensures SameFlags(k1, Suspend(k1, t)) && SamePlaces(k, Suspend(k1, t)) && SameModes(k, Suspend(k1, t))
  {
    hide QueueInv;
  }

  lemma SleepFrom(k: Kernel, cpu: nat, t: Tid, next: Option<Tid>, k1: Kernel)
    requires Inv(k) && Runs(k, cpu, t) && k.threads[t].sleep && Taken(k, next, k1)
    ensures t in k1.threads && Inv(Switch(Suspend(k1, t), cpu, OrIdle(k, cpu, next)))
  {
    hide QueueInv, SemInv, CpuInv, ThreadsInv, Switchable, OthersInv, Switch, Ready;
    var k2 := Suspend(k1, t);
    OwnIdle(k, cpu);
    AllCalm(k, t);
    NextIsReady(k, cpu, next, k1);
    SleepSwitches(k, cpu, t, next, k1);
    SleepSame(k, t, next, k1);
    hide Suspend, SameFlags, SamePlaces, SameModes;
    FlagsDecideQueues(k1, k2);
    PlacesDecideCpus(k, k2);
    ModesDecideSemaphores(k, k2);
    SwitchKeeps(k2, cpu, OrIdle(k, cpu, next));
  }

  /** What requeueing the running thread leaves behind. */
  predicate Swapped(k: Kernel, cpu: nat, t: Tid, next: Tid, k': Kernel) {
    && k'.cpus == k.cpus && k'.sems == k.sems
    && t in k.threads && next in k.threads && t != next
    && k'.threads.Keys == k.threads.Keys
    && k'.threads[t] == k.threads[t].(saved := true, running := false, queued := !k.threads[t].idle)
    && k'.threads[next] == k.threads[next].(queued := false)
    && forall u :: u in k.threads && u != t && u != next ==> k'.threads[u] == k.threads[u]
  }

  lemma RequeueSwaps(k: Kernel, cpu: nat, t: Tid, next: Tid, k1: Kernel)
    requires Taken(k, Some(next), k1) && cpu < |k.cpus| && t in k.threads && t != next
    requires !k.threads[t].queued && k.threads[t].priority < |k1.queue|
    requires k.threads[t].idle <==> k.cpus[cpu].idle == t
    ensures QueueInv(Enqueue(Suspend(k1, t), cpu, t))
    ensures Swapped(k, cpu, t, next, Enqueue(Suspend(k1, t), cpu, t))
  {
    hide QueueInv;
    assert Swapped(k, cpu, t, next, Enqueue(Suspend(k1, t), cpu, t));
    hide Swapped, Enqueue;
    FlagsDecideQueues(k1, Suspend(k1, t));
    EnqueueKeepsQueues(Suspend(k1, t), cpu, t);
  }

  lemma RequeueSwitches(k: Kernel, cpu: nat, t: Tid, next: Tid, k3: Kernel)
    requires ThreadsInv(k, {}) && cpu < |k.cpus| && k.cpus[cpu].current == Some(t)
    requires Swapped(k, cpu, t, next, k3)
    requires k.threads[t].mode.Normal? && k.threads[t].on == Some(cpu) && k.threads[next].queued
    ensures Switchable(k3, cpu, next) && OthersInv(k3, cpu, next)
  {
  }

  lemma SwappedSame(k: Kernel, cpu: nat, t: Tid, next: Tid, k3: Kernel)
    requires Swapped(k, cpu, t, next, k3)
    ensures SamePlaces(k, k3) && SameModes(k, k3)
  {
  }

  lemma RequeueFrom(k: Kernel, cpu: nat, t: Tid, next: Tid, k1: Kernel)
    requires Inv(k) && RunsNormal(k, cpu, t) && Taken(k, Some(next), k1)
    ensures t in k1.threads && Inv(Switch(Enqueue(Suspend(k1, t), cpu, t), cpu, next))
  {
    assert |k1.queue| == |k.queue|;
    hide QueueInv, SemInv, CpuInv, ThreadsInv, Switchable, OthersInv, Enqueue, Swapped;
    OwnIdle(k, cpu);
    AllCalm(k, t);
    AllCalm(k, next);
    RequeueSwaps(k, cpu, t, next, k1);
    var k3 := Enqueue(Suspend(k1, t), cpu, t);
    SwappedSame(k, cpu, t, next, k3);
    PlacesDecideCpus(k, k3);
    ModesDecideSemaphores(k, k3);
    RequeueSwitches(k, cpu, t, next, k3);
    SwitchKeeps(k3, cpu, next);
  }

  lemma AllCalm(k: Kernel, t: Tid)
    requires ThreadsInv(k, {}) && t in k.threads
    ensures Calm(k.threads[t]) && Placed(k.threads[t])
  {
  }

  lemma YieldKeeps(k: Kernel, cpu: nat, t: Tid)
    requires Inv(k) && Runs(k, cpu, t) && !k.threads[t].mode.Waking?
    ensures Inv(YieldPass(k, cpu))
  {
    hide QueueInv, SemInv, CpuInv, ThreadsInv, DequeueNext;
    var limit := if k.threads[t].sleep then ANY_PRIORITY else k.threads[t].priority;
    var (next, k1) := DequeueNext(k, cpu, limit);
    DequeueTakes(k, cpu, limit);
    AllCalm(k, t);
    if k.threads[t].sleep {
      SleepFrom(k, cpu, t, next, k1);
    } else if next.Some? {
      RequeueFrom(k, cpu, t, next.value, k1);
    } else {
      UnchangedThreads(k, k1);
    }
  }

  lemma UnchangedThreads(k: Kernel, k': Kernel)
    requires Inv(k) && QueueInv(k') && k'.cpus == k.cpus && k'.sems == k.sems && k'.threads == k.threads
    ensures Inv(k')
  {
    hide QueueInv;
    ModesDecideSemaphores(k, k');
  }

  lemma SameThreadSwitches(k: Kernel, cpu: nat, t: Tid)
    requires ThreadsInv(k, {}) && cpu < |k.cpus| && k.cpus[cpu].current == Some(t) && t in k.threads
    requires k.threads[t].on == Some(cpu) && k.threads[t].mode.Normal? && (k.threads[t].idle ==> k.cpus[cpu].idle == t)
    ensures Switchable(k, cpu, t) && OthersInv(k, cpu, t)
  {
  }

  lemma PreemptKeeps(k: Kernel, cpu: nat, t: Tid)
    requires Inv(k) && RunsNormal(k, cpu, t)
    ensures Inv(PreemptPass(k, cpu))
  {
    hide QueueInv, SemInv, CpuInv, ThreadsInv, DequeueNext, Switchable, OthersInv;
    var (next, k1) := DequeueNext(k, cpu, k.threads[t].priority);
    DequeueTakes(k, cpu, k.threads[t].priority);
    if next.Some? {
      RequeueFrom(k, cpu, t, next.value, k1);
    } else {
      UnchangedThreads(k, k1);
      OwnIdle(k1, cpu);
      SameThreadSwitches(k1, cpu, t);
      SwitchKeeps(k1, cpu, t);
    }
  }

  lemma StopSwitches(k: Kernel, cpu: nat, next: Option<Tid>, k1: Kernel)
    requires ThreadsInv(k, {}) && Taken(k, next, k1) && cpu < |k.cpus| && k.cpus[cpu].current.None?
    requires Ready(k1, cpu, OrIdle(k, cpu, next))
    ensures Switchable(k1, cpu, OrIdle(k, cpu, next)) && OthersInv(k1, cpu, OrIdle(k, cpu, next))
    ensures SamePlaces(k, k1) && SameModes(k, k1)
  {
    hide QueueInv;
  }

  lemma StopKeeps(k: Kernel, cpu: nat)
    requires Inv(k) && CpuOk(k, cpu) && k.cpus[cpu].current.None?
    ensures Inv(StopPass(k, cpu))
  {
    hide QueueInv, SemInv, CpuInv, ThreadsInv, DequeueNext, Switchable, OthersInv;
    var (next, k1) := DequeueNext(k, cpu, ANY_PRIORITY);
    DequeueTakes(k, cpu, ANY_PRIORITY);
    NextIsReady(k, cpu, next, k1);
    StopSwitches(k, cpu, next, k1);
    PlacesDecideCpus(k, k1);
    ModesDecideSemaphores(k, k1);
    SwitchKeeps(k1, cpu, OrIdle(k, cpu, next));
  }

  lemma AbandonKeepsCpus(k: Kernel, cpu: nat)
    requires CpuInv(k) && CpuOk(k, cpu) && k.cpus[cpu].current.Some?
    ensures CpuInv(Abandon(k, cpu)) && CpuOk(Abandon(k, cpu), cpu)
  {
  }

  lemma AbandonKeepsThreads(k: Kernel, cpu: nat)
    requires ThreadsInv(k, {}) && CpuOk(k, cpu) && k.cpus[cpu].current.Some?
    requires k.threads[k.cpus[cpu].current.value].mode.Normal? && !k.threads[k.cpus[cpu].current.value].idle
    requires k.threads[k.cpus[cpu].current.value].on.Some?
    ensures ThreadsInv(Abandon(k, cpu), {})
  {
  }

  lemma ExitKeeps(k: Kernel, cpu: nat, t: Tid)
    requires Inv(k) && RunsNormal(k, cpu, t) && !k.threads[t].idle
    ensures Inv(Abandon(k, cpu)) && CpuOk(Abandon(k, cpu), cpu) && Inv(StopPass(Abandon(k, cpu), cpu))
  {
    hide QueueInv, SemInv, CpuInv, ThreadsInv, StopPass;
    var k1 := Abandon(k, cpu);
    OwnIdle(k, cpu);
    AbandonKeepsCpus(k, cpu);
    AbandonKeepsThreads(k, cpu);
    FlagsDecideQueues(k, k1);
    ModesDecideSemaphores(k, k1);
    StopKeeps(k1, cpu);
  }

  lemma PinKeeps(k: Kernel, t: Tid, pin: int)
    requires Inv(k) && t in k.threads
    ensures Inv(k.(threads := k.threads[t := k.threads[t].(pin := pin)]))
  {
    hide QueueInv, SemInv, CpuInv;
    var k1 := k.(threads := k.threads[t := k.threads[t].(pin := pin)]);
    FlagsDecideQueues(k, k1);
    PlacesDecideCpus(k, k1);
    ModesDecideSemaphores(k, k1);
  }

  // ---------- creating a thread ----------

  function WithThread(k: Kernel, child: Tid, priority: nat): Kernel {
    k.(threads := k.threads[child := NewThread(priority)])
  }

  lemma NewThreadKeepsQueues(k: Kernel, child: Tid, priority: nat)
    requires QueueInv(k) && child !in k.threads && priority < RUN_QUEUE_COUNT
    ensures QueueInv(WithThread(k, child, priority))
  {
  }

  lemma NewThreadKeepsCpus(k: Kernel, child: Tid, priority: nat)
    requires CpuInv(k) && child !in k.threads
    ensures CpuInv(WithThread(k, child, priority))
  {
    forall c | 0 <= c < |k.cpus| ensures k.cpus[c].current != Some(child) && k.cpus[c].idle != child { }
  }

  lemma NewThreadKeepsThreads(k: Kernel, cpu: nat, child: Tid, priority: nat)
    requires ThreadsInv(k, {}) && child !in k.threads && cpu < |k.cpus| && k.cpus[cpu].idle != child
    requires priority < |k.queue|
    ensures ThreadsInv(Enqueue(WithThread(k, child, priority), cpu, child), {})
    ensures SameModes(k, Enqueue(WithThread(k, child, priority), cpu, child))
    ensures SamePlaces(WithThread(k, child, priority), Enqueue(WithThread(k, child, priority), cpu, child))
  {
  }

  lemma SpawnKeeps(k: Kernel, cpu: nat, child: Tid, priority: nat)
    requires Inv(k) && cpu < |k.cpus| && child !in k.threads && priority < RUN_QUEUE_COUNT
    ensures QueueInv(WithThread(k, child, priority)) && Inv(Enqueue(WithThread(k, child, priority), cpu, child))
  {
    var k1 := WithThread(k, child, priority);
    var k2 := Enqueue(k1, cpu, child);
    hide QueueInv, SemInv, CpuInv, ThreadsInv, Enqueue;
    OwnIdle(k, cpu);
    NewThreadKeepsQueues(k, child, priority);
    NewThreadKeepsCpus(k, child, priority);
    NewThreadKeepsThreads(k, cpu, child, priority);
    EnqueueKeepsQueues(k1, cpu, child);
    PlacesDecideCpus(k1, k2);
    ModesDecideSemaphores(k, k2);
  }

  // ---------- the semaphores ----------

  lemma CountersKeep(k: Kernel, s: SemId, sem: Semaphore)
    requires Inv(k) && s in k.sems && CountInv(sem)
    requires sem.lock == k.sems[s].lock && sem.waiters == k.sems[s].waiters
    requires sem.woken == k.sems[s].woken && sem.resumed == k.sems[s].resumed
    ensures Inv(k.(sems := k.sems[s := sem]))
  {
    hide QueueInv, CpuInv, ThreadsInv, CountInv;
    var k' := k.(sems := k.sems[s := sem]);
    FlagsDecideQueues(k, k');
    PlacesDecideCpus(k, k');
    assert ThreadsInv(k', {}) by { ThreadsDecide(k, k'); }
    CountersKeepLocks(k, s, sem);
    CountersKeepWaiters(k, s, sem);
  }

  lemma GrantKeeps(k: Kernel, s: SemId, t: Tid)
    requires Inv(k) && s in k.sems && k.sems[s].i > 0
    ensures Inv(k.(sems := k.sems[s := Grant(k.sems[s].(i := k.sems[s].i - 1), t)]))
  {
    hide QueueInv, CpuInv, ThreadsInv, LockInv;
    assert CountInv(k.sems[s]);
    CountersKeep(k, s, Grant(k.sems[s].(i := k.sems[s].i - 1), t));
  }

  lemma ThreadsDecide(k: Kernel, k': Kernel)
    requires ThreadsInv(k, {}) && k'.threads == k.threads
    ensures ThreadsInv(k', {})
  {
  }

  lemma CountersKeepLocks(k: Kernel, s: SemId, sem: Semaphore)
    requires LockInv(k) && s in k.sems && sem.lock == k.sems[s].lock && sem.waiters == k.sems[s].waiters
    ensures LockInv(k.(sems := k.sems[s := sem]))
  {
    hide TargetInv, OwnerInv;
    CountersKeepOwners(k, s, sem);
    CountersKeepTargets(k, s, sem);
  }

  lemma CountersKeepOwners(k: Kernel, s: SemId, sem: Semaphore)
    requires OwnerInv(k) && s in k.sems && sem.lock == k.sems[s].lock
    ensures OwnerInv(k.(sems := k.sems[s := sem]))
  {
  }

  lemma CountersKeepTargets(k: Kernel, s: SemId, sem: Semaphore)
    requires TargetInv(k) && s in k.sems && sem.waiters == k.sems[s].waiters
    ensures TargetInv(k.(sems := k.sems[s := sem]))
  {
  }

  lemma CountersKeepWaiters(k: Kernel, s: SemId, sem: Semaphore)
    requires WaiterInv(k) && s in k.sems && CountInv(sem)
    requires sem.lock == k.sems[s].lock && sem.waiters == k.sems[s].waiters
    requires sem.woken == k.sems[s].woken && sem.resumed == k.sems[s].resumed
    ensures WaiterInv(k.(sems := k.sems[s := sem]))
  {
    hide CountInv, InFlight, LogsInv, MembersInv, BlockedInv;
    CountersKeepLogs(k, s, sem);
    CountersKeepMembers(k, s, sem);
    CountersKeepBlocked(k, s, sem);
  }

  lemma CountersKeepFlights(k: Kernel, s: SemId, sem: Semaphore)
    requires s in k.sems && sem.lock == k.sems[s].lock
    ensures var k' := k.(sems := k.sems[s := sem]);
      forall r :: r in k.sems ==> InFlight(k', k'.sems[r]) == InFlight(k, k.sems[r])
  {
  }

  lemma CountersKeepLogs(k: Kernel, s: SemId, sem: Semaphore)
    requires LogsInv(k) && s in k.sems && CountInv(sem) && sem.lock == k.sems[s].lock
    requires sem.woken == k.sems[s].woken && sem.resumed == k.sems[s].resumed
    ensures LogsInv(k.(sems := k.sems[s := sem]))
  {
    hide CountInv, InFlight;
    CountersKeepFlights(k, s, sem);
  }

  lemma CountersKeepMembers(k: Kernel, s: SemId, sem: Semaphore)
    requires MembersInv(k) && s in k.sems && sem.waiters == k.sems[s].waiters
    ensures MembersInv(k.(sems := k.sems[s := sem]))
  {
  }

  lemma CountersKeepBlocked(k: Kernel, s: SemId, sem: Semaphore)
    requires BlockedInv(k) && s in k.sems && sem.lock == k.sems[s].lock && sem.waiters == k.sems[s].waiters
    ensures BlockedInv(k.(sems := k.sems[s := sem]))
  {
    hide InFlight;
    CountersKeepFlights(k, s, sem);
  }

  /** A wait that blocks: the thread changes its control point and joins the waiters. */
  predicate Joined(k: Kernel, t: Tid, s: SemId, k': Kernel) {
    && t in k.threads && k.threads[t].mode.Normal? && Free(k, s)
    && k'.threads.Keys == k.threads.Keys && k'.sems.Keys == k.sems.Keys
    && k'.threads[t].mode == Blocking(s)
    && (forall u :: u in k.threads && u != t ==> k'.threads[u] == k.threads[u])
    && (forall r :: r in k.sems && r != s ==> k'.sems[r] == k.sems[r])
    && k'.sems[s].lock.None? && k'.sems[s].waiters == k.sems[s].waiters + [t]
    && k'.sems[s].woken == k.sems[s].woken && k'.sems[s].resumed == k.sems[s].resumed
    && CountInv(k'.sems[s])
  }

  lemma WaitJoins(k: Kernel, t: Tid, s: SemId)
    requires LogsInv(k) && MembersInv(k)
    requires t in k.threads && k.threads[t].mode.Normal? && Free(k, s) && k.sems[s].i <= 0
    ensures Joined(k, t, s, WaitPart(k, t, s))
  {
    var sem := k.sems[s];
    assert CountInv(sem);
    assert t !in sem.waiters;
    assert sem.arrived + [t] == sem.woken + (sem.waiters + [t]);
  }

  lemma JoinKeepsOwners(k: Kernel, t: Tid, s: SemId, k': Kernel)
    requires OwnerInv(k) && Joined(k, t, s, k')
    ensures OwnerInv(k')
    ensures forall u :: u in k.threads && k.threads[u].mode.Waking? ==> k.threads[u].mode.sem != s
  {
    hide CountInv;
  }

  lemma JoinKeepsTargets(k: Kernel, t: Tid, s: SemId, k': Kernel)
    requires TargetInv(k) && Joined(k, t, s, k')
    requires forall u :: u in k.threads && k.threads[u].mode.Waking? ==> k.threads[u].mode.sem != s
    ensures TargetInv(k')
  {
    hide CountInv;
    assert forall u :: u in k'.threads && k'.threads[u].mode.Waking? ==> u != t;
  }

  lemma JoinKeepsFlights(k: Kernel, t: Tid, s: SemId, k': Kernel)
    requires Joined(k, t, s, k')
    ensures forall r :: r in k.sems ==> InFlight(k', k'.sems[r]) == InFlight(k, k.sems[r])
  {
    hide CountInv;
  }

  lemma JoinKeepsLogs(k: Kernel, t: Tid, s: SemId, k': Kernel)
    requires LogsInv(k) && Joined(k, t, s, k')
    ensures LogsInv(k')
  {
    hide CountInv, InFlight;
    JoinKeepsFlights(k, t, s, k');
  }

  lemma JoinKeepsMembers(k: Kernel, t: Tid, s: SemId, k': Kernel)
    requires MembersInv(k) && Joined(k, t, s, k')
    ensures MembersInv(k')
  {
    hide CountInv;
  }

  lemma JoinKeepsBlocked(k: Kernel, t: Tid, s: SemId, k': Kernel)
    requires BlockedInv(k) && Joined(k, t, s, k')
    ensures BlockedInv(k')
  {
    hide CountInv, InFlight;
    JoinKeepsFlights(k, t, s, k');
  }

  lemma BlockKeepsThreads(k: Kernel, t: Tid, s: SemId)
    requires ThreadsInv(k, {}) && t in k.threads && s in k.sems && k.sems[s].i <= 0
    requires k.threads[t].mode.Normal? && k.threads[t].on.Some? && !k.threads[t].idle
    ensures ThreadsInv(WaitPart(k, t, s), {})
    ensures SameFlags(k, WaitPart(k, t, s)) && SamePlaces(k, WaitPart(k, t, s))
  {
  }

  lemma JoinsSemaphores(k: Kernel, t: Tid, s: SemId)
    requires SemInv(k) && t in k.threads && k.threads[t].mode.Normal? && Free(k, s) && k.sems[s].i <= 0
    ensures SemInv(WaitPart(k, t, s))
  {
    hide OwnerInv, TargetInv, LogsInv, MembersInv, BlockedInv, Joined, WaitPart;
    WaitJoins(k, t, s);
    JoinKeepsOwners(k, t, s, WaitPart(k, t, s));
    JoinKeepsTargets(k, t, s, WaitPart(k, t, s));
    JoinKeepsLogs(k, t, s, WaitPart(k, t, s));
    JoinKeepsMembers(k, t, s, WaitPart(k, t, s));
    JoinKeepsBlocked(k, t, s, WaitPart(k, t, s));
  }

  lemma WaitKeeps(k: Kernel, cpu: nat, t: Tid, s: SemId)
    requires Inv(k) && RunsNormal(k, cpu, t) && !k.threads[t].idle && Free(k, s)
    ensures Inv(WaitPart(k, t, s))
  {
    hide QueueInv, SemInv, CpuInv, ThreadsInv;
    if k.sems[s].i > 0 {
      GrantKeeps(k, s, t);
    } else {
      hide WaitPart;
      OwnIdle(k, cpu);
      BlockKeepsThreads(k, t, s);
      FlagsDecideQueues(k, WaitPart(k, t, s));
      PlacesDecideCpus(k, WaitPart(k, t, s));
      JoinsSemaphores(k, t, s);
    }
  }

  lemma TestKeeps(k: Kernel, t: Tid, s: SemId)
    requires Inv(k) && Free(k, s)
    ensures Inv(TestPart(k, t, s))
  {
    if k.sems[s].i > 0 {
      GrantKeeps(k, s, t);
    }
  }

  /** A signal that pops w: the signaller u takes the lock and w leaves the queue. */
  ghost predicate Popped(k: Kernel, u: Tid, s: SemId, w: Tid, k': Kernel) {
    && u in k.threads && k.threads[u].mode.Normal? && Free(k, s)
    && w in k.threads && k.threads[w].mode == Blocking(s)
    && k'.threads.Keys == k.threads.Keys && k'.sems.Keys == k.sems.Keys
    && k'.threads[u].mode == Waking(s, w)
    && (forall v :: v in k.threads && v != u ==> k'.threads[v] == k.threads[v])
    && (forall r :: r in k.sems && r != s ==> k'.sems[r] == k.sems[r])
    && k'.sems[s].lock == Some(u)
    && (forall x :: x in k.sems[s].waiters <==> x == w || x in k'.sems[s].waiters)
    && w !in k'.sems[s].waiters
    && k'.sems[s].woken == k.sems[s].woken + [w] && k'.sems[s].resumed == k.sems[s].resumed
    && CountInv(k'.sems[s])
  }

  lemma SignalPops(k: Kernel, u: Tid, s: SemId)
    requires LogsInv(k) && MembersInv(k) && u in k.threads && k.threads[u].mode.Normal? && Free(k, s) && k.sems[s].i < 0
    requires k.sems[s].mutex ==> u in k.sems[s].holders
    ensures k.sems[s].waiters != [] && Popped(k, u, s, k.sems[s].waiters[0], SignalPart(k, u, s))
  {
    var sem := k.sems[s];
    assert CountInv(sem);
    assert sem.waiters == [sem.waiters[0]] + sem.waiters[1..];
    assert sem.arrived == (sem.woken + [sem.waiters[0]]) + sem.waiters[1..];
    assert sem.waiters[0] in sem.waiters;
  }

  lemma PopKeepsOwners(k: Kernel, u: Tid, s: SemId, w: Tid, k': Kernel)
    requires OwnerInv(k) && Popped(k, u, s, w, k')
    ensures OwnerInv(k')
  {
    hide CountInv;
  }

  lemma PopKeepsTargets(k: Kernel, u: Tid, s: SemId, w: Tid, k': Kernel)
    requires TargetInv(k) && Popped(k, u, s, w, k')
    ensures TargetInv(k')
  {
    hide CountInv;
  }

  lemma PopKeepsFlights(k: Kernel, u: Tid, s: SemId, w: Tid, k': Kernel)
    requires OwnerInv(k) && Popped(k, u, s, w, k')
    ensures forall r :: r in k.sems && r != s ==> InFlight(k', k'.sems[r]) == InFlight(k, k.sems[r])
    ensures InFlight(k, k.sems[s]) == None && InFlight(k', k'.sems[s]) == Some(w)
  {
    hide CountInv;
  }

  lemma PopKeepsLogs(k: Kernel, u: Tid, s: SemId, w: Tid, k': Kernel)
    requires OwnerInv(k) && LogsInv(k) && Popped(k, u, s, w, k')
    ensures LogsInv(k')
  {
    hide CountInv, InFlight, OwnerInv;
    PopKeepsFlights(k, u, s, w, k');
  }

  lemma PopKeepsMembers(k: Kernel, u: Tid, s: SemId, w: Tid, k': Kernel)
    requires MembersInv(k) && Popped(k, u, s, w, k')
    ensures MembersInv(k')
  {
    hide CountInv;
  }

  lemma PopKeepsBlocked(k: Kernel, u: Tid, s: SemId, w: Tid, k': Kernel)
    requires OwnerInv(k) && BlockedInv(k) && Popped(k, u, s, w, k')
    ensures BlockedInv(k')
  {
    hide CountInv, InFlight, OwnerInv;
    PopKeepsFlights(k, u, s, w, k');
  }

  lemma PopKeepsThreads(k: Kernel, u: Tid, s: SemId)
    requires ThreadsInv(k, {}) && u in k.threads && s in k.sems
    requires k.threads[u].mode.Normal? && k.threads[u].on.Some?
    ensures ThreadsInv(SignalPart(k, u, s), {})
    ensures SameFlags(k, SignalPart(k, u, s)) && SamePlaces(k, SignalPart(k, u, s))
  {
  }

  lemma PopKeeps(k: Kernel, cpu: nat, u: Tid, s: SemId)
    requires Inv(k) && RunsNormal(k, cpu, u) && Free(k, s) && k.sems[s].i < 0
    requires k.sems[s].mutex ==> u in k.sems[s].holders
    ensures Inv(SignalPart(k, u, s))
  {
    hide QueueInv, CpuInv, ThreadsInv, OwnerInv, TargetInv, MembersInv, BlockedInv, LogsInv, Popped, SignalPart;
    assert CountInv(k.sems[s]) by { CountsOf(k, s); }
    OwnIdle(k, cpu);
    SignalPops(k, u, s);
    PopKeepsThreads(k, u, s);
    FlagsDecideQueues(k, SignalPart(k, u, s));
    PlacesDecideCpus(k, SignalPart(k, u, s));
    PopKeepsOwners(k, u, s, k.sems[s].waiters[0], SignalPart(k, u, s));
    PopKeepsTargets(k, u, s, k.sems[s].waiters[0], SignalPart(k, u, s));
    PopKeepsLogs(k, u, s, k.sems[s].waiters[0], SignalPart(k, u, s));
    PopKeepsMembers(k, u, s, k.sems[s].waiters[0], SignalPart(k, u, s));
    PopKeepsBlocked(k, u, s, k.sems[s].waiters[0], SignalPart(k, u, s));
  }

  lemma CountsOf(k: Kernel, s: SemId)
    requires LogsInv(k) && s in k.sems
    ensures CountInv(k.sems[s])
  {
  }

  lemma SignalKeeps(k: Kernel, cpu: nat, u: Tid, s: SemId)
    requires Inv(k) && RunsNormal(k, cpu, u) && Free(k, s)
    requires k.sems[s].mutex ==> u in k.sems[s].holders
    ensures Inv(SignalPart(k, u, s))
  {
    hide QueueInv, CpuInv, ThreadsInv, OwnerInv, TargetInv, MembersInv, BlockedInv;
    assert CountInv(k.sems[s]);
    if k.sems[s].i < 0 {
      PopKeeps(k, cpu, u, s);
    } else {
      var sem := k.sems[s];
      CountersKeep(k, s, sem.(i := sem.i + 1, signalled := sem.signalled + 1, holders := sem.holders - multiset{u}));
    }
  }

  // ---------- waking the popped thread ----------

  /** The popped thread w, asleep with its context saved, as the signaller u finds it. */
  predicate FoundAsleep(k: Kernel, w: Tid) {
    && w in k.threads
    && k.threads[w].sleep && k.threads[w].saved && k.threads[w].on.None?
    && !k.threads[w].running && !k.threads[w].queued && !k.threads[w].idle && !k.threads[w].dead
  }

  lemma TargetAsleep(k: Kernel, cpu: nat, u: Tid)
    requires LockInv(k) && ThreadsInv(k, {}) && CanWake(k, cpu, u)
    ensures FoundAsleep(k, k.threads[u].mode.target)
    ensures k.threads[k.threads[u].mode.target].mode == Blocking(k.threads[u].mode.sem)
    ensures k.threads[u].mode.target != u
    ensures k.threads[u].mode.target !in k.sems[k.threads[u].mode.sem].waiters
  {
  }

  /** What a wake-up leaves behind. */
  predicate Woke(k: Kernel, u: Tid, s: SemId, w: Tid, k': Kernel) {
    && u in k.threads && w in k.threads && u != w && s in k.sems
    && k.threads[u].mode == Waking(s, w) && k.threads[w].mode == Blocking(s) && w !in k.sems[s].waiters
    && k'.threads.Keys == k.threads.Keys && k'.sems.Keys == k.sems.Keys && k'.cpus == k.cpus
    && k'.threads[u] == k.threads[u].(mode := Normal)
    && k'.threads[w] == k.threads[w].(sleep := false, mode := Normal, queued := true)
    && (forall v :: v in k.threads && v != u && v != w ==> k'.threads[v] == k.threads[v])
    && (forall r :: r in k.sems && r != s ==> k'.sems[r] == k.sems[r])
    && k'.sems[s] == k.sems[s].(lock := None, resumed := k.sems[s].resumed + [w])
  }

  lemma WakePartWakes(k: Kernel, cpu: nat, u: Tid)
    requires CpuInv(k) && LockInv(k) && ThreadsInv(k, {}) && CanWake(k, cpu, u)
    ensures WakePart(k, cpu, u).0.Queued?
    ensures Woke(k, u, k.threads[u].mode.sem, k.threads[u].mode.target, WakePart(k, cpu, u).1)
  {
    OwnIdle(k, cpu);
    hide CpuInv;
    TargetAsleep(k, cpu, u);
    hide LockInv, ThreadsInv;
  }

  lemma WakePartKeepsQueues(k: Kernel, cpu: nat, u: Tid)
    requires QueueInv(k) && CanWake(k, cpu, u) && FoundAsleep(k, k.threads[u].mode.target)
    ensures QueueInv(WakePart(k, cpu, u).1)
  {
    hide QueueInv;
    var w := k.threads[u].mode.target;
    var awake := k.(threads := k.threads[w := k.threads[w].(sleep := false, mode := Normal)]);
    FlagsDecideQueues(k, awake);
    EnqueueKeepsQueues(awake, cpu, w);
    FlagsDecideQueues(Enqueue(awake, cpu, w), WakePart(k, cpu, u).1);
  }

  lemma WakeKeepsThreads(k: Kernel, u: Tid, s: SemId, w: Tid, k': Kernel)
    requires ThreadsInv(k, {}) && Woke(k, u, s, w, k') && FoundAsleep(k, w)
    ensures ThreadsInv(k', {}) && SamePlaces(k, k')
  {
  }

  lemma WakeKeepsOwners(k: Kernel, u: Tid, s: SemId, w: Tid, k': Kernel)
    requires OwnerInv(k) && Woke(k, u, s, w, k')
    ensures OwnerInv(k')
    ensures forall v :: v in k.threads && v != u && k.threads[v].mode.Waking? ==> k.threads[v].mode.sem != s
  {
  }

  lemma WakeKeepsTargets(k: Kernel, u: Tid, s: SemId, w: Tid, k': Kernel)
    requires TargetInv(k) && Woke(k, u, s, w, k')
    requires forall v :: v in k.threads && v != u && k.threads[v].mode.Waking? ==> k.threads[v].mode.sem != s
    ensures TargetInv(k')
  {
    assert forall v :: v in k'.threads && k'.threads[v].mode.Waking? ==> v != u && v != w;
  }

  lemma WakeKeepsFlights(k: Kernel, u: Tid, s: SemId, w: Tid, k': Kernel)
    requires OwnerInv(k) && Woke(k, u, s, w, k')
    ensures forall r :: r in k.sems && r != s ==> InFlight(k', k'.sems[r]) == InFlight(k, k.sems[r])
    ensures InFlight(k, k.sems[s]) == Some(w) && InFlight(k', k'.sems[s]) == None
  {
    forall r | r in k.sems && r != s ensures InFlight(k', k'.sems[r]) == InFlight(k, k.sems[r]) {
      if k.sems[r].lock.Some? {
        var v := k.sems[r].lock.value;
        assert v in k.threads && v != u && v != w;
      }
    }
  }

  lemma WakeKeepsLogs(k: Kernel, u: Tid, s: SemId, w: Tid, k': Kernel)
    requires OwnerInv(k) && LogsInv(k) && Woke(k, u, s, w, k')
    ensures LogsInv(k')
  {
    hide InFlight, OwnerInv;
    WakeKeepsFlights(k, u, s, w, k');
    assert CountInv(k.sems[s]) && CountInv(k'.sems[s]);
    hide CountInv;
  }

  lemma WakeKeepsMembers(k: Kernel, u: Tid, s: SemId, w: Tid, k': Kernel)
    requires MembersInv(k) && Woke(k, u, s, w, k')
    ensures MembersInv(k')
  {
  }

  lemma WakeKeepsBlocked(k: Kernel, u: Tid, s: SemId, w: Tid, k': Kernel)
    requires OwnerInv(k) && BlockedInv(k) && Woke(k, u, s, w, k')
    ensures BlockedInv(k')
  {
    hide InFlight, OwnerInv;
    WakeKeepsFlights(k, u, s, w, k');
  }

  lemma WakeKeeps(k: Kernel, cpu: nat, u: Tid)
    requires Inv(k) && CanWake(k, cpu, u)
    ensures Inv(WakePart(k, cpu, u).1)
  {
    hide QueueInv, CpuInv, ThreadsInv, OwnerInv, TargetInv, LogsInv, MembersInv, BlockedInv, WakePart, Woke;
    var s, w, k' := k.threads[u].mode.sem, k.threads[u].mode.target, WakePart(k, cpu, u).1;
    TargetAsleep(k, cpu, u);
    WakePartWakes(k, cpu, u);
    WakePartKeepsQueues(k, cpu, u);
    WakeKeepsThreads(k, u, s, w, k');
    PlacesDecideCpus(k, k');
    WakeKeepsOwners(k, u, s, w, k');
    WakeKeepsTargets(k, u, s, w, k');
    WakeKeepsLogs(k, u, s, w, k');
    WakeKeepsMembers(k, u, s, w, k');
    WakeKeepsBlocked(k, u, s, w, k');
  }

  // ---------- every step, every run ----------

  lemma StepKeeps(k: Kernel, step: Step)
    requires Inv(k) && Enabled(k, step) && |k.queue| == RUN_QUEUE_COUNT
    ensures Inv(Apply(k, step))
  {
    hide QueueInv, CpuInv, ThreadsInv, SemInv;
    match step
    case Wait(cpu, t, s) => WaitKeeps(k, cpu, t, s);
    case Test(cpu, t, s) => TestKeeps(k, t, s);
    case Signal(cpu, t, s) => SignalKeeps(k, cpu, t, s);
    case Wake(cpu, t) => WakeKeeps(k, cpu, t);
    case Yield(cpu, t) => YieldKeeps(k, cpu, t);
    case Preempt(cpu, t) => PreemptKeeps(k, cpu, t);
    case Pin(cpu, t, pin) => PinKeeps(k, t, pin);
    case Spawn(cpu, t, child, priority) => SpawnKeeps(k, cpu, child, priority);
    case Exit(cpu, t) => ExitKeeps(k, cpu, t);
    case Boot(cpu) => StopKeeps(k, cpu);
  }

  /** Every state of every run satisfies the invariant. */
  lemma {:induction false} RunKeeps(ks: seq<Kernel>, steps: seq<Step>, n: nat)
    requires Run(ks, steps) && n < |ks|
    ensures Inv(ks[n])
  {
    hide Inv, Init, Apply, Enabled;
    if n == 0 {
      InitInv(ks[0]);
    } else {
      RunKeeps(ks, steps, n - 1);
      StepKeeps(ks[n - 1], steps[n - 1]);
    }
  }
}
