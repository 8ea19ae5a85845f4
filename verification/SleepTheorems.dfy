/** What the sleep and wake-up protocol guarantees in every state of every run. */
module SleepTheorems {
  import opened Options
  import opened SchedulerState
  import opened SleepProtocol
  import opened SleepInvariant

  // ---------- no lost and no doubled wake-up ----------

  /** The thread stands in the run queues at one place only. */
  ghost predicate QueuedOnce(k: Kernel, t: Tid) {
    exists p, j :: 0 <= p < |k.queue| && 0 <= j < |k.queue[p]| && k.queue[p][j] == t
      && forall p', j' :: 0 <= p' < |k.queue| && 0 <= j' < |k.queue[p']| && k.queue[p'][j'] == t ==> p' == p && j' == j
  }

  lemma QueuedMeansOnce(k: Kernel, t: Tid)
    requires QueueInv(k) && t in k.threads
    ensures k.threads[t].queued <==> QueuedOnce(k, t)
    ensures !k.threads[t].queued <==> forall p :: 0 <= p < |k.queue| ==> t !in k.queue[p]
  {
    if k.threads[t].queued {
      var p := k.threads[t].priority;
      var j :| 0 <= j < |k.queue[p]| && k.queue[p][j] == t;
      forall p', j' | 0 <= p' < |k.queue| && 0 <= j' < |k.queue[p']| && k.queue[p'][j'] == t
        ensures p' == p && j' == j
      {
        assert t in k.queue[p'];
      }
    }
  }

  /**
   A signaller that gets the sleep lock of the thread it popped finds it asleep, its context saved,
   on no CPU and on no run queue; it puts it at the end of the queue of its priority, where it then
   stands once.  The "existing thread" branch is not taken.
   */
  lemma WakeupFindsSleeper(ks: seq<Kernel>, steps: seq<Step>, n: nat, cpu: nat, u: Tid)
    requires Run(ks, steps) && n < |ks| && CanWake(ks[n], cpu, u)
    ensures var k := ks[n];
      var w := k.threads[u].mode.target;
      var (result, k') := WakePart(k, cpu, u);
      && FoundAsleep(k, w) && !QueuedOnce(k, w)
      && result == Queued
      && QueuedOnce(k', w)
      && k'.queue == k.queue[k.threads[w].priority := k.queue[k.threads[w].priority] + [w]]
  {
    RunKeeps(ks, steps, n);
    var k := ks[n];
    TargetAsleep(k, cpu, u);
    WakePartWakes(k, cpu, u);
    WakePartKeepsQueues(k, cpu, u);
    QueuedMeansOnce(k, k.threads[u].mode.target);
    hide QueueInv, ThreadsInv, SemInv;
    OwnIdle(k, cpu);
    hide CpuInv;
    QueuedMeansOnce(WakePart(k, cpu, u).1, k.threads[u].mode.target);
  }

  /** A thread about to block never has to wait for its own sleep lock. */
  lemma PrepareNeverSpins(ks: seq<Kernel>, steps: seq<Step>, n: nat, cpu: nat, t: Tid)
    requires Run(ks, steps) && n < |ks| && RunsNormal(ks[n], cpu, t)
    ensures !ks[n].threads[t].sleepLock
  {
    RunKeeps(ks, steps, n);
    AllCalm(ks[n], t);
  }

  /**
   When the signaller does have to wait for the sleep lock, the popped thread is still on another CPU,
   on its way to `yield`; that yield can always be taken, and after it the signaller can go on.
   */
  lemma {:induction false} HandoffCompletes(ks: seq<Kernel>, steps: seq<Step>, n: nat, cpu: nat, u: Tid)
    returns (other: nat)
    requires Run(ks, steps) && n < |ks| && Runs(ks[n], cpu, u) && ks[n].threads[u].mode.Waking?
    requires ks[n].threads[u].mode.target in ks[n].threads ==> ks[n].threads[ks[n].threads[u].mode.target].sleepLock
    ensures ks[n].threads[u].mode.target in ks[n].threads
    ensures other != cpu && Enabled(ks[n], Yield(other, ks[n].threads[u].mode.target))
    ensures CanWake(YieldPass(ks[n], other), cpu, u)
  {
    RunKeeps(ks, steps, n);
    other := TargetElsewhere(ks[n], cpu, u);
    SleeperLetsGo(ks[n], cpu, u, other);
  }

  lemma TargetElsewhere(k: Kernel, cpu: nat, u: Tid) returns (other: nat)
    requires Inv(k) && Runs(k, cpu, u) && k.threads[u].mode.Waking?
    requires k.threads[u].mode.target in k.threads ==> k.threads[k.threads[u].mode.target].sleepLock
    ensures other != cpu && k.threads[u].mode.target in k.threads && k.threads[u].mode.target != u
    ensures Runs(k, other, k.threads[u].mode.target) && k.threads[k.threads[u].mode.target].sleep
    ensures k.threads[u].mode.sem in k.sems && !k.threads[u].queued && !k.threads[u].sleep
  {
    var w := k.threads[u].mode.target;
    assert w in k.threads && k.threads[w].mode.Blocking? && k.threads[u].mode.sem in k.sems by {
      hide QueueInv, CpuInv, ThreadsInv;
    }
    hide SemInv;
    AllCalm(k, w);
    AllCalm(k, u);
    hide ThreadsInv;
    other := k.threads[w].on.value;
    OwnIdle(k, cpu);
    assert k.threads[w].priority < |k.queue| by { hide CpuInv; }
  }

  lemma SleepPassEffect(k: Kernel, w: Tid, other: nat, n: Tid, u: Tid)
    requires other < |k.cpus| && k.cpus[other].current == Some(w)
    requires w in k.threads && n in k.threads && u in k.threads && u != w && u != n && w != n && k.threads[w].sleep
    ensures var k' := Switch(Suspend(k, w), other, n);
      && k'.threads.Keys == k.threads.Keys && k'.threads[u] == k.threads[u]
      && !k'.threads[w].sleepLock && k'.threads[w].priority == k.threads[w].priority
      && k'.queue == k.queue && k'.sems == k.sems
      && k'.cpus == k.cpus[other := k.cpus[other].(current := Some(n))]
  {
  }

  lemma SleeperLetsGo(k: Kernel, cpu: nat, u: Tid, other: nat)
    requires Inv(k) && Runs(k, cpu, u) && k.threads[u].mode.Waking? && other != cpu && k.threads[u].mode.sem in k.sems
    requires k.threads[u].mode.target in k.threads && k.threads[u].mode.target != u && !k.threads[u].queued
    requires Runs(k, other, k.threads[u].mode.target) && k.threads[k.threads[u].mode.target].sleep
    ensures CanWake(YieldPass(k, other), cpu, u)
  {
    hide DequeueNext, QueueInv, SemInv, ThreadsInv, Switch, Suspend, CpuInv;
    var w := k.threads[u].mode.target;
    var (next, k1) := DequeueNext(k, other, ANY_PRIORITY);
    DequeueTakes(k, other, ANY_PRIORITY);
    AsManyQueues(k, other);
    AllCalm(k, w);
    AllCalm(k, u);
    OwnIdle(k, other);
    OwnIdle(k, cpu);
    NextIsReady(k, other, next, k1);
    SleepPassEffect(k1, w, other, OrIdle(k, other, next), u);
  }

  lemma AsManyQueues(k: Kernel, cpu: nat)
    requires QueueInv(k)
    ensures |DequeueNext(k, cpu, ANY_PRIORITY).1.queue| == |k.queue|
  {
    DequeueTakes(k, cpu, ANY_PRIORITY);
  }

  // ---------- every thread is in one place ----------

  /** A blocked thread that is neither waiting nor being woken would sleep for ever; there is none. */
  lemma NoThreadLost(ks: seq<Kernel>, steps: seq<Step>, n: nat, t: Tid)
    requires Run(ks, steps) && n < |ks| && t in ks[n].threads
    ensures var th := ks[n].threads[t];
      && (th.on.Some? || th.queued || th.sleep || th.idle || th.dead)
      && !(th.queued && th.running) && !(th.queued && th.on.Some?) && !(th.queued && th.sleep)
      && (th.sleep ==>
            && th.mode.Blocking? && th.mode.sem in ks[n].sems
            && (t in ks[n].sems[th.mode.sem].waiters <==> InFlight(ks[n], ks[n].sems[th.mode.sem]) != Some(t)))
  {
    RunKeeps(ks, steps, n);
    var k := ks[n];
    AllCalm(k, t);
    hide QueueInv, CpuInv, ThreadsInv;
    if k.threads[t].sleep {
      var sem := k.sems[k.threads[t].mode.sem];
      if InFlight(k, sem) == Some(t) {
        assert t !in sem.waiters by { hide LogsInv, MembersInv, BlockedInv; }
      }
    }
  }

  /** One CPU, one thread: no thread is current on two CPUs, and a current thread is on no run queue. */
  lemma OneCpuPerThread(ks: seq<Kernel>, steps: seq<Step>, n: nat, c: nat, d: nat)
    requires Run(ks, steps) && n < |ks| && c < |ks[n].cpus| && d < |ks[n].cpus|
    requires ks[n].cpus[c].current.Some? && ks[n].cpus[c].current == ks[n].cpus[d].current
    ensures c == d
    ensures ks[n].cpus[c].current.value in ks[n].threads && !QueuedOnce(ks[n], ks[n].cpus[c].current.value)
  {
    RunKeeps(ks, steps, n);
    OwnIdle(ks[n], c);
    var t := ks[n].cpus[c].current.value;
    assert c == d && t in ks[n].threads by { hide QueueInv, ThreadsInv, SemInv; }
    AllCalm(ks[n], t);
    QueuedMeansOnce(ks[n], t);
  }

  // ---------- the run queues ----------

  /** Bitmap bit p is set exactly when queue p is not empty, and QUEUED exactly when a thread is queued, once. */
  lemma RunQueuesExact(ks: seq<Kernel>, steps: seq<Step>, n: nat)
    requires Run(ks, steps) && n < |ks|
    ensures |ks[n].queue| == RUN_QUEUE_COUNT
    ensures forall p :: p in ks[n].bitmap <==> 0 <= p < RUN_QUEUE_COUNT && ks[n].queue[p] != []
    ensures forall t :: t in ks[n].threads ==> (ks[n].threads[t].queued <==> QueuedOnce(ks[n], t))
    ensures forall p, t :: 0 <= p < RUN_QUEUE_COUNT && t in ks[n].queue[p] ==>
              t in ks[n].threads && ks[n].threads[t].priority == p
  {
    RunKeeps(ks, steps, n);
    hide CpuInv, ThreadsInv, SemInv;
    forall t | t in ks[n].threads ensures ks[n].threads[t].queued <==> QueuedOnce(ks[n], t) {
      QueuedMeansOnce(ks[n], t);
    }
  }

  // ---------- who gets the CPU ----------

  /** Place j of queue p: the earliest thread that may run on the CPU, in the best of the first `bound` queues. */
  ghost predicate FirstToRun(k: Kernel, cpu: nat, bound: nat, p: nat, j: nat) {
    && p < bound && p < |k.queue| && j < |k.queue[p]| && Eligible(k.threads, k.queue[p][j], cpu)
    && (forall m :: 0 <= m < j ==> !Eligible(k.threads, k.queue[p][m], cpu))
    && forall r, u :: 0 <= r < p && u in k.queue[r] ==> !Eligible(k.threads, u, cpu)
  }

  /** No thread in the first `bound` queues may run on the CPU. */
  ghost predicate NobodyToRun(k: Kernel, cpu: nat, bound: nat) {
    forall p, u :: 0 <= p < |k.queue| && p < bound && u in k.queue[p] ==> !Eligible(k.threads, u, cpu)
  }

  /** The queues without place j of queue p, and with `back`, if any, behind everyone in its own queue. */
  function Requeued(k: Kernel, p: nat, j: nat, back: Option<Tid>): seq<seq<Tid>>
    requires p < |k.queue| && j < |k.queue[p]|
    requires back.Some? ==> back.value in k.threads && k.threads[back.value].priority < |k.queue|
  {
    var rest := k.queue[p := k.queue[p][..j] + k.queue[p][j + 1..]];
    match back
    case None => rest
    case Some(t) => var own := k.threads[t].priority; rest[own := rest[own] + [t]]
  }

  /**
   What a pass does with the CPU.  The first thread to run of the first `bound` queues gets it, and `back` goes to
   the end of its queue; with nobody to run `otherwise` gets it.  No other queue and no other CPU changes.
   */
  ghost predicate Dispatched(k: Kernel, k': Kernel, cpu: nat, bound: nat, back: Option<Tid>, otherwise: Tid)
    requires cpu < |k.cpus|
    requires back.Some? ==> back.value in k.threads && k.threads[back.value].priority < |k.queue|
  {
    if NobodyToRun(k, cpu, bound) then
      k'.queue == k.queue && k'.cpus == k.cpus[cpu := Cpu(Some(otherwise), k.cpus[cpu].idle)]
    else
      exists p: nat, j: nat :: FirstToRun(k, cpu, bound, p, j)
        && k'.queue == Requeued(k, p, j, back)
        && k'.cpus == k.cpus[cpu := Cpu(Some(k.queue[p][j]), k.cpus[cpu].idle)]
  }

  predicate Gets(k: Kernel, cpu: nat, t: Tid) {
    cpu < |k.cpus| && k.cpus[cpu].current == Some(t)
  }

  lemma NobodyMeans(k: Kernel, cpu: nat, limit: int, bound: nat)
    requires QueueInv(k) && (bound == limit + 1 || (bound == RUN_QUEUE_COUNT && limit == ANY_PRIORITY))
    ensures DequeueNext(k, cpu, limit).0.None? ==> NobodyToRun(k, cpu, bound)
  {
    if DequeueNext(k, cpu, limit).0.None? {
      forall r, t | 0 <= r < |k.queue| && r < bound && t in k.queue[r] ensures !Eligible(k.threads, t, cpu) {
        assert r in k.bitmap;
        var m :| 0 <= m < |k.queue[r]| && k.queue[r][m] == t;
        assert !HasEligible(k.queue[r], k.threads, cpu);
      }
    }
  }

  lemma BestIsFirst(k: Kernel, cpu: nat, limit: int, bound: nat) returns (p: nat, j: nat)
    requires QueueInv(k) && (bound == limit + 1 || (bound == RUN_QUEUE_COUNT && limit == ANY_PRIORITY))
    requires DequeueNext(k, cpu, limit).0.Some?
    ensures FirstToRun(k, cpu, bound, p, j) && p < |k.queue| && j < |k.queue[p]|
    ensures DequeueNext(k, cpu, limit) == (Some(k.queue[p][j]), TakeAt(k, p, j))
  {
    p := BestQueue(k.queue, k.threads, cpu, limit, 0);
    j := FirstEligible(k.queue[p], k.threads, cpu);
    forall r, u | 0 <= r < p && u in k.queue[r] ensures !Eligible(k.threads, u, cpu) {
      var m :| 0 <= m < |k.queue[r]| && k.queue[r][m] == u;
      assert !HasEligible(k.queue[r], k.threads, cpu);
    }
  }

  /**
   The dequeued thread is the first to run of the queues within the limit, and the others keep their order.
   Nothing is returned exactly when nobody there may run.
   */
  lemma DequeuesBest(k: Kernel, cpu: nat, limit: int, bound: nat) returns (p: nat, j: nat)
    requires QueueInv(k) && (bound == limit + 1 || (bound == RUN_QUEUE_COUNT && limit == ANY_PRIORITY))
    ensures var (next, k') := DequeueNext(k, cpu, limit);
      && (next.None? <==> NobodyToRun(k, cpu, bound)) && (next.None? ==> k' == k)
      && (next.Some? ==>
            && FirstToRun(k, cpu, bound, p, j) && next.value == k.queue[p][j] && next.value in k.threads
            && k.threads[next.value].queued && k'.cpus == k.cpus && k'.sems == k.sems
            && k'.queue == k.queue[p := k.queue[p][..j] + k.queue[p][j + 1..]]
            && k'.threads == k.threads[next.value := k.threads[next.value].(queued := false)])
  {
    p, j := 0, 0;
    if DequeueNext(k, cpu, limit).0.None? {
      NobodyMeans(k, cpu, limit, bound);
    } else {
      p, j := BestIsFirst(k, cpu, limit, bound);
      assert k.queue[p][j] in k.queue[p];
    }
  }

  /** The threads a pass deals with are different ones: the current one, the idle one and a queued one. */
  lemma PassThreads(k: Kernel, cpu: nat)
    requires Inv(k) && CpuOk(k, cpu)
    ensures k.threads[k.cpus[cpu].idle].idle && |k.queue| == RUN_QUEUE_COUNT
    ensures forall n :: n in k.threads && k.threads[n].queued ==> k.cpus[cpu].current != Some(n) && !k.threads[n].idle
    ensures forall t :: k.cpus[cpu].current == Some(t) ==>
              (k.threads[t].idle <==> k.cpus[cpu].idle == t) && (k.threads[t].sleep ==> !k.threads[t].idle)
  {
    OwnIdle(k, cpu);
  }

  /**
   A sleeper's yield gives the CPU to the first thread to run of all queues, and to the idle thread exactly when
   there is none.
   */
  lemma SleeperYields(k: Kernel, cpu: nat, t: Tid)
    requires Inv(k) && Runs(k, cpu, t) && k.threads[t].sleep
    ensures var k' := YieldPass(k, cpu);
      && Dispatched(k, k', cpu, RUN_QUEUE_COUNT, None, k.cpus[cpu].idle)
      && (Gets(k', cpu, k.cpus[cpu].idle) <==> NobodyToRun(k, cpu, RUN_QUEUE_COUNT))
  {
    hide QueueInv, CpuInv, ThreadsInv, SemInv, DequeueNext, FirstToRun, NobodyToRun, Eligible;
    PassThreads(k, cpu);
    var p, j := DequeuesBest(k, cpu, ANY_PRIORITY, RUN_QUEUE_COUNT);
  }

  /**
   A thread that is awake keeps the CPU exactly when nobody may run in the queues up to its own priority; else the
   first thread to run there gets it, and the thread goes behind everyone in its own queue.
   */
  lemma AwakeYields(k: Kernel, cpu: nat, t: Tid)
    requires Inv(k) && Runs(k, cpu, t) && !k.threads[t].sleep
    ensures var k' := YieldPass(k, cpu);
      var th := k.threads[t];
      && Dispatched(k, k', cpu, th.priority + 1, if th.idle then None else Some(t), t)
      && (Gets(k', cpu, t) <==> NobodyToRun(k, cpu, th.priority + 1))
      && (NobodyToRun(k, cpu, th.priority + 1) ==> k' == k)
  {
    hide QueueInv, CpuInv, ThreadsInv, SemInv, DequeueNext, FirstToRun, NobodyToRun, Eligible;
    PassThreads(k, cpu);
    var p, j := DequeuesBest(k, cpu, k.threads[t].priority, k.threads[t].priority + 1);
  }

  /** The same for a preempted thread. */
  lemma PreemptChooses(k: Kernel, cpu: nat, t: Tid)
    requires Inv(k) && RunsNormal(k, cpu, t)
    ensures var k' := PreemptPass(k, cpu);
      var th := k.threads[t];
      && Dispatched(k, k', cpu, th.priority + 1, if th.idle then None else Some(t), t)
      && (Gets(k', cpu, t) <==> NobodyToRun(k, cpu, th.priority + 1))
  {
    hide QueueInv, CpuInv, ThreadsInv, SemInv, DequeueNext, FirstToRun, NobodyToRun, Eligible;
    PassThreads(k, cpu);
    var p, j := DequeuesBest(k, cpu, k.threads[t].priority, k.threads[t].priority + 1);
  }

  /** A CPU without a thread takes the first thread to run of all queues, its idle thread exactly when there is none. */
  lemma StopChooses(k: Kernel, cpu: nat)
    requires Inv(k) && CpuOk(k, cpu) && k.cpus[cpu].current.None?
    ensures var k' := StopPass(k, cpu);
      && Dispatched(k, k', cpu, RUN_QUEUE_COUNT, None, k.cpus[cpu].idle)
      && (Gets(k', cpu, k.cpus[cpu].idle) <==> NobodyToRun(k, cpu, RUN_QUEUE_COUNT))
  {
    hide QueueInv, CpuInv, ThreadsInv, SemInv, DequeueNext, FirstToRun, NobodyToRun, Eligible;
    PassThreads(k, cpu);
    var p, j := DequeuesBest(k, cpu, ANY_PRIORITY, RUN_QUEUE_COUNT);
  }

  /** Marking the thread dead and taking it off its CPU changes nothing for the choice. */
  lemma AbandonSame(k: Kernel, k1: Kernel, k': Kernel, cpu: nat, idle: Tid)
    requires cpu < |k.cpus| && k1.queue == k.queue && k1.cpus == k.cpus[cpu := Cpu(None, k.cpus[cpu].idle)]
    requires forall u :: Eligible(k1.threads, u, cpu) <==> Eligible(k.threads, u, cpu)
    requires Dispatched(k1, k', cpu, RUN_QUEUE_COUNT, None, idle)
    ensures NobodyToRun(k1, cpu, RUN_QUEUE_COUNT) <==> NobodyToRun(k, cpu, RUN_QUEUE_COUNT)
    ensures Dispatched(k, k', cpu, RUN_QUEUE_COUNT, None, idle)
  {
    hide Eligible;
    assert NobodyToRun(k1, cpu, RUN_QUEUE_COUNT) <==> NobodyToRun(k, cpu, RUN_QUEUE_COUNT);
    if !NobodyToRun(k, cpu, RUN_QUEUE_COUNT) {
      hide NobodyToRun;
      var p: nat, j: nat :| FirstToRun(k1, cpu, RUN_QUEUE_COUNT, p, j)
        && k'.queue == Requeued(k1, p, j, None)
        && k'.cpus == k1.cpus[cpu := Cpu(Some(k1.queue[p][j]), k1.cpus[cpu].idle)];
      assert FirstToRun(k, cpu, RUN_QUEUE_COUNT, p, j);
    }
  }

  lemma StaysDead(k: Kernel, cpu: nat, t: Tid)
    requires QueueInv(k) && CpuOk(k, cpu) && k.cpus[cpu].current.None? && t in k.threads
    requires !k.threads[t].queued && k.threads[t].on.None? && t != k.cpus[cpu].idle
    ensures var k' := StopPass(k, cpu); t in k'.threads && k'.threads[t] == k.threads[t]
  {
    DequeueTakes(k, cpu, ANY_PRIORITY);
    hide QueueInv, DequeueNext;
  }

  /** An exiting thread leaves its CPU to the first thread to run of all queues, and comes back to none. */
  lemma ExitChooses(k: Kernel, cpu: nat, t: Tid)
    requires Inv(k) && RunsNormal(k, cpu, t) && !k.threads[t].idle
    ensures var k' := StopPass(Abandon(k, cpu), cpu);
      && Dispatched(k, k', cpu, RUN_QUEUE_COUNT, None, k.cpus[cpu].idle)
      && (Gets(k', cpu, k.cpus[cpu].idle) <==> NobodyToRun(k, cpu, RUN_QUEUE_COUNT))
      && t in k'.threads && k'.threads[t].dead && k'.threads[t].on.None?
  {
    hide QueueInv, CpuInv, ThreadsInv, SemInv, DequeueNext, StopPass, Dispatched, NobodyToRun;
    ExitKeeps(k, cpu, t);
    OwnIdle(k, cpu);
    AllCalm(k, t);
    var k1 := Abandon(k, cpu);
    StopChooses(k1, cpu);
    AbandonSame(k, k1, StopPass(k1, cpu), cpu, k.cpus[cpu].idle);
    StaysDead(k1, cpu, t);
  }

  /** A new thread stands behind everyone of its priority, and nothing else changes in the queues. */
  lemma SpawnQueues(k: Kernel, cpu: nat, t: Tid, child: Tid, priority: nat)
    requires Inv(k) && Enabled(k, Spawn(cpu, t, child, priority))
    ensures var k' := Apply(k, Spawn(cpu, t, child, priority));
      k'.queue == k.queue[priority := k.queue[priority] + [child]] && k'.cpus == k.cpus
  {
    hide QueueInv, ThreadsInv, SemInv;
    OwnIdle(k, cpu);
  }

  // ---------- the semaphores ----------

  /** What a step does to a counter: a wait and a test that finds a unit take one, a signal gives one. */
  function Change(k: Kernel, step: Step, s: SemId): int {
    match step
    case Wait(_, _, r) => if r == s then -1 else 0
    case Test(_, _, r) => if r == s && s in k.sems && k.sems[s].i > 0 then -1 else 0
    case Signal(_, _, r) => if r == s then 1 else 0
    case _ => 0
  }

  /** The thread whose wait finds no unit. */
  function Blocks(k: Kernel, step: Step, s: SemId): seq<Tid> {
    match step
    case Wait(_, t, r) => if r == s && s in k.sems && k.sems[s].i <= 0 then [t] else []
    case _ => []
  }

  ghost function Balance(ks: seq<Kernel>, steps: seq<Step>, s: SemId): int
    requires |ks| >= |steps|
  {
    if steps == [] then 0 else Balance(ks, steps[..|steps| - 1], s) + Change(ks[|steps| - 1], steps[|steps| - 1], s)
  }

  ghost function Blocked(ks: seq<Kernel>, steps: seq<Step>, s: SemId): seq<Tid>
    requires |ks| >= |steps|
  {
    if steps == [] then [] else Blocked(ks, steps[..|steps| - 1], s) + Blocks(ks[|steps| - 1], steps[|steps| - 1], s)
  }

  lemma PassKeepsCounts(k: Kernel, step: Step)
    requires Inv(k) && Enabled(k, step) && (step.Yield? || step.Preempt? || step.Exit? || step.Boot?)
    ensures Apply(k, step).sems == k.sems
  {
    hide QueueInv, CpuInv, ThreadsInv, SemInv, DequeueNext;
    match step
    case Yield(cpu, t) =>
      DequeueTakes(k, cpu, ANY_PRIORITY);
      DequeueTakes(k, cpu, k.threads[t].priority);
    case Preempt(cpu, t) => DequeueTakes(k, cpu, k.threads[t].priority);
    case Exit(cpu, t) =>
      ExitKeeps(k, cpu, t);
      DequeueTakes(Abandon(k, cpu), cpu, ANY_PRIORITY);
    case Boot(cpu) => DequeueTakes(k, cpu, ANY_PRIORITY);
  }

  lemma StepCounts(k: Kernel, step: Step, s: SemId)
    requires Inv(k) && Enabled(k, step) && s in k.sems
    ensures var k' := Apply(k, step);
      && s in k'.sems && k'.sems[s].init == k.sems[s].init
      && k'.sems[s].i == k.sems[s].i + Change(k, step, s)
      && k'.sems[s].arrived == k.sems[s].arrived + Blocks(k, step, s)
  {
    hide QueueInv, CpuInv, ThreadsInv, SemInv, YieldPass, PreemptPass, StopPass;
    if step.Yield? || step.Preempt? || step.Exit? || step.Boot? {
      PassKeepsCounts(k, step);
    }
  }

  lemma StartCounts(k: Kernel, s: SemId)
    requires Init(k) && s in k.sems
    ensures k.sems[s].i == k.sems[s].init && k.sems[s].arrived == []
  {
  }

  /** In every run the counter is what the steps so far make it, and those logged as blocked are those that were. */
  lemma {:induction false} CounterExact(ks: seq<Kernel>, steps: seq<Step>, n: nat, s: SemId)
    requires Run(ks, steps) && n < |ks| && s in ks[0].sems
    ensures s in ks[n].sems && ks[n].sems[s].init == ks[0].sems[s].init
    ensures ks[n].sems[s].i == ks[0].sems[s].init + Balance(ks, steps[..n], s)
    ensures ks[n].sems[s].arrived == Blocked(ks, steps[..n], s)
  {
    hide Init, Inv, Apply, Enabled, Change, Blocks;
    if n == 0 {
      StartCounts(ks[0], s);
    } else {
      CounterExact(ks, steps, n - 1, s);
      RunKeeps(ks, steps, n - 1);
      StepCounts(ks[n - 1], steps[n - 1], s);
      assert steps[..n][..n - 1] == steps[..n - 1] && steps[..n][n - 1] == steps[n - 1];
    }
  }

  /**
   The number of waiters is what the counter is below zero; units are conserved; waiters are granted and
   put back on a run queue in the order they arrived.
   */
  lemma SemaphoreExact(ks: seq<Kernel>, steps: seq<Step>, n: nat, s: SemId)
    requires Run(ks, steps) && n < |ks| && s in ks[n].sems
    ensures var sem := ks[n].sems[s];
      && |sem.waiters| == (if sem.i < 0 then -sem.i else 0)
      && sem.granted - sem.signalled == sem.init - (if sem.i < 0 then 0 else sem.i)
      && sem.arrived == sem.woken + sem.waiters
      && (sem.lock.None? ==> sem.resumed == sem.woken)
      && (sem.lock.Some? ==> |sem.woken| > 0 && sem.resumed == sem.woken[..|sem.woken| - 1])
  {
    RunKeeps(ks, steps, n);
    var k := ks[n];
    hide QueueInv, CpuInv, ThreadsInv, MembersInv, BlockedInv, TargetInv;
    var sem := k.sems[s];
    assert CountInv(sem) && LogInv(sem, InFlight(k, sem));
    hide LogsInv;
    assert sem.lock.Some? <==> InFlight(k, sem).Some?;
  }

  /** A unit is handed out on the spot, by a wait or by a test, only when nobody is waiting. */
  lemma NoOvertaking(ks: seq<Kernel>, steps: seq<Step>, n: nat, s: SemId)
    requires Run(ks, steps) && n < |steps| && (steps[n].Wait? || steps[n].Test?) && steps[n].sem == s
    ensures s in ks[n].sems && s in ks[n + 1].sems
    ensures ks[n + 1].sems[s].granted != ks[n].sems[s].granted ==> ks[n].sems[s].waiters == []
    ensures ks[n + 1].sems[s].woken == ks[n].sems[s].woken
  {
    SemaphoreExact(ks, steps, n, s);
  }

  /** A mutex never has two holders. */
  lemma MutexHasOneHolder(ks: seq<Kernel>, steps: seq<Step>, n: nat, s: SemId)
    requires Run(ks, steps) && n < |ks| && s in ks[n].sems && ks[n].sems[s].mutex
    ensures |ks[n].sems[s].holders| <= 1
    ensures ks[n].sems[s].i == 1 <==> ks[n].sems[s].holders == multiset{}
  {
    RunKeeps(ks, steps, n);
    assert CountInv(ks[n].sems[s]);
  }

  lemma Counted(k: Kernel, s: SemId)
    requires Inv(k) && s in k.sems
    ensures CountInv(k.sems[s])
  {
  }

  /** A mutex goes to the thread whose wait or test finds it free, and from its holder to the longest waiter. */
  lemma MutexGoesTo(ks: seq<Kernel>, steps: seq<Step>, n: nat, s: SemId)
    requires Run(ks, steps) && n < |steps| && (steps[n].Wait? || steps[n].Test? || steps[n].Signal?)
    requires steps[n].sem == s
    requires s in ks[n].sems && ks[n].sems[s].mutex
    ensures s in ks[n + 1].sems
    ensures var sem, sem' := ks[n].sems[s], ks[n + 1].sems[s];
      if !steps[n].Signal? then sem'.holders == if sem.i == 1 then multiset{steps[n].t} else sem.holders
      else
        && sem.holders == multiset{steps[n].t}
        && sem'.holders == if sem.waiters == [] then multiset{} else multiset{sem.waiters[0]}
  {
    hide Inv, Init, YieldPass, PreemptPass, StopPass, WakePart;
    MutexHasOneHolder(ks, steps, n, s);
    RunKeeps(ks, steps, n);
    Counted(ks[n], s);
    var h, t := ks[n].sems[s].holders, steps[n].t;
    assert t in h ==> h == multiset{t} + (h - multiset{t}) && |h - multiset{t}| == 0;
  }
}
