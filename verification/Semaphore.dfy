/**
 The multi-CPU step system: uninterruptible `semaphore_wait`, `semaphore_test`, `semaphore_signal`,
 voluntary yields, preemption, thread creation, pinning and exit, interleaved in any order.
 A semaphore's spinlock is held across two steps only inside `semaphore_signal`, from popping a
 waiter until that waiter's own sleep lock could be taken.
 */
module SleepProtocol {
  import opened Options
  import opened SchedulerState

  // ---------- kernel/sys/semaphore.c ----------

  /** The current thread of the CPU, when it is in the given control point. */
  predicate Runs(k: Kernel, cpu: nat, t: Tid) {
    && cpu < |k.cpus| && k.cpus[cpu].current == Some(t) && t in k.threads
    && k.threads[t].priority < |k.queue| && k.cpus[cpu].idle in k.threads
  }

  predicate RunsNormal(k: Kernel, cpu: nat, t: Tid) {
    Runs(k, cpu, t) && k.threads[t].mode.Normal?
  }

  function Grant(sem: Semaphore, t: Tid): Semaphore {
    sem.(granted := sem.granted + 1, holders := if sem.mutex then sem.holders + multiset{t} else sem.holders)
  }

  /** `semaphore_wait` up to, not including, `sched_yield`. */
  function WaitPart(k: Kernel, t: Tid, s: SemId): Kernel
    requires t in k.threads && s in k.sems
  {
    var sem := k.sems[s].(i := k.sems[s].i - 1);
    if sem.i < 0 then
      PrepareSleep(k.(sems := k.sems[s := sem.(waiters := sem.waiters + [t], arrived := sem.arrived + [t])]), t, s)
    else
      k.(sems := k.sems[s := Grant(sem, t)])
  }

  function TestPart(k: Kernel, t: Tid, s: SemId): Kernel
    requires s in k.sems
  {
    var sem := k.sems[s];
    if sem.i > 0 then k.(sems := k.sems[s := Grant(sem.(i := sem.i - 1), t)]) else k
  }

  /** One unit comes back from t. */
  function Released(sem: Semaphore, t: Tid): Semaphore {
    sem.(i := sem.i + 1, signalled := sem.signalled + 1, holders := sem.holders - multiset{t})
  }

  /** `semaphore_signal` up to, not including, `sched_wakeup`. */
  function SignalPart(k: Kernel, t: Tid, s: SemId): Kernel
    requires t in k.threads && s in k.sems
  {
    var up := Released(k.sems[s], t);
    if up.i <= 0 && up.waiters != [] then
      var w := up.waiters[0];
      k.(sems := k.sems[s := Grant(up.(waiters := up.waiters[1..], woken := up.woken + [w], lock := Some(t)), w)],
         threads := k.threads[t := k.threads[t].(mode := Waking(s, w))])
    else
      k.(sems := k.sems[s := up])
  }

  predicate CanWake(k: Kernel, cpu: nat, u: Tid) {
    && Runs(k, cpu, u) && k.threads[u].mode.Waking?
    && k.threads[u].mode.sem in k.sems && k.threads[u].mode.target in k.threads
    && k.threads[k.threads[u].mode.target].priority < |k.queue|
    && !k.threads[k.threads[u].mode.target].sleepLock
  }

  /** `sched_wakeup` once the sleep lock is free, and the release of the semaphore's lock. */
  function WakePart(k: Kernel, cpu: nat, u: Tid): (r: (WakeResult, Kernel))
    requires CanWake(k, cpu, u)
  {
    var s, t := k.threads[u].mode.sem, k.threads[u].mode.target;
    var (result, k1) := Wakeup(k, cpu, t);
    var resumed := k.sems[s].resumed;
    var sem := k.sems[s].(lock := None, resumed := if result.Queued? then resumed + [t] else resumed);
    (result, k1.(sems := k1.sems[s := sem], threads := k1.threads[u := k1.threads[u].(mode := Normal)]))
  }

  // ---------- steps ----------

  datatype Step =
    | Wait(cpu: nat, t: Tid, sem: SemId)
    | Test(cpu: nat, t: Tid, sem: SemId)
    | Signal(cpu: nat, t: Tid, sem: SemId)
    | Wake(cpu: nat, t: Tid)
    | Yield(cpu: nat, t: Tid)
    | Preempt(cpu: nat, t: Tid)
    | Pin(cpu: nat, t: Tid, pin: int)
    | Spawn(cpu: nat, t: Tid, child: Tid, priority: nat)
    | Exit(cpu: nat, t: Tid)
    | Boot(cpu: nat)

  function NewThread(priority: nat): Thread {
    Thread(false, false, false, false, priority, -1, false, true, None, false, Normal)
  }

  predicate Free(k: Kernel, s: SemId) {
    s in k.sems && k.sems[s].lock.None?
  }

  /** A thread waits for its sleep lock before it sleeps, and only the holder of a mutex releases it. */
  predicate Enabled(k: Kernel, step: Step) {
    match step
    case Wait(cpu, t, s) =>
      RunsNormal(k, cpu, t) && !k.threads[t].idle && Free(k, s) && (k.sems[s].i <= 0 ==> !k.threads[t].sleepLock)
    case Test(cpu, t, s) => RunsNormal(k, cpu, t) && Free(k, s)
    case Signal(cpu, t, s) => RunsNormal(k, cpu, t) && Free(k, s) && (k.sems[s].mutex ==> t in k.sems[s].holders)
    case Wake(cpu, t) => CanWake(k, cpu, t)
    case Yield(cpu, t) => Runs(k, cpu, t) && !k.threads[t].mode.Waking?
    case Preempt(cpu, t) => RunsNormal(k, cpu, t)
    case Pin(cpu, t, pin) => RunsNormal(k, cpu, t)
    case Spawn(cpu, t, child, priority) => RunsNormal(k, cpu, t) && child !in k.threads && priority < RUN_QUEUE_COUNT
    case Exit(cpu, t) => RunsNormal(k, cpu, t) && !k.threads[t].idle
    case Boot(cpu) => CpuOk(k, cpu) && k.cpus[cpu].current.None?
  }

  function Apply(k: Kernel, step: Step): Kernel
    requires |k.queue| == RUN_QUEUE_COUNT && Enabled(k, step)
  {
    match step
    case Wait(cpu, t, s) => WaitPart(k, t, s)
    case Test(cpu, t, s) => TestPart(k, t, s)
    case Signal(cpu, t, s) => SignalPart(k, t, s)
    case Wake(cpu, t) => WakePart(k, cpu, t).1
    case Yield(cpu, t) => YieldPass(k, cpu)
    case Preempt(cpu, t) => PreemptPass(k, cpu)
    case Pin(cpu, t, pin) => k.(threads := k.threads[t := k.threads[t].(pin := pin)])
    case Spawn(cpu, t, child, priority) => Enqueue(k.(threads := k.threads[child := NewThread(priority)]), cpu, child)
    case Exit(cpu, t) => StopPass(Abandon(k, cpu), cpu)
    case Boot(cpu) => StopPass(k, cpu)
  }

  /** Boot: CPU 0 runs a thread made by hand, the other CPUs run nothing, nothing is queued. */
  ghost predicate Init(k: Kernel) {
    && k.queue == seq(RUN_QUEUE_COUNT, _ => [])
    && k.bitmap == {}
    && |k.cpus| > 0
    && (forall c :: 0 <= c < |k.cpus| ==> k.cpus[c].idle in k.threads && k.threads[k.cpus[c].idle].idle)
    && (forall c, d :: 0 <= c < d < |k.cpus| ==> k.cpus[c].idle != k.cpus[d].idle)
    && k.cpus[0].current.Some?
    && (var boot := k.cpus[0].current.value;
        && boot in k.threads
        && k.threads[boot] == NewThread(0).(saved := false, on := Some(0))
        && (forall t :: t in k.threads && t != boot ==> k.threads[t].idle))
    && (forall c :: 0 < c < |k.cpus| ==> k.cpus[c].current.None?)
    && (forall t :: t in k.threads && k.threads[t].idle ==>
          k.threads[t] == NewThread(3).(idle := true)
          && exists c :: 0 <= c < |k.cpus| && k.cpus[c].idle == t)
    && (forall s :: s in k.sems ==>
          var sem := k.sems[s];
          sem == Semaphore(sem.init, None, [], sem.mutex, sem.init, [], [], [], 0, 0, multiset{})
          && (sem.mutex ==> sem.init == 1))
  }

  /** A run: each state follows from the one before by an enabled step. */
  ghost predicate Run(ks: seq<Kernel>, steps: seq<Step>) {
    && |ks| == |steps| + 1
    && Init(ks[0])
    && forall n :: 0 <= n < |steps| ==>
         |ks[n].queue| == RUN_QUEUE_COUNT && Enabled(ks[n], steps[n]) && ks[n + 1] == Apply(ks[n], steps[n])
  }
}
