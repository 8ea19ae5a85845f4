/** Failure-free partial values, shared by every module. */
module Options {
  datatype Option<+T> = None | Some(value: T)
}

/**
 The kernel state the scheduler and the semaphores work on, and one function per atomic
 piece of kernel/sys/scheduler.c.  Lists of threads are sequences here: `queue[p]` is run queue p
 from head to last.  The code that keeps them in the threads' own links is in SchedulerCode.
 */
module SchedulerState {
  import opened Options

  const RUN_QUEUE_COUNT := 64
  // The priority limit passed by a sleeping or exiting thread: every queue may be searched.
  const ANY_PRIORITY := 0x0fffffff

  type Tid = nat
  type SemId = nat

  /** What the thread's kernel-side control point is.  Every mode but Normal runs with interrupts off. */
  datatype Mode =
    | Normal
    | Blocking(sem: SemId)                 // inserted as a waiter: about to yield, or asleep
    | Waking(sem: SemId, target: Tid)      // inside semaphore_signal, target popped, semaphore lock held

  /**
   `on` is the CPU whose `thread` pointer is this thread; `saved` says that `context` holds
   everything needed to resume it; `idle` marks a CPU's idle thread.
   */
  datatype Thread = Thread(
    queued: bool, running: bool, sleep: bool, dead: bool,
    priority: nat, pin: int, sleepLock: bool,
    saved: bool, on: Option<nat>, idle: bool, mode: Mode)

  /**
   A semaphore with its history.  `waiters` is in order of arrival.  `arrived`, `woken` and `resumed` log the
   threads that blocked, that were popped, and that were put back on a run queue.
   */
  datatype Semaphore = Semaphore(
    i: int, lock: Option<Tid>, waiters: seq<Tid>,
    mutex: bool, init: nat,
    arrived: seq<Tid>, woken: seq<Tid>, resumed: seq<Tid>,
    granted: nat, signalled: nat, holders: multiset<Tid>)

  datatype Cpu = Cpu(current: Option<Tid>, idle: Tid)

  datatype Kernel = Kernel(
    queue: seq<seq<Tid>>, bitmap: set<nat>,
    threads: map<Tid, Thread>, cpus: seq<Cpu>, sems: map<SemId, Semaphore>)

  // ---------- choosing a thread ----------

  predicate Eligible(threads: map<Tid, Thread>, t: Tid, cpu: nat) {
    t in threads && (threads[t].pin < 0 || threads[t].pin == cpu)
  }

  /** Position of the first thread of q that may run on cpu; |q| when there is none. */
  function FirstEligible(q: seq<Tid>, threads: map<Tid, Thread>, cpu: nat): (j: nat)
    ensures j <= |q|
    ensures j < |q| ==> Eligible(threads, q[j], cpu)
    ensures forall m :: 0 <= m < j ==> !Eligible(threads, q[m], cpu)
  {
    if q == [] then 0
    else if Eligible(threads, q[0], cpu) then 0
    else 1 + FirstEligible(q[1..], threads, cpu)
  }

  predicate HasEligible(q: seq<Tid>, threads: map<Tid, Thread>, cpu: nat) {
    exists m :: 0 <= m < |q| && Eligible(threads, q[m], cpu)
  }

  /** The first queue from p on, within the limit, with an eligible thread; |queue| when there is none. */
  function BestQueue(queue: seq<seq<Tid>>, threads: map<Tid, Thread>, cpu: nat, limit: int, p: nat): (r: nat)
    requires p <= |queue|
    ensures p <= r <= |queue|
    ensures r < |queue| ==> r <= limit && HasEligible(queue[r], threads, cpu)
    ensures forall m :: p <= m < r && m <= limit ==> !HasEligible(queue[m], threads, cpu)
    decreases |queue| - p
  {
    if p == |queue| || p > limit then |queue|
    else if FirstEligible(queue[p], threads, cpu) < |queue[p]| then p
    else BestQueue(queue, threads, cpu, limit, p + 1)
  }

  function RemoveAt<T>(s: seq<T>, j: nat): seq<T>
    requires j < |s|
  {
    s[..j] + s[j + 1..]
  }

  /** Unlinks entry j of run queue p, which clears the bitmap bit when it was the last one. */
  function TakeAt(k: Kernel, p: nat, j: nat): Kernel
    requires p < |k.queue| && j < |k.queue[p]| && k.queue[p][j] in k.threads
  {
    var t := k.queue[p][j];
    var rest := RemoveAt(k.queue[p], j);
    k.(queue := k.queue[p := rest],
       bitmap := if rest == [] then k.bitmap - {p} else k.bitmap,
       threads := k.threads[t := k.threads[t].(queued := false)])
  }

  function DequeueNext(k: Kernel, cpu: nat, limit: int): (r: (Option<Tid>, Kernel))
    ensures r.0.Some? ==> r.0.value in k.threads
  {
    var p := BestQueue(k.queue, k.threads, cpu, limit, 0);
    if k.bitmap == {} || p == |k.queue| then (None, k)
    else
      var j := FirstEligible(k.queue[p], k.threads, cpu);
      (Some(k.queue[p][j]), TakeAt(k, p, j))
  }

  function Enqueue(k: Kernel, cpu: nat, t: Tid): Kernel
    requires cpu < |k.cpus| && t in k.threads && k.threads[t].priority < |k.queue|
  {
    if t == k.cpus[cpu].idle then k
    else
      var p := k.threads[t].priority;
      k.(queue := k.queue[p := k.queue[p] + [t]],
         bitmap := k.bitmap + {p},
         threads := k.threads[t := k.threads[t].(queued := true)])
  }

  // ---------- switching ----------

  function Suspend(k: Kernel, t: Tid): Kernel
    requires t in k.threads
  {
    k.(threads := k.threads[t := k.threads[t].(saved := true, running := false)])
  }

  function Leave(th: Thread): Thread {
    th.(running := false, on := None, sleepLock := if th.sleep then false else th.sleepLock)
  }

  function Switch(k: Kernel, cpu: nat, next: Tid): Kernel
    requires cpu < |k.cpus| && next in k.threads
    requires k.cpus[cpu].current.Some? ==> k.cpus[cpu].current.value in k.threads
  {
    var left := match k.cpus[cpu].current
      case None => k.threads
      case Some(t) => k.threads[t := Leave(k.threads[t])];
    k.(threads := left[next := left[next].(running := true, on := Some(cpu), saved := false)],
       cpus := k.cpus[cpu := k.cpus[cpu].(current := Some(next))])
  }

  predicate CpuOk(k: Kernel, cpu: nat) {
    && cpu < |k.cpus|
    && k.cpus[cpu].idle in k.threads
    && (k.cpus[cpu].current.Some? ==>
          var t := k.cpus[cpu].current.value;
          t in k.threads && k.threads[t].priority < |k.queue|)
  }

  function OrIdle(k: Kernel, cpu: nat, next: Option<Tid>): Tid
    requires cpu < |k.cpus|
  {
    match next case Some(t) => t case None => k.cpus[cpu].idle
  }

  /** One pass through `yield` and `switch_thread`. */
  function YieldPass(k: Kernel, cpu: nat): Kernel
    requires CpuOk(k, cpu) && k.cpus[cpu].current.Some?
  {
    var t := k.cpus[cpu].current.value;
    var sleeping := k.threads[t].sleep;
    var (next, k1) := DequeueNext(k, cpu, if sleeping then ANY_PRIORITY else k.threads[t].priority);
    if next.None? && !sleeping then k1
    else
      var k2 := Suspend(k1, t);
      var k3 := if sleeping then k2 else Enqueue(k2, cpu, t);
      Switch(k3, cpu, OrIdle(k, cpu, next))
  }

  /** The timer hook saves the context; then one pass through `preempt_callback` and `switch_thread`. */
  function PreemptPass(k: Kernel, cpu: nat): Kernel
    requires CpuOk(k, cpu) && k.cpus[cpu].current.Some?
  {
    var t := k.cpus[cpu].current.value;
    var (next, k1) := DequeueNext(k, cpu, k.threads[t].priority);
    match next
    case Some(n) => Switch(Enqueue(Suspend(k1, t), cpu, t), cpu, n)
    case None => Switch(k1, cpu, t)
  }

  /** `sched_stop_thread` on a CPU without a current thread. */
  function StopPass(k: Kernel, cpu: nat): Kernel
    requires CpuOk(k, cpu) && k.cpus[cpu].current.None?
  {
    var (next, k1) := DequeueNext(k, cpu, ANY_PRIORITY);
    Switch(k1, cpu, OrIdle(k, cpu, next))
  }

  /** `_internal_thread_exit`: the CPU forgets the thread and the thread is marked dead; RUNNING stays set. */
  function Abandon(k: Kernel, cpu: nat): Kernel
    requires CpuOk(k, cpu) && k.cpus[cpu].current.Some?
  {
    var t := k.cpus[cpu].current.value;
    k.(threads := k.threads[t := k.threads[t].(dead := true, on := None)],
       cpus := k.cpus[cpu := k.cpus[cpu].(current := None)])
  }

  // ---------- sleeping and waking ----------

  function PrepareSleep(k: Kernel, t: Tid, s: SemId): Kernel
    requires t in k.threads
  {
    k.(threads := k.threads[t := k.threads[t].(sleepLock := true, sleep := true, mode := Blocking(s))])
  }

  datatype WakeResult = Queued | NotSleeping | Exists

  /** `sched_wakeup` with reason 0, entered once the sleep lock is free.  `Exists` is the failed assertion. */
  function Wakeup(k: Kernel, cpu: nat, t: Tid): (r: (WakeResult, Kernel))
    requires cpu < |k.cpus| && t in k.threads && k.threads[t].priority < |k.queue|
  {
    var th := k.threads[t];
    if !th.sleep then (NotSleeping, k)
    else
      var awake := k.(threads := k.threads[t := th.(sleep := false, mode := Normal)]);
      if th.queued || th.running then (Exists, awake)
      else (Queued, Enqueue(awake, cpu, t))
  }
}
