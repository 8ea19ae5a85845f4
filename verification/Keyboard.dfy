/**
 drivers/char/keyboard.c: one keyboard's event ring and the semaphore that counts its events, as steps of
 interrupt handlers and readers on any number of CPUs.  No wait is interrupted.
 */
module KeyboardRuns {
  import opened Bytes
  import Sched = SchedulerState
  import Sleep = SleepProtocol
  import SleepInv = SleepInvariant

  const RECORDS := 100

  datatype Event = Event(flags: Byte, keycode: Byte)

  /**
   stored: the events in the ring; count, waiting: the semaphore; granted: readers past the semaphore that
   have not read yet; pending: an event is written, its signal still to come, and the lock is held.
   */
  datatype State = State(stored: seq<Event>, count: int, waiting: nat, granted: nat, pending: bool, failed: bool,
                         accepted: seq<Event>, delivered: seq<Event>)

  datatype Step =
    | Press(e: Event)   // keyboard_event: the write, under the lock
    | Signal            // keyboard_event: the signal, then the lock is released
    | Test              // keyboard_fetch_event: semaphore_test
    | Wait              // keyboard_wait: semaphore_wait
    | Read              // both: the read, under the lock

  predicate Enabled(s: State, step: Step) {
    match step
    case Press(_) => !s.pending
    case Signal => s.pending
    case Test => true
    case Wait => true
    case Read => s.granted > 0 && !s.pending
  }

  function Apply(s: State, step: Step): State
    requires Enabled(s, step)
  {
    match step
    case Press(e) =>
      if |s.stored| < RECORDS then s.(stored := s.stored + [e], accepted := s.accepted + [e], pending := true) else s
    case Signal =>
      if s.count < 0 && s.waiting > 0 then
        s.(count := s.count + 1, waiting := s.waiting - 1, granted := s.granted + 1, pending := false)
      else
        s.(count := s.count + 1, pending := false)
    case Test =>
      if s.count > 0 then s.(count := s.count - 1, granted := s.granted + 1) else s
    case Wait =>
      if s.count > 0 then s.(count := s.count - 1, granted := s.granted + 1)
      else s.(count := s.count - 1, waiting := s.waiting + 1)
    case Read =>
      if s.stored == [] then s.(failed := true, granted := s.granted - 1)
      else s.(stored := s.stored[1..], delivered := s.delivered + [s.stored[0]], granted := s.granted - 1)
  }

  const Initial := State([], 0, 0, 0, false, false, [], [])

  function Positive(x: int): nat { if x > 0 then x else 0 }

  /** Stored events are those the semaphore counts, those readers are on their way to, and the one not signalled yet. */
  ghost predicate Inv(s: State) {
    && |s.stored| == Positive(s.count) + s.granted + (if s.pending then 1 else 0) && s.waiting == Positive(-s.count)
    && |s.stored| <= RECORDS && !s.failed && s.accepted == s.delivered + s.stored
  }

  lemma StepKeeps(s: State, step: Step)
    requires Inv(s) && Enabled(s, step)
    ensures Inv(Apply(s, step))
  {
    if step.Read? && s.stored != [] {
      assert s.stored == [s.stored[0]] + s.stored[1..];
    }
  }

  /** count and waiting are what this keyboard needs to know of its semaphore. */
  predicate Sees(s: State, sem: Sched.Semaphore) {
    s.count == sem.i && s.waiting == |sem.waiters|
  }

  /**
   The semaphore steps here are those of kernel/sys/semaphore.c: seen from the keyboard, `semaphore_wait`,
   `semaphore_test` and `semaphore_signal` do what Wait, Test and Signal do, and grant as many units.
   */
  lemma SameSemaphore(s: State, k: Sched.Kernel, t: Sched.Tid, id: Sched.SemId)
    requires t in k.threads && id in k.sems && SleepInv.CountInv(k.sems[id]) && Sees(s, k.sems[id])
    ensures var sem, s' := Sleep.WaitPart(k, t, id).sems[id], Apply(s, Wait);
      Sees(s', sem) && s'.granted - s.granted == sem.granted - k.sems[id].granted
    ensures var sem, s' := Sleep.TestPart(k, t, id).sems[id], Apply(s, Test);
      Sees(s', sem) && s'.granted - s.granted == sem.granted - k.sems[id].granted
    ensures s.pending ==>
              var sem, s' := Sleep.SignalPart(k, t, id).sems[id], Apply(s, Signal);
              Sees(s', sem) && s'.granted - s.granted == sem.granted - k.sems[id].granted
  {
  }

  ghost predicate Run(run: seq<State>, steps: seq<Step>) {
    && |run| == |steps| + 1 && run[0] == Initial
    && forall i :: 0 <= i < |steps| ==> Enabled(run[i], steps[i]) && run[i + 1] == Apply(run[i], steps[i])
  }

  lemma {:induction false} RunKeeps(run: seq<State>, steps: seq<Step>, n: nat)
    requires Run(run, steps) && n < |run|
    ensures Inv(run[n])
  {
    if n > 0 {
      RunKeeps(run, steps, n - 1);
      StepKeeps(run[n - 1], steps[n - 1]);
      assert run[n - 1 + 1] == Apply(run[n - 1], steps[n - 1]);
    }
  }

  /** The read's assert never fires, and events come out in the order they went in. */
  lemma EventsDelivered(run: seq<State>, steps: seq<Step>, n: nat)
    requires Run(run, steps) && n < |run|
    ensures !run[n].failed && (Enabled(run[n], Read) ==> run[n].stored != [])
    ensures run[n].delivered <= run[n].accepted && run[n].accepted == run[n].delivered + run[n].stored
  {
    RunKeeps(run, steps, n);
  }

  /** The event a step puts into the ring: a press that meets fewer than RECORDS stored ones. */
  function Accepts(s: State, step: Step): seq<Event> {
    match step
    case Press(e) => if |s.stored| < RECORDS then [e] else []
    case _ => []
  }

  /** What a step does to the counter: a signal gives a unit, a wait takes one, a test takes one when there is one. */
  function Change(s: State, step: Step): int {
    match step
    case Signal => 1
    case Wait => -1
    case Test => if s.count > 0 then -1 else 0
    case _ => 0
  }

  ghost function Pressed(run: seq<State>, steps: seq<Step>): seq<Event>
    requires |run| >= |steps|
  {
    if steps == [] then [] else
      Pressed(run, steps[..|steps| - 1]) + Accepts(run[|steps| - 1], steps[|steps| - 1])
  }

  ghost function Balance(run: seq<State>, steps: seq<Step>): int
    requires |run| >= |steps|
  {
    if steps == [] then 0 else
      Balance(run, steps[..|steps| - 1]) + Change(run[|steps| - 1], steps[|steps| - 1])
  }

  function Reads(steps: seq<Step>): nat {
    if steps == [] then 0 else Reads(steps[..|steps| - 1]) + if steps[|steps| - 1].Read? then 1 else 0
  }

  /**
   In every run the events accepted are those pressed, in order, that found room; each read delivers one of them; and
   the counter is what the signals, waits and tests so far make it.
   */
  lemma {:induction false} RunExact(run: seq<State>, steps: seq<Step>, n: nat)
    requires Run(run, steps) && n < |run|
    ensures run[n].accepted == Pressed(run, steps[..n])
    ensures |run[n].delivered| == Reads(steps[..n]) && run[n].count == Balance(run, steps[..n])
  {
    if n > 0 {
      RunExact(run, steps, n - 1);
      RunKeeps(run, steps, n - 1);
      assert steps[..n][..n - 1] == steps[..n - 1] && steps[..n][n - 1] == steps[n - 1];
      assert run[n - 1 + 1] == Apply(run[n - 1], steps[n - 1]);
    }
  }

  /** An accepted event that nobody is on the way to has a semaphore count to be found by. */
  lemma NoEventStranded(run: seq<State>, steps: seq<Step>, n: nat)
    requires Run(run, steps) && n < |run| && !run[n].pending && run[n].granted == 0 && run[n].stored != []
    ensures run[n].count == |run[n].stored| && run[n].waiting == 0
  {
    RunKeeps(run, steps, n);
  }
}

/** drivers/char/keyboard.c over kernel/lib/ringbuffer.c: the steps, on bytes. */
module KeyboardCode {
  import opened Bytes
  import opened KeyboardRuns
  import opened RingBuffer

  const RECORD_SIZE := 2

  function Encode(e: Event): seq<Byte> {
    [e.flags, e.keycode]
  }

  function EncodeAll(es: seq<Event>): seq<Byte> {
    if es == [] then [] else Encode(es[0]) + EncodeAll(es[1..])
  }

  lemma {:induction false} EncodeMore(es: seq<Event>, e: Event)
    ensures EncodeAll(es + [e]) == EncodeAll(es) + Encode(e)
  {
    if es == [] {
      assert es + [e] == [e] && [e][1..] == [];
    } else {
      assert (es + [e])[1..] == es[1..] + [e];
      EncodeMore(es[1..], e);
    }
  }

  lemma {:induction false} EncodeLength(es: seq<Event>)
    ensures |EncodeAll(es)| == RECORD_SIZE * |es|
  {
    if es != [] {
      EncodeLength(es[1..]);
    }
  }

  lemma SameParts(a: seq<Byte>, b: seq<Byte>, c: seq<Byte>, d: seq<Byte>)
    requires a + b == c + d && |a| == |c|
    ensures a == c && b == d
  {
    assert a == (a + b)[..|a|] && b == (a + b)[|a|..];
    assert c == (c + d)[..|c|] && d == (c + d)[|c|..];
  }

  /** A record at a record boundary is appended as it is; so is nothing at all. */
  lemma NoStraddle(d: seq<Byte>, w: nat, b: seq<Byte>)
    requires |d| == RECORDS * RECORD_SIZE && w % RECORD_SIZE == 0 && |b| == RECORD_SIZE
    ensures Appended(d, w, b) == b && Appended(d, w, []) == []
  {
    WholeRecords(|d|, w, RECORD_SIZE);
  }

  class Keyboard {
    const ring: Ring
    var count: int
    var waiting: nat
    ghost var state: State

    /** The ring holds the stored events, record by record. */
    ghost predicate Valid()
      reads this, ring, ring.data
    {
      && ring.Valid() && ring.data.Length == RECORDS * RECORD_SIZE && ring.write % RECORD_SIZE == 0
      && ring.Contents() == EncodeAll(state.stored) && Inv(state) && count == state.count && waiting == state.waiting
    }

    /** `keyboard_init`. */
    constructor ()
      ensures Valid() && state == Initial
    {
      ring := new Ring(RECORDS * RECORD_SIZE);
      count, waiting, state := 0, 0, Initial;
    }

    /** `keyboard_event`, the write: the whole record goes in, or none of it. */
    method Press(e: Event) returns (written: nat)
      requires Valid() && Enabled(state, Step.Press(e))
      modifies this, ring, ring.data
      ensures Valid() && state == Apply(old(state), Step.Press(e)) && (written != 0 <==> state.pending)
      ensures count == old(count) && waiting == old(waiting)
      ensures if |old(ring.Contents())| + RECORD_SIZE <= ring.data.Length
        then written == RECORD_SIZE && ring.Contents() == old(ring.Contents()) + [e.flags, e.keycode]
        else written == 0 && ring.Contents() == old(ring.Contents())
    {
      hide EncodeAll, Appended, View;
      EncodeLength(state.stored);
      EncodeMore(state.stored, e);
      StepKeeps(state, Step.Press(e));
      NoStraddle(ring.data[..], ring.write, Encode(e));
      written := ring.Write(Encode(e));
      assert Encode(e)[..2] == Encode(e) && Encode(e)[..0] == [];
      state := Apply(state, Step.Press(e));
    }

    /** `semaphore_signal`. */
    method Signal()
      requires Valid() && Enabled(state, Step.Signal)
      modifies this
      ensures Valid() && state == Apply(old(state), Step.Signal)
      ensures count == old(count) + 1 && waiting == if old(count) < 0 then old(waiting) - 1 else old(waiting)
    {
      StepKeeps(state, Step.Signal);
      count := count + 1;
      if count <= 0 {
        waiting := waiting - 1;
      }
      state := Apply(state, Step.Signal);
    }

    /** `semaphore_test`. */
    method Test() returns (ok: bool)
      requires Valid()
      modifies this
      ensures Valid() && state == Apply(old(state), Step.Test) && (ok <==> state.granted > old(state).granted)
      ensures (ok <==> old(count) > 0) && waiting == old(waiting)
      ensures count == if ok then old(count) - 1 else old(count)
    {
      StepKeeps(state, Step.Test);
      ok := count > 0;
      if ok {
        count := count - 1;
      }
      state := Apply(state, Step.Test);
    }

    /** `semaphore_wait`, up to where the caller sleeps or goes on. */
    method Wait() returns (sleeps: bool)
      requires Valid()
      modifies this
      ensures Valid() && state == Apply(old(state), Step.Wait) && (sleeps <==> state.waiting > old(state).waiting)
      ensures count == old(count) - 1 && (sleeps <==> old(count) <= 0)
      ensures waiting == if sleeps then old(waiting) + 1 else old(waiting)
    {
      StepKeeps(state, Step.Wait);
      count := count - 1;
      sleeps := count < 0;
      if sleeps {
        waiting := waiting + 1;
      }
      state := Apply(state, Step.Wait);
    }

    /** The read of `keyboard_fetch_event` and `keyboard_wait`: always a whole event, the oldest. */
    method Read() returns (e: Event)
      requires Valid() && Enabled(state, Step.Read)
      modifies this, ring
      ensures Valid() && state == Apply(old(state), Step.Read)
      ensures state.delivered == old(state).delivered + [e]
      ensures old(ring.Contents()) == [e.flags, e.keycode] + ring.Contents() && count == old(count)
    {
      EncodeLength(state.stored);
      StepKeeps(state, Step.Read);
      var bytes := ring.Read(RECORD_SIZE);
      assert |bytes| == RECORD_SIZE;
      SameParts(bytes, ring.Contents(), Encode(state.stored[0]), EncodeAll(state.stored[1..]));
      e := Event(bytes[0], bytes[1]);
      state := Apply(state, Step.Read);
    }
  }
}
