/**
 kernel/sys/timer.c.  The device is a parameter: `stop` reports how many ticks of the armed ones have passed
 (`elapsed`), and the interrupt comes when all have.  `log` is what `dpc_enqueue` was called for.
 */
module TimerCode {
  import opened TimerQueue

  class Timer {
    const ticksPerUs: nat
    var tick: nat
    var running: bool
    var armed: nat               // ticks the device still has to run, 0 when it is not armed
    var queue: seq<Entry>
    var fired: set<nat>
    var log: seq<Firing>
    var stamps: nat
    ghost var births: map<nat, Birth>

    /** Sorted, stable, never overdue, and every firing on schedule. */
    ghost predicate Valid()
      reads this
    {
      && ticksPerUs > 0 && Orderly(queue, tick, stamps)
      && (queue != [] ==> tick + armed <= queue[0].deadline)
      && (running && queue != [] ==> tick + armed == queue[0].deadline) && (!running ==> armed == 0)
      && History(queue, births, ticksPerUs, log)
      && (forall id :: id in fired <==> id in births && !Queued(queue, id))
    }

    /** What holds in the middle of an operation, with the device stopped. */
    ghost predicate Halted()
      reads this
    {
      && ticksPerUs > 0 && Orderly(queue, tick, stamps) && armed == 0
      && History(queue, births, ticksPerUs, log)
      && (forall id :: id in fired <==> id in births && !Queued(queue, id))
    }

    constructor (ticksPerUs: nat)
      requires ticksPerUs > 0
      ensures Valid() && queue == [] && births == map[] && tick == 0 && !running
    {
      this.ticksPerUs := ticksPerUs;
      tick, running, armed, queue, fired, log, stamps, births := 0, false, 0, [], {}, [], 0, map[];
    }

    /** `enqueue`: behind every entry that is not later. */
    method Enqueue(id: nat, repeatUs: nat, us: nat) returns (ghost e: Entry, ghost p: nat)
      requires Sorted(queue)
      modifies this`queue, this`stamps
      ensures e == Entry(id, tick + us * ticksPerUs, repeatUs, old(stamps)) && stamps == old(stamps) + 1
      ensures Place(old(queue), e, p) && queue == Put(old(queue), e, p)
    {
      var entry := Entry(id, tick + us * ticksPerUs, repeatUs, stamps);
      stamps := stamps + 1;
      e, p := entry, 0;
      if queue == [] {
        queue := [entry];
      } else if queue[0].deadline > entry.deadline {
        queue := [entry] + queue;
      } else {
        var search := 0;
        while search + 1 < |queue| &&
              !(entry.deadline >= queue[search].deadline && entry.deadline < queue[search + 1].deadline)
          invariant 0 <= search < |queue| && queue[search].deadline <= entry.deadline
        {
          search := search + 1;
        }
        p := search + 1;
        queue := queue[..search + 1] + [entry] + queue[search + 1..];
      }
    }

    /** Takes the first entry off, queues it again if it repeats, and hands its callback on. */
    method FireFirst()
      requires Halted() && queue != [] && queue[0].deadline == tick
      modifies this`queue, this`stamps, this`fired, this`log
      ensures Halted() && log == old(log) + [Firing(old(queue)[0].id, tick)]
      ensures Due(queue, tick) < Due(old(queue), tick)
      ensures Lasting(queue, tick) <==> Lasting(old(queue), tick)
      ensures queue == [] <==> |old(queue)| == 1 && old(queue)[0].repeatUs == 0
    {
      hide Sorted, Queued, Lasting, OnTime, Done, Fires, Schedule, OneEach;
      ghost var q := queue;
      PopOrderly(q, tick, stamps);
      OneOfEach(q);
      var entry := queue[0];
      queue := queue[1..];
      assert Sorted(queue) && OneEach(q);
      PopOne(q);
      if entry.repeatUs > 0 {
        LaterDeadline(tick, entry.repeatUs, ticksPerUs);
        ghost var e, p := Enqueue(entry.id, entry.repeatUs, entry.repeatUs);
        FireAgain(q, births, ticksPerUs, log, e, p);
        AgainLasts(q, e, p, tick);
        PutOrderly(q[1..], tick, old(stamps), e, p);
        PutOneEach(q[1..], e, p);
      } else {
        FireOnce(q, births, ticksPerUs, log);
        OnceLasts(q, tick);
        fired := fired + {entry.id};
      }
      log := log + [Firing(entry.id, entry.deadline)];
    }

    lemma OneOfEach(q: seq<Entry>)
      requires History(q, births, ticksPerUs, log) && q != []
      ensures q[0].id in births && Queued(q, q[0].id)
    {
      assert OnTime(q[0], births, ticksPerUs, log);
    }

    /** `timer_check`: fires all that is due now; something is left exactly when something was for later or repeats. */
    method Check()
      requires Halted()
      modifies this`queue, this`stamps, this`fired, this`log
      ensures Halted() && (queue != [] ==> queue[0].deadline > tick)
      ensures queue == [] <==> !Lasting(old(queue), tick)
      ensures Extends(old(log), log, tick)
    {
      hide Sorted, History, Queued;
      while queue != [] && queue[0].deadline == tick
        invariant Halted() && (Lasting(queue, tick) <==> Lasting(old(queue), tick)) && Extends(old(log), log, tick)
        decreases Due(queue, tick)
      {
        FireFirst();
      }
      assert queue != [] ==> Lasting(queue, tick);
    }

    /** Everything fired since log0 fired at this tick. */
    static ghost predicate Extends(log0: seq<Firing>, log1: seq<Firing>, now: nat) {
      |log0| <= |log1| && log1[..|log0|] == log0 && forall i :: |log0| <= i < |log1| ==> log1[i].tick == now
    }

    /** Arms the device for the first entry; `ok` is false where the source follows a null queue pointer. */
    method Rearm() returns (ok: bool)
      requires Halted() && running
      modifies this`queue, this`stamps, this`fired, this`log, this`armed
      ensures ok == Lasting(old(queue), tick) && Extends(old(log), log, tick)
      ensures Valid() && (ok ==> queue != [] && armed == queue[0].deadline - tick > 0)
    {
      hide Sorted, History, Queued, Lasting;
      Check();
      if queue == [] {
        return false;
      }
      armed := queue[0].deadline - tick;
      ok := true;
    }

    /** `timer_resume`. */
    method Resume() returns (ok: bool)
      requires Valid()
      modifies this
      ensures Valid() && running && tick == old(tick) && births == old(births) && Extends(old(log), log, tick)
      ensures ok == (old(queue) == [] || Lasting(old(queue), tick))
    {
      hide Sorted, History, Queued, Lasting;
      running := true;
      ok := true;
      if queue != [] {
        armed := 0;
        ok := Rearm();
      }
    }

    /** `timer_stop`. */
    method Stop(elapsed: nat)
      requires Valid() && (queue != [] ==> elapsed <= armed)
      modifies this`tick, this`running, this`armed
      ensures Valid() && !running && tick == old(tick) + elapsed
    {
      hide Sorted, History, Queued;
      Advance(queue, tick, tick + elapsed, stamps);
      tick := tick + elapsed;
      armed := 0;
      running := false;
    }

    /** The part of `timer_insert` that fills in the entry and queues it. */
    method AddEntry(id: nat, us: nat, repeating: bool)
      requires Halted() && id !in births
      modifies this`queue, this`stamps, this`births
      ensures Halted() && births == old(births)[id := Birth(tick, us, repeating)] && queue != []
      ensures Lasting(queue, tick) <==> us > 0 || Lasting(old(queue), tick)
    {
      hide Sorted, Queued, Lasting, OnTime, Done, Fires, Schedule, OneEach;
      ghost var q := queue;
      assert Sorted(q) && OneEach(q);
      NewId(q, id);
      ghost var e, p := Enqueue(id, if repeating then us else 0, us);
      Born(q, births, ticksPerUs, log, e, Birth(tick, us, repeating), p);
      PutOrderly(q, tick, old(stamps), e, p);
      PutOneEach(q, e, p);
      AddLasts(q, e, p, tick, us, ticksPerUs);
      births := births[id := Birth(tick, us, repeating)];
    }

    lemma NewId(q: seq<Entry>, id: nat)
      requires History(q, births, ticksPerUs, log) && id !in births
      ensures !Queued(q, id)
    {
      forall i | 0 <= i < |q| ensures q[i].id != id {
        assert OnTime(q[i], births, ticksPerUs, log);
      }
    }

    /** `timer_insert`: a running timer is brought up to date, and armed again for what is first then. */
    method Insert(id: nat, us: nat, repeating: bool, elapsed: nat) returns (ok: bool)
      requires Valid() && id !in births && (queue != [] ==> elapsed <= armed)
      modifies this
      ensures Valid() && running == old(running) && tick == old(tick) + (if running then elapsed else 0)
      ensures births == old(births)[id := Birth(tick, us, repeating)] && Extends(old(log), log, tick)
      ensures ok == (!running || us > 0 || Lasting(old(queue), tick))
      ensures !running ==> queue != [] && (Lasting(queue, tick) <==> us > 0 || Lasting(old(queue), tick))
    {
      hide Sorted, Queued, Lasting, History;
      if running {
        Advance(queue, tick, tick + elapsed, stamps);
        tick := tick + elapsed;
        armed := 0;
      }
      AddEntry(id, us, repeating);
      ok := true;
      if running {
        ok := Rearm();
      }
    }

    /** `timer_isr`: the armed ticks have passed, so the first entry is due exactly now. */
    method Isr() returns (ok: bool)
      requires Valid() && running && queue != []
      modifies this
      ensures Valid() && running && births == old(births)
      ensures tick == old(tick) + old(armed) == old(queue)[0].deadline
      ensures Extends(old(log), log, tick) && |log| > |old(log)| && log[|old(log)|].id == old(queue)[0].id
      ensures ok == (|old(queue)| == 1 || Lasting(old(queue), tick))
    {
      hide Sorted, History, Queued;
      tick := queue[0].deadline;
      armed := 0;
      Advance(queue, old(tick), tick, stamps);
      FireFirst();
      ok := true;
      if queue != [] {
        ok := Rearm();
      }
    }

    lemma Advance(q: seq<Entry>, tick0: nat, tick1: nat, n: nat)
      requires Orderly(q, tick0, n) && (q != [] ==> tick1 <= q[0].deadline)
      ensures Orderly(q, tick1, n)
    {
      forall i | 0 <= i < |q| ensures tick1 <= q[i].deadline {
        if i > 0 {
          assert Before(q[0], q[i]);
        }
      }
    }
  }

  /** A one-shot entry without delay, put into a stopped timer: starting the timer has nothing left to arm for. */
  method RearmExample() returns (inserted: bool, started: bool)
    ensures inserted && !started
  {
    var timer := new Timer(1);
    inserted := timer.Insert(1, 0, false, 0);
    started := timer.Resume();
  }
}
