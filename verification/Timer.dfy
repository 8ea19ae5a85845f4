/** kernel/sys/timer.c on values: the sorted queue of entries and the record of what fired when. */
module TimerQueue {
  /** stamp counts enqueue operations, so that it tells which of two entries was queued first. */
  datatype Entry = Entry(id: nat, deadline: nat, repeatUs: nat, stamp: nat)

  datatype Firing = Firing(id: nat, tick: nat)

  /** When an entry was inserted, for how many microseconds, and whether to repeat. */
  datatype Birth = Birth(tick: nat, us: nat, repeating: bool) {
    predicate Repeats() {
      repeating && us > 0
    }
  }

  /** Sorted by deadline, entries of equal deadline in the order they were queued. */
  ghost predicate Sorted(q: seq<Entry>) {
    forall i, j :: 0 <= i < j < |q| ==> Before(q[i], q[j])
  }

  predicate Before(a: Entry, b: Entry) {
    a.deadline < b.deadline || (a.deadline == b.deadline && a.stamp < b.stamp)
  }

  /** p is where e goes: behind every entry that is not later. */
  ghost predicate Place(q: seq<Entry>, e: Entry, p: nat) {
    && p <= |q|
    && (forall i :: 0 <= i < p ==> q[i].deadline <= e.deadline)
    && (forall i :: p <= i < |q| ==> e.deadline < q[i].deadline)
  }

  function Put(q: seq<Entry>, e: Entry, p: nat): seq<Entry>
    requires p <= |q|
  {
    q[..p] + [e] + q[p..]
  }

  lemma PutSorted(q: seq<Entry>, e: Entry, p: nat)
    requires Sorted(q) && Place(q, e, p) && forall i :: 0 <= i < |q| ==> q[i].stamp < e.stamp
    ensures Sorted(Put(q, e, p))
  {
    var q' := Put(q, e, p);
    assert forall i {:trigger q'[i]} :: 0 <= i < |q'| ==>
             q'[i] == if i < p then q[i] else if i == p then e else q[i - 1];
  }

  // ---------- entries due now ----------

  ghost function Due(q: seq<Entry>, tick: nat): nat {
    if q == [] then 0 else (if q[0].deadline == tick then 1 else 0) + Due(q[1..], tick)
  }

  lemma {:induction false} DueConcat(a: seq<Entry>, b: seq<Entry>, tick: nat)
    ensures Due(a + b, tick) == Due(a, tick) + Due(b, tick)
  {
    if a == [] {
      assert a + b == b;
    } else {
      assert (a + b)[1..] == a[1..] + b;
      DueConcat(a[1..], b, tick);
    }
  }

  /** Queueing an entry for later leaves the number due now alone. */
  lemma DuePut(q: seq<Entry>, e: Entry, p: nat, tick: nat)
    requires p <= |q| && e.deadline != tick
    ensures Due(Put(q, e, p), tick) == Due(q, tick)
  {
    assert Put(q, e, p) == q[..p] + ([e] + q[p..]) && q == q[..p] + q[p..];
    assert ([e] + q[p..])[1..] == q[p..];
    DueConcat(q[..p], [e] + q[p..], tick);
    DueConcat(q[..p], q[p..], tick);
  }

  // ---------- what fired when ----------

  /** The ticks at which one entry fired, in order. */
  function Fires(log: seq<Firing>, id: nat): seq<nat> {
    if log == [] then [] else
      Fires(log[..|log| - 1], id) + (if log[|log| - 1].id == id then [log[|log| - 1].tick] else [])
  }

  /** The k-th firing of a timer started at b: k periods after the start, no drift. */
  function FireAt(b: Birth, ticksPerUs: nat, k: nat): nat {
    b.tick + k * (b.us * ticksPerUs)
  }

  lemma NextFiring(b: Birth, ticksPerUs: nat, k: nat)
    ensures FireAt(b, ticksPerUs, k) + b.us * ticksPerUs == FireAt(b, ticksPerUs, k + 1)
  {
  }

  function Schedule(b: Birth, ticksPerUs: nat, n: nat): seq<nat> {
    seq(n, k requires 0 <= k < n => FireAt(b, ticksPerUs, k + 1))
  }

  /** Where an entry of the queue stands in its schedule. */
  ghost predicate OnTime(e: Entry, births: map<nat, Birth>, ticksPerUs: nat, log: seq<Firing>) {
    && e.id in births
    && var b := births[e.id];
    && e.repeatUs == (if b.repeating then b.us else 0)
    && e.deadline == FireAt(b, ticksPerUs, |Fires(log, e.id)| + 1)
    && (!b.Repeats() ==> Fires(log, e.id) == [])
  }

  /** An entry that is no longer queued fired once, when it was due. */
  ghost predicate Done(b: Birth, ticksPerUs: nat, fires: seq<nat>) {
    !b.Repeats() && fires == Schedule(b, ticksPerUs, 1)
  }

  ghost predicate Queued(q: seq<Entry>, id: nat) {
    exists i :: 0 <= i < |q| && q[i].id == id
  }

  ghost predicate OneEach(q: seq<Entry>) {
    forall i, j :: 0 <= i < j < |q| ==> q[i].id != q[j].id
  }

  /** Every entry ever inserted has fired by its schedule so far, and is queued for the next firing if there is one. */
  ghost predicate History(q: seq<Entry>, births: map<nat, Birth>, ticksPerUs: nat, log: seq<Firing>) {
    && OneEach(q) && (forall i :: 0 <= i < |q| ==> OnTime(q[i], births, ticksPerUs, log))
    && (forall id :: id in births ==> Fires(log, id) == Schedule(births[id], ticksPerUs, |Fires(log, id)|))
    && (forall id :: id in births && !Queued(q, id) ==> Done(births[id], ticksPerUs, Fires(log, id)))
    && (forall i :: 0 <= i < |log| ==> log[i].id in births)
  }

  lemma FiresMore(log: seq<Firing>, f: Firing, id: nat)
    ensures Fires(log + [f], id) == Fires(log, id) + (if f.id == id then [f.tick] else [])
  {
    assert (log + [f])[..|log|] == log;
  }

  lemma {:induction false} NoFires(log: seq<Firing>, id: nat)
    requires forall i :: 0 <= i < |log| ==> log[i].id != id
    ensures Fires(log, id) == []
  {
    if log != [] {
      NoFires(log[..|log| - 1], id);
    }
  }

  /** A new entry starts with an empty record. */
  lemma Born(q: seq<Entry>, births: map<nat, Birth>, ticksPerUs: nat, log: seq<Firing>, e: Entry, b: Birth, p: nat)
    requires History(q, births, ticksPerUs, log) && e.id !in births && p <= |q|
    requires e.repeatUs == (if b.repeating then b.us else 0) && e.deadline == b.tick + b.us * ticksPerUs
    ensures History(Put(q, e, p), births[e.id := b], ticksPerUs, log)
  {
    NoFires(log, e.id);
    assert FireAt(b, ticksPerUs, 1) == e.deadline;
    PutOneEach(q, e, p);
    var q', births' := Put(q, e, p), births[e.id := b];
    hide FireAt;
    forall i | 0 <= i < |q'| ensures OnTime(q'[i], births', ticksPerUs, log) {
      PutAt(q, e, p, i);
      if q'[i] != e {
        OneOf(q, births, ticksPerUs, log, q'[i]);
      }
    }
  }

  lemma OneOf(q: seq<Entry>, births: map<nat, Birth>, ticksPerUs: nat, log: seq<Firing>, e: Entry)
    requires History(q, births, ticksPerUs, log) && e in q
    ensures OnTime(e, births, ticksPerUs, log)
  {
  }

  lemma PutAt(q: seq<Entry>, e: Entry, p: nat, i: nat)
    requires p <= |q| && i < |Put(q, e, p)|
    ensures Put(q, e, p)[i] == e || Put(q, e, p)[i] in q
  {
  }

  lemma PutOneEach(q: seq<Entry>, e: Entry, p: nat)
    requires OneEach(q) && p <= |q| && !Queued(q, e.id)
    ensures OneEach(Put(q, e, p)) && forall id :: Queued(Put(q, e, p), id) <==> Queued(q, id) || id == e.id
  {
    var q' := Put(q, e, p);
    assert forall i {:trigger q'[i]} :: 0 <= i < |q'| ==>
             q'[i] == if i < p then q[i] else if i == p then e else q[i - 1];
    forall id ensures Queued(q', id) <==> Queued(q, id) || id == e.id {
      if Queued(q, id) {
        var i :| 0 <= i < |q| && q[i].id == id;
        assert q'[if i < p then i else i + 1].id == id;
      }
      assert q'[p] == e;
    }
  }

  lemma PopOne(q: seq<Entry>)
    requires q != [] && OneEach(q)
    ensures OneEach(q[1..]) && forall id :: Queued(q[1..], id) <==> Queued(q, id) && id != q[0].id
  {
    var rest := q[1..];
    forall id ensures Queued(rest, id) <==> Queued(q, id) && id != q[0].id {
      if Queued(q, id) && id != q[0].id {
        var i :| 0 <= i < |q| && q[i].id == id;
        assert rest[i - 1].id == id;
      }
    }
  }

  /** The record after the head fires at its deadline. */
  lemma FireHead(q: seq<Entry>, births: map<nat, Birth>, ticksPerUs: nat, log: seq<Firing>)
    requires History(q, births, ticksPerUs, log) && q != []
    ensures var e := q[0];
      var log', b := log + [Firing(e.id, e.deadline)], births[e.id];
      && (forall i :: 0 < i < |q| ==> OnTime(q[i], births, ticksPerUs, log'))
      && (forall id :: id in births ==> Fires(log', id) == Schedule(births[id], ticksPerUs, |Fires(log', id)|))
      && (forall id :: id in births && id != e.id ==> Fires(log', id) == Fires(log, id))
      && |Fires(log', e.id)| == |Fires(log, e.id)| + 1
      && (!b.Repeats() ==> Done(b, ticksPerUs, Fires(log', e.id)))
      && e.deadline + b.us * ticksPerUs == FireAt(b, ticksPerUs, |Fires(log', e.id)| + 1)
  {
    var e := q[0];
    assert OnTime(e, births, ticksPerUs, log);
    var f, b, n := Firing(e.id, e.deadline), births[e.id], |Fires(log, e.id)|;
    NextFiring(b, ticksPerUs, n + 1);
    hide FireAt;
    forall id ensures Fires(log + [f], id) == Fires(log, id) + (if f.id == id then [f.tick] else []) {
      FiresMore(log, f, id);
    }
    hide Fires;
    assert Schedule(b, ticksPerUs, n + 1) == Schedule(b, ticksPerUs, n) + [FireAt(b, ticksPerUs, n + 1)];
  }

  lemma FireOnce(q: seq<Entry>, births: map<nat, Birth>, ticksPerUs: nat, log: seq<Firing>)
    requires History(q, births, ticksPerUs, log) && q != [] && q[0].repeatUs == 0
    ensures History(q[1..], births, ticksPerUs, log + [Firing(q[0].id, q[0].deadline)])
  {
    FireHead(q, births, ticksPerUs, log);
    PopOne(q);
    assert OnTime(q[0], births, ticksPerUs, log);
    hide Fires, FireAt, Queued, Schedule;
  }

  lemma FireAgain(q: seq<Entry>, births: map<nat, Birth>, ticksPerUs: nat, log: seq<Firing>, e: Entry, p: nat)
    requires History(q, births, ticksPerUs, log) && q != [] && q[0].repeatUs > 0 && p <= |q| - 1
    requires e.id == q[0].id && e.repeatUs == q[0].repeatUs && e.deadline == q[0].deadline + q[0].repeatUs * ticksPerUs
    ensures History(Put(q[1..], e, p), births, ticksPerUs, log + [Firing(q[0].id, q[0].deadline)])
  {
    FireHead(q, births, ticksPerUs, log);
    PopOne(q);
    PutOneEach(q[1..], e, p);
    assert OnTime(q[0], births, ticksPerUs, log);
    hide Fires, FireAt, Queued, Schedule;
    var q', log' := Put(q[1..], e, p), log + [Firing(q[0].id, q[0].deadline)];
    forall i | 0 <= i < |q'| ensures OnTime(q'[i], births, ticksPerUs, log') {
      PutAt(q[1..], e, p, i);
      if q'[i] != e {
        var k :| 0 <= k < |q[1..]| && q[1..][k] == q'[i];
        assert q[k + 1] == q'[i];
      }
    }
  }

  // ---------- what is left after the entries due now have fired ----------

  /** Some entry is for later or comes again. */
  ghost predicate Lasting(q: seq<Entry>, tick: nat) {
    exists i :: 0 <= i < |q| && (q[i].deadline != tick || q[i].repeatUs > 0)
  }

  /** With a repeating entry installed there is always something left to arm for. */
  lemma RepeatingLasts(q: seq<Entry>, births: map<nat, Birth>, ticksPerUs: nat, log: seq<Firing>, tick: nat, id: nat)
    requires History(q, births, ticksPerUs, log) && id in births && births[id].Repeats()
    ensures Queued(q, id) && Lasting(q, tick)
  {
    hide Fires, FireAt, Schedule;
    assert !Done(births[id], ticksPerUs, Fires(log, id));
    var i :| 0 <= i < |q| && q[i].id == id;
    assert OnTime(q[i], births, ticksPerUs, log);
  }

  /** Sorted, with stamps below n, nothing overdue. */
  ghost predicate Orderly(q: seq<Entry>, tick: nat, n: nat) {
    && Sorted(q) && (forall i :: 0 <= i < |q| ==> q[i].stamp < n)
    && (forall i :: 0 <= i < |q| ==> tick <= q[i].deadline)
  }

  lemma PutOrderly(q: seq<Entry>, tick: nat, n: nat, e: Entry, p: nat)
    requires Orderly(q, tick, n) && Place(q, e, p) && e.stamp == n && tick <= e.deadline
    ensures Orderly(Put(q, e, p), tick, n + 1)
  {
    PutSorted(q, e, p);
    var q' := Put(q, e, p);
    assert forall i {:trigger q'[i]} :: 0 <= i < |q'| ==>
             q'[i] == if i < p then q[i] else if i == p then e else q[i - 1];
    hide Put;
  }

  lemma PopOrderly(q: seq<Entry>, tick: nat, n: nat)
    requires Orderly(q, tick, n) && q != []
    ensures Orderly(q[1..], tick, n)
  {
  }

  lemma AgainLasts(q: seq<Entry>, e: Entry, p: nat, tick: nat)
    requires q != [] && q[0].repeatUs > 0 && q[0].deadline == tick && p <= |q| - 1 && tick < e.deadline
    ensures Lasting(q, tick) && Lasting(Put(q[1..], e, p), tick)
    ensures Due(Put(q[1..], e, p), tick) < Due(q, tick)
  {
    DuePut(q[1..], e, p, tick);
    assert Put(q[1..], e, p)[p] == e;
  }

  lemma OnceLasts(q: seq<Entry>, tick: nat)
    requires q != [] && q[0].repeatUs == 0 && q[0].deadline == tick
    ensures Lasting(q, tick) <==> Lasting(q[1..], tick)
    ensures Due(q[1..], tick) < Due(q, tick)
  {
    var rest := q[1..];
    if Lasting(q, tick) {
      var i :| 0 <= i < |q| && (q[i].deadline != tick || q[i].repeatUs > 0);
      assert rest[i - 1] == q[i];
    }
  }

  lemma LaterDeadline(tick: nat, us: nat, ticksPerUs: nat)
    requires us > 0 && ticksPerUs > 0
    ensures us * ticksPerUs > 0
  {
  }

  lemma AddLasts(q: seq<Entry>, e: Entry, p: nat, tick: nat, us: nat, ticksPerUs: nat)
    requires p <= |q| && ticksPerUs > 0 && e.deadline == tick + us * ticksPerUs && (us == 0 ==> e.repeatUs == 0)
    ensures Lasting(Put(q, e, p), tick) <==> us > 0 || Lasting(q, tick)
  {
    var q' := Put(q, e, p);
    assert forall i {:trigger q'[i]} :: 0 <= i < |q'| ==>
             q'[i] == if i < p then q[i] else if i == p then e else q[i - 1];
    if us > 0 {
      LaterDeadline(tick, us, ticksPerUs);
      assert q'[p] == e;
    } else if Lasting(q, tick) {
      var i :| 0 <= i < |q| && (q[i].deadline != tick || q[i].repeatUs > 0);
      assert q'[if i < p then i else i + 1] == q[i];
    }
  }
}
