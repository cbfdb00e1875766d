/**
 * The event log that recovery telemetry stands for: every recorded event with its
 * time, and the counts that can be taken over any part of it.
 */
module TelemetryLog {
  const BUCKET := 5000
  const SLOTS := 61
  const WINDOW := 300000
  const LOOP_WINDOW := 60000

  /** Times are milliseconds, never negative. */
  datatype Event = Event(kind: string, group: string, ok: bool, at: nat)

  datatype Counts = Counts(attempts: nat, successes: nat, failures: nat, last: nat)

  const NOTHING := Counts(0, 0, 0, 0)

  /** The log was written by a clock that never went back. */
  predicate Ordered(log: seq<Event>) {
    forall i, j :: 0 <= i < j < |log| ==> log[i].at <= log[j].at
  }

  function Max(a: nat, b: nat): nat {
    if a < b then b else a
  }

  function Bump(c: Counts, ok: bool, at: nat): Counts {
    Counts(c.attempts + 1, c.successes + (if ok then 1 else 0), c.failures + (if ok then 0 else 1), at)
  }

  function Merge(c: Counts, d: Counts): Counts {
    Counts(c.attempts + d.attempts, c.successes + d.successes, c.failures + d.failures, Max(c.last, d.last))
  }

  /** How many events satisfy p, how they ended, and when the last of them was. */
  function Tally(log: seq<Event>, p: Event -> bool): Counts {
    if log == [] then NOTHING else
      var e, before := log[|log| - 1], Tally(log[..|log| - 1], p);
      if p(e) then Bump(before, e.ok, e.at) else before
  }

  lemma {:induction false} TallyAppend(log: seq<Event>, e: Event, p: Event -> bool)
    ensures Tally(log + [e], p) == if p(e) then Bump(Tally(log, p), e.ok, e.at) else Tally(log, p)
  {
    assert (log + [e])[..|log|] == log;
  }

  lemma {:induction false} TallySame(log: seq<Event>, p: Event -> bool, q: Event -> bool)
    requires forall e :: e in log ==> p(e) == q(e)
    ensures Tally(log, p) == Tally(log, q)
  {
    if log != [] {
      assert log[|log| - 1] in log;
      TallySame(log[..|log| - 1], p, q);
    }
  }

  lemma {:induction false} TallyNothing(log: seq<Event>, p: Event -> bool)
    requires forall e :: e in log ==> !p(e)
    ensures Tally(log, p) == NOTHING
  {
    if log != [] {
      assert log[|log| - 1] in log;
      TallyNothing(log[..|log| - 1], p);
    }
  }

  lemma {:induction false} TallyLast(log: seq<Event>, p: Event -> bool, at: nat)
    requires forall e :: e in log ==> e.at <= at
    ensures Tally(log, p).last <= at
    ensures var c := Tally(log, p); c.attempts == c.successes + c.failures
  {
    if log != [] {
      assert log[|log| - 1] in log;
      TallyLast(log[..|log| - 1], p, at);
    }
  }

  /** p and q are separate parts of the log that make up both. */
  predicate Parts(log: seq<Event>, p: Event -> bool, q: Event -> bool, both: Event -> bool) {
    forall e :: e in log ==> !(p(e) && q(e)) && both(e) == (p(e) || q(e))
  }

  lemma PartsFront(log: seq<Event>, p: Event -> bool, q: Event -> bool, both: Event -> bool)
    requires Parts(log, p, q, both) && log != []
    ensures Parts(log[..|log| - 1], p, q, both)
    ensures var e := log[|log| - 1]; !(p(e) && q(e)) && both(e) == (p(e) || q(e))
  {
    assert log[|log| - 1] in log;
  }

  /** Counting two separate parts of an ordered log and adding up is counting both together. */
  lemma {:induction false} TallyMerge(log: seq<Event>, p: Event -> bool, q: Event -> bool, both: Event -> bool)
    requires Ordered(log) && Parts(log, p, q, both)
    ensures Tally(log, both) == Merge(Tally(log, p), Tally(log, q))
    decreases |log|
  {
    hide Ordered, Tally, Parts, Merge, Bump;
    if log == [] {
      TallyEmpty(log, p);
      TallyEmpty(log, q);
      TallyEmpty(log, both);
      MergeNothing(Tally(log, p), Tally(log, q));
    } else {
      var front, e := log[..|log| - 1], log[|log| - 1];
      OrderedFront(log);
      PartsFront(log, p, q, both);
      assert log == front + [e];
      TallyMerge(front, p, q, both);
      TallyLast(front, p, e.at);
      TallyLast(front, q, e.at);
      TallyAppend(front, e, p);
      TallyAppend(front, e, q);
      TallyAppend(front, e, both);
      MergeBump(Tally(front, p), Tally(front, q), e.ok, e.at);
    }
  }

  lemma MergeNothing(c: Counts, d: Counts)
    requires d.attempts == d.successes == d.failures == d.last == 0
    ensures Merge(c, d) == c
  {}

  lemma MergeBump(c: Counts, d: Counts, ok: bool, at: nat)
    requires c.last <= at && d.last <= at
    ensures Bump(Merge(c, d), ok, at) == Merge(Bump(c, ok, at), d) == Merge(c, Bump(d, ok, at))
  {}

  lemma TallyEmpty(log: seq<Event>, p: Event -> bool)
    requires log == []
    ensures Tally(log, p) == NOTHING
  {}

  lemma OrderedFront(log: seq<Event>)
    requires Ordered(log) && log != []
    ensures Ordered(log[..|log| - 1]) && log[|log| - 1] in log
    ensures forall x :: x in log[..|log| - 1] ==> x in log && x.at <= log[|log| - 1].at
  {}

  /** The bucket an event falls into, and the ring slot that bucket uses. */
  function Start(at: nat): nat { at / BUCKET * BUCKET }

  function Slot(at: nat): nat { at / BUCKET % SLOTS }

  /** The bucket of the event overlaps the last five minutes. */
  predicate InWindow(at: nat, now: nat) {
    Start(at) + BUCKET > now - WINDOW && Start(at) <= now
  }

  /** Two buckets that share a slot and are both in the window are the same bucket. */
  lemma SlotsDoNotCollide(a: nat, b: nat, now: nat)
    requires Slot(a) == Slot(b) && InWindow(a, now) && InWindow(b, now)
    ensures Start(a) == Start(b)
  {
    var x, y := a / BUCKET, b / BUCKET;
    assert x % SLOTS == y % SLOTS;
    assert x - y == SLOTS * (x / SLOTS - y / SLOTS);
  }
}

/** The ring of 61 buckets, and why it agrees with the log. */
module TelemetryRing {
  import opened Options
  import opened TelemetryLog

  datatype Bucket = Bucket(start: nat, events: map<string, Counts>)

  type Ring = seq<Option<Bucket>>

  function CountsOf(b: Bucket, kind: string): Counts {
    if kind in b.events then b.events[kind] else NOTHING
  }

  function OfBucket(kind: string, start: nat): Event -> bool {
    (e: Event) => e.kind == kind && Start(e.at) == start
  }

  /**
   * The slot holds the latest bucket of its events, with the counts of exactly that
   * bucket's events.
   */
  ghost predicate SlotHolds(slot: Option<Bucket>, log: seq<Event>, i: nat) {
    match slot
    case None => forall e :: e in log ==> Slot(e.at) != i
    case Some(b) =>
      && Slot(b.start) == i && Start(b.start) == b.start
      && (exists e :: e in log && Start(e.at) == b.start)
      && (forall e :: e in log && Slot(e.at) == i ==> Start(e.at) <= b.start)
      && (forall kind :: CountsOf(b, kind) == Tally(log, OfBucket(kind, b.start)))
  }

  ghost predicate RingHolds(ring: Ring, log: seq<Event>) {
    |ring| == SLOTS && forall i :: 0 <= i < SLOTS ==> SlotHolds(ring[i], log, i)
  }

  /** The bucket of a slot after an event fell into it. */
  function Fill(slot: Option<Bucket>, e: Event): Bucket {
    var b := if slot.None? || slot.value.start != Start(e.at) then Bucket(Start(e.at), map[]) else slot.value;
    b.(events := b.events[e.kind := Bump(CountsOf(b, e.kind), e.ok, e.at)])
  }

  lemma SlotOfStart(at: nat)
    ensures Slot(Start(at)) == Slot(at) && Start(Start(at)) == Start(at) <= at
  {}

  lemma StartGrows(a: nat, b: nat)
    requires a <= b
    ensures Start(a) <= Start(b)
  {}

  lemma FillHolds(slot: Option<Bucket>, log: seq<Event>, e: Event)
    requires Ordered(log + [e]) && SlotHolds(slot, log, Slot(e.at))
    ensures SlotHolds(Some(Fill(slot, e)), log + [e], Slot(e.at))
  {
    hide Slot, Start, Tally;
    var b := Fill(slot, e);
    var after := log + [e];
    SlotOfStart(e.at);
    assert e in after;
    forall x | x in log
      ensures Start(x.at) <= Start(e.at) && x in after
    {
      var i :| 0 <= i < |log| && log[i] == x;
      assert after[i] == x && after[|log|] == e;
      StartGrows(x.at, e.at);
    }
    forall kind
      ensures CountsOf(b, kind) == Tally(after, OfBucket(kind, b.start))
    {
      TallyAppend(log, e, OfBucket(kind, b.start));
      if slot.None? || slot.value.start != Start(e.at) {
        if x :| x in log && Start(x.at) == Start(e.at) {
          SlotOfStart(x.at);
        }
        TallyNothing(log, OfBucket(kind, b.start));
      }
    }
  }

  lemma OtherSlotHolds(slot: Option<Bucket>, log: seq<Event>, e: Event, i: nat)
    requires SlotHolds(slot, log, i) && Slot(e.at) != i
    ensures SlotHolds(slot, log + [e], i)
  {
    hide Slot, Start, Tally;
    SlotOfStart(e.at);
    if slot.Some? {
      assert Start(e.at) != slot.value.start;
      var x :| x in log && Start(x.at) == slot.value.start;
      assert x in log + [e];
      forall kind
        ensures CountsOf(slot.value, kind) == Tally(log + [e], OfBucket(kind, slot.value.start))
      {
        TallyAppend(log, e, OfBucket(kind, slot.value.start));
      }
    }
  }

  lemma RingKeeps(ring: Ring, log: seq<Event>, e: Event)
    requires RingHolds(ring, log) && Ordered(log + [e])
    ensures RingHolds(ring[Slot(e.at) := Some(Fill(ring[Slot(e.at)], e))], log + [e])
  {
    hide Slot, SlotHolds, Fill;
    SlotInRange(e.at);
    FillHolds(ring[Slot(e.at)], log, e);
    forall i | 0 <= i < SLOTS && i != Slot(e.at)
      ensures SlotHolds(ring[i], log + [e], i)
    {
      OtherSlotHolds(ring[i], log, e, i);
    }
  }

  lemma SlotInRange(at: nat)
    ensures Slot(at) < SLOTS
  {}

  // ---- reading ----

  function Windowed(kind: string, now: nat): Event -> bool {
    (e: Event) => e.kind == kind && InWindow(e.at, now)
  }

  function WindowedBelow(kind: string, now: nat, slots: nat): Event -> bool {
    (e: Event) => e.kind == kind && InWindow(e.at, now) && Slot(e.at) < slots
  }

  function WindowedAt(kind: string, now: nat, slot: nat): Event -> bool {
    (e: Event) => e.kind == kind && InWindow(e.at, now) && Slot(e.at) == slot
  }

  predicate BucketInWindow(b: Bucket, now: nat) {
    b.start + BUCKET > now - WINDOW && b.start <= now
  }

  /** What a slot adds to the counts. */
  function SlotCounts(slot: Option<Bucket>, kind: string, now: nat): Counts {
    if slot.None? || !BucketInWindow(slot.value, now) then NOTHING else CountsOf(slot.value, kind)
  }

  /** A slot in the window holds every event of the window that belongs to it. */
  lemma SlotIsExact(slot: Option<Bucket>, log: seq<Event>, i: nat, kind: string, now: nat)
    requires SlotHolds(slot, log, i) && forall e :: e in log ==> e.at <= now
    ensures SlotCounts(slot, kind, now) == Tally(log, WindowedAt(kind, now, i))
  {
    hide Tally, Slot, Start;
    if slot.None? {
      TallyNothing(log, WindowedAt(kind, now, i));
    } else {
      var b := slot.value;
      var x :| x in log && Start(x.at) == b.start;
      SlotOfStart(x.at);
      forall e | e in log && WindowedAt(kind, now, i)(e)
        ensures BucketInWindow(b, now) && Start(e.at) == b.start
      {
        SlotsDoNotCollide(e.at, x.at, now);
      }
      if BucketInWindow(b, now) {
        forall e | e in log
          ensures OfBucket(kind, b.start)(e) == WindowedAt(kind, now, i)(e)
        {
          SlotOfStart(e.at);
        }
        TallySame(log, OfBucket(kind, b.start), WindowedAt(kind, now, i));
      } else {
        TallyNothing(log, WindowedAt(kind, now, i));
      }
    }
  }

  lemma SlotsAddUp(log: seq<Event>, kind: string, now: nat, i: nat)
    requires Ordered(log)
    ensures Tally(log, WindowedBelow(kind, now, i + 1)) ==
      Merge(Tally(log, WindowedBelow(kind, now, i)), Tally(log, WindowedAt(kind, now, i)))
  {
    hide Tally, Slot, InWindow;
    TallyMerge(log, WindowedBelow(kind, now, i), WindowedAt(kind, now, i), WindowedBelow(kind, now, i + 1));
  }

  lemma SlotsEnds(log: seq<Event>, kind: string, now: nat)
    ensures Tally(log, WindowedBelow(kind, now, 0)) == NOTHING
    ensures Tally(log, WindowedBelow(kind, now, SLOTS)) == Tally(log, Windowed(kind, now))
  {
    hide Tally, InWindow;
    TallyNothing(log, WindowedBelow(kind, now, 0));
    forall e | e in log
      ensures WindowedBelow(kind, now, SLOTS)(e) == Windowed(kind, now)(e)
    {
      SlotInRange(e.at);
    }
    TallySame(log, WindowedBelow(kind, now, SLOTS), Windowed(kind, now));
  }
}
