/**
 * The public form of a snapshot, capped at 10000 attempts, and the normalizer that
 * accepts or rejects such a form when it comes from elsewhere. Rates are left out.
 */
module TelemetryPublic {
  import opened Options
  import opened TelemetryLog
  import opened TelemetryRing
  import opened TelemetryGroups
  import opened Telemetry

  const LIMIT := 10000
  /** No counted event is older than the window and one bucket. */
  const OLDEST := 305000

  datatype EventSummary = EventSummary(attempts: int, successes: int, failures: int, pending: int, saturated: bool,
                                       activeLoop: bool, lastEventAt: Option<int>)

  datatype Summary = Summary(scope: string, asOf: int, activeLoop: bool, events: map<string, EventSummary>)

  /** The daemon's form of one kind; scaled is the share of failures as its floating point rounds it. */
  function RecoveryEvent(attempts: int, successes: int, failures: int, scaled: int, loop: bool, last: int): EventSummary {
    if attempts > LIMIT then
      var capped := if loop && scaled < THRESHOLD then THRESHOLD else scaled;
      EventSummary(LIMIT, LIMIT - capped, capped, 0, true, loop, Some(last))
    else EventSummary(attempts, successes, failures, 0, false, loop, if attempts > 0 then Some(last) else None)
  }

  function Min(a: int, b: int): int { if a < b then a else b }

  /** The extension's form of one kind, likewise. */
  function PublicEventSummary(attempts: int, successes: int, failures: int, scaled: int, loop: bool, last: int): EventSummary {
    if attempts <= LIMIT then
      EventSummary(attempts, successes, failures, 0, false, loop, if attempts > 0 then Some(last) else None)
    else
      var least := if loop then THRESHOLD else 0;
      var capped := Min(LIMIT, if least < scaled then scaled else least);
      EventSummary(LIMIT, LIMIT - capped, capped, 0, true, loop, Some(last))
  }

  /** A share of failures that rounding keeps between none and all of them. */
  predicate Share(scaled: int) {
    0 <= scaled <= LIMIT
  }

  predicate AnyLoop(events: map<string, EventSummary>) {
    exists kind :: kind in KINDS && kind in events && events[kind].activeLoop
  }

  function SummaryOf(scope: string, now: int, events: map<string, EventSummary>): Summary {
    Summary(scope, now, AnyLoop(events), events)
  }

  function ScaledOf(scaled: map<string, int>, kind: string): int {
    if kind in scaled then scaled[kind] else 0
  }

  function Published(readings: map<string, Reading>, scaled: map<string, int>): map<string, EventSummary> {
    map kind | kind in readings ::
      RecoveryEvent(readings[kind].counts.attempts, readings[kind].counts.successes, readings[kind].counts.failures,
                    ScaledOf(scaled, kind), readings[kind].loop, readings[kind].counts.last)
  }

  function PublishedByExtension(readings: map<string, Reading>, scaled: map<string, int>): map<string, EventSummary> {
    map kind | kind in readings ::
      PublicEventSummary(readings[kind].counts.attempts, readings[kind].counts.successes, readings[kind].counts.failures,
                         ScaledOf(scaled, kind), readings[kind].loop, readings[kind].counts.last)
  }

  /** The daemon and the extension publish the same summary of the same readings, however the quotients round. */
  lemma PublishersAgree(readings: map<string, Reading>, scaled: map<string, int>)
    requires forall kind :: kind in readings ==> Share(ScaledOf(scaled, kind))
    ensures Published(readings, scaled) == PublishedByExtension(readings, scaled)
  {
    var s, t := Published(readings, scaled), PublishedByExtension(readings, scaled);
    forall kind | kind in readings
      ensures s[kind] == t[kind]
    {
      assert Share(ScaledOf(scaled, kind));
    }
  }

  /**
   * Up to 10000 attempts the daemon publishes the counts as they are; beyond them it
   * publishes 10000, divided as the failures were, with at least three failures in a loop.
   */
  lemma PublishedIsExact(scope: string, now: int, readings: map<string, Reading>, scaled: map<string, int>, kind: string)
    requires kind in readings && readings[kind].counts.attempts >= 0 && Share(ScaledOf(scaled, kind))
    ensures kind in Published(readings, scaled)
    ensures var r, e := readings[kind], Published(readings, scaled)[kind];
      && e.activeLoop == r.loop && e.pending == 0 && (e.saturated <==> r.counts.attempts > 10000)
      && (r.counts.attempts <= 10000 ==>
            e.attempts == r.counts.attempts && e.successes == r.counts.successes && e.failures == r.counts.failures)
      && (r.counts.attempts > 10000 ==>
            && e.attempts == 10000 == e.successes + e.failures
            && e.failures == (if r.loop && ScaledOf(scaled, kind) < 3 then 3 else ScaledOf(scaled, kind)))
      && e.lastEventAt == (if r.counts.attempts > 0 then Some(r.counts.last) else None)
    ensures kind in KINDS && readings[kind].loop ==> SummaryOf(scope, now, Published(readings, scaled)).activeLoop
  {}

  // ---- the normalizer ----

  /** A field that should hold a number or null. */
  datatype RawTime = Null | Number(n: int) | Other

  /** A field is None when it is missing or has another type. */
  datatype RawEvent = RawEvent(attempts: Option<int>, successes: Option<int>, failures: Option<int>, pending: Option<int>,
                               saturated: Option<bool>, activeLoop: bool, lastEventAt: RawTime)

  datatype Raw = Raw(scope: string, asOf: Option<int>, events: map<string, RawEvent>)

  predicate Countable(e: RawEvent) {
    && e.attempts.Some? && e.successes.Some? && e.failures.Some? && e.pending.Some? && e.saturated.Some?
    && e.attempts.value >= 0 && e.successes.value >= 0 && e.failures.value >= 0 && e.pending.value >= 0
    && e.successes.value + e.failures.value + e.pending.value == e.attempts.value <= LIMIT
    && (e.saturated.value ==> e.attempts.value == LIMIT)
  }

  predicate Timely(e: RawEvent, asOf: int)
    requires e.attempts.Some?
  {
    if e.attempts.value == 0 then e.lastEventAt == Null
    else e.lastEventAt.Number? && 0 <= e.lastEventAt.n <= asOf && asOf - OLDEST <= e.lastEventAt.n
  }

  function NormalEvent(e: RawEvent, asOf: int): Option<EventSummary> {
    if !Countable(e) || !Timely(e, asOf) then None
    else
      var last := if e.lastEventAt.Number? then e.lastEventAt.n else 0;
      var loop := e.activeLoop && e.failures.value >= THRESHOLD;
      Some(RecoveryEvent(e.attempts.value, e.successes.value, e.failures.value, 0, loop, last)
           .(pending := e.pending.value, saturated := e.saturated.value))
  }

  predicate AllNormal(raw: Raw, asOf: int) {
    forall kind :: kind in KINDS ==> kind in raw.events && NormalEvent(raw.events[kind], asOf).Some?
  }

  function NormalEvents(raw: Raw, asOf: int): map<string, EventSummary>
    requires AllNormal(raw, asOf)
  {
    map kind | kind in KINDS :: NormalEvent(raw.events[kind], asOf).value
  }

  function Normalize(raw: Raw, scope: string): Option<Summary> {
    if raw.scope != scope || raw.asOf.None? || raw.asOf.value < 0 || !AllNormal(raw, raw.asOf.value) then None
    else Some(SummaryOf(scope, raw.asOf.value, NormalEvents(raw, raw.asOf.value)))
  }

  /** The event has the numbers of the form; a loop needs three failures. */
  predicate SameEvent(e: RawEvent, s: EventSummary) {
    && e.attempts == Some(s.attempts) && e.successes == Some(s.successes) && e.failures == Some(s.failures)
    && e.pending == Some(s.pending) && e.saturated == Some(s.saturated)
    && (s.activeLoop <==> e.activeLoop && s.failures >= 3)
    && (match s.lastEventAt case Some(at) => e.lastEventAt == Number(at) case None => e.lastEventAt == Null)
  }

  lemma NormalIsSame(e: RawEvent, asOf: int)
    ensures NormalEvent(e, asOf).Some? ==> SameEvent(e, NormalEvent(e, asOf).value)
  {}

  lemma AnyLoopIs(events: map<string, EventSummary>)
    requires events.Keys == set kind | kind in KINDS
    ensures AnyLoop(events) <==> exists kind :: kind in KINDS && events[kind].activeLoop
  {}

  method NormalizeRecovery(raw: Raw, scope: string) returns (summary: Option<Summary>)
    ensures summary == Normalize(raw, scope)
    ensures summary.Some? ==>
      && summary.value.scope == scope == raw.scope && raw.asOf == Some(summary.value.asOf)
      && summary.value.events.Keys == (set kind | kind in KINDS)
      && (forall kind :: kind in KINDS ==> kind in raw.events && SameEvent(raw.events[kind], summary.value.events[kind]))
      && (summary.value.activeLoop <==> exists kind :: kind in KINDS && summary.value.events[kind].activeLoop)
  {
    hide NormalEvent, RecoveryEvent, AnyLoop, SameEvent;
    if raw.scope != scope || raw.asOf.None? || raw.asOf.value < 0 {
      return None;
    }
    var events: map<string, EventSummary> := map[];
    for i := 0 to |KINDS|
      invariant events.Keys == set kind | kind in KINDS[..i]
      invariant forall kind :: kind in KINDS[..i] ==>
        kind in raw.events && NormalEvent(raw.events[kind], raw.asOf.value) == Some(events[kind])
    {
      var kind := KINDS[i];
      assert KINDS[..i + 1] == KINDS[..i] + [kind];
      if kind !in raw.events {
        assert kind in KINDS;
        return None;
      }
      var normal := NormalEvent(raw.events[kind], raw.asOf.value);
      if normal.None? {
        assert kind in KINDS;
        return None;
      }
      events := events[kind := normal.value];
    }
    assert KINDS[..|KINDS|] == KINDS;
    assert events == NormalEvents(raw, raw.asOf.value);
    forall kind | kind in KINDS
      ensures SameEvent(raw.events[kind], events[kind])
    {
      NormalIsSame(raw.events[kind], raw.asOf.value);
    }
    AnyLoopIs(events);
    return Some(SummaryOf(scope, raw.asOf.value, events));
  }

  // ---- what the collector emits is accepted unchanged ----

  function Encode(e: EventSummary): RawEvent {
    RawEvent(Some(e.attempts), Some(e.successes), Some(e.failures), Some(e.pending), Some(e.saturated), e.activeLoop,
             match e.lastEventAt case None => Null case Some(n) => Number(n))
  }

  function EncodeSummary(s: Summary): Raw {
    Raw(s.scope, Some(s.asOf), map kind | kind in s.events :: Encode(s.events[kind]))
  }

  /** What the log guarantees of a reading. */
  predicate Sound(r: Reading, now: nat) {
    && r.counts.attempts == r.counts.successes + r.counts.failures
    && (r.counts.attempts > 0 ==> now - OLDEST <= r.counts.last <= now)
    && (r.loop ==> r.counts.failures >= THRESHOLD)
  }

  lemma {:induction false} TallyLastIsEvent(log: seq<Event>, p: Event -> bool) returns (e: Event)
    requires Tally(log, p).attempts > 0
    ensures e in log && p(e) && e.at == Tally(log, p).last
  {
    e := log[|log| - 1];
    if !p(e) {
      e := TallyLastIsEvent(log[..|log| - 1], p);
    }
  }

  /** Every reading of a snapshot under a steady clock is sound. */
  lemma ReadingIsSound(log: seq<Event>, forgotten: Forgotten, kind: string, now: nat, r: Reading)
    requires Ordered(log) && forall e :: e in log ==> e.at <= now
    requires r.counts == Tally(log, Windowed(kind, now))
    requires r.loop <==> LoopIn(log, forgotten, kind, now)
    ensures Sound(r, now)
  {
    hide Tally, LoopIn;
    TallyLast(log, Windowed(kind, now), now);
    if r.counts.attempts > 0 {
      var e := TallyLastIsEvent(log, Windowed(kind, now));
    }
    if r.loop {
      LoopHasThreeFailures(log, forgotten, kind, now);
      TallySame(log, Windowed(kind, now), (e: Event) => e.kind == kind && InWindow(e.at, now));
    }
  }

  lemma SoundSurvives(r: Reading, scaled: int, now: nat)
    requires Sound(r, now)
    ensures var e := PublicEventSummary(r.counts.attempts, r.counts.successes, r.counts.failures, scaled, r.loop, r.counts.last);
      NormalEvent(Encode(e), now) == Some(e)
  {}

  /** The readings are those of a snapshot of the log. */
  ghost predicate ReadingsOf(log: seq<Event>, forgotten: Forgotten, now: nat, readings: map<string, Reading>) {
    && Ordered(log) && (forall e :: e in log ==> e.at <= now)
    && readings.Keys == (set kind | kind in KINDS)
    && forall kind :: kind in KINDS ==>
         && readings[kind].counts == Tally(log, Windowed(kind, now))
         && (readings[kind].loop <==> LoopIn(log, forgotten, kind, now))
  }

  /** The normalizer returns every snapshot that the extension can publish unchanged, whatever rounding makes of the quotients. */
  lemma ExtensionSnapshotSurvives(log: seq<Event>, forgotten: Forgotten, scope: string, now: nat, readings: map<string, Reading>,
                                  scaled: map<string, int>)
    requires ReadingsOf(log, forgotten, now, readings)
    ensures var s := SummaryOf(scope, now, PublishedByExtension(readings, scaled)); Normalize(EncodeSummary(s), scope) == Some(s)
  {
    hide Tally, LoopIn, Windowed, Ordered, NormalEvent, PublicEventSummary, Encode, AnyLoop, Sound;
    var s := SummaryOf(scope, now, PublishedByExtension(readings, scaled));
    forall kind | kind in KINDS
      ensures kind in s.events && NormalEvent(Encode(s.events[kind]), now) == Some(s.events[kind])
    {
      assert kind in readings.Keys;
      ReadingIsSound(log, forgotten, kind, now, readings[kind]);
      SoundSurvives(readings[kind], ScaledOf(scaled, kind), now);
    }
    var raw := EncodeSummary(s);
    assert AllNormal(raw, now);
    assert NormalEvents(raw, now) == s.events;
  }

  /** The same of the daemon's snapshots, saturated ones included. */
  lemma SnapshotSurvives(log: seq<Event>, forgotten: Forgotten, scope: string, now: nat, readings: map<string, Reading>,
                         scaled: map<string, int>)
    requires ReadingsOf(log, forgotten, now, readings)
    requires forall kind :: kind in readings ==> Share(ScaledOf(scaled, kind))
    ensures var s := SummaryOf(scope, now, Published(readings, scaled)); Normalize(EncodeSummary(s), scope) == Some(s)
  {
    hide ReadingsOf, Published, PublishedByExtension, Normalize, EncodeSummary;
    PublishersAgree(readings, scaled);
    ExtensionSnapshotSurvives(log, forgotten, scope, now, readings, scaled);
  }

  /** Normalizing twice is normalizing once. */
  lemma NormalizeTwice(raw: Raw, scope: string)
    requires Normalize(raw, scope).Some?
    ensures Normalize(EncodeSummary(Normalize(raw, scope).value), scope) == Normalize(raw, scope)
  {
    hide NormalEvent, RecoveryEvent, Encode, AnyLoop;
    var asOf := raw.asOf.value;
    var s := Normalize(raw, scope).value;
    forall kind | kind in KINDS
      ensures kind in s.events && NormalEvent(Encode(s.events[kind]), asOf) == Some(s.events[kind])
    {
      NormalEventTwice(raw.events[kind], asOf);
    }
    assert AllNormal(EncodeSummary(s), asOf);
    assert NormalEvents(EncodeSummary(s), asOf) == s.events;
  }

  lemma NormalEventTwice(e: RawEvent, asOf: int)
    requires NormalEvent(e, asOf).Some?
    ensures NormalEvent(Encode(NormalEvent(e, asOf).value), asOf) == NormalEvent(e, asOf)
  {}
}
