/**
 * The collector. It keeps no log; its ghost log is the list of recorded events, and
 * while the clock has never gone back its buckets and groups agree with that log.
 */
module Telemetry {
  import opened Options
  import opened FiniteSets
  import opened TelemetryLog
  import opened TelemetryRing
  import opened TelemetryGroups

  const KINDS := ["automatic_mcp_retry", "stale_ref_recovery", "debugger_reattach", "content_script_reinjection",
                  "native_host_reconnect", "request_outcome"]

  /** What a snapshot reports of one kind, before it is made public. */
  datatype Reading = Reading(counts: Counts, loop: bool)

  class Collector {
    const buckets: array<Option<Bucket>>
    var groups: Groups
    ghost var log: seq<Event>
    ghost var forgotten: Forgotten
    ghost var last: nat
    /** The clock has never gone back. */
    ghost var steady: bool

    ghost predicate Shape()
      reads this, buckets
    {
      && buckets.Length == SLOTS && |groups| <= MAX_GROUPS
      && forall key :: key in groups ==> groups[key].Shape()
    }

    ghost predicate Faithful()
      reads this, buckets
    {
      && Ordered(log) && (forall e :: e in log ==> e.at <= last)
      && RingHolds(buckets[..], log)
      && GroupsHold(groups, log, forgotten, last)
    }

    ghost predicate Valid()
      reads this, buckets
    {
      Shape() && (steady ==> Faithful())
    }

    constructor ()
      ensures Valid() && steady && log == [] && last == 0 && forgotten == map[] && fresh(buckets)
    {
      buckets := new Option<Bucket>[SLOTS](i => None);
      groups := map[];
      log, forgotten, last, steady := [], map[], 0, true;
      new;
      assert forall i :: 0 <= i < SLOTS ==> buckets[..][i] == None;
    }

    function Clamp(clock: int): nat {
      if clock < 0 then 0 else clock
    }

    /** Groups without a failure in the last minute are dropped. */
    method PruneGroups(now: nat)
      modifies this`groups
      ensures groups == Prune(old(groups), now)
    {
      hide Recent;
      var keys := groups.Keys;
      var pruned: Groups := groups;
      while keys != {}
        invariant keys <= groups.Keys && groups == old(groups)
        invariant pruned == map key | key in groups && (key in keys || Recent(groups[key], now)) :: groups[key]
        decreases |keys|
      {
        var key :| key in keys;
        keys := keys - {key};
        if !Recent(groups[key], now) {
          pruned := pruned - {key};
        }
      }
      groups := pruned;
    }

    /** Makes room for a new group by evicting one that was touched longest ago. */
    method EvictOldest() returns (ghost evicted: Option<Key>)
      requires |groups| <= MAX_GROUPS
      modifies this`groups
      ensures |groups| < MAX_GROUPS
      ensures evicted.None? ==> |old(groups)| < MAX_GROUPS && groups == old(groups)
      ensures evicted.Some? ==>
        && |old(groups)| == MAX_GROUPS && evicted.value in old(groups) && groups == old(groups) - {evicted.value}
        && forall k :: k in old(groups) ==> old(groups)[evicted.value].touched <= old(groups)[k].touched
    {
      evicted := None;
      while |groups| >= MAX_GROUPS
        invariant evicted.None? ==> groups == old(groups) && |groups| <= MAX_GROUPS
        invariant evicted.Some? ==>
          && |old(groups)| == MAX_GROUPS && evicted.value in old(groups) && groups == old(groups) - {evicted.value}
          && |groups| < MAX_GROUPS
          && forall k :: k in old(groups) ==> old(groups)[evicted.value].touched <= old(groups)[k].touched
        decreases |groups|
      {
        var oldest: Option<Key> := None;
        var keys := groups.Keys;
        while keys != {}
          invariant keys <= groups.Keys && (oldest.None? ==> keys == groups.Keys)
          invariant oldest.Some? ==>
            && oldest.value in groups
            && forall k :: k in groups && k !in keys ==> groups[oldest.value].touched <= groups[k].touched
          decreases |keys|
        {
          var key :| key in keys;
          keys := keys - {key};
          if oldest.None? || groups[key].touched < groups[oldest.value].touched {
            oldest := Some(key);
          }
        }
        evicted := oldest;
        SmallerWithout(groups, oldest.value);
        groups := groups - {oldest.value};
      }
    }

    /** The bucket of the event is started or counted up. */
    method Count(e: Event)
      requires buckets.Length == SLOTS
      modifies buckets
      ensures buckets[..] == old(buckets[..])[Slot(e.at) := Some(Fill(old(buckets[..])[Slot(e.at)], e))]
    {
      SlotInRange(e.at);
      var start := e.at / BUCKET * BUCKET;
      var slot := start / BUCKET % SLOTS;
      SlotOfStart(e.at);
      hide Slot, Start;
      var b := if buckets[slot].None? || buckets[slot].value.start != start then Bucket(start, map[]) else buckets[slot].value;
      var counts := CountsOf(b, e.kind);
      counts := counts.(attempts := counts.attempts + 1, last := e.at);
      if e.ok {
        counts := counts.(successes := counts.successes + 1);
      } else {
        counts := counts.(failures := counts.failures + 1);
      }
      buckets[slot] := Some(b.(events := b.events[e.kind := counts]));
    }

    /** The group of a failed event gets its time, in a new group if there is none. */
    method AddFailure(e: Event)
      requires !e.ok && |groups| <= MAX_GROUPS && forall key :: key in groups ==> groups[key].Shape()
      modifies this`groups, this`forgotten
      ensures |groups| <= MAX_GROUPS && forall key :: key in groups ==> groups[key].Shape()
      ensures old(GroupsHold(groups, log, forgotten, e.at)) ==> GroupsHold(groups, log + [e], forgotten, e.at)
      ensures Key(e.kind, e.group) in old(groups) || |old(groups)| < MAX_GROUPS ==> forgotten == old(forgotten)
    {
      hide GroupsHold, Failures, Add;
      var key := Key(e.kind, e.group);
      if key !in groups {
        ghost var before := groups;
        ghost var evicted := EvictOldest();
        if evicted.Some? {
          if GroupsHold(before, log, forgotten, e.at) {
            EvictHolds(before, log, forgotten, e.at, evicted.value);
          }
          forgotten := forgotten[evicted.value := |Failures(log, evicted.value)|];
        }
      }
      var g := GroupFor(groups, key);
      AddHistory(g, e.at);
      if GroupsHold(groups, log, forgotten, e.at) {
        FailureHolds(groups, log, forgotten, e);
      }
      BiggerWith(groups, key, Add(g, e.at));
      groups := groups[key := Add(g, e.at)];
    }

    /** Kinds that are not in the list are ignored; nothing else is. */
    method Record(kind: string, group: string, ok: bool, clock: int)
      requires Valid()
      modifies this, buckets
      ensures Valid()
      ensures kind !in KINDS ==> unchanged(this) && unchanged(buckets)
      ensures kind in KINDS ==>
        && log == old(log) + [Event(kind, group, ok, Clamp(clock))] && last == Clamp(clock)
        && steady == (old(steady) && old(last) <= last)
      ensures ok || Key(kind, group) in Prune(old(groups), Clamp(clock)) || |Prune(old(groups), Clamp(clock))| < MAX_GROUPS
        ==> forgotten == old(forgotten)
    {
      hide RingHolds, GroupsHold, Ordered, Prune, Failures, Fill, Slot;
      if kind !in KINDS {
        return;
      }
      var e := Event(kind, group, ok, Clamp(clock));
      ghost var before := log;
      ghost var kept := steady && last <= e.at;
      if kept {
        OrderedAppend(log, e, last);
        RingKeeps(buckets[..], log, e);
        PruneHolds(groups, log, forgotten, last, e.at);
      }
      PrunedShape(groups, e.at);
      Count(e);
      PruneGroups(e.at);
      if ok {
        if kept {
          SuccessHolds(groups, log, forgotten, e);
        }
      } else {
        AddFailure(e);
      }
      log := log + [e];
      last, steady := e.at, kept;
    }

    /** The counts and the loop of one kind at the given time. */
    method Read(kind: string, now: nat) returns (r: Reading)
      requires buckets.Length == SLOTS
      ensures Ordered(log) && RingHolds(buckets[..], log) && (forall e :: e in log ==> e.at <= now) ==>
        r.counts == Tally(log, Windowed(kind, now))
      ensures r.loop <==> SomeLooping(groups, kind, now)
    {
      hide Tally, Ordered, Slot, SlotHolds, Looping, Merge;
      var sum := NOTHING;
      SlotsEnds(log, kind, now);
      ghost var exact := Ordered(log) && RingHolds(buckets[..], log) && forall e :: e in log ==> e.at <= now;
      for i := 0 to SLOTS
        invariant exact ==> sum == Tally(log, WindowedBelow(kind, now, i))
      {
        var b := buckets[i];
        if exact {
          assert buckets[..][i] == b;
          SlotIsExact(b, log, i, kind, now);
          SlotsAddUp(log, kind, now, i);
        }
        if b.None? || b.value.start + BUCKET <= now - WINDOW || b.value.start > now {
          MergeNothing(sum, SlotCounts(b, kind, now));
          continue;
        }
        sum := Merge(sum, CountsOf(b.value, kind));
      }
      var loop := false;
      var keys := groups.Keys;
      while keys != {}
        invariant keys <= groups.Keys
        invariant loop <==> exists key :: key in groups && key !in keys && key.kind == kind && Looping(groups[key], now)
        decreases |keys|
      {
        var key :| key in keys;
        keys := keys - {key};
        if key.kind == kind {
          loop := loop || Looping(groups[key], now);
        }
      }
      return Reading(sum, loop);
    }

    /**
     * A snapshot counts exactly the log's events of the last five minutes, by buckets,
     * and reports exactly the loops that no eviction interrupted.
     */
    method Snapshot(clock: int) returns (readings: map<string, Reading>)
      requires Valid()
      modifies this
      ensures Valid() && log == old(log) && forgotten == old(forgotten) && last == Clamp(clock)
      ensures steady == (old(steady) && old(last) <= last)
      ensures readings.Keys == set kind | kind in KINDS
      ensures steady ==> forall kind :: kind in KINDS ==>
        && readings[kind].counts == Tally(log, Windowed(kind, last))
        && (readings[kind].loop <==> LoopIn(log, forgotten, kind, last))
    {
      hide RingHolds, GroupsHold, Ordered, Prune, Tally, SomeLooping, LoopIn;
      var now := Clamp(clock);
      ghost var kept := steady && last <= now;
      if kept {
        PruneHolds(groups, log, forgotten, last, now);
      }
      PrunedShape(groups, now);
      PruneGroups(now);
      last, steady := now, kept;
      readings := map[];
      for i := 0 to |KINDS|
        modifies {}
        invariant readings.Keys == set kind | kind in KINDS[..i]
        invariant steady ==> forall kind :: kind in KINDS[..i] ==>
          && readings[kind].counts == Tally(log, Windowed(kind, now))
          && (readings[kind].loop <==> LoopIn(log, forgotten, kind, now))
      {
        var r := Read(KINDS[i], now);
        if steady {
          LoopsAreExact(groups, log, forgotten, KINDS[i], now);
        }
        assert KINDS[..i + 1] == KINDS[..i] + [KINDS[i]];
        readings := readings[KINDS[i] := r];
      }
      assert KINDS[..|KINDS|] == KINDS;
    }
  }

  lemma SmallerWithout(groups: Groups, key: Key)
    requires key in groups
    ensures |groups - {key}| == |groups| - 1
  {
    assert (groups - {key}).Keys == groups.Keys - {key};
  }

  lemma BiggerWith(groups: Groups, key: Key, g: Group)
    ensures |groups[key := g]| == if key in groups then |groups| else |groups| + 1
  {
    assert groups[key := g].Keys == groups.Keys + {key};
  }

  lemma PrunedShape(groups: Groups, now: nat)
    requires forall key :: key in groups ==> groups[key].Shape()
    ensures |Prune(groups, now)| <= |groups|
    ensures forall key :: key in Prune(groups, now) ==> Prune(groups, now)[key].Shape()
  {
    SubsetSize(Prune(groups, now).Keys, groups.Keys);
  }

  lemma OrderedAppend(log: seq<Event>, e: Event, last: nat)
    requires Ordered(log) && (forall x :: x in log ==> x.at <= last) && last <= e.at
    ensures Ordered(log + [e]) && forall x :: x in log + [e] ==> x.at <= e.at
  {}
}
