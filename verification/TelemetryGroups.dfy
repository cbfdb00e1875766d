/**
 * The failure groups: three times for each kind and method, pruned after a minute and
 * limited to 64. What they still know of the log, including after an eviction.
 */
module TelemetryGroups {
  import opened TelemetryLog

  const MAX_GROUPS := 64
  const THRESHOLD := 3

  datatype Key = Key(kind: string, group: string)

  datatype Group = Group(times: seq<nat>, count: nat, next: nat, touched: nat) {
    predicate Shape() {
      |times| == THRESHOLD && count <= THRESHOLD && next < THRESHOLD && (count < THRESHOLD ==> next == count)
    }

    /** The times that were written, oldest first. */
    function History(): seq<nat>
      requires Shape()
    {
      if count < THRESHOLD then times[..count] else times[next..] + times[..next]
    }
  }

  type Groups = map<Key, Group>

  const FRESH := Group([0, 0, 0], 0, 0, 0)

  function Add(g: Group, now: nat): Group
    requires g.Shape()
  {
    Group(g.times[g.next := now], if g.count < THRESHOLD then g.count + 1 else THRESHOLD, (g.next + 1) % THRESHOLD, now)
  }

  function LastThree(s: seq<nat>): seq<nat> {
    if |s| <= THRESHOLD then s else s[|s| - THRESHOLD..]
  }

  /** The ring of three keeps the last three times. */
  lemma AddHistory(g: Group, now: nat)
    requires g.Shape()
    ensures Add(g, now).Shape() && Add(g, now).History() == LastThree(g.History() + [now])
  {
    var t, h, after := g.times, g.History(), Add(g, now);
    if g.count == THRESHOLD {
      if g.next == 0 {
        assert h == [t[0], t[1], t[2]] && after.History() == [t[1], t[2], now];
      } else if g.next == 1 {
        assert h == [t[1], t[2], t[0]] && after.History() == [t[2], t[0], now];
      } else {
        assert h == [t[2], t[0], t[1]] && after.History() == [t[0], t[1], now];
      }
    } else if g.count == THRESHOLD - 1 {
      assert after.History() == [t[0], t[1], now] && h == [t[0], t[1]];
    } else {
      assert after.History() == h + [now];
    }
  }

  predicate RecentTime(at: nat, now: nat) {
    now - LOOP_WINDOW <= at <= now
  }

  /** Some written time of the group lies in the last minute. */
  predicate Recent(g: Group, now: nat) {
    exists i :: 0 <= i < g.count && i < |g.times| && RecentTime(g.times[i], now)
  }

  function Prune(groups: Groups, now: nat): Groups {
    map key | key in groups && Recent(groups[key], now) :: groups[key]
  }

  /** A full group whose three times all lie in the last minute. */
  predicate Looping(g: Group, now: nat) {
    g.count >= THRESHOLD && forall i :: 0 <= i < |g.times| ==> RecentTime(g.times[i], now)
  }

  // ---- the log ----

  /** When the key failed, oldest first. */
  function Failures(log: seq<Event>, key: Key): seq<nat> {
    if log == [] then [] else
      var e, before := log[|log| - 1], Failures(log[..|log| - 1], key);
      if !e.ok && e.kind == key.kind && e.group == key.group then before + [e.at] else before
  }

  lemma FailuresAppend(log: seq<Event>, e: Event, key: Key)
    ensures Failures(log + [e], key) ==
      if !e.ok && e.kind == key.kind && e.group == key.group then Failures(log, key) + [e.at] else Failures(log, key)
  {
    assert (log + [e])[..|log|] == log;
  }

  lemma {:induction false} FailuresOrdered(log: seq<Event>, key: Key)
    requires Ordered(log)
    ensures forall i, j :: 0 <= i < j < |Failures(log, key)| ==> Failures(log, key)[i] <= Failures(log, key)[j]
    ensures log != [] ==> forall i :: 0 <= i < |Failures(log, key)| ==> Failures(log, key)[i] <= log[|log| - 1].at
  {
    if log != [] {
      FailuresOrdered(log[..|log| - 1], key);
    }
  }

  /** How many failures of a key had been seen when it was last evicted. */
  type Forgotten = map<Key, nat>

  /** The failures that no eviction has forgotten. */
  function Remembered(log: seq<Event>, forgotten: Forgotten, key: Key): seq<nat> {
    var all := Failures(log, key);
    if key in forgotten && forgotten[key] <= |all| then all[forgotten[key]..] else all
  }

  predicate Sorted(s: seq<nat>) {
    forall i, j :: 0 <= i < j < |s| ==> s[i] <= s[j]
  }

  lemma RememberedSorted(log: seq<Event>, forgotten: Forgotten, key: Key)
    requires Ordered(log)
    ensures Sorted(Remembered(log, forgotten, key))
  {
    FailuresOrdered(log, key);
  }

  function HistoryOf(groups: Groups, key: Key): seq<nat>
    requires key in groups ==> groups[key].Shape()
  {
    if key in groups then groups[key].History() else []
  }

  /**
   * What a group holds are the last failures; whatever it no longer holds was followed
   * by two more failures it holds, or lies more than a minute before the last step.
   */
  predicate KeyHolds(f: seq<nat>, h: seq<nat>, last: nat) {
    && |h| <= |f| && f[|f| - |h|..] == h && |h| <= THRESHOLD
    && (|h| < THRESHOLD ==> forall i :: 0 <= i < |f| - |h| ==> f[i] + LOOP_WINDOW < last)
    && forall i :: 0 <= i < |f| ==> f[i] <= last
  }

  ghost predicate GroupsHold(groups: Groups, log: seq<Event>, forgotten: Forgotten, last: nat) {
    && (forall key :: key in groups ==> groups[key].Shape())
    && (forall key :: key in forgotten ==> forgotten[key] <= |Failures(log, key)|)
    && forall key :: KeyHolds(Remembered(log, forgotten, key), HistoryOf(groups, key), last)
  }

  // ---- the steps ----

  lemma HistoryEntries(g: Group, i: nat)
    requires g.Shape() && i < g.count
    ensures g.times[i] in g.History()
  {
    if g.count == THRESHOLD {
      if i < g.next {
        assert g.History()[THRESHOLD - g.next + i] == g.times[i];
      } else {
        assert g.History()[i - g.next] == g.times[i];
      }
    }
  }

  lemma EntriesOfHistory(g: Group, i: nat)
    requires g.Shape() && i < |g.History()|
    ensures |g.History()| == g.count && exists j :: 0 <= j < g.count && g.times[j] == g.History()[i]
  {
    if g.count < THRESHOLD {
      assert g.times[i] == g.History()[i];
    } else if i < THRESHOLD - g.next {
      assert g.times[g.next + i] == g.History()[i];
    } else {
      assert g.times[i - (THRESHOLD - g.next)] == g.History()[i];
    }
  }

  lemma PruneKey(g: Group, f: seq<nat>, last: nat, now: nat)
    requires g.Shape() && Sorted(f) && KeyHolds(f, g.History(), last) && last <= now && !Recent(g, now)
    ensures KeyHolds(f, [], now)
  {
    var h := g.History();
    forall i | 0 <= i < |f|
      ensures f[i] + LOOP_WINDOW < now && f[i] <= now
    {
      if i >= |f| - |h| {
        assert f[i] == h[i - (|f| - |h|)];
        EntriesOfHistory(g, i - (|f| - |h|));
        var j :| 0 <= j < g.count && g.times[j] == f[i];
        assert !RecentTime(g.times[j], now);
      } else if |h| == THRESHOLD {
        assert f[|f| - |h|] == h[0];
        EntriesOfHistory(g, 0);
        var j :| 0 <= j < g.count && g.times[j] == h[0];
        assert !RecentTime(g.times[j], now);
      }
    }
  }

  lemma LaterHolds(f: seq<nat>, h: seq<nat>, last: nat, now: nat)
    requires KeyHolds(f, h, last) && last <= now
    ensures KeyHolds(f, h, now)
  {}

  lemma PruneHolds(groups: Groups, log: seq<Event>, forgotten: Forgotten, last: nat, now: nat)
    requires GroupsHold(groups, log, forgotten, last) && Ordered(log) && last <= now
    ensures GroupsHold(Prune(groups, now), log, forgotten, now)
  {
    hide Remembered, KeyHolds, Recent;
    var pruned := Prune(groups, now);
    forall key
      ensures KeyHolds(Remembered(log, forgotten, key), HistoryOf(pruned, key), now)
    {
      var f := Remembered(log, forgotten, key);
      RememberedSorted(log, forgotten, key);
      LaterHolds(f, HistoryOf(groups, key), last, now);
      if key in groups && key !in pruned {
        PruneKey(groups[key], f, last, now);
      }
    }
  }

  /** Evicting a group forgets the failures of its key so far. */
  lemma EvictHolds(groups: Groups, log: seq<Event>, forgotten: Forgotten, last: nat, key: Key)
    requires GroupsHold(groups, log, forgotten, last) && key in groups
    ensures GroupsHold(groups - {key}, log, forgotten[key := |Failures(log, key)|], last)
  {
    hide Failures;
    var after, fewer := forgotten[key := |Failures(log, key)|], groups - {key};
    forall k
      ensures KeyHolds(Remembered(log, after, k), HistoryOf(fewer, k), last)
    {
      assert KeyHolds(Remembered(log, forgotten, k), HistoryOf(groups, k), last);
      if k == key {
        assert Remembered(log, after, k) == [];
      }
    }
  }

  lemma RememberedAppend(log: seq<Event>, e: Event, forgotten: Forgotten, key: Key)
    requires key in forgotten ==> forgotten[key] <= |Failures(log, key)|
    ensures key in forgotten ==> forgotten[key] <= |Failures(log + [e], key)|
    ensures Remembered(log + [e], forgotten, key) ==
      if !e.ok && e.kind == key.kind && e.group == key.group then Remembered(log, forgotten, key) + [e.at]
      else Remembered(log, forgotten, key)
  {
    FailuresAppend(log, e, key);
  }

  lemma AddKey(f: seq<nat>, g: Group, now: nat)
    requires g.Shape() && KeyHolds(f, g.History(), now)
    ensures Add(g, now).Shape() && KeyHolds(f + [now], Add(g, now).History(), now)
  {
    AddHistory(g, now);
  }

  function GroupFor(groups: Groups, key: Key): Group {
    if key in groups then groups[key] else FRESH
  }

  /** A failure is added to its group, which keeps the last three. */
  lemma FailureHolds(groups: Groups, log: seq<Event>, forgotten: Forgotten, e: Event)
    requires GroupsHold(groups, log, forgotten, e.at) && !e.ok
    ensures var key := Key(e.kind, e.group);
      GroupFor(groups, key).Shape() &&
      GroupsHold(groups[key := Add(GroupFor(groups, key), e.at)], log + [e], forgotten, e.at)
  {
    hide Failures, Remembered, KeyHolds, Add;
    var key := Key(e.kind, e.group);
    var g := GroupFor(groups, key);
    assert g.History() == HistoryOf(groups, key);
    AddKey(Remembered(log, forgotten, key), g, e.at);
    var after := groups[key := Add(g, e.at)];
    forall k
      ensures k in forgotten ==> forgotten[k] <= |Failures(log + [e], k)|
      ensures KeyHolds(Remembered(log + [e], forgotten, k), HistoryOf(after, k), e.at)
    {
      RememberedAppend(log, e, forgotten, k);
      assert KeyHolds(Remembered(log, forgotten, k), HistoryOf(groups, k), e.at);
    }
  }

  lemma SuccessHolds(groups: Groups, log: seq<Event>, forgotten: Forgotten, e: Event)
    requires GroupsHold(groups, log, forgotten, e.at) && e.ok
    ensures GroupsHold(groups, log + [e], forgotten, e.at)
  {
    hide Failures, Remembered, KeyHolds;
    forall k
      ensures k in forgotten ==> forgotten[k] <= |Failures(log + [e], k)|
      ensures KeyHolds(Remembered(log + [e], forgotten, k), HistoryOf(groups, k), e.at)
    {
      RememberedAppend(log, e, forgotten, k);
      assert KeyHolds(Remembered(log, forgotten, k), HistoryOf(groups, k), e.at);
    }
  }

  // ---- loops ----

  /** The key failed three times in the last minute, all since it was last evicted. */
  predicate ThreeRecent(f: seq<nat>, now: nat) {
    |f| >= THRESHOLD && now - LOOP_WINDOW <= f[|f| - THRESHOLD]
  }

  /** Some key of the kind failed three times in the last minute since it was last evicted. */
  ghost predicate LoopIn(log: seq<Event>, forgotten: Forgotten, kind: string, now: nat) {
    exists key: Key :: key.kind == kind && ThreeRecent(Remembered(log, forgotten, key), now)
  }

  lemma LoopKey(f: seq<nat>, g: Group, now: nat)
    requires g.Shape() && KeyHolds(f, g.History(), now) && Sorted(f)
    ensures Looping(g, now) <==> ThreeRecent(f, now)
  {
    var h := g.History();
    if Looping(g, now) {
      EntriesOfHistory(g, 0);
    }
    if ThreeRecent(f, now) {
      assert f[|f| - THRESHOLD] + LOOP_WINDOW >= now;
      assert g.count == THRESHOLD;
      forall i | 0 <= i < |g.times|
        ensures RecentTime(g.times[i], now)
      {
        HistoryEntries(g, i);
        var j :| 0 <= j < |h| && h[j] == g.times[i];
        assert f[|f| - THRESHOLD + j] == h[j];
        assert j == 0 || f[|f| - THRESHOLD] <= f[|f| - THRESHOLD + j];
      }
    }
  }

  predicate SomeLooping(groups: Groups, kind: string, now: nat) {
    exists key :: key in groups && key.kind == kind && Looping(groups[key], now)
  }

  /** A loop is reported exactly when there is one that no eviction has interrupted. */
  lemma LoopsAreExact(groups: Groups, log: seq<Event>, forgotten: Forgotten, kind: string, now: nat)
    requires GroupsHold(groups, log, forgotten, now) && Ordered(log)
    ensures SomeLooping(groups, kind, now) <==> LoopIn(log, forgotten, kind, now)
  {
    hide Remembered, KeyHolds, Looping, ThreeRecent;
    if SomeLooping(groups, kind, now) {
      var key :| key in groups && key.kind == kind && Looping(groups[key], now);
      RememberedSorted(log, forgotten, key);
      assert KeyHolds(Remembered(log, forgotten, key), HistoryOf(groups, key), now);
      LoopKey(Remembered(log, forgotten, key), groups[key], now);
    }
    if LoopIn(log, forgotten, kind, now) {
      var key: Key :| key.kind == kind && ThreeRecent(Remembered(log, forgotten, key), now);
      RememberedSorted(log, forgotten, key);
      assert KeyHolds(Remembered(log, forgotten, key), HistoryOf(groups, key), now);
      if key in groups {
        LoopKey(Remembered(log, forgotten, key), groups[key], now);
      } else {
        NoHistoryNoLoop(Remembered(log, forgotten, key), now);
      }
    }
  }

  lemma NoHistoryNoLoop(f: seq<nat>, now: nat)
    requires KeyHolds(f, [], now)
    ensures !ThreeRecent(f, now)
  {}

  // ---- loops are real failures ----

  lemma {:induction false} FailuresCounted(log: seq<Event>, key: Key, n: nat, lo: int, p: Event -> bool)
    requires n <= |Failures(log, key)|
    requires forall i :: |Failures(log, key)| - n <= i < |Failures(log, key)| ==> lo <= Failures(log, key)[i]
    requires forall e :: e in log && e.kind == key.kind && lo <= e.at ==> p(e)
    ensures n <= Tally(log, p).failures
    decreases |log|
  {
    if log != [] {
      var front, e := log[..|log| - 1], log[|log| - 1];
      assert e in log;
      var f, all := Failures(front, key), Failures(log, key);
      if !e.ok && e.kind == key.kind && e.group == key.group {
        if n > 0 {
          assert all[|all| - 1] == e.at;
          assert forall i :: 0 <= i < |f| ==> f[i] == all[i];
          FailuresCounted(front, key, n - 1, lo, p);
        }
      } else {
        FailuresCounted(front, key, n, lo, p);
      }
    }
  }

  /** An active loop stands for at least three failures among the counted events. */
  lemma LoopHasThreeFailures(log: seq<Event>, forgotten: Forgotten, kind: string, now: nat)
    requires Ordered(log) && LoopIn(log, forgotten, kind, now)
    requires forall e :: e in log ==> e.at <= now
    ensures Tally(log, (e: Event) => e.kind == kind && InWindow(e.at, now)).failures >= THRESHOLD
  {
    hide Tally, Failures;
    var key: Key :| key.kind == kind && ThreeRecent(Remembered(log, forgotten, key), now);
    FailuresOrdered(log, key);
    var p := (e: Event) => e.kind == kind && InWindow(e.at, now);
    forall e | e in log && e.kind == key.kind && now - LOOP_WINDOW <= e.at
      ensures p(e)
    {}
    FailuresCounted(log, key, THRESHOLD, now - LOOP_WINDOW, p);
  }

  lemma FailuresAreEvents(log: seq<Event>, key: Key, i: nat) returns (e: Event)
    requires i < |Failures(log, key)|
    ensures e in log && !e.ok && e.kind == key.kind && e.group == key.group && e.at == Failures(log, key)[i]
    decreases |log|
  {
    var front := log[..|log| - 1];
    e := log[|log| - 1];
    if i < |Failures(front, key)| {
      e := FailuresAreEvents(front, key, i);
    }
  }

  /**
   * The groups that survive pruning are keys that failed within the last minute, so an
   * eviction needs 64 other keys that did.
   */
  lemma GroupsFailedLately(groups: Groups, log: seq<Event>, forgotten: Forgotten, last: nat, now: nat, key: Key)
    returns (e: Event)
    requires GroupsHold(groups, log, forgotten, last) && key in Prune(groups, now)
    ensures e in log && !e.ok && Key(e.kind, e.group) == key && RecentTime(e.at, now)
  {
    hide Failures, Remembered, GroupsHold;
    GroupsHoldFor(groups, log, forgotten, last, key);
    var g := groups[key];
    var i :| 0 <= i < g.count && i < |g.times| && RecentTime(g.times[i], now);
    HistoryEntries(g, i);
    var k := HeldIn(Remembered(log, forgotten, key), g.History(), last, g.times[i]);
    k := RememberedIn(log, forgotten, key, k);
    e := FailuresAreEvents(log, key, k);
  }

  lemma GroupsHoldFor(groups: Groups, log: seq<Event>, forgotten: Forgotten, last: nat, key: Key)
    requires GroupsHold(groups, log, forgotten, last) && key in groups
    ensures groups[key].Shape() && KeyHolds(Remembered(log, forgotten, key), groups[key].History(), last)
  {
    assert KeyHolds(Remembered(log, forgotten, key), HistoryOf(groups, key), last);
  }

  lemma HeldIn(f: seq<nat>, h: seq<nat>, last: nat, at: nat) returns (k: nat)
    requires KeyHolds(f, h, last) && at in h
    ensures k < |f| && f[k] == at
  {
    var j :| 0 <= j < |h| && h[j] == at;
    k := |f| - |h| + j;
  }

  lemma RememberedIn(log: seq<Event>, forgotten: Forgotten, key: Key, i: nat) returns (k: nat)
    requires i < |Remembered(log, forgotten, key)|
    ensures k < |Failures(log, key)| && Failures(log, key)[k] == Remembered(log, forgotten, key)[i]
  {
    k := |Failures(log, key)| - |Remembered(log, forgotten, key)| + i;
  }
}
