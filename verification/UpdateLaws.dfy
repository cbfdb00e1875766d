/** What one run of the updater keeps, and what it can change. */
module UpdateLaws {
  import opened Options
  import opened UpdateVersion
  import opened UpdateFeed
  import opened UpdateState
  import opened UpdateRun

  /** A state some sequence of runs can leave: a marker or a rollback point needs a current release. */
  predicate Consistent(s: State) {
    Loadable(s) && (s.rollbackFrom != "" || s.previous.Some? ==> s.current.Some?)
  }

  /** No launcher, whatever its own version, runs an earlier version under t than under s. */
  ghost predicate Raises(s: State, t: State) {
    forall running :: Valid(running) ==>
      Effective(running, s).Some? && Effective(running, t).Some? &&
      AtMost(Effective(running, s).value, Effective(running, t).value)
  }

  // ---- the effective version ----

  lemma SameEffective(running: string, s: State, t: State)
    requires s.current == t.current && s.rollbackFrom == t.rollbackFrom
    ensures Effective(running, s) == Effective(running, t)
  {}

  lemma RaisesSame(s: State, t: State)
    requires Loadable(s) && s.current == t.current && s.rollbackFrom == t.rollbackFrom
    ensures Raises(s, t)
  {
    hide Effective, AtMost, Valid, Loadable;
    forall running | Valid(running)
      ensures Effective(running, s).Some? && Effective(running, t).Some?
      ensures AtMost(Effective(running, s).value, Effective(running, t).value)
    {
      SameEffective(running, s, t);
      EffectiveIsValid(running, s);
      TotalOrder(Effective(running, s).value, Effective(running, s).value);
    }
  }

  lemma RaisesTransitive(s: State, t: State, u: State)
    requires Raises(s, t) && Raises(t, u)
    ensures Raises(s, u)
  {
    hide Effective, AtMost, Valid;
    forall running | Valid(running)
      ensures Effective(running, s).Some? && Effective(running, u).Some?
      ensures AtMost(Effective(running, s).value, Effective(running, u).value)
    {
      Transitive(Effective(running, s).value, Effective(running, t).value, Effective(running, u).value);
    }
  }

  /** A launcher with no selection runs itself, so selecting anything raises it. */
  lemma RaisesFirst(s: State, record: Record)
    requires Consistent(s) && s.current.None? && Valid(record.version)
    ensures Raises(s, s.(current := Some(record)))
  {
    hide AtMost, Before, Valid, Parse;
    var t := s.(current := Some(record));
    forall running | Valid(running)
      ensures Effective(running, s).Some? && Effective(running, t).Some?
      ensures AtMost(Effective(running, s).value, Effective(running, t).value)
    {
      TotalOrder(running, running);
      TotalOrder(running, record.version);
      CompareFlips(running, record.version);
      if Before(running, record.version) {
        BeforeAtMost(running, record.version);
      }
    }
  }

  /** Selecting a version no earlier than the effective one makes it the effective one. */
  lemma NextIsEffective(running: string, s: State, record: Record, repair: bool)
    requires Loadable(s) && Valid(record.version) && Effective(running, s).Some?
    requires AtMost(Effective(running, s).value, record.version)
    ensures Effective(running, Next(s, record, repair, false)) == Some(record.version)
  {
    hide Parse;
    var current := Effective(running, s).value;
    var t := Next(s, record, repair, false);
    TotalOrder(running, record.version);
    if s.current.Some? {
      TotalOrder(running, s.current.value.version);
    }
    if s.rollbackFrom != "" {
      TotalOrder(running, s.rollbackFrom);
      TotalOrder(record.version, s.rollbackFrom);
    }
  }

  lemma RaisesNext(m: Setup, s: State, record: Record, repair: bool)
    requires Consistent(s) && Valid(record.version) && Effective(m.running, s).Some?
    requires AtMost(Effective(m.running, s).value, record.version)
    ensures Raises(s, Next(s, record, repair, false))
  {
    hide Parse, Loadable;
    var t := Next(s, record, repair, false);
    forall running | Valid(running)
      ensures Effective(running, s).Some? && Effective(running, t).Some?
      ensures AtMost(Effective(running, s).value, Effective(running, t).value)
    {
      RaisesNextFor(m.running, running, s, record, repair);
    }
  }

  lemma RaisesNextFor(own: string, running: string, s: State, record: Record, repair: bool)
    requires Consistent(s) && Valid(record.version) && Effective(own, s).Some? && Valid(running)
    requires AtMost(Effective(own, s).value, record.version)
    ensures Effective(running, s).Some? && Effective(running, Next(s, record, repair, false)).Some?
    ensures AtMost(Effective(running, s).value, Effective(running, Next(s, record, repair, false)).value)
  {
    hide Parse;
    TotalOrder(running, record.version);
    TotalOrder(running, own);
    if s.current.Some? {
      TotalOrder(running, s.current.value.version);
      TotalOrder(own, s.current.value.version);
      TotalOrder(s.current.value.version, record.version);
      if s.rollbackFrom != "" {
        TotalOrder(running, s.rollbackFrom);
        TotalOrder(own, s.rollbackFrom);
        TotalOrder(record.version, s.rollbackFrom);
      }
    }
  }

  // ---- the parts of a run ----

  /** The four states an activation can leave on disk. */
  lemma ActivateDisk(m: Setup, disk: State, s: State, record: Record, repair: bool, rollback: bool, now: int, a: Activation)
    ensures var r := Activate(m, disk, s, record, repair, rollback, now, a);
      || r.disk == disk
      || (r.disk == s && Vouched(m, record))
      || (r.disk == Next(s, record, repair, rollback) && Vouched(m, record))
      || (r.disk == Restored(s, record, repair, rollback, a.cancelled) && Vouched(m, record))
    ensures var r := Activate(m, disk, s, record, repair, rollback, now, a);
      r.outcome.Activated? ==>
        r.disk == Next(s, record, repair, rollback) && Vouched(m, record) && r.outcome.version == record.version
    ensures var r := Activate(m, disk, s, record, repair, rollback, now, a);
      && (r.outcome == Undone(true) ==> r.disk == Restored(s, record, repair, rollback, a.cancelled))
      && (r.outcome == NotSaved(true) ==> r.disk == s)
    ensures var r := Activate(m, disk, s, record, repair, rollback, now, a);
      !r.outcome.Available? && !r.outcome.NoPrevious?
  {
    hide Vouches, Next, Restored;
  }

  lemma StageRecord(m: Setup, feed: Feed, release: Release, now: int, st: Staging)
    requires Stage(m, feed, release, now, st).Some?
    ensures var record := Stage(m, feed, release, now, st).value;
      record.version == release.version && ValidRecord(record) && Vouched(m, record)
  {
    hide ValidRecord, FeedOf, Lists;
  }

  lemma SelectedIsEligible(releases: seq<Release>, q: Query)
    requires Select(releases, q).Selected? && Select(releases, q).release.Some?
    ensures var r := Select(releases, q).release.value;
      && r in releases && Valid(r.version) && AtMost(q.current, r.version)
      && r.version !in q.blocked && (q.pinned != "" ==> r.version == q.pinned)
  {
    hide Parse, Greatest;
    GreatestIsEligible(releases, q);
    var r := Greatest(releases, q).value;
    EligibleIsValid(r, q);
    CompareFlips(r.version, q.current);
  }

  /** What adoption can do: nothing, or select a record of the version that is running. */
  lemma AdoptCases(m: Setup, s: State, feed: Feed, current: string, selected: Release, w: World)
    requires Adopt(m, s, feed, current, selected, w).Some?
    ensures var t := Adopt(m, s, feed, current, selected, w).value;
      t == s || (s.current.None? && t.current.Some? && t == s.(current := t.current) && t.current.value.version == current
                 && ValidRecord(t.current.value) && Vouched(m, t.current.value))
  {
    hide ValidRecord, Select, Stage, Vouched;
    if Adopt(m, s, feed, current, selected, w).value != s {
      var release := Select(feed.manifest.releases, BaselineQuery(m, current)).release.value;
      if current != "" {
        SelectedIsEligible(feed.manifest.releases, BaselineQuery(m, current));
      } else {
        EmptyIsNoVersion(feed.manifest.releases, m);
      }
      StageRecord(m, feed, release, w.now, w.baseline.(bytes := w.executable));
    }
  }

  lemma EmptyIsNoVersion(releases: seq<Release>, m: Setup)
    ensures Select(releases, BaselineQuery(m, "")) == Failed
  {}

  lemma FetchedFeed(m: Setup, s: State, w: World)
    requires Fetch(m, s, w).Some?
    ensures var feed := Fetch(m, s, w).value;
      && WatermarkAllows(s, feed) && feed.manifest.sequence > 0 && ValidReleases(m.crypto, feed.manifest.releases)
      && (Lawful(m.crypto) ==> IsDigest(feed.digest))
  {
    hide ValidReleases, IsDigest;
  }

  // ---- one run ----

  /** The watermark part of a state. */
  predicate Newer(s: State, t: State) {
    && s.sequence <= t.sequence
    && (s.sequence == t.sequence && s.digest != "" ==> s.digest == t.digest)
  }

  lemma ActivateKeepsWatermark(m: Setup, disk: State, s: State, record: Record, repair: bool, rollback: bool, now: int, a: Activation)
    requires disk.sequence == s.sequence && disk.digest == s.digest
    ensures var r := Activate(m, disk, s, record, repair, rollback, now, a);
      r.disk.sequence == s.sequence && r.disk.digest == s.digest
  {
    hide Vouches, Vouched;
    ActivateDisk(m, disk, s, record, repair, rollback, now, a);
  }

  /** Two states select the same records and block the same versions. */
  predicate SameChoice(s: State, t: State) {
    && s.schemaVersion == t.schemaVersion && s.current == t.current && s.previous == t.previous
    && s.rollbackFrom == t.rollbackFrom && s.blocked == t.blocked
  }

  /** What a run that reaches an activation hands to it. */
  predicate Attempt(m: Setup, s: State, current: string, from: State, record: Record) {
    && (from == s || (s.current.None? && from.current.Some? && from == s.(current := from.current)
                      && from.current.value.version == current && ValidRecord(from.current.value)))
    && AtMost(current, record.version) && record.version !in s.blocked && ValidRecord(record)
  }

  predicate IsRepair(from: State, record: Record) {
    from.current.Some? && record.version == from.current.value.version
  }

  predicate Quiet(o: Outcome) {
    !o.Activated? && !o.NotSaved? && !o.Undone?
  }

  /** Every run but a rollback either leaves the choice alone or activates a later release it vouched for. */
  lemma PutCases(m: Setup, s: State, feed: Feed, current: string, action: Action, selected: Release, w: World)
    returns (quiet: bool, from: State, record: Record)
    requires AtMost(current, selected.version) && selected.version !in s.blocked
    ensures var r := Put(m, s, feed, current, action, selected, w);
      if quiet then r.disk == s && Quiet(r.outcome) && !r.outcome.Available?
      else
        && Attempt(m, s, current, from, record) && record.version == selected.version
        && (from != s ==> Vouched(m, from.current.value))
        && r == Activate(m, s, from, record, IsRepair(from, record), false, w.now, w.activation)
  {
    hide Vouches, Vouched, Activate, Adopt, Stage, ValidRecord, AtMost;
    quiet, from, record := true, s, RecordOf(m, feed, Release("", 0, map[m.target := Artifact("", "", 0)]), "");
    var r := Put(m, s, feed, current, action, selected, w);
    var adopted := Adopt(m, s, feed, current, selected, w);
    var staged := Stage(m, feed, selected, w.now, w.candidate);
    if adopted.Some? && staged.Some? {
      AdoptCases(m, s, feed, current, selected, w);
      StageRecord(m, feed, selected, w.now, w.candidate);
      if r == Activate(m, s, adopted.value, staged.value, IsRepair(adopted.value, staged.value), false, w.now, w.activation) {
        quiet, from, record := false, adopted.value, staged.value;
      }
    }
  }

  /** t is the saved state that a run of the updater has reached when it selects a release. */
  ghost predicate Reached(m: Setup, disk: State, w: World, t: State, feed: Feed) {
    && SameChoice(disk, t) && Newer(disk, t)
    && Fetch(m, if m.automatic then disk.(lastCheck := w.now) else disk, w) == Some(feed)
    && t.sequence == feed.manifest.sequence && t.digest == feed.digest && t.sequence > 0
    && ValidReleases(m.crypto, feed.manifest.releases)
  }

  lemma UpdateCases(m: Setup, disk: State, current: string, action: Action, supported: seq<string>, w: World)
    returns (quiet: bool, t: State, feed: Feed, from: State, record: Record)
    requires action != Rollback && Valid(current)
    ensures var r := Update(m, disk, current, action, supported, w);
      if quiet then
        && SameChoice(disk, r.disk) && Newer(disk, r.disk) && Quiet(r.outcome)
        && (Lawful(m.crypto) && Loadable(disk) ==> Loadable(r.disk))
      else
        && Reached(m, disk, w, t, feed) && (Lawful(m.crypto) && Loadable(disk) ==> Loadable(t))
        && Attempt(m, t, current, from, record)
        && (from != t ==> Vouched(m, from.current.value))
        && r == Activate(m, t, from, record, IsRepair(from, record), false, w.now, w.activation)
        && Select(feed.manifest.releases, QueryOf(m, t, current, supported, action)).Selected?
        && Select(feed.manifest.releases, QueryOf(m, t, current, supported, action)).release.Some?
        && Select(feed.manifest.releases, QueryOf(m, t, current, supported, action)).release.value.version == record.version
  {
    hide Activate, Put, Select, FeedOf, Fetch, Attempt, ValidReleases, Vouched, Lawful, ValidRecord, Valid, AtMost, IsDigest;
    var s := if m.automatic then disk.(lastCheck := w.now) else disk;
    quiet, t, from := true, disk, disk;
    record := RecordOf(m, Feed(Manifest(0, "", 0, 0, 0, []), "", ""), Release("", 0, map[m.target := Artifact("", "", 0)]), "");
    feed := Feed(Manifest(0, "", 0, 0, 0, []), "", "");
    if Fetch(m, s, w).Some? {
      FetchedFeed(m, s, w);
      feed := Fetch(m, s, w).value;
      t := Accept(s, feed, w.now);
      var q := QueryOf(m, t, current, supported, action);
      var choice := Select(feed.manifest.releases, q);
      if choice.Selected? && choice.release.Some? {
        SelectedIsEligible(feed.manifest.releases, q);
        quiet, from, record := PutCases(m, t, feed, current, action, choice.release.value, w);
        if Update(m, disk, current, action, supported, w) != Put(m, t, feed, current, action, choice.release.value, w) {
          quiet := true;
        }
      }
    }
  }
}
