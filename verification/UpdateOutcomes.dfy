/**
 * What each action of the updater answers, and exactly when: a check only looks, and
 * the other actions install whenever everything they need is good.
 */
module UpdateOutcomes {
  import opened Options
  import opened UpdateVersion
  import opened UpdateFeed
  import opened UpdateState
  import opened UpdateRun
  import opened UpdateLaws
  import opened UpdateRuns

  // ---- what a run needs ----

  /** The run starts: a known action under the lock, with sound trust, state and version. */
  predicate Starts(m: Setup, disk: State, action: Action, w: World) {
    action != Unknown && ValidTrust(m.crypto, m.trust) && w.locked && Loadable(disk) && Valid(m.running)
  }

  predicate IsThrottled(m: Setup, disk: State, w: World) {
    m.automatic && disk.lastCheck != 0 && 0 <= w.now - disk.lastCheck < 24 * 3600
  }

  /** The downloaded bytes are a feed that is signed, fresh and no older than the last one. */
  predicate Downloaded(m: Setup, disk: State, w: World, feed: Feed) {
    && w.download.Some? && FeedOf(m.crypto, m.trust, w.download.value, w.now, true) == Some(feed)
    && feed.manifest.sequence >= disk.sequence
    && (feed.manifest.sequence == disk.sequence && disk.digest != "" ==> feed.digest == disk.digest)
  }

  /** The feed has been downloaded and everything up to it was saved. */
  predicate Accepted(m: Setup, disk: State, w: World, feed: Feed) {
    && !IsThrottled(m, disk, w) && (m.automatic ==> w.checkSave == Written)
    && Downloaded(m, disk, w, feed) && w.metadataStored && w.feedSave == Written
  }

  predicate Best(releases: seq<Release>, q: Query, o: Release) {
    o in releases && Eligible(o, q) && forall r :: r in releases && Eligible(r, q) ==> AtMost(r.version, o.version)
  }

  predicate NoneEligible(releases: seq<Release>, q: Query) {
    forall r :: r in releases ==> !Eligible(r, q)
  }

  /** The bytes at hand are the listed ones, were stored, are vouched for and pass their self-test. */
  predicate Installs(m: Setup, feed: Feed, o: Release, now: int, st: Staging) {
    && m.target in o.artifacts && st.bytes.Some?
    && |st.bytes.value| == o.artifacts[m.target].size && m.crypto.hash(st.bytes.value) == o.artifacts[m.target].sha256
    && st.stored && Vouches(m, RecordOf(m, feed, o, st.instance), st.evidence, now) && st.probe
  }

  /** The running executable is a listed release that could not be kept. */
  predicate KeepingFails(m: Setup, disk: State, feed: Feed, current: string, o: Release, w: World) {
    && disk.current.None? && o.version != current && w.executable.Some?
    && exists b :: b in feed.manifest.releases && Eligible(b, BaselineQuery(m, current)) && m.target in b.artifacts
         && |w.executable.value| == b.artifacts[m.target].size && m.crypto.hash(w.executable.value) == b.artifacts[m.target].sha256
         && !Installs(m, feed, b, w.now, w.baseline.(bytes := w.executable))
  }

  predicate SameAsCurrent(disk: State, o: Release) {
    disk.current.Some? && o.version == disk.current.value.version
  }

  /** The version is installed with other contents. */
  predicate ContentsChanged(m: Setup, disk: State, o: Release) {
    && SameAsCurrent(disk, o) && m.target in o.artifacts
    && (o.artifacts[m.target].sha256 != disk.current.value.sha256 || o.artifacts[m.target].size != disk.current.value.size)
  }

  predicate IsInstalled(m: Setup, disk: State, action: Action, o: Release, w: World) {
    action == Install && SameAsCurrent(disk, o) && Vouches(m, disk.current.value, w.current, w.now)
  }

  /** The record is vouched for before and after its selection was saved, and passes its self-test. */
  predicate Activates(m: Setup, record: Record, now: int, a: Activation) {
    && Vouches(m, record, a.before, now) && a.ready && a.backup && a.save == Written
    && Vouches(m, record, a.after, now) && a.probe
  }

  /** Everything that installing the release needs. */
  predicate AllGood(m: Setup, disk: State, feed: Feed, current: string, o: Release, w: World) {
    && !ContentsChanged(m, disk, o) && !KeepingFails(m, disk, feed, current, o, w)
    && Installs(m, feed, o, w.now, w.candidate)
    && Activates(m, RecordOf(m, feed, o, w.candidate.instance), w.now, w.activation)
  }

  // ---- the parts ----

  /** Unless no release may be selected, exactly one is the best. */
  lemma BestExists(m: Setup, releases: seq<Release>, q: Query) returns (o: Release)
    requires ValidReleases(m.crypto, releases) && Valid(q.current) && !NoneEligible(releases, q)
    ensures Best(releases, q, o) && forall r :: Best(releases, q, r) ==> r == o
  {
    hide ValidReleases, Valid, Eligible, AtMost, Greatest, Best;
    var some :| some in releases && Eligible(some, q);
    BestIsSelected(m, releases, q, some);
    SelectsGreatest(m.crypto, releases, q, some);
    o := Select(releases, q).release.value;
    forall r
      ensures Best(releases, q, r) <==> r == o
    {
      BestIsSelected(m, releases, q, r);
    }
  }

  lemma BestIsSelected(m: Setup, releases: seq<Release>, q: Query, o: Release)
    requires ValidReleases(m.crypto, releases) && Valid(q.current)
    ensures Best(releases, q, o) <==> Select(releases, q) == Selected(Some(o))
    ensures NoneEligible(releases, q) <==> Select(releases, q) == Selected(None)
  {
    hide ValidReleases, Valid, Eligible, AtMost, Select;
    SelectsGreatest(m.crypto, releases, q, o);
  }

  lemma StageIs(m: Setup, feed: Feed, o: Release, now: int, st: Staging)
    ensures Installs(m, feed, o, now, st) ==> m.target in o.artifacts
    ensures Stage(m, feed, o, now, st) == if Installs(m, feed, o, now, st) then Some(RecordOf(m, feed, o, st.instance)) else None
  {
    hide Vouches;
  }

  /** Releases of the running version are one and the same. */
  lemma BaselineIsBest(m: Setup, releases: seq<Release>, current: string, b: Release)
    requires ValidReleases(m.crypto, releases) && b in releases && Eligible(b, BaselineQuery(m, current))
    ensures Best(releases, BaselineQuery(m, current), b)
  {
    hide Parse, ValidRelease;
    var q := BaselineQuery(m, current);
    EligibleIsValid(b, q);
    forall r | r in releases && Eligible(r, q)
      ensures AtMost(r.version, b.version)
    {
      PinnedIs(r, q);
      PinnedIs(b, q);
      TotalOrder(b.version, b.version);
    }
  }

  lemma PinnedIs(r: Release, q: Query)
    requires Eligible(r, q) && q.pinned == q.current
    ensures r.version == q.current
  {}

  lemma AdoptIs(m: Setup, s: State, feed: Feed, current: string, o: Release, w: World)
    requires ValidReleases(m.crypto, feed.manifest.releases) && Valid(current)
    ensures Adopt(m, s, feed, current, o, w).None? <==> KeepingFails(m, s, feed, current, o, w)
  {
    hide Stage, Select, Eligible, ValidReleases, Vouches, Valid, Installs, Best;
    var releases, q := feed.manifest.releases, BaselineQuery(m, current);
    if s.current.None? && o.version != current {
      NoBaseline(m, releases, q, o);
      if b :| b in releases && Eligible(b, q) {
        BaselineIsBest(m, releases, current, b);
        BestIsSelected(m, releases, q, b);
        StageIs(m, feed, b, w.now, w.baseline.(bytes := w.executable));
        OnlyBaseline(m, releases, current, b);
      }
    }
  }

  lemma NoBaseline(m: Setup, releases: seq<Release>, q: Query, o: Release)
    requires ValidReleases(m.crypto, releases) && Valid(q.current)
    ensures (forall b :: b in releases ==> !Eligible(b, q)) ==> Select(releases, q) == Selected(None)
  {
    hide ValidReleases, Valid, Eligible, Select;
    BestIsSelected(m, releases, q, o);
  }

  lemma OnlyBaseline(m: Setup, releases: seq<Release>, current: string, b: Release)
    requires ValidReleases(m.crypto, releases) && b in releases && Eligible(b, BaselineQuery(m, current))
    ensures forall r :: r in releases && Eligible(r, BaselineQuery(m, current)) ==> r == b
  {
    hide Parse, ValidRelease;
    forall r | r in releases && Eligible(r, BaselineQuery(m, current))
      ensures r == b
    {
      PinnedIs(r, BaselineQuery(m, current));
      PinnedIs(b, BaselineQuery(m, current));
      SameVersion(releases, r, b);
    }
  }

  lemma ActivateIs(m: Setup, disk: State, s: State, record: Record, repair: bool, now: int, a: Activation)
    ensures var r := Activate(m, disk, s, record, repair, false, now, a);
      && !r.outcome.AlreadyInstalled? && !r.outcome.Available? && !r.outcome.NoUpdate? && !r.outcome.Throttled?
      && (r.outcome.Activated? <==> Activates(m, record, now, a))
      && (r.outcome.Activated? ==> r.outcome.version == record.version)
  {
    hide Vouches, Next, Restored;
  }

  lemma PutIs(m: Setup, s: State, feed: Feed, current: string, action: Action, o: Release, w: World)
    requires ValidReleases(m.crypto, feed.manifest.releases) && Valid(current) && m.target in o.artifacts
    ensures var r := Put(m, s, feed, current, action, o, w);
      && !r.outcome.Available? && !r.outcome.NoUpdate? && !r.outcome.Throttled?
      && (r.outcome == AlreadyInstalled(o.version) <==> !ContentsChanged(m, s, o) && IsInstalled(m, s, action, o, w))
      && (r.outcome.Activated? <==> !IsInstalled(m, s, action, o, w) && AllGood(m, s, feed, current, o, w))
      && (r.outcome.Activated? ==> r.outcome.version == o.version)
  {
    hide Vouches, Activate, Adopt, Stage, ValidReleases, Valid, Activates, Installs, KeepingFails;
    AdoptIs(m, s, feed, current, o, w);
    StageIs(m, feed, o, w.now, w.candidate);
    var adopted := Adopt(m, s, feed, current, o, w);
    if adopted.Some? && Installs(m, feed, o, w.now, w.candidate) {
      var from, record := adopted.value, RecordOf(m, feed, o, w.candidate.instance);
      ActivateIs(m, s, from, record, IsRepair(from, record), w.now, w.activation);
    }
  }

  lemma FetchIs(m: Setup, disk: State, w: World, feed: Feed)
    ensures Fetch(m, if m.automatic then disk.(lastCheck := w.now) else disk, w) == Some(feed) <==> Downloaded(m, disk, w, feed)
  {
    hide FeedOf;
  }

  lemma UpdateIs(m: Setup, disk: State, current: string, action: Action, supported: seq<string>, w: World, feed: Feed)
    ensures Accepted(m, disk, w, feed) ==>
      var s := if m.automatic then disk.(lastCheck := w.now) else disk;
      Update(m, disk, current, action, supported, w) == Choose(m, Accept(s, feed, w.now), feed, current, action, supported, w)
    ensures IsThrottled(m, disk, w) ==> Update(m, disk, current, action, supported, w).outcome == Throttled
    ensures (forall f :: !Accepted(m, disk, w, f)) && !IsThrottled(m, disk, w) ==>
      Update(m, disk, current, action, supported, w).outcome == Errored
  {
    hide Fetch, Choose, Downloaded;
    FetchIs(m, disk, w, feed);
    var s := if m.automatic then disk.(lastCheck := w.now) else disk;
    if Fetch(m, s, w).Some? {
      FetchIs(m, disk, w, Fetch(m, s, w).value);
      assert Accepted(m, disk, w, Fetch(m, s, w).value) <==>
        !IsThrottled(m, disk, w) && (m.automatic ==> w.checkSave == Written) && w.metadataStored && w.feedSave == Written;
    }
  }

  // ---- what each action answers ----

  /** What the action answers when o is the release to choose. */
  predicate Answers(m: Setup, disk: State, feed: Feed, current: string, action: Action, o: Release, w: World, outcome: Outcome) {
    if action == Check then outcome == Available(o.version)
    else
      && !outcome.Available? && !outcome.NoUpdate? && !outcome.Throttled?
      && (outcome == AlreadyInstalled(o.version) <==> !ContentsChanged(m, disk, o) && IsInstalled(m, disk, action, o, w))
      && (outcome.Activated? <==> !IsInstalled(m, disk, action, o, w) && AllGood(m, disk, feed, current, o, w))
      && (outcome.Activated? ==> outcome.version == o.version)
  }

  lemma ChooseIs(m: Setup, s: State, feed: Feed, current: string, action: Action, supported: seq<string>, w: World, o: Release)
    requires ValidReleases(m.crypto, feed.manifest.releases) && Valid(current)
    ensures Best(feed.manifest.releases, QueryOf(m, s, current, supported, action), o) ==>
      Answers(m, s, feed, current, action, o, w, Choose(m, s, feed, current, action, supported, w).outcome)
    ensures NoneEligible(feed.manifest.releases, QueryOf(m, s, current, supported, action)) ==>
      Choose(m, s, feed, current, action, supported, w).outcome == (if action == Repair || action == Install then Errored else NoUpdate)
  {
    hide ValidReleases, Valid, Select, Put, AllGood, IsInstalled, ContentsChanged, Best, NoneEligible;
    var q := QueryOf(m, s, current, supported, action);
    BestIsSelected(m, feed.manifest.releases, q, o);
    if Best(feed.manifest.releases, q, o) && action != Check {
      BestHasTarget(feed.manifest.releases, q, o);
      PutIs(m, s, feed, current, action, o, w);
    }
  }

  lemma BestHasTarget(releases: seq<Release>, q: Query, o: Release)
    requires Best(releases, q, o)
    ensures q.target in o.artifacts
  {}

  lemma SameAnswers(m: Setup, disk: State, s: State, feed: Feed, current: string, action: Action, o: Release, w: World, outcome: Outcome)
    requires disk.current == s.current && Answers(m, s, feed, current, action, o, w, outcome)
    ensures Answers(m, disk, feed, current, action, o, w, outcome)
  {
    hide Installs, Activates, Vouches;
    assert KeepingFails(m, s, feed, current, o, w) == KeepingFails(m, disk, feed, current, o, w) by {
      hide BaselineQuery;
    }
  }

  /**
   * Every answer of a run that is not a rollback, with its exact condition. Once the feed
   * is accepted a check reports the latest release that may be selected; the other
   * actions activate it exactly when everything they need is good, unless an install
   * finds it installed. Without such a release nothing is installed.
   */
  lemma RunAnswers(m: Setup, disk: State, action: Action, supported: seq<string>, w: World, feed: Feed, o: Release)
    requires Starts(m, disk, action, w) && action != Rollback
    ensures Effective(m.running, disk).Some?
    ensures var current, outcome := Effective(m.running, disk).value, Run(m, disk, action, supported, w).outcome;
      var q := QueryOf(m, disk, current, supported, action);
      && (outcome == Throttled <==> IsThrottled(m, disk, w))
      && (Accepted(m, disk, w, feed) && Best(feed.manifest.releases, q, o) ==> Answers(m, disk, feed, current, action, o, w, outcome))
      && (Accepted(m, disk, w, feed) && NoneEligible(feed.manifest.releases, q) ==>
            outcome == if action == Repair || action == Install then Errored else NoUpdate)
      && ((forall f :: !Accepted(m, disk, w, f)) && !IsThrottled(m, disk, w) ==> outcome == Errored)
  {
    hide ValidTrust, Loadable, Valid, Effective, Update, Choose, Accepted, Best, NoneEligible, Answers;
    EffectiveIsValid(m.running, disk);
    var current := Effective(m.running, disk).value;
    UpdateIs(m, disk, current, action, supported, w, feed);
    var s := if m.automatic then disk.(lastCheck := w.now) else disk;
    if Accepted(m, disk, w, feed) {
      AcceptedReleases(m, disk, w, feed);
      var t := Accept(s, feed, w.now);
      ChooseIs(m, t, feed, current, action, supported, w, o);
      assert QueryOf(m, t, current, supported, action) == QueryOf(m, disk, current, supported, action);
      if Best(feed.manifest.releases, QueryOf(m, disk, current, supported, action), o) {
        SameAnswers(m, disk, t, feed, current, action, o, w, Run(m, disk, action, supported, w).outcome);
      }
      NotThrottled(m, t, feed, current, action, supported, w);
      NotBoth(m, disk, w, feed);
    } else if !IsThrottled(m, disk, w) {
      NeverThrottled(m, disk, current, action, supported, w);
    }
  }

  lemma AcceptedReleases(m: Setup, disk: State, w: World, feed: Feed)
    requires Accepted(m, disk, w, feed)
    ensures ValidReleases(m.crypto, feed.manifest.releases)
  {
    hide ValidReleases, ValidTrust;
  }

  lemma NotBoth(m: Setup, disk: State, w: World, feed: Feed)
    requires Accepted(m, disk, w, feed)
    ensures !IsThrottled(m, disk, w)
  {
    hide Downloaded;
  }

  lemma NotThrottled(m: Setup, s: State, feed: Feed, current: string, action: Action, supported: seq<string>, w: World)
    ensures !Choose(m, s, feed, current, action, supported, w).outcome.Throttled?
  {
    hide Select, Vouches, Adopt, Stage;
  }

  lemma NeverThrottled(m: Setup, disk: State, current: string, action: Action, supported: seq<string>, w: World)
    requires !IsThrottled(m, disk, w)
    ensures Update(m, disk, current, action, supported, w).outcome != Throttled
  {
    hide Fetch, Choose;
    var s := if m.automatic then disk.(lastCheck := w.now) else disk;
    if Fetch(m, s, w).Some? {
      NotThrottled(m, Accept(s, Fetch(m, s, w).value, w.now), Fetch(m, s, w).value, current, action, supported, w);
    }
  }

  // ---- what a check leaves alone ----

  /** A check changes no selection and no block, and no other action answers as a check does. */
  lemma CheckOnlyLooks(m: Setup, disk: State, action: Action, supported: seq<string>, w: World)
    ensures action == Check ==> SameChoice(disk, Run(m, disk, action, supported, w).disk)
    ensures action == Check ==>
      && !Run(m, disk, action, supported, w).outcome.Activated?
      && !Run(m, disk, action, supported, w).outcome.NotSaved? && !Run(m, disk, action, supported, w).outcome.Undone?
    ensures Run(m, disk, action, supported, w).outcome.Available? ==> action == Check
  {
    hide Fetch, Choose, Activate, ValidTrust, Loadable, Effective, Vouches;
    if action == Rollback {
      if disk.previous.Some? {
        ActivateDisk(m, disk, disk, disk.previous.value, false, true, w.now, w.activation);
      }
    } else if Effective(m.running, disk).Some? {
      var s := if m.automatic then disk.(lastCheck := w.now) else disk;
      if Fetch(m, s, w).Some? {
        var feed := Fetch(m, s, w).value;
        ChooseLooks(m, Accept(s, feed, w.now), feed, Effective(m.running, disk).value, action, supported, w);
      }
    }
  }

  lemma ChooseLooks(m: Setup, s: State, feed: Feed, current: string, action: Action, supported: seq<string>, w: World)
    ensures var r := Choose(m, s, feed, current, action, supported, w);
      && (action == Check ==> r.disk == s && Quiet(r.outcome))
      && (r.outcome.Available? ==> action == Check)
  {
    hide Select, Put;
    var choice := Select(feed.manifest.releases, QueryOf(m, s, current, supported, action));
    if choice.Selected? && choice.release.Some? {
      PutOffersNothing(m, s, feed, current, action, choice.release.value, w);
    }
  }

  lemma PutOffersNothing(m: Setup, s: State, feed: Feed, current: string, action: Action, o: Release, w: World)
    ensures !Put(m, s, feed, current, action, o, w).outcome.Available?
  {
    hide Vouches, Adopt, Stage;
  }

  /** With everything good and a later release in the feed, apply, install and repair end with it installed. */
  lemma GoodRunInstalls(m: Setup, disk: State, action: Action, supported: seq<string>, w: World, feed: Feed, o: Release)
    requires Starts(m, disk, action, w) && action in {Apply, Install, Repair} && Accepted(m, disk, w, feed)
    requires Effective(m.running, disk).Some? &&
      Best(feed.manifest.releases, QueryOf(m, disk, Effective(m.running, disk).value, supported, action), o)
    requires AllGood(m, disk, feed, Effective(m.running, disk).value, o, w)
    ensures var outcome := Run(m, disk, action, supported, w).outcome;
      if IsInstalled(m, disk, action, o, w) then outcome == AlreadyInstalled(o.version)
      else outcome.Activated? && outcome.version == o.version
  {
    hide Run, Starts, Accepted, Best, Effective, Installs, Activates, KeepingFails, ContentsChanged, IsInstalled, IsThrottled, NoneEligible;
    RunAnswers(m, disk, action, supported, w, feed, o);
  }

  /** Every answer of a rollback, with its exact condition. */
  lemma RollbackAnswers(m: Setup, disk: State, supported: seq<string>, w: World)
    requires Starts(m, disk, Rollback, w)
    ensures var outcome := Run(m, disk, Rollback, supported, w).outcome;
      && (outcome == NoPrevious <==> disk.previous.None?)
      && (outcome == PreviousBlocked <==> disk.previous.Some? && disk.previous.value.version in disk.blocked)
      && (outcome.Activated? <==>
            && disk.previous.Some? && disk.previous.value.version !in disk.blocked
            && Vouches(m, disk.previous.value, w.previous, w.now) && w.previousProbe
            && Activates(m, disk.previous.value, w.now, w.activation))
      && (outcome.Activated? ==> outcome.version == disk.previous.value.version)
  {
    hide ValidTrust, Loadable, Valid, Vouches, Next, Restored, Effective;
    EffectiveIsValid(m.running, disk);
  }

  /**
   * What a successful run other than a rollback leaves to go back to: the release it
   * replaced, or nothing new when it repaired the current one; a rollback marker stays
   * exactly while the activated version is earlier than it. The answer names both ends.
   */
  lemma ActivatedKeepsWayBack(m: Setup, disk: State, action: Action, supported: seq<string>, w: World)
    requires Lawful(m.crypto) && Consistent(disk) && action != Rollback
    requires Run(m, disk, action, supported, w).outcome.Activated?
    ensures var r, outcome := Run(m, disk, action, supported, w).disk, Run(m, disk, action, supported, w).outcome;
      && (disk.current.Some? ==>
            && r.previous == (if outcome.version == disk.current.value.version then disk.previous else disk.current)
            && outcome.from == disk.current.value.version)
      && (disk.current.None? ==> outcome.from == m.running && (r.previous.Some? ==> r.previous.value.version == m.running))
      && r.rollbackFrom == (if disk.rollbackFrom != "" && Before(outcome.version, disk.rollbackFrom) then disk.rollbackFrom else "")
      && outcome.rollbackAvailable == r.previous.Some?
  {
    hide Activate, Update, Valid, Vouched, Vouches, ValidTrust, Select, ValidReleases, Fetch, ValidRecord, IsDigest, Lawful, Raises,
      Newer, Loadable, Effective, Compare;
    var current := Effective(m.running, disk).value;
    EffectiveIsValid(m.running, disk);
    var quiet, t, feed, from, record := UpdateCases(m, disk, current, action, supported, w);
    AttemptStarts(m, disk, t, current, from, record);
    ActivateDisk(m, t, from, record, IsRepair(from, record), false, w.now, w.activation);
    ActivatedFrom(m, t, from, record, IsRepair(from, record), w.now, w.activation);
    if disk.current.None? {
      NoCurrentRuns(m.running, disk);
    }
  }

  lemma ActivatedFrom(m: Setup, disk: State, s: State, record: Record, repair: bool, now: int, a: Activation)
    ensures var r := Activate(m, disk, s, record, repair, false, now, a);
      r.outcome.Activated? ==> r.outcome.from == OldVersion(m, s) && r.outcome.rollbackAvailable == Next(s, record, repair, false).previous.Some?
  {
    hide Vouches, Next, Restored;
  }

  lemma NoCurrentRuns(running: string, s: State)
    requires s.current.None? && Effective(running, s).Some?
    ensures Effective(running, s) == Some(running)
  {}

  // ---- what is kept of a first installation ----

  /** The running executable is exactly this listed release. */
  predicate IsRunning(m: Setup, feed: Feed, current: string, b: Release, w: World) {
    && b in feed.manifest.releases && Eligible(b, BaselineQuery(m, current)) && m.target in b.artifacts && w.executable.Some?
    && |w.executable.value| == b.artifacts[m.target].size && m.crypto.hash(w.executable.value) == b.artifacts[m.target].sha256
  }

  lemma AdoptResult(m: Setup, s: State, feed: Feed, current: string, o: Release, w: World, b: Release)
    requires ValidReleases(m.crypto, feed.manifest.releases) && Valid(current) && s.current.None?
    requires !KeepingFails(m, s, feed, current, o, w)
    ensures var t := Adopt(m, s, feed, current, o, w);
      && t.Some?
      && (o.version != current && IsRunning(m, feed, current, b, w) ==>
            t.value.current == Some(RecordOf(m, feed, b, w.baseline.instance)))
      && (o.version == current || (forall r :: !IsRunning(m, feed, current, r, w)) ==> t.value.current.None?)
  {
    hide Stage, Select, Eligible, ValidReleases, Vouches, Valid, Installs, Best;
    AdoptIs(m, s, feed, current, o, w);
    var releases, q := feed.manifest.releases, BaselineQuery(m, current);
    if o.version != current {
      NoBaseline(m, releases, q, o);
      if c :| c in releases && Eligible(c, q) {
        BaselineIsBest(m, releases, current, c);
        BestIsSelected(m, releases, q, c);
        StageIs(m, feed, c, w.now, w.baseline.(bytes := w.executable));
        OnlyBaseline(m, releases, current, c);
        assert IsRunning(m, feed, current, c, w) <==>
          && m.target in c.artifacts && w.executable.Some?
          && |w.executable.value| == c.artifacts[m.target].size && m.crypto.hash(w.executable.value) == c.artifacts[m.target].sha256;
      }
    }
  }

  lemma PutKeeps(m: Setup, s: State, feed: Feed, current: string, action: Action, o: Release, w: World, b: Release)
    requires ValidReleases(m.crypto, feed.manifest.releases) && Valid(current) && m.target in o.artifacts && s.current.None?
    requires Put(m, s, feed, current, action, o, w).outcome.Activated?
    ensures var r := Put(m, s, feed, current, action, o, w).disk;
      && (o.version != current && IsRunning(m, feed, current, b, w) ==>
            r.previous == Some(RecordOf(m, feed, b, w.baseline.instance)))
      && (o.version == current || (forall x :: !IsRunning(m, feed, current, x, w)) ==> r.previous.None?)
  {
    hide Put, Adopt, ValidReleases, Valid, IsRunning, KeepingFails;
    PutIs(m, s, feed, current, action, o, w);
    AdoptResult(m, s, feed, current, o, w, b);
    PutSelects(m, s, feed, current, action, o, w);
    var from := Adopt(m, s, feed, current, o, w).value;
    if x :| o.version != current && IsRunning(m, feed, current, x, w) {
      AdoptResult(m, s, feed, current, o, w, x);
      RunningVersion(m, feed, current, x, w);
    }
  }

  lemma PutSelects(m: Setup, s: State, feed: Feed, current: string, action: Action, o: Release, w: World)
    requires s.current.None? && Adopt(m, s, feed, current, o, w).Some? && Put(m, s, feed, current, action, o, w).outcome.Activated?
    ensures var from, r := Adopt(m, s, feed, current, o, w).value, Put(m, s, feed, current, action, o, w).disk;
      r.previous == if from.current.Some? && o.version == from.current.value.version then from.previous else from.current
  {
    hide Activate, Adopt, Vouches, Installs, Vouched;
    StageIs(m, feed, o, w.now, w.candidate);
    if Installs(m, feed, o, w.now, w.candidate) {
      var from, record := Adopt(m, s, feed, current, o, w).value, RecordOf(m, feed, o, w.candidate.instance);
      hide Stage;
      ActivateDisk(m, s, from, record, IsRepair(from, record), false, w.now, w.activation);
    }
  }

  lemma RunningVersion(m: Setup, feed: Feed, current: string, b: Release, w: World)
    requires IsRunning(m, feed, current, b, w)
    ensures b.version == current && m.target in b.artifacts
    ensures RecordOf(m, feed, b, w.baseline.instance).version == current
  {
    PinnedIs(b, BaselineQuery(m, current));
  }

  /**
   * A first activation keeps the running executable to go back to exactly when the feed
   * lists it, byte for byte, and another version was activated.
   */
  lemma FirstActivationKeeps(m: Setup, disk: State, action: Action, supported: seq<string>, w: World, feed: Feed, o: Release, b: Release)
    requires Starts(m, disk, action, w) && action in {Apply, Install, Repair} && Accepted(m, disk, w, feed) && disk.current.None?
    requires Best(feed.manifest.releases, QueryOf(m, disk, m.running, supported, action), o)
    requires Run(m, disk, action, supported, w).outcome.Activated?
    ensures var r := Run(m, disk, action, supported, w).disk;
      && (o.version != m.running && IsRunning(m, feed, m.running, b, w) ==>
            m.target in b.artifacts && r.previous == Some(RecordOf(m, feed, b, w.baseline.instance)))
      && (o.version == m.running || (forall x :: !IsRunning(m, feed, m.running, x, w)) ==> r.previous.None?)
  {
    hide ValidTrust, Loadable, Valid, Update, Choose, Accepted, Best, IsRunning, Put;
    EffectiveIsValid(m.running, disk);
    UpdateIs(m, disk, m.running, action, supported, w, feed);
    AcceptedReleases(m, disk, w, feed);
    var t := Accept(if m.automatic then disk.(lastCheck := w.now) else disk, feed, w.now);
    assert QueryOf(m, t, m.running, supported, action) == QueryOf(m, disk, m.running, supported, action);
    BestIsSelected(m, feed.manifest.releases, QueryOf(m, disk, m.running, supported, action), o);
    ChooseIsPut(m, t, feed, m.running, action, supported, w, o);
    BestHasTarget(feed.manifest.releases, QueryOf(m, disk, m.running, supported, action), o);
    PutKeeps(m, t, feed, m.running, action, o, w, b);
    if IsRunning(m, feed, m.running, b, w) {
      RunningVersion(m, feed, m.running, b, w);
    }
  }

  lemma ChooseIsPut(m: Setup, s: State, feed: Feed, current: string, action: Action, supported: seq<string>, w: World, o: Release)
    requires action != Check && Select(feed.manifest.releases, QueryOf(m, s, current, supported, action)) == Selected(Some(o))
    ensures Choose(m, s, feed, current, action, supported, w) == Put(m, s, feed, current, action, o, w)
  {
    hide Put, Select;
  }

  // ---- what is accepted and what may be selected ----

  /**
   * An accepted feed was signed by at least the threshold of trusted keys, is not more
   * than five minutes ahead of the clock, has not expired and lives at most 31 days.
   */
  lemma AcceptedIsSigned(m: Setup, disk: State, w: World, feed: Feed) returns (payload: string, signers: set<string>)
    requires Accepted(m, disk, w, feed)
    ensures |signers| >= m.trust.threshold >= 1
    ensures forall id :: id in signers ==>
      id in m.trust.keys && exists text :: Signature(id, text) in m.crypto.envelope(w.download.value).value.signatures &&
                                           m.crypto.signed(m.trust.keys[id], payload, text)
    ensures m.crypto.manifest(payload) == Some(feed.manifest) && feed.digest == m.crypto.hash(payload)
    ensures feed.manifest.issuedAt <= w.now + 300 && w.now < feed.manifest.expiresAt <= feed.manifest.issuedAt + 31 * 24 * 3600
  {
    hide ValidReleases, IsKeyId;
    var e := m.crypto.envelope(w.download.value).value;
    payload := m.crypto.payload(e.payload).value;
    signers := Signers(m.crypto, m.trust, payload, e.signatures);
    forall id | id in signers
      ensures exists text :: Signature(id, text) in e.signatures && m.crypto.signed(m.trust.keys[id], payload, text)
    {
      var s :| s in e.signatures && s.keyId == id && m.crypto.signed(m.trust.keys[id], payload, s.text);
      assert s == Signature(id, s.text);
    }
  }

  /** A release may be selected when it is later than the running version, or the same for install and repair. */
  lemma EligibleIs(m: Setup, disk: State, current: string, supported: seq<string>, action: Action, o: Release)
    requires Valid(current)
    ensures Eligible(o, QueryOf(m, disk, current, supported, action)) <==>
      && (Before(current, o.version) || (action in {Install, Repair} && o.version == current))
      && (action == Repair ==> o.version == current)
      && o.version !in disk.blocked && m.target in o.artifacts
      && ProtocolSupported(o.protocolMajor, if supported == [] then DefaultProtocols(current) else supported)
  {
    hide Parse, ProtocolSupported, DefaultProtocols;
    if Valid(o.version) {
      TotalOrder(o.version, current);
    }
    VersionIsNotEmpty(current);
  }
}
