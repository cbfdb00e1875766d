/** What holds of every run of the updater, and over every sequence of runs. */
module UpdateRuns {
  import opened Options
  import opened UpdateVersion
  import opened UpdateFeed
  import opened UpdateState
  import opened UpdateRun
  import opened UpdateLaws

  // ---- one run ----

  /** An accepted feed is never older than the last one, and never differs from it under the same number. */
  lemma WatermarkOfRun(m: Setup, disk: State, action: Action, supported: seq<string>, w: World)
    ensures Newer(disk, Run(m, disk, action, supported, w).disk)
  {
    hide Activate, Update, Valid, Loadable, Vouched, Vouches, ValidTrust, Select, ValidReleases, Fetch;
    if action == Rollback {
      if disk.previous.Some? {
        ActivateKeepsWatermark(m, disk, disk, disk.previous.value, false, true, w.now, w.activation);
      }
    } else if Effective(m.running, disk).Some? && Loadable(disk) {
      var current := Effective(m.running, disk).value;
      EffectiveIsValid(m.running, disk);
      var quiet, t, feed, from, record := UpdateCases(m, disk, current, action, supported, w);
      if !quiet {
        ActivateKeepsWatermark(m, t, from, record, IsRepair(from, record), false, w.now, w.activation);
      }
    }
  }

  lemma NextConsistent(s: State, record: Record, repair: bool, rollback: bool)
    requires Consistent(s) && ValidRecord(record)
    ensures Consistent(Next(s, record, repair, rollback))
  {
    hide Valid, IsDigest, IsInstance, Before;
    if rollback && s.current.Some? {
      BlockAges(s, s.current.value.version, s.current.value.version);
    }
  }

  lemma RestoredConsistent(s: State, record: Record, repair: bool, rollback: bool, cancelled: bool)
    requires Consistent(s) && ValidRecord(record)
    ensures Consistent(Restored(s, record, repair, rollback, cancelled))
  {
    hide Valid, IsDigest, IsInstance;
    BlockAges(s, record.version, record.version);
  }

  lemma ActivateKeepsConsistent(m: Setup, disk: State, s: State, record: Record, repair: bool, rollback: bool, now: int, a: Activation)
    requires Consistent(disk) && Consistent(s) && ValidRecord(record)
    ensures Consistent(Activate(m, disk, s, record, repair, rollback, now, a).disk)
  {
    hide Activate, Consistent, ValidRecord, Next, Restored, Vouched;
    NextConsistent(s, record, repair, rollback);
    RestoredConsistent(s, record, repair, rollback, a.cancelled);
    ActivateDisk(m, disk, s, record, repair, rollback, now, a);
  }

  /** Every saved state loads again, and keeps a current release beside any marker or rollback point. */
  lemma RunKeepsConsistent(m: Setup, disk: State, action: Action, supported: seq<string>, w: World)
    requires Lawful(m.crypto) && Consistent(disk)
    ensures Consistent(Run(m, disk, action, supported, w).disk)
  {
    hide Activate, Update, Valid, Vouched, Vouches, ValidTrust, Select, ValidReleases, Fetch, ValidRecord, AtMost, IsDigest,
      Lawful, Raises, Effective, Newer, Attempt;
    var r := Run(m, disk, action, supported, w);
    if action == Rollback {
      if disk.previous.Some? {
        ActivateKeepsConsistent(m, disk, disk, disk.previous.value, false, true, w.now, w.activation);
      }
    } else if Effective(m.running, disk).Some? {
      var current := Effective(m.running, disk).value;
      EffectiveIsValid(m.running, disk);
      var quiet, t, feed, from, record := UpdateCases(m, disk, current, action, supported, w);
      if !quiet {
        AttemptStarts(m, disk, t, current, from, record);
        AttemptIsLater(m, t, current, from, record);
        ActivateKeepsConsistent(m, t, from, record, IsRepair(from, record), false, w.now, w.activation);
      }
    }
  }

  lemma RecordIsValid(r: Record)
    requires ValidRecord(r)
    ensures Valid(r.version)
  {}

  /** Every record a saved state names was named before or is vouched for by signed metadata. */
  lemma SavedRecordsVouched(m: Setup, disk: State, action: Action, supported: seq<string>, w: World, r: Record)
    requires r in Names(Run(m, disk, action, supported, w).disk)
    ensures r in Names(disk) || Vouched(m, r)
  {
    hide Activate, Update, Valid, Vouched, Vouches, ValidTrust, Select, ValidReleases, Fetch, ValidRecord, AtMost, IsDigest, Loadable;
    if action == Rollback {
      if disk.previous.Some? {
        ActivateDisk(m, disk, disk, disk.previous.value, false, true, w.now, w.activation);
      }
    } else if Effective(m.running, disk).Some? && Loadable(disk) {
      var current := Effective(m.running, disk).value;
      EffectiveIsValid(m.running, disk);
      var quiet, t, feed, from, record := UpdateCases(m, disk, current, action, supported, w);
      if !quiet {
        ActivateDisk(m, t, from, record, IsRepair(from, record), false, w.now, w.activation);
      }
    }
  }

  /** The two states an activation starts from load again and are no worse than the saved one. */
  lemma AttemptStarts(m: Setup, disk: State, t: State, current: string, from: State, record: Record)
    requires Consistent(disk) && SameChoice(disk, t) && Loadable(t) && Attempt(m, t, current, from, record)
    requires Effective(m.running, disk) == Some(current)
    ensures Consistent(t) && Consistent(from) && Raises(disk, t) && Raises(disk, from)
    ensures Valid(record.version) && Effective(m.running, from) == Some(current)
    ensures from.sequence == t.sequence && from.digest == t.digest
  {
    hide Valid, ValidRecord, AtMost, IsDigest, Raises;
    RecordIsValid(record);
    RaisesSame(disk, t);
    EffectiveIsValid(m.running, disk);
    if from != t {
      RecordIsValid(from.current.value);
      RaisesFirst(t, from.current.value);
      RaisesTransitive(disk, t, from);
      TotalOrder(current, current);
    }
  }

  lemma RestoredChoice(s: State, record: Record, repair: bool, cancelled: bool)
    ensures var t := Restored(s, record, repair, false, cancelled);
      t.current == s.current && t.previous == s.previous && t.rollbackFrom == s.rollbackFrom
  {}

  /** Only a rollback can lower the version that any launcher runs. */
  lemma RunRaises(m: Setup, disk: State, action: Action, supported: seq<string>, w: World)
    requires Lawful(m.crypto) && Consistent(disk) && action != Rollback
    ensures Raises(disk, Run(m, disk, action, supported, w).disk)
  {
    hide Activate, Update, Valid, Vouched, Vouches, ValidTrust, Select, ValidReleases, Fetch, ValidRecord, AtMost,
      IsDigest, Loadable, Raises, Effective, Next, Restored, Attempt, Lawful, Newer;
    var r := Run(m, disk, action, supported, w);
    RaisesSame(disk, disk);
    if Effective(m.running, disk).Some? {
      var current := Effective(m.running, disk).value;
      EffectiveIsValid(m.running, disk);
      var quiet, t, feed, from, record := UpdateCases(m, disk, current, action, supported, w);
      if quiet {
        RaisesSame(disk, r.disk);
      } else {
        AttemptStarts(m, disk, t, current, from, record);
        var repair := IsRepair(from, record);
        ActivateDisk(m, t, from, record, repair, false, w.now, w.activation);
        RestoredChoice(from, record, repair, w.activation.cancelled);
        RaisesSame(from, Restored(from, record, repair, false, w.activation.cancelled));
        RaisesTransitive(disk, from, Restored(from, record, repair, false, w.activation.cancelled));
        AttemptIsLater(m, t, current, from, record);
        RaisesNext(m, from, record, repair);
        RaisesTransitive(disk, from, Next(from, record, repair, false));
      }
    }
  }

  lemma AttemptIsLater(m: Setup, s: State, current: string, from: State, record: Record)
    requires Attempt(m, s, current, from, record)
    ensures AtMost(current, record.version) && ValidRecord(record)
  {}

  /**
   * A successful run that is not a rollback makes the activated version the effective
   * one; that version is the latest release of the accepted feed that may be selected.
   */
  lemma ActivatedIsEffective(m: Setup, disk: State, action: Action, supported: seq<string>, w: World)
    requires Lawful(m.crypto) && Consistent(disk) && action != Rollback
    requires Run(m, disk, action, supported, w).outcome.Activated?
    ensures var r := Run(m, disk, action, supported, w);
      && Effective(m.running, r.disk) == Some(r.outcome.version)
      && r.disk.current.Some? && r.disk.current.value.version == r.outcome.version && Vouched(m, r.disk.current.value)
      && (action == Repair ==> Effective(m.running, disk) == Some(r.outcome.version))
      && r.outcome.version !in disk.blocked
    ensures var r := Run(m, disk, action, supported, w);
      var feed := Fetch(m, if m.automatic then disk.(lastCheck := w.now) else disk, w);
      var q := QueryOf(m, disk, Effective(m.running, disk).value, supported, action);
      && feed.Some? && r.disk.sequence == feed.value.manifest.sequence && r.disk.digest == feed.value.digest
      && (exists o :: o in feed.value.manifest.releases && o.version == r.outcome.version && Eligible(o, q))
      && (forall o :: o in feed.value.manifest.releases && Eligible(o, q) ==> AtMost(o.version, r.outcome.version))
  {
    hide Activate, Update, Valid, Vouched, Vouches, ValidTrust, Select, ValidReleases, Fetch, ValidRecord, AtMost,
      IsDigest, Loadable, Raises, Effective, Next, Attempt, Lawful, Newer, Eligible;
    var r := Run(m, disk, action, supported, w);
    var current := Effective(m.running, disk).value;
    EffectiveIsValid(m.running, disk);
    var quiet, t, feed, from, record := UpdateCases(m, disk, current, action, supported, w);
    AttemptStarts(m, disk, t, current, from, record);
    AttemptIsLater(m, t, current, from, record);
    var repair := IsRepair(from, record);
    ActivateDisk(m, t, from, record, repair, false, w.now, w.activation);
    NextIsEffective(m.running, from, record, repair);
    NextSelects(from, record, repair);
    ActivateKeepsWatermark(m, t, from, record, repair, false, w.now, w.activation);
    var q := QueryOf(m, t, current, supported, action);
    assert q == QueryOf(m, disk, current, supported, action);
    SelectedIsEligible(feed.manifest.releases, q);
    SelectsGreatest(m.crypto, feed.manifest.releases, q, Select(feed.manifest.releases, q).release.value);
    VersionIsNotEmpty(current);
  }

  lemma NextSelects(s: State, record: Record, repair: bool)
    ensures Next(s, record, repair, false).current == Some(record)
  {}

  lemma VersionIsNotEmpty(s: string)
    requires Valid(s)
    ensures s != ""
  {}

  // ---- failure and rollback ----

  /**
   * When a selection could not be saved, or the activated release fails, and the old
   * selection is put back, the current, previous and rollback marker are what they
   * were, except that the running release may have been adopted as current; the
   * version every later run starts from is unchanged. A version that failed is blocked
   * unless the run was a repair, a rollback or cancelled.
   */
  lemma UndoneRestores(m: Setup, disk: State, action: Action, supported: seq<string>, w: World) returns (failed: string)
    requires Lawful(m.crypto) && Consistent(disk)
    requires Run(m, disk, action, supported, w).outcome in {Undone(true), NotSaved(true)}
    ensures var r := Run(m, disk, action, supported, w).disk;
      && r.previous == disk.previous && r.rollbackFrom == disk.rollbackFrom
      && (r.current == disk.current || (disk.current.None? && r.current.Some? && r.current.value.version == m.running))
      && Effective(m.running, r) == Effective(m.running, disk)
    ensures action == Rollback ==> Run(m, disk, action, supported, w).disk == disk
    ensures action != Rollback ==>
      && failed !in disk.blocked && AtMost(Effective(m.running, disk).value, failed)
      && Run(m, disk, action, supported, w).disk.blocked ==
         if Run(m, disk, action, supported, w).outcome.NotSaved? then disk.blocked
         else if w.activation.cancelled || (disk.current.Some? && failed == disk.current.value.version) then disk.blocked
         else if disk.current.None? && failed == m.running && Run(m, disk, action, supported, w).disk.current.Some? then disk.blocked
         else Block(disk, failed).blocked
  {
    hide Activate, Update, Valid, Vouched, Vouches, ValidTrust, Select, ValidReleases, Fetch, ValidRecord, AtMost, IsDigest,
      Lawful, Raises, Newer, Loadable;
    failed := "";
    if action == Rollback {
      ActivateDisk(m, disk, disk, disk.previous.value, false, true, w.now, w.activation);
    } else {
      var current := Effective(m.running, disk).value;
      EffectiveIsValid(m.running, disk);
      var quiet, t, feed, from, record := UpdateCases(m, disk, current, action, supported, w);
      failed := record.version;
      AttemptStarts(m, disk, t, current, from, record);
      AttemptIsLater(m, t, current, from, record);
      ActivateDisk(m, t, from, record, IsRepair(from, record), false, w.now, w.activation);
      RestoredChoice(from, record, IsRepair(from, record), w.activation.cancelled);
      SameEffective(m.running, from, Run(m, disk, action, supported, w).disk);
      assert Block(disk, record.version).blocked == Block(from, record.version).blocked;
    }
  }

  /**
   * A rollback selects the previous release, leaves nothing to roll back to and blocks
   * what it left. It becomes the effective version exactly for launchers that are no
   * later than the release it left or no later than the release it selects.
   */
  lemma RollbackLandsOn(m: Setup, disk: State, supported: seq<string>, w: World)
    requires Consistent(disk)
    requires Run(m, disk, Rollback, supported, w).outcome.Activated?
    ensures var r := Run(m, disk, Rollback, supported, w);
      && disk.previous.Some? && disk.current.Some?
      && r.outcome.version == disk.previous.value.version && r.outcome.version !in disk.blocked
      && r.disk.current == disk.previous && r.disk.previous.None?
      && r.disk.rollbackFrom == disk.current.value.version
      && disk.current.value.version in r.disk.blocked
      && Effective(m.running, r.disk) == Some(
           if AtMost(m.running, disk.current.value.version) || AtMost(m.running, r.outcome.version) then r.outcome.version
           else m.running)
  {
    hide Activate, Vouched, Vouches, ValidTrust, Parse, IsDigest, IsInstance;
    var left, target := disk.current.value.version, disk.previous.value.version;
    ActivateDisk(m, disk, disk, disk.previous.value, false, true, w.now, w.activation);
    BlockAges(disk, left, left);
    EffectiveIsValid(m.running, disk);
    VersionIsNotEmpty(left);
    TotalOrder(m.running, left);
    TotalOrder(m.running, target);
    TotalOrder(target, m.running);
  }

  // ---- blocked versions ----

  predicate Activates(o: Outcome, v: string) {
    o.Activated? && o.version == v
  }

  /** No run activates a version that is blocked. */
  lemma RunAvoidsBlocked(m: Setup, disk: State, action: Action, supported: seq<string>, w: World, v: string)
    requires Lawful(m.crypto) && Consistent(disk) && v in disk.blocked
    ensures !Activates(Run(m, disk, action, supported, w).outcome, v)
  {
    hide Activate, Update, Valid, Vouched, Vouches, ValidTrust, Select, ValidReleases, Fetch, ValidRecord, AtMost, IsDigest,
      Lawful, Raises, Newer, Effective, Block, Next, Restored;
    if action == Rollback {
      if disk.previous.Some? {
        ActivateDisk(m, disk, disk, disk.previous.value, false, true, w.now, w.activation);
      }
    } else if Effective(m.running, disk).Some? {
      var current := Effective(m.running, disk).value;
      EffectiveIsValid(m.running, disk);
      var quiet, t, feed, from, record := UpdateCases(m, disk, current, action, supported, w);
      if !quiet {
        ActivateDisk(m, t, from, record, IsRepair(from, record), false, w.now, w.activation);
      }
    }
  }

  /** One run blocks at most one version: the release that it left, or the one that failed. */
  lemma RunBlocksOne(m: Setup, disk: State, action: Action, supported: seq<string>, w: World) returns (x: string)
    requires Lawful(m.crypto) && Consistent(disk)
    ensures var r := Run(m, disk, action, supported, w);
      r.disk.blocked == disk.blocked || r.disk.blocked == Block(disk, x).blocked
  {
    hide Activate, Update, Valid, Vouched, Vouches, ValidTrust, Select, ValidReleases, Fetch, ValidRecord, AtMost, IsDigest,
      Lawful, Raises, Newer, Effective, LastOf;
    x := "";
    if action == Rollback {
      if disk.previous.Some? {
        ActivateDisk(m, disk, disk, disk.previous.value, false, true, w.now, w.activation);
        if disk.current.Some? {
          x := disk.current.value.version;
        }
      }
    } else if Effective(m.running, disk).Some? {
      var current := Effective(m.running, disk).value;
      EffectiveIsValid(m.running, disk);
      var quiet, t, feed, from, record := UpdateCases(m, disk, current, action, supported, w);
      if !quiet {
        ActivateDisk(m, t, from, record, IsRepair(from, record), false, w.now, w.activation);
        x := record.version;
      }
    }
  }

  /** A run that blocks nothing ages no block; one that does forgets exactly a block of the full age. */
  lemma RunAgesBlocked(m: Setup, disk: State, action: Action, supported: seq<string>, w: World, v: string)
    requires Lawful(m.crypto) && Consistent(disk) && v in disk.blocked
    ensures Age(disk.blocked, v) < MAX_BLOCKED
    ensures var r := Run(m, disk, action, supported, w).disk;
      r.blocked != disk.blocked ==>
        && (v in r.blocked <==> Age(disk.blocked, v) + 1 < MAX_BLOCKED)
        && (v in r.blocked ==> Age(r.blocked, v) == Age(disk.blocked, v) + 1)
  {
    hide Run, Lawful, Block, Valid, ValidRecord, IsDigest;
    var x := RunBlocksOne(m, disk, action, supported, w);
    BlockAges(disk, v, x);
    AgeIs(disk.blocked, v);
  }

  // ---- sequences of runs ----

  datatype Step = Step(m: Setup, action: Action, supported: seq<string>, w: World)

  function Take(disk: State, step: Step): Result {
    Run(step.m, disk, step.action, step.supported, step.w)
  }

  /** The saved state after the steps; each may be a different launcher version. */
  function RunAll(disk: State, steps: seq<Step>): State
    decreases |steps|
  {
    if steps == [] then disk else RunAll(Take(disk, steps[0]).disk, steps[1..])
  }

  ghost predicate AllLawful(steps: seq<Step>) {
    forall step :: step in steps ==> Lawful(step.m.crypto)
  }

  /** Every state that runs save, of launchers of any versions, loads again. */
  lemma {:induction false} RunsKeepConsistent(disk: State, steps: seq<Step>)
    requires Consistent(disk) && AllLawful(steps)
    ensures Consistent(RunAll(disk, steps))
    decreases |steps|
  {
    hide Consistent, Run, Lawful;
    if steps != [] {
      RunKeepsConsistent(steps[0].m, disk, steps[0].action, steps[0].supported, steps[0].w);
      RunsKeepConsistent(Take(disk, steps[0]).disk, steps[1..]);
    }
  }

  /** What runs can leave behind that began with a fresh installation. */
  ghost predicate Reachable(disk: State) {
    exists steps :: AllLawful(steps) && RunAll(EMPTY, steps) == disk
  }

  lemma ReachableIsConsistent(disk: State)
    requires Reachable(disk)
    ensures Consistent(disk)
  {
    hide RunAll, AllLawful;
    var steps :| AllLawful(steps) && RunAll(EMPTY, steps) == disk;
    EmptyIsConsistent();
    RunsKeepConsistent(EMPTY, steps);
  }

  lemma EmptyIsConsistent()
    ensures Consistent(EMPTY) && Names(EMPTY) == {}
  {}

  lemma {:induction false} RunsVouch(disk: State, steps: seq<Step>, r: Record)
    requires r in Names(RunAll(disk, steps))
    ensures r in Names(disk) || exists step :: step in steps && Vouched(step.m, r)
    decreases |steps|
  {
    hide Run, Vouched, Names;
    if steps != [] {
      RunsVouch(Take(disk, steps[0]).disk, steps[1..], r);
      if r in Names(Take(disk, steps[0]).disk) {
        SavedRecordsVouched(steps[0].m, disk, steps[0].action, steps[0].supported, steps[0].w, r);
        assert steps[0] in steps;
      }
    }
  }

  /** After a fresh installation every record a saved state names was vouched for in one of the runs. */
  lemma InstalledRecordsVouched(steps: seq<Step>, r: Record)
    requires r in Names(RunAll(EMPTY, steps))
    ensures exists step :: step in steps && Vouched(step.m, r)
  {
    hide RunAll, Vouched, Names;
    RunsVouch(EMPTY, steps, r);
    EmptyIsConsistent();
  }

  /** The accepted feed number never decreases, and the feed never changes under the same number. */
  lemma {:induction false} WatermarkOfRuns(disk: State, steps: seq<Step>)
    requires Consistent(disk) && AllLawful(steps)
    ensures disk.sequence <= RunAll(disk, steps).sequence
    ensures 0 < disk.sequence == RunAll(disk, steps).sequence ==> disk.digest == RunAll(disk, steps).digest
    decreases |steps|
  {
    hide Run, Lawful, IsDigest, Valid, ValidRecord;
    if steps != [] {
      WatermarkOfRun(steps[0].m, disk, steps[0].action, steps[0].supported, steps[0].w);
      RunKeepsConsistent(steps[0].m, disk, steps[0].action, steps[0].supported, steps[0].w);
      WatermarkOfRuns(Take(disk, steps[0]).disk, steps[1..]);
      DigestIsNotEmpty(disk.digest);
    }
  }

  lemma DigestIsNotEmpty(s: string)
    ensures IsDigest(s) ==> s != ""
  {}

  /** Without a rollback among them, runs never lower the version any launcher runs. */
  lemma {:induction false} OnlyRollbackLowers(disk: State, steps: seq<Step>)
    requires Consistent(disk) && AllLawful(steps)
    requires forall step :: step in steps ==> step.action != Rollback
    ensures Raises(disk, RunAll(disk, steps))
    decreases |steps|
  {
    hide Consistent, Run, Lawful, Raises;
    if steps == [] {
      ConsistentRaises(disk);
    } else {
      RunKeepsConsistent(steps[0].m, disk, steps[0].action, steps[0].supported, steps[0].w);
      RunRaises(steps[0].m, disk, steps[0].action, steps[0].supported, steps[0].w);
      OnlyRollbackLowers(Take(disk, steps[0]).disk, steps[1..]);
      RaisesTransitive(disk, Take(disk, steps[0]).disk, RunAll(Take(disk, steps[0]).disk, steps[1..]));
    }
  }

  lemma ConsistentRaises(disk: State)
    requires Consistent(disk)
    ensures Raises(disk, disk)
  {
    RaisesSame(disk, disk);
  }

  /** No step of the sequence activates v. */
  predicate Avoids(disk: State, steps: seq<Step>, v: string)
    decreases |steps|
  {
    steps == [] || (!Activates(Take(disk, steps[0]).outcome, v) && Avoids(Take(disk, steps[0]).disk, steps[1..], v))
  }

  /** No step activates v while v is blocked. */
  predicate AvoidsWhileBlocked(disk: State, steps: seq<Step>, v: string)
    decreases |steps|
  {
    steps == [] ||
      (!(v in disk.blocked && Activates(Take(disk, steps[0]).outcome, v)) && AvoidsWhileBlocked(Take(disk, steps[0]).disk, steps[1..], v))
  }

  /** v is blocked before the steps and after each of them. */
  predicate StaysBlocked(disk: State, steps: seq<Step>, v: string)
    decreases |steps|
  {
    v in disk.blocked && (steps == [] || StaysBlocked(Take(disk, steps[0]).disk, steps[1..], v))
  }

  /** How many of the steps blocked a version. */
  function Blocks(disk: State, steps: seq<Step>): nat
    decreases |steps|
  {
    if steps == [] then 0
    else (if Take(disk, steps[0]).disk.blocked == disk.blocked then 0 else 1) + Blocks(Take(disk, steps[0]).disk, steps[1..])
  }

  /** However many runs there are, none activates a version that is blocked at that moment. */
  lemma {:induction false} BlockedIsAvoided(disk: State, steps: seq<Step>, v: string)
    requires Consistent(disk) && AllLawful(steps)
    ensures AvoidsWhileBlocked(disk, steps, v)
    decreases |steps|
  {
    hide Consistent, Run, Lawful, Activates;
    if steps != [] {
      RunKeepsConsistent(steps[0].m, disk, steps[0].action, steps[0].supported, steps[0].w);
      if v in disk.blocked {
        RunAvoidsBlocked(steps[0].m, disk, steps[0].action, steps[0].supported, steps[0].w, v);
      }
      BlockedIsAvoided(Take(disk, steps[0]).disk, steps[1..], v);
    }
  }

  /** A blocked version stays blocked exactly while fewer than 128 versions have been blocked after it. */
  lemma {:induction false} BlockedStaysOut(disk: State, steps: seq<Step>, v: string)
    requires Consistent(disk) && AllLawful(steps) && v in disk.blocked
    ensures StaysBlocked(disk, steps, v) <==> Age(disk.blocked, v) + Blocks(disk, steps) < MAX_BLOCKED
    ensures StaysBlocked(disk, steps, v) ==> Avoids(disk, steps, v)
    decreases |steps|
  {
    hide Consistent, Run, Lawful, Activates, Age;
    if steps == [] {
      assert Age(disk.blocked, v) < MAX_BLOCKED by { AgeBound(disk, v); }
    } else {
      RunKeepsConsistent(steps[0].m, disk, steps[0].action, steps[0].supported, steps[0].w);
      RunAvoidsBlocked(steps[0].m, disk, steps[0].action, steps[0].supported, steps[0].w, v);
      RunAgesBlocked(steps[0].m, disk, steps[0].action, steps[0].supported, steps[0].w, v);
      if v in Take(disk, steps[0]).disk.blocked {
        BlockedStaysOut(Take(disk, steps[0]).disk, steps[1..], v);
      }
    }
  }

  lemma AgeBound(disk: State, v: string)
    requires Consistent(disk) && v in disk.blocked
    ensures Age(disk.blocked, v) < MAX_BLOCKED
  {
    AgeIs(disk.blocked, v);
  }

  /**
   * The release a rollback left is blocked from then on until 128 versions have been
   * blocked after it was, and no run activates it in that time.
   */
  lemma LeftReleaseStaysOut(m: Setup, disk: State, supported: seq<string>, w: World, steps: seq<Step>)
    requires Lawful(m.crypto) && Consistent(disk) && AllLawful(steps)
    requires Run(m, disk, Rollback, supported, w).outcome.Activated?
    ensures disk.current.Some?
    ensures var t, left := Run(m, disk, Rollback, supported, w).disk, disk.current.value.version;
      && left in t.blocked && Age(t.blocked, left) == (if left in disk.blocked then Age(disk.blocked, left) else 0)
      && (StaysBlocked(t, steps, left) <==> Age(t.blocked, left) + Blocks(t, steps) < MAX_BLOCKED)
      && (StaysBlocked(t, steps, left) ==> Avoids(t, steps, left))
      && AvoidsWhileBlocked(t, steps, left)
  {
    hide Consistent, Run, Lawful, Avoids, Activate, Vouched, StaysBlocked, AvoidsWhileBlocked, Blocks, Age;
    RunKeepsConsistent(m, disk, Rollback, supported, w);
    RollbackBlocks(m, disk, supported, w);
    var t := Run(m, disk, Rollback, supported, w).disk;
    BlockedStaysOut(t, steps, disk.current.value.version);
    BlockedIsAvoided(t, steps, disk.current.value.version);
  }

  lemma RollbackBlocks(m: Setup, disk: State, supported: seq<string>, w: World)
    requires Consistent(disk) && Run(m, disk, Rollback, supported, w).outcome.Activated?
    ensures disk.current.Some?
    ensures var t, left := Run(m, disk, Rollback, supported, w).disk, disk.current.value.version;
      left in t.blocked && Age(t.blocked, left) == if left in disk.blocked then Age(disk.blocked, left) else 0
  {
    hide Activate, Vouched, Vouches, ValidTrust, Valid, ValidRecord, Age, IsDigest;
    ActivateDisk(m, disk, disk, disk.previous.value, false, true, w.now, w.activation);
    BlockAges(disk, disk.current.value.version, disk.current.value.version);
  }

  // ---- a rollback cannot be repeated ----

  /** The outcome of a run that saved a new selection other than a repair. */
  predicate Moves(disk: State, r: Result) {
    || (r.outcome.Activated? && r.outcome.version != r.outcome.from)
    || r.outcome == NotSaved(false) || r.outcome == Undone(false)
  }

  lemma PreviousNeedsMove(m: Setup, disk: State, action: Action, supported: seq<string>, w: World)
    requires Consistent(disk) && disk.previous.None?
    ensures Run(m, disk, action, supported, w).disk.previous.None? || Moves(disk, Run(m, disk, action, supported, w))
  {
    hide Update, Valid, Vouched, Vouches, ValidTrust, Select, ValidReleases, Fetch, ValidRecord, AtMost, IsDigest,
      Lawful, Raises, Newer, Effective, Loadable, Block;
    if action != Rollback && Effective(m.running, disk).Some? {
      var current := Effective(m.running, disk).value;
      EffectiveIsValid(m.running, disk);
      var quiet, t, feed, from, record := UpdateCases(m, disk, current, action, supported, w);
      RestoredChoice(from, record, IsRepair(from, record), w.activation.cancelled);
    }
  }

  predicate NoneMoves(disk: State, steps: seq<Step>)
    decreases |steps|
  {
    steps == [] || (!Moves(disk, Take(disk, steps[0])) && NoneMoves(Take(disk, steps[0]).disk, steps[1..]))
  }

  /** After a rollback another one is refused until a run has moved the selection again. */
  lemma {:induction false} RollbackOnce(disk: State, steps: seq<Step>, m: Setup, supported: seq<string>, w: World)
    requires Consistent(disk) && AllLawful(steps) && disk.previous.None? && NoneMoves(disk, steps)
    ensures RunAll(disk, steps).previous.None?
    ensures Run(m, RunAll(disk, steps), Rollback, supported, w).outcome in {Errored, NoPrevious}
    decreases |steps|
  {
    hide Consistent, Lawful, Moves;
    if steps != [] {
      hide Run;
      RunKeepsConsistent(steps[0].m, disk, steps[0].action, steps[0].supported, steps[0].w);
      PreviousNeedsMove(steps[0].m, disk, steps[0].action, steps[0].supported, steps[0].w);
      RollbackOnce(Take(disk, steps[0]).disk, steps[1..], m, supported, w);
    }
  }
}
