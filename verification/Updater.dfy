/**
 * The updater itself. It works on the saved state step by step, and each method is
 * proved to do what the run transition says. A state is saved only when every record
 * it names has been verified: that is what Save demands of each of its callers.
 */
module Updater {
  import opened Options
  import opened UpdateVersion
  import opened UpdateFeed
  import opened UpdateState
  import US = UpdateRun

  class Manager {
    const m: Setup
    /** The contents of the state file. */
    var disk: State
    /** The records verified so far, by this updater or by the one that saved them. */
    ghost var verified: set<Record>

    ghost predicate Valid()
      reads this
    {
      Names(disk) <= verified
    }

    constructor (m: Setup, disk: State)
      ensures this.m == m && this.disk == disk && Valid()
    {
      this.m := m;
      this.disk := disk;
      this.verified := Names(disk);
    }

    method Save(next: State, how: US.Save) returns (ok: bool)
      requires Names(next) <= verified
      modifies this`disk
      ensures disk == US.After(old(disk), next, how)
      ensures ok <==> how == US.Written
    {
      if how != US.FailedBefore {
        disk := next;
      }
      return how == US.Written;
    }

    /** The signed metadata kept for the record authorize it, whatever their age. */
    method ReadProof(record: Record, metadata: Option<string>, now: int) returns (ok: bool)
      ensures ok <==>
        && ValidRecord(record) && metadata.Some?
        && FeedOf(m.crypto, m.trust, metadata.value, now, false).Some?
        && FeedOf(m.crypto, m.trust, metadata.value, now, false).value.digest == record.manifestDigest
        && Lists(FeedOf(m.crypto, m.trust, metadata.value, now, false).value.manifest.releases, record)
    {
      hide ValidRecord, FeedOf;
      if !ValidRecord(record) || metadata.None? {
        return false;
      }
      var feed := VerifyFeed(m.crypto, m.trust, metadata.value, now, false);
      if feed.None? || feed.value.digest != record.manifestDigest {
        return false;
      }
      var releases := feed.value.manifest.releases;
      for i := 0 to |releases|
        invariant !Lists(releases[..i], record)
      {
        assert releases[..i + 1] == releases[..i] + [releases[i]];
        var release := releases[i];
        if release.version == record.version && record.target in release.artifacts
           && release.artifacts[record.target].sha256 == record.sha256
           && release.artifacts[record.target].size == record.size {
          assert release in releases;
          return true;
        }
      }
      assert releases[..|releases|] == releases;
      return false;
    }

    method VerifyInstalled(record: Record, e: Evidence, now: int) returns (ok: bool)
      modifies this`verified
      ensures ok <==> Vouches(m, record, e, now)
      ensures verified == old(verified) + if ok then {record} else {}
    {
      hide ValidRecord, FeedOf, Lists;
      ok := false;
      if record.target == m.target {
        ok := ReadProof(record, e.metadata, now);
        if ok {
          ok := e.payload.Some? && |e.payload.value| == record.size && m.crypto.hash(e.payload.value) == record.sha256;
        }
      }
      if ok {
        verified := verified + {record};
      }
    }

    method StageFrom(feed: Feed, release: Release, now: int, st: US.Staging) returns (staged: Option<Record>)
      modifies this`verified
      ensures staged == US.Stage(m, feed, release, now, st)
      ensures old(verified) <= verified && (staged.Some? ==> staged.value in verified)
    {
      hide Vouches;
      if m.target !in release.artifacts {
        return None;
      }
      var artifact := release.artifacts[m.target];
      var record := Record(st.instance, release.version, m.target, artifact.sha256, artifact.size, feed.digest);
      if st.bytes.None? || |st.bytes.value| != artifact.size || m.crypto.hash(st.bytes.value) != artifact.sha256 || !st.stored {
        return None;
      }
      var ok := VerifyInstalled(record, st.evidence, now);
      if !ok || !st.probe {
        return None;
      }
      return Some(record);
    }

    /** The state that selects the record. */
    method SelectRecord(state: State, record: Record, repair: bool, rollback: bool) returns (next: State)
      ensures next == US.Next(state, record, repair, rollback)
    {
      next := state.(current := Some(record));
      if !repair {
        next := next.(previous := state.current);
      }
      if rollback {
        next := next.(previous := None);
        if state.current.Some? {
          next := next.(rollbackFrom := state.current.value.version);
          next := Block(next, state.current.value.version);
        }
      } else if next.rollbackFrom != "" {
        var comparison := Compare(record.version, next.rollbackFrom);
        if comparison.None? || comparison.value >= 0 {
          next := next.(rollbackFrom := "");
        }
      }
    }

    method Activate(state: State, record: Record, repair: bool, rollback: bool, now: int, a: US.Activation)
      returns (outcome: US.Outcome)
      requires Valid() && Names(state) <= verified
      modifies this
      ensures US.Result(disk, outcome) == US.Activate(m, old(disk), state, record, repair, rollback, now, a)
      ensures Valid() && old(verified) <= verified
    {
      hide Vouches, Effective, Compare, US.Next;
      var ok := VerifyInstalled(record, a.before, now);
      if !ok || !a.ready || !a.backup {
        return US.Errored;
      }
      var previous := state;
      var next := SelectRecord(state, record, repair, rollback);
      NextNames(state, record, repair, rollback);
      ok := Save(next, a.save);
      if !ok {
        ok := Save(previous, a.restore);
        return US.NotSaved(ok);
      }
      ok := VerifyInstalled(record, a.after, now);
      if !ok || !a.probe {
        if !repair && !rollback && !a.cancelled {
          previous := Block(previous, record.version);
        }
        ok := Save(previous, a.restore);
        return US.Undone(ok);
      }
      var from := m.running;
      if state.current.Some? {
        from := state.current.value.version;
      }
      return US.Activated(from, record.version, next.previous.Some?);
    }

    method Fetch(state: State, w: US.World) returns (feed: Option<Feed>)
      ensures feed == US.Fetch(m, state, w)
    {
      hide FeedOf;
      if w.download.None? {
        return None;
      }
      feed := VerifyFeed(m.crypto, m.trust, w.download.value, w.now, true);
      if feed.Some? && !WatermarkAllows(state, feed.value) {
        return None;
      }
    }

    method RollBack(w: US.World) returns (outcome: US.Outcome)
      requires Valid()
      modifies this
      ensures US.Result(disk, outcome) == US.RollBack(m, old(disk), w)
      ensures Valid() && old(verified) <= verified
    {
      hide Vouches, US.Activate;
      var state := disk;
      if state.previous.None? {
        return US.NoPrevious;
      }
      if state.previous.value.version in state.blocked {
        return US.PreviousBlocked;
      }
      var ok := VerifyInstalled(state.previous.value, w.previous, w.now);
      if !ok || !w.previousProbe {
        return US.Errored;
      }
      outcome := Activate(state, state.previous.value, false, true, w.now, w.activation);
    }

    method Put(state: State, feed: Feed, current: string, action: US.Action, selected: Release, w: US.World)
      returns (outcome: US.Outcome)
      requires Valid() && disk == state && m.target in selected.artifacts
      modifies this
      ensures US.Result(disk, outcome) == US.Put(m, state, feed, current, action, selected, w)
      ensures Valid() && old(verified) <= verified
    {
      hide Vouches, US.Activate, US.Stage, Select;
      var from := state;
      if state.current.Some? && selected.version == state.current.value.version {
        var artifact := selected.artifacts[m.target];
        if artifact.sha256 != state.current.value.sha256 || artifact.size != state.current.value.size {
          return US.Errored;
        }
        if action == US.Install {
          var installed := VerifyInstalled(state.current.value, w.current, w.now);
          if installed {
            return US.AlreadyInstalled(selected.version);
          }
        }
      }
      if state.current.None? && selected.version != current {
        var choice := SelectRelease(feed.manifest.releases, US.BaselineQuery(m, current));
        if choice.Failed? {
          return US.Errored;
        }
        if choice.release.Some? && m.target in choice.release.value.artifacts {
          var artifact := choice.release.value.artifacts[m.target];
          if w.executable.Some? && |w.executable.value| == artifact.size && m.crypto.hash(w.executable.value) == artifact.sha256 {
            var kept := StageFrom(feed, choice.release.value, w.now, w.baseline.(bytes := w.executable));
            if kept.None? {
              return US.Errored;
            }
            from := state.(current := kept);
          }
        }
      }
      assert US.Adopt(m, state, feed, current, selected, w) == Some(from);
      var record := StageFrom(feed, selected, w.now, w.candidate);
      if record.None? {
        return US.Errored;
      }
      var repair := from.current.Some? && record.value.version == from.current.value.version;
      outcome := Activate(from, record.value, repair, false, w.now, w.activation);
    }

    method Update(current: string, action: US.Action, supported: seq<string>, w: US.World) returns (outcome: US.Outcome)
      requires Valid()
      modifies this
      ensures US.Result(disk, outcome) == US.Update(m, old(disk), current, action, supported, w)
      ensures Valid() && old(verified) <= verified
    {
      hide Vouches, US.Put, US.Fetch, Select;
      var state := disk;
      if m.automatic {
        if US.Recent(state, w.now) {
          return US.Throttled;
        }
        state := state.(lastCheck := w.now);
        var ok := Save(state, w.checkSave);
        if !ok {
          return US.Errored;
        }
      }
      var feed := Fetch(state, w);
      if feed.None? || !w.metadataStored {
        return US.Errored;
      }
      state := state.(sequence := feed.value.manifest.sequence, digest := feed.value.digest, lastCheck := w.now);
      var ok := Save(state, w.feedSave);
      if !ok {
        return US.Errored;
      }
      var choice := SelectRelease(feed.value.manifest.releases, US.QueryOf(m, state, current, supported, action));
      if choice.Failed? {
        return US.Errored;
      }
      if choice.release.None? {
        if action == US.Repair || action == US.Install {
          return US.Errored;
        }
        return US.NoUpdate;
      }
      if action == US.Check {
        return US.Available(choice.release.value.version);
      }
      SelectedHasTarget(feed.value.manifest.releases, US.QueryOf(m, state, current, supported, action));
      outcome := Put(state, feed.value, current, action, choice.release.value, w);
    }

    method Run(action: US.Action, supported: seq<string>, w: US.World) returns (outcome: US.Outcome)
      requires Valid()
      modifies this
      ensures US.Result(disk, outcome) == US.Run(m, old(disk), action, supported, w)
      ensures Valid() && old(verified) <= verified
    {
      hide US.Update, US.RollBack, ValidTrust, Loadable, Effective;
      if action == US.Unknown || !ValidTrust(m.crypto, m.trust) || !w.locked || !Loadable(disk) {
        return US.Errored;
      }
      var current := Effective(m.running, disk);
      if current.None? {
        return US.Errored;
      }
      if action == US.Rollback {
        outcome := RollBack(w);
      } else {
        outcome := Update(current.value, action, supported, w);
      }
    }
  }

  lemma NextNames(s: State, record: Record, repair: bool, rollback: bool)
    ensures Names(US.Next(s, record, repair, rollback)) <= Names(s) + {record}
  {}

  lemma SelectedHasTarget(releases: seq<Release>, q: Query)
    requires Select(releases, q).Selected? && Select(releases, q).release.Some?
    ensures q.target in Select(releases, q).release.value.artifacts
  {
    hide Greatest;
    GreatestIsEligible(releases, q);
  }
}
