/**
 * One run of the updater as a transition on the saved state. Everything the run asks
 * of its surroundings - the lock, the clock, downloaded bytes, files it reads back,
 * self-tests, whether a save reached the disk - is an input.
 */
module UpdateRun {
  import opened Options
  import opened UpdateVersion
  import opened UpdateFeed
  import opened UpdateState

  const DAY := 24 * 3600

  datatype Action = Check | Apply | Install | Repair | Rollback | Unknown

  /** A save can fail after the rename has committed. */
  datatype Save = Written | FailedBefore | FailedAfter

  datatype Staging = Staging(instance: string, bytes: Option<string>, stored: bool, evidence: Evidence, probe: bool)

  datatype Activation = Activation(before: Evidence, ready: bool, backup: bool, save: Save, after: Evidence, probe: bool,
                                   cancelled: bool, restore: Save)

  datatype World = World(
    locked: bool,
    now: int,
    previous: Evidence, previousProbe: bool,
    checkSave: Save,
    download: Option<string>, metadataStored: bool, feedSave: Save,
    current: Evidence,
    executable: Option<string>, baseline: Staging,
    candidate: Staging,
    activation: Activation)

  datatype Outcome =
    | Errored
    | NoPrevious
    | PreviousBlocked
    | Throttled
    | NoUpdate
    | Available(version: string)
    | AlreadyInstalled(version: string)
    | Activated(from: string, version: string, rollbackAvailable: bool)
    | NotSaved(restored: bool)
    | Undone(restored: bool)

  datatype Result = Result(disk: State, outcome: Outcome)

  /** What is on disk after a save of s. */
  function After(disk: State, s: State, save: Save): State {
    if save == FailedBefore then disk else s
  }

  // ---- activation ----

  /** The state that selects record. */
  function Next(s: State, record: Record, repair: bool, rollback: bool): State {
    if rollback then
      if s.current.Some? then
        Block(s, s.current.value.version).(current := Some(record), previous := None, rollbackFrom := s.current.value.version)
      else s.(current := Some(record), previous := None)
    else
      s.(current := Some(record),
         previous := if repair then s.previous else s.current,
         rollbackFrom := if s.rollbackFrom != "" && Compare(record.version, s.rollbackFrom).Some?
                            && Before(record.version, s.rollbackFrom) then s.rollbackFrom else "")
  }

  /** The state a failed activation puts back. */
  function Restored(s: State, record: Record, repair: bool, rollback: bool, cancelled: bool): State {
    if repair || rollback || cancelled then s else Block(s, record.version)
  }

  function OldVersion(m: Setup, s: State): string {
    if s.current.Some? then s.current.value.version else m.running
  }

  /** disk is what is saved; s is the state in memory that the activation starts from. */
  function Activate(m: Setup, disk: State, s: State, record: Record, repair: bool, rollback: bool, now: int, a: Activation): Result {
    if !Vouches(m, record, a.before, now) || !a.ready || !a.backup then Result(disk, Errored)
    else
      var next := Next(s, record, repair, rollback);
      var saved := After(disk, next, a.save);
      if a.save != Written then Result(After(saved, s, a.restore), NotSaved(a.restore == Written))
      else if Vouches(m, record, a.after, now) && a.probe then
        Result(saved, Activated(OldVersion(m, s), record.version, next.previous.Some?))
      else
        Result(After(saved, Restored(s, record, repair, rollback, a.cancelled), a.restore), Undone(a.restore == Written))
  }

  // ---- staging ----

  function RecordOf(m: Setup, feed: Feed, release: Release, instance: string): Record
    requires m.target in release.artifacts
  {
    var a := release.artifacts[m.target];
    Record(instance, release.version, m.target, a.sha256, a.size, feed.digest)
  }

  /** Bytes are staged only when they are exactly the listed artifact. */
  function Stage(m: Setup, feed: Feed, release: Release, now: int, st: Staging): Option<Record> {
    if m.target !in release.artifacts then None
    else
      var a := release.artifacts[m.target];
      var record := RecordOf(m, feed, release, st.instance);
      if st.bytes.Some? && |st.bytes.value| == a.size && m.crypto.hash(st.bytes.value) == a.sha256
         && st.stored && Vouches(m, record, st.evidence, now) && st.probe
      then Some(record) else None
  }

  // ---- the run ----

  function Fetch(m: Setup, s: State, w: World): Option<Feed> {
    if w.download.None? then None
    else match FeedOf(m.crypto, m.trust, w.download.value, w.now, true)
      case None => None
      case Some(feed) => if WatermarkAllows(s, feed) then Some(feed) else None
  }

  function Accept(s: State, feed: Feed, now: int): State {
    s.(sequence := feed.manifest.sequence, digest := feed.digest, lastCheck := now)
  }

  predicate Recent(s: State, now: int) {
    s.lastCheck != 0 && 0 <= now - s.lastCheck < DAY
  }

  function QueryOf(m: Setup, s: State, current: string, supported: seq<string>, action: Action): Query {
    Query(m.target, current, if supported == [] then DefaultProtocols(current) else supported, s.blocked,
          action == Install || action == Repair, if action == Repair then current else "")
  }

  function BaselineQuery(m: Setup, current: string): Query {
    Query(m.target, current, DefaultProtocols(current), [], true, current)
  }

  /**
   * The running executable becomes the current release, as a later rollback point, when
   * the feed lists exactly its bytes. None means that keeping it failed.
   */
  function Adopt(m: Setup, s: State, feed: Feed, current: string, selected: Release, w: World): Option<State> {
    if s.current.Some? || selected.version == current then Some(s)
    else match Select(feed.manifest.releases, BaselineQuery(m, current))
      case Failed => None
      case Selected(None) => Some(s)
      case Selected(Some(release)) =>
        if m.target !in release.artifacts then Some(s) else
          var a := release.artifacts[m.target];
          if w.executable.None? || |w.executable.value| != a.size || m.crypto.hash(w.executable.value) != a.sha256 then Some(s)
          else match Stage(m, feed, release, w.now, w.baseline.(bytes := w.executable))
            case None => None
            case Some(record) => Some(s.(current := Some(record)))
  }

  function Put(m: Setup, s: State, feed: Feed, current: string, action: Action, selected: Release, w: World): Result {
    var same := s.current.Some? && selected.version == s.current.value.version && m.target in selected.artifacts;
    if same && (selected.artifacts[m.target].sha256 != s.current.value.sha256
                || selected.artifacts[m.target].size != s.current.value.size) then Result(s, Errored)
    else if same && action == Install && Vouches(m, s.current.value, w.current, w.now) then
      Result(s, AlreadyInstalled(selected.version))
    else match Adopt(m, s, feed, current, selected, w)
      case None => Result(s, Errored)
      case Some(from) =>
        match Stage(m, feed, selected, w.now, w.candidate)
        case None => Result(s, Errored)
        case Some(record) =>
          var repair := from.current.Some? && record.version == from.current.value.version;
          Activate(m, s, from, record, repair, false, w.now, w.activation)
  }

  function Choose(m: Setup, s: State, feed: Feed, current: string, action: Action, supported: seq<string>, w: World): Result {
    match Select(feed.manifest.releases, QueryOf(m, s, current, supported, action))
    case Failed => Result(s, Errored)
    case Selected(None) => Result(s, if action == Repair || action == Install then Errored else NoUpdate)
    case Selected(Some(selected)) =>
      if action == Check then Result(s, Available(selected.version))
      else Put(m, s, feed, current, action, selected, w)
  }

  function Update(m: Setup, disk: State, current: string, action: Action, supported: seq<string>, w: World): Result {
    var s := if m.automatic then disk.(lastCheck := w.now) else disk;
    var saved := if m.automatic then After(disk, s, w.checkSave) else disk;
    if m.automatic && Recent(disk, w.now) then Result(disk, Throttled)
    else if m.automatic && w.checkSave != Written then Result(saved, Errored)
    else match Fetch(m, s, w)
      case None => Result(saved, Errored)
      case Some(feed) =>
        if !w.metadataStored then Result(saved, Errored)
        else if w.feedSave != Written then Result(After(saved, Accept(s, feed, w.now), w.feedSave), Errored)
        else Choose(m, Accept(s, feed, w.now), feed, current, action, supported, w)
  }

  function RollBack(m: Setup, disk: State, w: World): Result {
    if disk.previous.None? then Result(disk, NoPrevious)
    else
      var record := disk.previous.value;
      if record.version in disk.blocked then Result(disk, PreviousBlocked)
      else if !Vouches(m, record, w.previous, w.now) || !w.previousProbe then Result(disk, Errored)
      else Activate(m, disk, disk, record, false, true, w.now, w.activation)
  }

  function Run(m: Setup, disk: State, action: Action, supported: seq<string>, w: World): Result {
    if action == Unknown || !ValidTrust(m.crypto, m.trust) || !w.locked || !Loadable(disk) then Result(disk, Errored)
    else match Effective(m.running, disk)
      case None => Result(disk, Errored)
      case Some(current) =>
        if action == Rollback then RollBack(m, disk, w) else Update(m, disk, current, action, supported, w)
  }
}
