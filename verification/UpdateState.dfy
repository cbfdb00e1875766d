/**
 * The persistent state of the updater and the pure decisions on it: which version is
 * effective, which feeds are too old, which versions are blocked, and which records
 * signed metadata and payload bytes vouch for.
 */
module UpdateState {
  import opened Options
  import opened UpdateVersion
  import opened UpdateFeed

  const MAX_BLOCKED := 128

  datatype Record = Record(instance: string, version: string, target: string, sha256: string, size: int,
                           manifestDigest: string)

  /** rollbackFrom and digest are empty, and lastCheck is 0, when absent. */
  datatype State = State(schemaVersion: int, rollbackFrom: string, current: Option<Record>, previous: Option<Record>,
                         blocked: seq<string>, sequence: nat, digest: string, lastCheck: int)

  const EMPTY := State(1, "", None, None, [], 0, "", 0)

  predicate IsInstance(s: string) {
    |s| == 36 && forall i :: 0 <= i < 36 ==> if i in {8, 13, 18, 23} then s[i] == '-' else IsHex(s[i])
  }

  predicate ValidRecord(r: Record) {
    && IsInstance(r.instance) && Valid(r.version) && r.target in TARGETS
    && IsDigest(r.sha256) && IsDigest(r.manifestDigest) && 1 <= r.size <= BINARY_LIMIT
  }

  /** What the loader accepts. */
  predicate Loadable(s: State) {
    && s.schemaVersion == 1
    && |s.blocked| <= MAX_BLOCKED
    && (s.rollbackFrom != "" ==> Valid(s.rollbackFrom))
    && (s.sequence > 0 ==> IsDigest(s.digest))
    && (forall v :: v in s.blocked ==> Valid(v))
    && (s.current.Some? ==> ValidRecord(s.current.value))
    && (s.previous.Some? ==> ValidRecord(s.previous.value))
  }

  /** The records a state names. */
  function Names(s: State): set<Record> {
    (if s.current.Some? then {s.current.value} else {}) + (if s.previous.Some? then {s.previous.value} else {})
  }

  // ---- the watermark ----

  predicate WatermarkAllows(s: State, feed: Feed) {
    && feed.manifest.sequence >= s.sequence
    && (feed.manifest.sequence == s.sequence && s.digest != "" ==> feed.digest == s.digest)
  }

  // ---- blocked versions ----

  function LastOf(blocked: seq<string>): seq<string> {
    if |blocked| > MAX_BLOCKED then blocked[|blocked| - MAX_BLOCKED..] else blocked
  }

  function Block(s: State, version: string): State {
    s.(blocked := LastOf(if version in s.blocked then s.blocked else s.blocked + [version]))
  }

  /** How many versions were blocked after the last time v was. */
  function Age(blocked: seq<string>, v: string): nat {
    if blocked == [] || blocked[|blocked| - 1] == v then 0 else 1 + Age(blocked[..|blocked| - 1], v)
  }

  lemma {:induction false} AgeIs(blocked: seq<string>, v: string)
    requires v in blocked
    ensures Age(blocked, v) < |blocked| && blocked[|blocked| - 1 - Age(blocked, v)] == v
    ensures forall i :: |blocked| - 1 - Age(blocked, v) < i < |blocked| ==> blocked[i] != v
  {
    var last := |blocked| - 1;
    if blocked[last] != v {
      assert blocked == blocked[..last] + [blocked[last]];
      AgeIs(blocked[..last], v);
    }
  }

  lemma {:induction false} AgeLater(blocked: seq<string>, v: string)
    requires v in blocked && |blocked| > 1 && Age(blocked, v) < |blocked| - 1
    ensures v in blocked[1..] && Age(blocked[1..], v) == Age(blocked, v)
  {
    var last := |blocked| - 1;
    assert blocked[1..][last - 1] == blocked[last];
    if blocked[last] != v {
      assert blocked[1..][..last - 1] == blocked[..last][1..];
      assert blocked == blocked[..last] + [blocked[last]];
      AgeIs(blocked[..last], v);
      AgeLater(blocked[..last], v);
    }
  }

  /**
   * Blocking a version anew makes every other blocked version one older, and forgets
   * exactly one that 128 versions have been blocked after.
   */
  lemma BlockAges(s: State, v: string, w: string)
    requires |s.blocked| <= MAX_BLOCKED
    ensures |Block(s, w).blocked| <= MAX_BLOCKED && w in Block(s, w).blocked
    ensures w in s.blocked ==> Block(s, w) == s
    ensures w !in s.blocked ==> Block(s, w).blocked != s.blocked && Age(Block(s, w).blocked, w) == 0
    ensures w !in s.blocked && v in s.blocked ==>
      && (v in Block(s, w).blocked <==> Age(s.blocked, v) + 1 < MAX_BLOCKED)
      && (v in Block(s, w).blocked ==> Age(Block(s, w).blocked, v) == Age(s.blocked, v) + 1)
  {
    var t := Block(s, w).blocked;
    if w !in s.blocked {
      assert t[|t| - 1] == w;
      if v in s.blocked {
        AgeIs(s.blocked, v);
        var longer := s.blocked + [w];
        assert longer[..|longer| - 1] == s.blocked;
        assert longer[|s.blocked|] == w;
        assert Age(longer, v) == Age(s.blocked, v) + 1;
        AgeIs(longer, v);
        if |longer| > MAX_BLOCKED {
          assert t == longer[1..];
          if Age(longer, v) < |longer| - 1 {
            AgeLater(longer, v);
          }
        }
      }
    }
  }

  // ---- the effective version ----

  /** The version a launcher of the given version runs. */
  function Effective(running: string, s: State): Option<string> {
    if !Valid(running) then None
    else if s.current.None? then Some(running)
    else if s.rollbackFrom != "" && Compare(running, s.rollbackFrom).None? then None
    else if s.rollbackFrom != "" && AtMost(running, s.rollbackFrom) then Some(s.current.value.version)
    else if Compare(s.current.value.version, running).None? then None
    else if Before(running, s.current.value.version) then Some(s.current.value.version)
    else Some(running)
  }

  lemma EffectiveIsValid(running: string, s: State)
    requires Loadable(s)
    ensures Effective(running, s).Some? <==> Valid(running)
    ensures Valid(running) ==> Valid(Effective(running, s).value)
  {
    hide Parse;
  }

  // ---- evidence ----

  /** What was read while a record was verified: its signed metadata and its executable. */
  datatype Evidence = Evidence(metadata: Option<string>, payload: Option<string>)

  datatype Setup = Setup(running: string, target: string, trust: Trust, crypto: Crypto, automatic: bool)

  predicate Lists(releases: seq<Release>, r: Record) {
    exists release ::
      && release in releases && release.version == r.version && r.target in release.artifacts
      && release.artifacts[r.target].sha256 == r.sha256 && release.artifacts[r.target].size == r.size
  }

  /**
   * The metadata are signed by enough trusted keys and list exactly this version,
   * platform, digest and size, and the executable has that digest and size.
   */
  predicate Vouches(m: Setup, r: Record, e: Evidence, now: int) {
    && r.target == m.target
    && ValidRecord(r)
    && e.metadata.Some?
    && var feed := FeedOf(m.crypto, m.trust, e.metadata.value, now, false);
    && feed.Some? && feed.value.digest == r.manifestDigest
    && Lists(feed.value.manifest.releases, r)
    && e.payload.Some? && |e.payload.value| == r.size && m.crypto.hash(e.payload.value) == r.sha256
  }

  /** Some evidence read at some time vouches for the record. */
  ghost predicate Vouched(m: Setup, r: Record) {
    exists e, now :: Vouches(m, r, e, now)
  }
}
