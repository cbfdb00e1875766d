/**
 * The signed release feed: which bytes are accepted as a feed, and which release of
 * an accepted feed is selected. Signatures, hashing, strict decoding and URL rules
 * are parameters; everything the updater decides on top of them is here.
 */
module UpdateFeed {
  import opened Options
  import opened UpdateVersion

  const METADATA_LIMIT := 1024 * 1024
  const BINARY_LIMIT := 10000000 - 1
  /** Times are seconds since the zero time, which stands for an absent one. */
  const FEED_LIFETIME := 31 * 24 * 3600
  const CLOCK_SKEW := 5 * 60

  datatype Artifact = Artifact(url: string, sha256: string, size: int)
  datatype Release = Release(version: string, protocolMajor: nat, artifacts: map<string, Artifact>)
  datatype Manifest = Manifest(schemaVersion: int, channel: string, sequence: nat, issuedAt: int, expiresAt: int,
                               releases: seq<Release>)
  datatype Signature = Signature(keyId: string, text: string)
  datatype Envelope = Envelope(payload: string, signatures: seq<Signature>)
  datatype Trust = Trust(feedURL: string, keys: map<string, string>, threshold: int)
  datatype Feed = Feed(manifest: Manifest, envelope: string, digest: string)

  /**
   * envelope decodes the outer object strictly and its base64 payload; signed says
   * whether a signature text decodes to a valid signature of the payload under a key.
   */
  datatype Crypto = Crypto(
    envelope: string -> Option<Envelope>,
    payload: string -> Option<string>,
    signed: (string, string, string) -> bool,
    manifest: string -> Option<Manifest>,
    hash: string -> string,
    https: string -> bool)

  predicate IsHex(c: char) { '0' <= c <= '9' || 'a' <= c <= 'f' }

  predicate IsDigest(s: string) {
    |s| == 64 && forall i :: 0 <= i < |s| ==> IsHex(s[i])
  }

  /** Every hash is printed as 64 lower-case hexadecimal digits. */
  ghost predicate Lawful(c: Crypto) {
    forall s :: IsDigest(c.hash(s))
  }

  predicate IsKeyChar(c: char) {
    'a' <= c <= 'z' || 'A' <= c <= 'Z' || '0' <= c <= '9' || c == '.' || c == '_' || c == '-'
  }

  predicate IsKeyId(s: string) {
    1 <= |s| <= 80 && forall i :: 0 <= i < |s| ==> IsKeyChar(s[i])
  }

  predicate ValidTrust(c: Crypto, trust: Trust) {
    && c.https(trust.feedURL)
    && 1 <= trust.threshold <= |trust.keys| <= 16
    && forall id :: id in trust.keys ==> IsKeyId(id) && |trust.keys[id]| == 32
  }

  /** The targets the platform registry publishes for. */
  const TARGETS := {"go-darwin-arm64", "go-darwin-amd64", "go-linux-arm64", "go-linux-amd64", "go-windows-amd64"}

  predicate ValidArtifact(c: Crypto, a: Artifact) {
    IsDigest(a.sha256) && 1 <= a.size <= BINARY_LIMIT && c.https(a.url)
  }

  predicate ValidRelease(c: Crypto, r: Release) {
    && Valid(r.version)
    && Parse(r.version).value.major == r.protocolMajor
    && 1 <= |r.artifacts| <= 16
    && forall target :: target in r.artifacts ==> target in TARGETS && ValidArtifact(c, r.artifacts[target])
  }

  predicate DistinctVersions(releases: seq<Release>) {
    forall i, j :: 0 <= i < j < |releases| ==> releases[i].version != releases[j].version
  }

  predicate ValidHeader(m: Manifest, now: int, recent: bool) {
    && m.schemaVersion == 1 && m.channel == "stable" && m.sequence > 0
    && m.issuedAt != 0 && m.expiresAt != 0
    && m.issuedAt < m.expiresAt <= m.issuedAt + FEED_LIFETIME
    && (recent ==> m.issuedAt <= now + CLOCK_SKEW && now < m.expiresAt)
    && 1 <= |m.releases| <= 128
  }

  predicate ValidReleases(c: Crypto, releases: seq<Release>) {
    DistinctVersions(releases) && forall r :: r in releases ==> ValidRelease(c, r)
  }

  /** The trusted keys that made at least one of the signatures. */
  function Signers(c: Crypto, trust: Trust, payload: string, signatures: seq<Signature>): set<string> {
    set s | s in signatures && s.keyId in trust.keys && c.signed(trust.keys[s.keyId], payload, s.text) :: s.keyId
  }

  /** Why these bytes are a feed: signed often enough, and well formed throughout. */
  predicate Authentic(c: Crypto, trust: Trust, raw: string, now: int, recent: bool) {
    && ValidTrust(c, trust)
    && |raw| <= METADATA_LIMIT
    && c.envelope(raw).Some?
    && var e := c.envelope(raw).value;
    && 1 <= |e.signatures| <= 16
    && c.payload(e.payload).Some?
    && var payload := c.payload(e.payload).value;
    && |Signers(c, trust, payload, e.signatures)| >= trust.threshold
    && c.manifest(payload).Some?
    && var m := c.manifest(payload).value;
    && ValidHeader(m, now, recent)
    && ValidReleases(c, m.releases)
  }

  function FeedOf(c: Crypto, trust: Trust, raw: string, now: int, recent: bool): Option<Feed> {
    if Authentic(c, trust, raw, now, recent) then
      var payload := c.payload(c.envelope(raw).value.payload).value;
      Some(Feed(c.manifest(payload).value, raw, c.hash(payload)))
    else None
  }

  lemma SignersGrow(c: Crypto, trust: Trust, payload: string, signatures: seq<Signature>, i: nat)
    requires i < |signatures|
    ensures var s := signatures[i];
      Signers(c, trust, payload, signatures[..i + 1]) == Signers(c, trust, payload, signatures[..i]) +
        if s.keyId in trust.keys && c.signed(trust.keys[s.keyId], payload, s.text) then {s.keyId} else {}
  {
    var s, before, after := signatures[i], signatures[..i], signatures[..i + 1];
    assert after == before + [s];
    var made := s.keyId in trust.keys && c.signed(trust.keys[s.keyId], payload, s.text);
    forall id
      ensures id in Signers(c, trust, payload, after) <==>
              id in Signers(c, trust, payload, before) + if made then {s.keyId} else {}
    {
      if id in Signers(c, trust, payload, before) {
        var t :| t in before && t.keyId == id && id in trust.keys && c.signed(trust.keys[id], payload, t.text);
        assert t in after;
      }
      if made && id == s.keyId {
        assert s in after;
      }
    }
  }

  /** Repeated signatures of one key count once, and unknown keys not at all. */
  method CountSigners(c: Crypto, trust: Trust, payload: string, signatures: seq<Signature>) returns (verified: set<string>)
    ensures verified == Signers(c, trust, payload, signatures)
    ensures verified <= trust.keys.Keys
  {
    verified := {};
    for i := 0 to |signatures|
      invariant verified == Signers(c, trust, payload, signatures[..i])
    {
      SignersGrow(c, trust, payload, signatures, i);
      var s := signatures[i];
      if s.keyId in trust.keys && s.keyId !in verified {
        if c.signed(trust.keys[s.keyId], payload, s.text) {
          verified := verified + {s.keyId};
        }
      }
    }
    assert signatures[..|signatures|] == signatures;
  }

  method CheckReleases(c: Crypto, releases: seq<Release>) returns (ok: bool)
    ensures ok <==> ValidReleases(c, releases)
  {
    var seen: set<string> := {};
    for i := 0 to |releases|
      invariant ValidReleases(c, releases[..i])
      invariant seen == set r | r in releases[..i] :: r.version
    {
      var r := releases[i];
      assert releases[..i + 1] == releases[..i] + [r];
      if !ValidRelease(c, r) {
        assert r in releases;
        return false;
      }
      if r.version in seen {
        var j :| 0 <= j < i && releases[j].version == r.version;
        return false;
      }
      seen := seen + {r.version};
    }
    assert releases[..|releases|] == releases;
    return true;
  }

  /** Bytes become a feed exactly when enough trusted keys signed a well-formed manifest. */
  method VerifyFeed(c: Crypto, trust: Trust, raw: string, now: int, recent: bool) returns (feed: Option<Feed>)
    ensures feed == FeedOf(c, trust, raw, now, recent)
  {
    hide ValidReleases, Signers, ValidHeader;
    if !ValidTrust(c, trust) || |raw| > METADATA_LIMIT {
      return None;
    }
    var envelope := c.envelope(raw);
    if envelope.None? || |envelope.value.signatures| == 0 || |envelope.value.signatures| > 16 {
      return None;
    }
    var payload := c.payload(envelope.value.payload);
    if payload.None? {
      return None;
    }
    var verified := CountSigners(c, trust, payload.value, envelope.value.signatures);
    if |verified| < trust.threshold {
      return None;
    }
    var manifest := c.manifest(payload.value);
    if manifest.None? || !ValidHeader(manifest.value, now, recent) {
      return None;
    }
    var ok := CheckReleases(c, manifest.value.releases);
    if !ok {
      return None;
    }
    return Some(Feed(manifest.value, raw, c.hash(payload.value)));
  }

  // ---- selection ----

  /** What a release must satisfy: pinned is empty when any version will do. */
  datatype Query = Query(target: string, current: string, supported: seq<string>, blocked: seq<string>,
                         allowEqual: bool, pinned: string)

  /** The major of a `major.minor` protocol text. */
  function ProtocolMajor(s: string): Option<nat> {
    var i := Dot(s);
    if i < |s| && Canonical(s[i + 1..]) then Number(s[..i]) else None
  }

  predicate ProtocolSupported(major: nat, supported: seq<string>) {
    exists p :: p in supported && ProtocolMajor(p) == Some(major)
  }

  /** The protocol of a version: its first two numbers. */
  function DefaultProtocols(current: string): seq<string> {
    if !Valid(current) then [] else
      var i := Dot(current);
      [current[..i] + "." + current[i + 1..][..Dot(current[i + 1..])]]
  }

  /** The release passes every filter that does not look at the installed version. */
  predicate Passes(r: Release, q: Query) {
    && (q.pinned == "" || r.version == q.pinned)
    && ProtocolSupported(r.protocolMajor, q.supported)
    && r.version !in q.blocked
    && q.target in r.artifacts
  }

  predicate Eligible(r: Release, q: Query) {
    && Passes(r, q)
    && (Before(q.current, r.version) || (q.allowEqual && Compare(r.version, q.current) == Some(0)))
  }

  datatype Selection = Failed | Selected(release: Option<Release>)

  /** The release that was the greatest when it was met. */
  function Greatest(releases: seq<Release>, q: Query): Option<Release> {
    if releases == [] then None else
      var best := Greatest(releases[..|releases| - 1], q);
      var r := releases[|releases| - 1];
      if Eligible(r, q) && (best.None? || Before(best.value.version, r.version)) then Some(r) else best
  }

  predicate Unreadable(releases: seq<Release>, q: Query) {
    exists r :: r in releases && Passes(r, q) && !Valid(r.version)
  }

  function Select(releases: seq<Release>, q: Query): Selection {
    if !Valid(q.current) || Unreadable(releases, q) then Failed else Selected(Greatest(releases, q))
  }

  lemma CompareFlips(a: string, b: string)
    requires Valid(a) && Valid(b)
    ensures Compare(a, b).Some? && Compare(b, a) == Some(-Compare(a, b).value)
  {
    hide Parse;
  }

  method SelectRelease(releases: seq<Release>, q: Query) returns (s: Selection)
    ensures s == Select(releases, q)
  {
    hide Parse, Passes;
    if !Valid(q.current) {
      return Failed;
    }
    var selected: Option<Release> := None;
    for i := 0 to |releases|
      invariant selected == Greatest(releases[..i], q)
      invariant selected.Some? ==> Valid(selected.value.version)
      invariant !Unreadable(releases[..i], q)
    {
      var r := releases[i];
      assert releases[..i + 1] == releases[..i] + [r];
      assert releases[..i + 1][..i] == releases[..i];
      if !Passes(r, q) {
        continue;
      }
      var comparison := Compare(r.version, q.current);
      if comparison.None? {
        assert r in releases;
        return Failed;
      }
      CompareFlips(r.version, q.current);
      if comparison.value < 0 || (comparison.value == 0 && !q.allowEqual) {
        continue;
      }
      if selected.None? {
        selected := Some(r);
      } else {
        CompareFlips(r.version, selected.value.version);
        if Compare(r.version, selected.value.version).value > 0 {
          selected := Some(r);
        }
      }
    }
    assert releases[..|releases|] == releases;
    return Selected(selected);
  }

  lemma {:induction false} GreatestIsEligible(releases: seq<Release>, q: Query)
    ensures Greatest(releases, q).Some? ==>
      Greatest(releases, q).value in releases && Eligible(Greatest(releases, q).value, q)
    ensures Greatest(releases, q).None? ==> forall r :: r in releases ==> !Eligible(r, q)
  {
    hide Eligible;
    if releases != [] {
      var front := releases[..|releases| - 1];
      GreatestIsEligible(front, q);
      assert releases == front + [releases[|releases| - 1]];
    }
  }

  lemma EligibleIsValid(r: Release, q: Query)
    requires Eligible(r, q)
    ensures Valid(r.version)
  {
    hide Parse, Passes;
  }

  lemma {:induction false} GreatestBounds(releases: seq<Release>, q: Query, r: Release)
    requires r in releases && Eligible(r, q)
    ensures Greatest(releases, q).Some?
    ensures AtMost(r.version, Greatest(releases, q).value.version)
  {
    hide Eligible, Parse, AtMost, Before;
    var front, last := releases[..|releases| - 1], releases[|releases| - 1];
    var best := Greatest(front, q);
    assert releases == front + [last];
    GreatestIsEligible(releases, q);
    GreatestIsEligible(front, q);
    EligibleIsValid(r, q);
    EligibleIsValid(Greatest(releases, q).value, q);
    if r in front {
      GreatestBounds(front, q, r);
      EligibleIsValid(best.value, q);
      TotalOrder(best.value.version, Greatest(releases, q).value.version);
      if best != Greatest(releases, q) {
        TotalOrder(Greatest(releases, q).value.version, best.value.version);
        BeforeAtMost(best.value.version, Greatest(releases, q).value.version);
        Transitive(r.version, best.value.version, Greatest(releases, q).value.version);
      }
    } else {
      TotalOrder(r.version, Greatest(releases, q).value.version);
    }
  }

  lemma BeforeAtMost(a: string, b: string)
    requires Before(a, b)
    ensures AtMost(a, b)
  {}

  /**
   * For the releases of an accepted feed, selection never fails on them and picks r
   * if and only if r is the eligible release that no eligible release is later than.
   */
  lemma SelectsGreatest(c: Crypto, releases: seq<Release>, q: Query, r: Release)
    requires ValidReleases(c, releases) && Valid(q.current)
    ensures Select(releases, q).Selected?
    ensures Select(releases, q) == Selected(Some(r)) <==>
      r in releases && Eligible(r, q) && forall o :: o in releases && Eligible(o, q) ==> AtMost(o.version, r.version)
    ensures Select(releases, q) == Selected(None) <==> forall o :: o in releases ==> !Eligible(o, q)
  {
    hide Eligible, Parse, AtMost, Greatest, Passes;
    var best := Greatest(releases, q);
    GreatestIsEligible(releases, q);
    forall o | o in releases && Eligible(o, q)
      ensures best.Some? && AtMost(o.version, best.value.version)
    {
      GreatestBounds(releases, q, o);
    }
    if r in releases && Eligible(r, q) && forall o :: o in releases && Eligible(o, q) ==> AtMost(o.version, r.version) {
      EligibleIsValid(r, q);
      EligibleIsValid(best.value, q);
      TotalOrder(r.version, best.value.version);
      SameVersion(releases, r, best.value);
    }
  }

  lemma SameVersion(releases: seq<Release>, r: Release, o: Release)
    requires DistinctVersions(releases) && r in releases && o in releases && r.version == o.version
    ensures r == o
  {
    var i :| 0 <= i < |releases| && releases[i] == r;
    var j :| 0 <= j < |releases| && releases[j] == o;
    if i < j {
      assert releases[i].version != releases[j].version;
    }
  }

  /** Without a list of protocols, a release is selected only from the installed major. */
  lemma DefaultStaysOnMajor(c: Crypto, r: Release, q: Query)
    requires ValidRelease(c, r) && Valid(q.current) && q.supported == DefaultProtocols(q.current)
    requires Eligible(r, q)
    ensures Parse(r.version).value.major == Parse(q.current).value.major
  {
    var i := Dot(q.current);
    var rest := q.current[i + 1..];
    var minor := rest[..Dot(rest)];
    var p :| p in q.supported && ProtocolMajor(p) == Some(r.protocolMajor);
    assert p == q.current[..i] + "." + minor;
    DotAfter(q.current[..i], minor);
  }
}
