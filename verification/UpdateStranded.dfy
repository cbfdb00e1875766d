/**
 * A rollback that succeeds and changes nothing: the launcher is later than both the
 * release it leaves and the release it selects.
 */
module UpdateStranded {
  import opened Options
  import opened UpdateVersion
  import opened UpdateFeed
  import opened UpdateState
  import opened UpdateRun
  import opened UpdateLaws

  const Target := "go-linux-amd64"
  const Digits32 := "00000000000000000000000000000000"
  const Hash := Digits32 + Digits32
  const Instance := "00000000-0000-0000-0000-000000000000"

  function Installed(version: string): Record {
    Record(Instance, version, Target, Hash, 1, Hash)
  }

  const Listed := Release("1.0.0", 1, map[Target := Artifact("https://example.com/tool", Hash, 1)])
  const Index := Manifest(1, "stable", 1, 1, 2, [Listed])

  /** Cryptography for which every signature is good and every text is the one feed. */
  function Easy(): Crypto {
    Crypto(_ => Some(Envelope("payload", [Signature("key", "signature")])), _ => Some("manifest"),
           (_, _, _) => true, _ => Some(Index), _ => Hash, _ => true)
  }

  function Machine(): Setup {
    Setup("3.0.0", Target, Trust("https://example.com/feed", map["key" := Digits32], 1), Easy(), false)
  }

  const Saved := State(1, "", Some(Installed("2.0.0")), Some(Installed("1.0.0")), [], 0, "", 0)
  const Seen := Evidence(Some("metadata"), Some("b"))
  const Nothing := Staging("", None, false, Seen, false)
  const Fine := World(true, 1, Seen, true, Written, None, true, Written, Seen, None, Nothing, Nothing,
                      Activation(Seen, true, true, Written, Seen, true, false, Written))

  lemma Versions()
    ensures Parse("1.0.0") == Some(Version(1, 0, 0)) && Parse("2.0.0") == Some(Version(2, 0, 0))
    ensures Parse("3.0.0") == Some(Version(3, 0, 0))
  {
    hide Parse;
    Digit(1);
    Digit(2);
    Digit(3);
    assert "1.0.0" == ['1'] + ".0.0" && "2.0.0" == ['2'] + ".0.0" && "3.0.0" == ['3'] + ".0.0";
  }

  lemma Digit(n: nat)
    requires n < 10
    ensures Parse([(n + '0' as nat) as char] + ".0.0") == Some(Version(n, 0, 0))
  {
    ParsePrint(Version(n, 0, 0));
    assert Text(0) == "0" && Text(n) == [(n + '0' as nat) as char];
    assert "0" + "." + "0" == "0.0";
    assert Print(Version(n, 0, 0)) == [(n + '0' as nat) as char] + ".0.0";
  }

  lemma IsRecord(version: string)
    requires Valid(version)
    ensures ValidRecord(Installed(version))
  {
    hide Parse;
    assert IsDigest(Hash);
    assert IsInstance(Instance);
  }

  lemma IsSigned()
    ensures ValidTrust(Easy(), Machine().trust)
    ensures Signers(Easy(), Machine().trust, "manifest", [Signature("key", "signature")]) == {"key"}
  {
    var keys := map["key" := Digits32];
    assert |keys| == 1;
    assert IsKeyId("key") && |Digits32| == 32;
    var signature := Signature("key", "signature");
    assert signature in [signature];
  }

  lemma IsListed()
    requires Valid("1.0.0") && Parse("1.0.0").value.major == 1
    ensures ValidReleases(Easy(), Index.releases) && Lists(Index.releases, Installed("1.0.0"))
  {
    hide Parse;
    assert |Listed.artifacts| == 1;
    assert IsDigest(Hash);
    assert Listed in Index.releases;
  }

  lemma Authorized()
    ensures Vouches(Machine(), Installed("1.0.0"), Seen, 1)
  {
    hide Parse, ValidRecord, ValidReleases, ValidTrust, Signers, Lists;
    Versions();
    IsRecord("1.0.0");
    IsSigned();
    IsListed();
    assert Authentic(Easy(), Machine().trust, "metadata", 1, false);
  }

  lemma SavedIsConsistent()
    ensures Lawful(Easy()) && Consistent(Saved)
  {
    hide Parse, ValidRecord;
    Versions();
    IsRecord("1.0.0");
    IsRecord("2.0.0");
    assert IsDigest(Hash);
  }

  lemma RollsBack()
    ensures RollBack(Machine(), Saved, Fine) ==
      Result(Next(Saved, Installed("1.0.0"), false, true), Activated("2.0.0", "1.0.0", false))
  {
    hide Vouches, Next;
    Authorized();
    assert Next(Saved, Installed("1.0.0"), false, true).previous == None by {
      NextHasNoPrevious();
    }
  }

  lemma NextHasNoPrevious()
    ensures Next(Saved, Installed("1.0.0"), false, true).previous == None
    ensures Next(Saved, Installed("1.0.0"), false, true).current == Some(Installed("1.0.0"))
    ensures Next(Saved, Installed("1.0.0"), false, true).rollbackFrom == "2.0.0"
  {}

  lemma StaysItself(s: State)
    requires s.current.Some? && s.current.value.version in {"1.0.0", "2.0.0"} && s.rollbackFrom in {"", "2.0.0"}
    ensures Effective("3.0.0", s) == Some("3.0.0")
  {
    hide Parse;
    Versions();
  }

  /** The rollback from 2.0.0 to 1.0.0 is reported as done, and the launcher 3.0.0 keeps running itself. */
  lemma RollbackWithoutEffect()
    ensures Lawful(Easy()) && Consistent(Saved)
    ensures var r := Run(Machine(), Saved, Rollback, [], Fine);
      && r.outcome == Activated("2.0.0", "1.0.0", false)
      && Effective("3.0.0", Saved) == Some("3.0.0") == Effective("3.0.0", r.disk)
  {
    hide Lawful, Loadable, ValidTrust, Effective, RollBack, Next, Parse;
    SavedIsConsistent();
    IsSigned();
    RollsBack();
    NextHasNoPrevious();
    StaysItself(Saved);
    StaysItself(Next(Saved, Installed("1.0.0"), false, true));
  }
}
