/**
 * Stable release versions: the text form the updater accepts, and the order it
 * compares releases by. Two texts with the same numbers are the same text, so the
 * comparison is a total order on version texts and not only on what they denote.
 */
module UpdateVersion {
  import opened Options

  const UINT64_LIMIT := 0x1_0000_0000_0000_0000

  datatype Version = Version(major: nat, minor: nat, patch: nat) {
    predicate Fits() {
      major < UINT64_LIMIT && minor < UINT64_LIMIT && patch < UINT64_LIMIT
    }
  }

  predicate Digits(s: string) {
    forall i :: 0 <= i < |s| ==> '0' <= s[i] <= '9'
  }

  /** A decimal number without leading zeros. */
  predicate Canonical(s: string) {
    |s| > 0 && Digits(s) && (s[0] == '0' ==> |s| == 1)
  }

  function Value(s: string): nat
    requires Digits(s)
  {
    if s == "" then 0 else 10 * Value(s[..|s| - 1]) + (s[|s| - 1] as nat - '0' as nat)
  }

  /** The canonical text of a number. */
  function Text(n: nat): (s: string) {
    var digit := [(n % 10 + '0' as nat) as char];
    if n < 10 then digit else Text(n / 10) + digit
  }

  lemma {:induction false} TextValue(n: nat)
    ensures Canonical(Text(n)) && Value(Text(n)) == n
    ensures n > 0 ==> Text(n)[0] != '0'
  {
    var digit := [(n % 10 + '0' as nat) as char];
    if n < 10 {
      assert digit[..0] == "";
    } else {
      TextValue(n / 10);
      assert (Text(n / 10) + digit)[..|Text(n / 10)|] == Text(n / 10);
    }
  }

  lemma {:induction false} LeadingDigit(s: string)
    requires Canonical(s) && |s| > 1
    ensures Value(s) >= 10
  {
    var front := s[..|s| - 1];
    if |s| == 2 {
      assert front[..0] == "" && front[0] == s[0];
    } else {
      LeadingDigit(front);
    }
  }

  lemma {:induction false} ValueText(s: string)
    requires Canonical(s)
    ensures Text(Value(s)) == s
  {
    var front, last := s[..|s| - 1], s[|s| - 1];
    assert s == front + [last];
    if |s| == 1 {
      assert front == "";
    } else {
      LeadingDigit(s);
      ValueText(front);
    }
  }

  /** A canonical decimal number that fits in 64 bits. */
  function Number(s: string): Option<nat> {
    if Canonical(s) && Value(s) < UINT64_LIMIT then Some(Value(s)) else None
  }

  /** The offset of the first full stop, or the length when there is none. */
  function Dot(s: string): (n: nat)
    ensures n <= |s|
    ensures n < |s| ==> s[n] == '.'
    ensures forall k :: 0 <= k < n ==> s[k] != '.'
  {
    if s == "" || s[0] == '.' then 0 else 1 + Dot(s[1..])
  }

  function Parse(s: string): Option<Version> {
    var i := Dot(s);
    if i == |s| then None else
      var rest := s[i + 1..];
      var j := Dot(rest);
      if j == |rest| then None else
        match (Number(s[..i]), Number(rest[..j]), Number(rest[j + 1..]))
        case (Some(major), Some(minor), Some(patch)) => Some(Version(major, minor, patch))
        case _ => None
  }

  function Print(v: Version): string {
    Text(v.major) + "." + (Text(v.minor) + "." + Text(v.patch))
  }

  lemma DotAfter(a: string, b: string)
    requires forall k :: 0 <= k < |a| ==> a[k] != '.'
    ensures Dot(a + "." + b) == |a|
    ensures (a + "." + b)[..|a|] == a && (a + "." + b)[|a| + 1..] == b
  {
    var s := a + "." + b;
    assert s[|a|] == '.';
    assert forall k :: 0 <= k < |a| ==> s[k] == a[k];
  }

  /** Reading inverts writing, for every version whose numbers fit. */
  lemma ParsePrint(v: Version)
    requires v.Fits()
    ensures Parse(Print(v)) == Some(v)
  {
    hide Text, Dot, Value;
    TextValue(v.major);
    TextValue(v.minor);
    TextValue(v.patch);
    DotAfter(Text(v.major), Text(v.minor) + "." + Text(v.patch));
    DotAfter(Text(v.minor), Text(v.patch));
  }

  /** Writing inverts reading: an accepted text is the only one with its numbers. */
  lemma PrintParse(s: string)
    requires Parse(s).Some?
    ensures Parse(s).value.Fits() && Print(Parse(s).value) == s
  {
    hide Text, Dot, Value;
    var i := Dot(s);
    var rest := s[i + 1..];
    var j := Dot(rest);
    ValueText(s[..i]);
    ValueText(rest[..j]);
    ValueText(rest[j + 1..]);
    assert rest == rest[..j] + "." + rest[j + 1..];
    assert s == s[..i] + "." + rest;
  }

  predicate Valid(s: string) {
    Parse(s).Some?
  }

  /** The sign of the comparison: the first number that differs decides. */
  function Order(v: Version, w: Version): int {
    if v.major != w.major then (if v.major < w.major then -1 else 1)
    else if v.minor != w.minor then (if v.minor < w.minor then -1 else 1)
    else if v.patch != w.patch then (if v.patch < w.patch then -1 else 1)
    else 0
  }

  /** None when either text is not a stable release version. */
  function Compare(a: string, b: string): Option<int> {
    match (Parse(a), Parse(b))
    case (Some(v), Some(w)) => Some(Order(v, w))
    case _ => None
  }

  /** a is a version no later than b. */
  predicate AtMost(a: string, b: string) {
    Compare(a, b).Some? && Compare(a, b).value <= 0
  }

  predicate Before(a: string, b: string) {
    Compare(a, b).Some? && Compare(a, b).value < 0
  }

  /** Equal comparison means equal text, and of two versions one is at most the other. */
  lemma TotalOrder(a: string, b: string)
    requires Valid(a) && Valid(b)
    ensures Compare(a, b) == Some(0) <==> a == b
    ensures AtMost(a, b) && AtMost(b, a) <==> a == b
    ensures AtMost(a, b) <==> !Before(b, a)
    ensures Compare(a, b) == Some(-Compare(b, a).value)
  {
    hide Parse, Print;
    PrintParse(a);
    PrintParse(b);
  }

  lemma Transitive(a: string, b: string, c: string)
    requires AtMost(a, b) && AtMost(b, c)
    ensures AtMost(a, c)
    ensures Before(a, b) || Before(b, c) ==> Before(a, c)
  {
    hide Parse;
  }

  /** Versions are compared number by number, the major one first. */
  lemma OrderIsNumeric(v: Version, w: Version)
    requires v.Fits() && w.Fits()
    ensures Valid(Print(v)) && Valid(Print(w))
    ensures Before(Print(v), Print(w)) <==>
      || v.major < w.major
      || (v.major == w.major && v.minor < w.minor)
      || (v.major == w.major && v.minor == w.minor && v.patch < w.patch)
  {
    hide Parse, Print;
    ParsePrint(v);
    ParsePrint(w);
  }
}
