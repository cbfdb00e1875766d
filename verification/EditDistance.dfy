/**
 * Near spellings. The distance of two texts is the least number of insertions,
 * deletions and substitutions that turn one into the other.
 */
module EditDistance {
  import opened Options

  // ---- edits ----

  /** An edit of a text, written from its end: each step deals with the last character. */
  datatype Script = Empty | Keep(rest: Script) | Substitute(rest: Script, c: char) | Delete(rest: Script) | Insert(rest: Script, c: char)

  function Apply(s: Script, a: string): Option<string> {
    match s
    case Empty => if a == "" then Some("") else None
    case Keep(rest) => if a == "" then None else Extend(Apply(rest, a[..|a| - 1]), a[|a| - 1])
    case Substitute(rest, c) => if a == "" then None else Extend(Apply(rest, a[..|a| - 1]), c)
    case Delete(rest) => if a == "" then None else Apply(rest, a[..|a| - 1])
    case Insert(rest, c) => Extend(Apply(rest, a), c)
  }

  function Extend(b: Option<string>, c: char): Option<string> {
    match b case None => None case Some(t) => Some(t + [c])
  }

  function Cost(s: Script): nat {
    match s
    case Empty => 0
    case Keep(rest) => Cost(rest)
    case Substitute(rest, _) => Cost(rest) + 1
    case Delete(rest) => Cost(rest) + 1
    case Insert(rest, _) => Cost(rest) + 1
  }

  // ---- the distance ----

  function Min(a: nat, b: nat): nat { if a < b then a else b }

  function Distance(a: string, b: string): nat
    decreases |a| + |b|
  {
    if a == "" then |b|
    else if b == "" then |a|
    else
      var a', b' := a[..|a| - 1], b[..|b| - 1];
      var cost := if a[|a| - 1] == b[|b| - 1] then 0 else 1;
      Min(Distance(a', b) + 1, Min(Distance(a, b') + 1, Distance(a', b') + cost))
  }

  lemma {:induction false} InsertAll(b: string) returns (s: Script)
    ensures Apply(s, "") == Some(b) && Cost(s) == |b|
  {
    if b == "" {
      s := Empty;
    } else {
      s := InsertAll(b[..|b| - 1]);
      s := Insert(s, b[|b| - 1]);
      assert b == b[..|b| - 1] + [b[|b| - 1]];
    }
  }

  lemma {:induction false} DeleteAll(a: string) returns (s: Script)
    ensures Apply(s, a) == Some("") && Cost(s) == |a|
  {
    if a == "" {
      s := Empty;
    } else {
      s := DeleteAll(a[..|a| - 1]);
      s := Delete(s);
    }
  }

  /** The distance is the cost of some edit. */
  lemma {:induction false} DistanceIsReached(a: string, b: string) returns (s: Script)
    ensures Apply(s, a) == Some(b) && Cost(s) == Distance(a, b)
    decreases |a| + |b|
  {
    if a == "" {
      s := InsertAll(b);
    } else if b == "" {
      s := DeleteAll(a);
    } else {
      var a', b' := a[..|a| - 1], b[..|b| - 1];
      var x, y := a[|a| - 1], b[|b| - 1];
      assert b == b' + [y];
      if Distance(a, b) == Distance(a', b) + 1 {
        s := DistanceIsReached(a', b);
        s := Delete(s);
      } else if Distance(a, b) == Distance(a, b') + 1 {
        s := DistanceIsReached(a, b');
        s := Insert(s, y);
      } else {
        s := DistanceIsReached(a', b');
        s := if x == y then Keep(s) else Substitute(s, y);
      }
    }
  }

  /** No edit that turns a into b costs less. */
  lemma {:induction false} DistanceIsLeast(s: Script, a: string, b: string)
    requires Apply(s, a) == Some(b)
    ensures Distance(a, b) <= Cost(s)
    decreases s
  {
    match s
    case Empty =>
    case Keep(rest) =>
      var t := Apply(rest, a[..|a| - 1]).value;
      DistanceIsLeast(rest, a[..|a| - 1], t);
      assert b[..|b| - 1] == t;
    case Substitute(rest, c) =>
      var t := Apply(rest, a[..|a| - 1]).value;
      DistanceIsLeast(rest, a[..|a| - 1], t);
      assert b[..|b| - 1] == t;
    case Delete(rest) =>
      DistanceIsLeast(rest, a[..|a| - 1], b);
      DeleteStep(a, b);
    case Insert(rest, c) =>
      var t := Apply(rest, a).value;
      DistanceIsLeast(rest, a, t);
      assert b[..|b| - 1] == t;
      InsertStep(a, b);
  }

  lemma DeleteStep(a: string, b: string)
    requires a != ""
    ensures Distance(a, b) <= Distance(a[..|a| - 1], b) + 1
  {}

  lemma InsertStep(a: string, b: string)
    requires b != ""
    ensures Distance(a, b) <= Distance(a, b[..|b| - 1]) + 1
  {}

  // ---- a metric ----

  lemma {:induction false} DistanceSymmetric(a: string, b: string)
    ensures Distance(a, b) == Distance(b, a)
    decreases |a| + |b|
  {
    if a != "" && b != "" {
      DistanceSymmetric(a[..|a| - 1], b);
      DistanceSymmetric(a, b[..|b| - 1]);
      DistanceSymmetric(a[..|a| - 1], b[..|b| - 1]);
    }
  }

  lemma {:induction false} DistanceZero(a: string, b: string)
    ensures Distance(a, b) == 0 <==> a == b
    decreases |a| + |b|
  {
    if a != "" && b != "" {
      DistanceZero(a[..|a| - 1], b[..|b| - 1]);
      assert a == a[..|a| - 1] + [a[|a| - 1]] && b == b[..|b| - 1] + [b[|b| - 1]];
    }
  }

  /** Editing a into b and b into c can be done at once for no more. */
  lemma {:induction false} Compose(s: Script, t: Script, a: string, b: string, c: string) returns (u: Script)
    requires Apply(s, a) == Some(b) && Apply(t, b) == Some(c)
    ensures Apply(u, a) == Some(c) && Cost(u) <= Cost(s) + Cost(t)
    decreases s, t
  {
    if t.Insert? {
      u := Compose(s, t.rest, a, b, Apply(t.rest, b).value);
      u := Insert(u, t.c);
    } else if s.Delete? {
      u := Compose(s.rest, t, a[..|a| - 1], b, c);
      u := Delete(u);
    } else if s.Empty? {
      u := Empty;
    } else {
      // s ends b with a character, and t keeps, replaces or deletes it
      var from := if s.Insert? then a else a[..|a| - 1];
      var mid := Apply(s.rest, from).value;
      assert b[..|b| - 1] == mid;
      if t.Delete? {
        u := Compose(s.rest, t.rest, from, mid, c);
        u := if s.Insert? then u else Delete(u);
      } else {
        var end := Apply(t.rest, mid).value;
        u := Compose(s.rest, t.rest, from, mid, end);
        if s.Insert? {
          u := Insert(u, c[|c| - 1]);
        } else if s.Keep? && t.Keep? {
          u := Keep(u);
        } else {
          u := Substitute(u, c[|c| - 1]);
        }
      }
    }
  }

  lemma {:induction false} TriangleInequality(a: string, b: string, c: string)
    ensures Distance(a, c) <= Distance(a, b) + Distance(b, c)
  {
    var s := DistanceIsReached(a, b);
    var t := DistanceIsReached(b, c);
    var u := Compose(s, t, a, b, c);
    DistanceIsLeast(u, a, c);
  }

  // ---- the table ----

  /** Two rows of the table are enough. */
  method Compute(a: string, b: string) returns (d: nat)
    ensures d == Distance(a, b)
  {
    hide Distance;
    var previous := new nat[|b| + 1];
    for j := 0 to |b| + 1
      invariant forall k :: 0 <= k < j ==> previous[k] == k
    {
      previous[j] := j;
    }
    FirstRow(b);
    assert a[..0] == "";
    for i := 1 to |a| + 1
      invariant previous.Length == |b| + 1
      invariant forall k :: 0 <= k <= |b| ==> previous[k] == Distance(a[..i - 1], b[..k])
    {
      var current := new nat[|b| + 1];
      current[0] := i;
      FirstColumn(a[..i], b);
      for j := 1 to |b| + 1
        invariant forall k :: 0 <= k < j ==> current[k] == Distance(a[..i], b[..k])
        invariant forall k :: 0 <= k <= |b| ==> previous[k] == Distance(a[..i - 1], b[..k])
      {
        var cost := if a[i - 1] == b[j - 1] then 0 else 1;
        Cell(a, b, i, j);
        current[j] := Min(previous[j] + 1, Min(current[j - 1] + 1, previous[j - 1] + cost));
      }
      previous := current;
    }
    assert a[..|a|] == a && b[..|b|] == b;
    return previous[|b|];
  }

  lemma FirstRow(b: string)
    ensures forall k :: 0 <= k <= |b| ==> Distance("", b[..k]) == k
  {}

  lemma FirstColumn(a: string, b: string)
    ensures Distance(a, b[..0]) == |a|
  {
    assert b[..0] == "";
  }

  lemma Cell(a: string, b: string, i: nat, j: nat)
    requires 1 <= i <= |a| && 1 <= j <= |b|
    ensures Distance(a[..i], b[..j]) ==
      Min(Distance(a[..i - 1], b[..j]) + 1,
          Min(Distance(a[..i], b[..j - 1]) + 1, Distance(a[..i - 1], b[..j - 1]) + if a[i - 1] == b[j - 1] then 0 else 1))
  {
    hide Distance;
    assert a[..i][..i - 1] == a[..i - 1] && b[..j][..j - 1] == b[..j - 1];
    CellOf(a[..i], b[..j]);
  }

  lemma CellOf(a: string, b: string)
    requires a != "" && b != ""
    ensures var p, q := a[..|a| - 1], b[..|b| - 1];
      Distance(a, b) == Min(Distance(p, b) + 1, Min(Distance(a, q) + 1, Distance(p, q) + if a[|a| - 1] == b[|b| - 1] then 0 else 1))
  {}

  // ---- suggestions ----

  const NEAR := 3
  const SHORT := 5

  /** Byte order, by which the declared names are sorted. */
  predicate Before(a: string, b: string) {
    if b == "" then false
    else if a == "" then true
    else a[0] < b[0] || (a[0] == b[0] && Before(a[1..], b[1..]))
  }

  predicate Sorted(names: seq<string>) {
    forall i, j :: 0 <= i < j < |names| ==> Before(names[i], names[j])
  }

  /** HasPrefix of the source. */
  predicate StartsWith(s: string, p: string) {
    p <= s
  }

  predicate SharesPrefix(folded: string, lower: string) {
    StartsWith(lower, folded) || (|lower| >= SHORT && StartsWith(folded, lower))
  }

  /** The name is the first of the list that satisfies p. */
  ghost predicate IsFirst(names: seq<string>, p: string -> bool, name: string) {
    name in names && p(name) && forall o :: o in names && Before(o, name) ==> !p(o)
  }

  /** Nothing declared is nearer, and nothing as near comes earlier in byte order. */
  ghost predicate IsNearest(names: seq<string>, folded: string, lower: string -> string, name: string) {
    && name in names && Distance(folded, lower(name)) < NEAR
    && forall o :: o in names ==>
         && Distance(folded, lower(name)) <= Distance(folded, lower(o))
         && (Before(o, name) ==> Distance(folded, lower(name)) < Distance(folded, lower(o)))
  }

  lemma {:induction false} BeforeIsStrict(a: string, b: string)
    requires Before(a, b)
    ensures !Before(b, a)
  {
    if a != "" && a[0] == b[0] {
      BeforeIsStrict(a[1..], b[1..]);
    }
  }

  lemma EarlierIndex(names: seq<string>, k: nat, i: nat)
    requires Sorted(names) && k < |names| && i < |names| && Before(names[k], names[i])
    ensures k < i
  {
    BeforeIsStrict(names[k], names[i]);
  }

  /** The first name in list order is the first in byte order. */
  method FindFirst(names: seq<string>, p: string -> bool) returns (found: Option<string>)
    requires Sorted(names)
    ensures found.Some? ==> IsFirst(names, p, found.value)
    ensures found.None? ==> forall o :: o in names ==> !p(o)
  {
    for i := 0 to |names|
      invariant forall k :: 0 <= k < i ==> !p(names[k])
    {
      if p(names[i]) {
        forall o | o in names && Before(o, names[i])
          ensures !p(o)
        {
          var k :| 0 <= k < |names| && names[k] == o;
          EarlierIndex(names, k, i);
        }
        return Some(names[i]);
      }
    }
    return None;
  }

  /** The last resort: the alphabetically first name at the least distance below three. */
  method FindNearest(names: seq<string>, folded: string, lower: string -> string) returns (best: Option<string>)
    requires Sorted(names)
    ensures best.Some? ==> IsNearest(names, folded, lower, best.value)
    ensures best.None? ==> forall o :: o in names ==> Distance(folded, lower(o)) >= NEAR
  {
    hide Distance;
    best := None;
    var bestDistance := NEAR;
    ghost var at := 0;
    for i := 0 to |names|
      invariant bestDistance <= NEAR && (best.None? ==> bestDistance == NEAR)
      invariant best.Some? ==> at < i && names[at] == best.value && bestDistance == Distance(folded, lower(best.value)) < NEAR
      invariant forall k :: 0 <= k < i ==> bestDistance <= Distance(folded, lower(names[k]))
      invariant best.Some? ==> forall k :: 0 <= k < at ==> bestDistance < Distance(folded, lower(names[k]))
    {
      var distance := Compute(folded, lower(names[i]));
      if distance < bestDistance {
        best, bestDistance, at := Some(names[i]), distance, i;
      }
    }
    if best.Some? {
      forall o | o in names
        ensures bestDistance <= Distance(folded, lower(o))
        ensures Before(o, best.value) ==> bestDistance < Distance(folded, lower(o))
      {
        var k :| 0 <= k < |names| && names[k] == o;
        if Before(o, best.value) {
          EarlierIndex(names, k, at);
        }
      }
    }
  }

  /** The first candidate of the list that is declared. */
  ghost predicate IsFirstDeclared(candidates: seq<string>, names: seq<string>, name: string) {
    name in names &&
    exists k :: 0 <= k < |candidates| && candidates[k] == name && forall j :: 0 <= j < k ==> candidates[j] !in names
  }

  /** The suggestion for an undeclared key, and which of the four rules it comes from. */
  datatype Suggestion = Nothing | SameLetters(name: string) | Synonym(name: string) | Prefix(name: string) | Near(name: string)

  /**
   * A case-insensitive match comes first, then the first declared synonym, then a shared
   * prefix, then a near spelling; keys of fewer than five letters get only the first two.
   */
  method SuggestParam(key: string, names: seq<string>, lower: string -> string, synonyms: string -> seq<string>)
    returns (s: Suggestion)
    requires Sorted(names)
    ensures s.SameLetters? ==> IsFirst(names, n => lower(n) == lower(key), s.name)
    ensures !s.SameLetters? ==> forall n :: n in names ==> lower(n) != lower(key)
    ensures s.Synonym? ==> IsFirstDeclared(synonyms(lower(key)), names, s.name)
    ensures s.Prefix? || s.Near? || s.Nothing? ==> forall c :: c in synonyms(lower(key)) ==> c !in names
    ensures s.Prefix? ==> |lower(key)| >= SHORT && IsFirst(names, n => SharesPrefix(lower(key), lower(n)), s.name)
    ensures s.Near? || (s.Nothing? && |lower(key)| >= SHORT) ==> forall n :: n in names ==> !SharesPrefix(lower(key), lower(n))
    ensures s.Near? ==> |lower(key)| >= SHORT && IsNearest(names, lower(key), lower, s.name)
    ensures s.Nothing? && |lower(key)| >= SHORT ==> forall n :: n in names ==> Distance(lower(key), lower(n)) >= NEAR
  {
    hide Distance, IsFirst, IsNearest, Sorted, SharesPrefix;
    var folded := lower(key);
    var found := FindFirst(names, n => lower(n) == folded);
    if found.Some? {
      return SameLetters(found.value);
    }
    var candidates := synonyms(folded);
    for k := 0 to |candidates|
      invariant forall j :: 0 <= j < k ==> candidates[j] !in names
    {
      if candidates[k] in names {
        return Synonym(candidates[k]);
      }
    }
    if |folded| < SHORT {
      return Nothing;
    }
    found := FindFirst(names, n => SharesPrefix(folded, lower(n)));
    if found.Some? {
      return Prefix(found.value);
    }
    found := FindNearest(names, folded, lower);
    if found.Some? {
      return Near(found.value);
    }
    return Nothing;
  }
}
