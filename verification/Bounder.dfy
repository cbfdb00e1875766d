/**
 * Bounding a JSON value for display: at most so many nodes, so many text units and so
 * many units of one text, with a mark wherever something was left out.
 */
module Bounder {
  import opened Options

  /** A text as code points; a code point above 0xFFFF counts as two units. */
  type Text = seq<nat>

  const REPLACEMENT := 0xFFFD
  const MAX_DEPTH := 8
  const MAX_WIDTH := 100

  /**
   * Scalars other than texts are kept as they are. Outputs may also hold marks: one
   * stands for a left-out value, and a cut text ends in one.
   */
  datatype Json =
    | String(text: Text)
    | Array(items: seq<Json>)
    | Object(fields: seq<Field>)
    | Scalar(raw: string)
    | Mark
    | CutString(prefix: Text)

  datatype Field = Field(key: Text, value: Json)

  /** A value as it comes in, without marks. */
  predicate Plain(j: Json) {
    match j
    case Mark => false
    case CutString(_) => false
    case Array(items) => forall i :: 0 <= i < |items| ==> Plain(items[i])
    case Object(fields) => forall i :: 0 <= i < |fields| ==> Plain(fields[i].value)
    case _ => true
  }

  function Width(r: nat): nat { if r > 0xFFFF then 2 else 1 }

  function Units(t: Text): nat {
    if t == [] then 0 else Units(t[..|t| - 1]) + Width(t[|t| - 1])
  }

  // ---- what an output holds ----

  /** The nodes of an output that are not marks. */
  function Nodes(j: Json): nat {
    match j
    case Mark => 0
    case Array(items) => 1 + NodesOf(items)
    case Object(fields) => 1 + NodesIn(fields)
    case _ => 1
  }

  function NodesOf(items: seq<Json>): nat {
    if items == [] then 0 else NodesOf(items[..|items| - 1]) + Nodes(items[|items| - 1])
  }

  function NodesIn(fields: seq<Field>): nat {
    if fields == [] then 0 else NodesIn(fields[..|fields| - 1]) + Nodes(fields[|fields| - 1].value)
  }

  /** The text units of an output, keys included and marks excluded. */
  function Characters(j: Json): nat {
    match j
    case String(text) => Units(text)
    case CutString(prefix) => Units(prefix)
    case Array(items) => CharactersOf(items)
    case Object(fields) => CharactersIn(fields)
    case _ => 0
  }

  function CharactersOf(items: seq<Json>): nat {
    if items == [] then 0 else CharactersOf(items[..|items| - 1]) + Characters(items[|items| - 1])
  }

  function CharactersIn(fields: seq<Field>): nat {
    if fields == [] then 0 else
      var last := fields[|fields| - 1];
      CharactersIn(fields[..|fields| - 1]) + Units(last.key) + Characters(last.value)
  }

  lemma Snoc(items: seq<Json>, j: Json)
    ensures NodesOf(items + [j]) == NodesOf(items) + Nodes(j)
    ensures CharactersOf(items + [j]) == CharactersOf(items) + Characters(j)
  {
    assert (items + [j])[..|items|] == items;
  }

  lemma SnocField(fields: seq<Field>, f: Field)
    ensures NodesIn(fields + [f]) == NodesIn(fields) + Nodes(f.value)
    ensures CharactersIn(fields + [f]) == CharactersIn(fields) + Units(f.key) + Characters(f.value)
  {
    assert (fields + [f])[..|fields|] == fields;
  }

  // ---- texts ----

  lemma NoUnits()
    ensures Units([]) == 0
  {}

  lemma UnitsSnoc(t: Text, r: nat)
    ensures Units(t + [r]) == Units(t) + Width(r)
  {
    assert (t + [r])[..|t|] == t;
  }

  lemma {:induction false} UnitsGrow(t: Text, k: nat)
    requires k <= |t|
    ensures Units(t[..k]) <= Units(t) && (k < |t| ==> Units(t[..k]) < Units(t))
    decreases |t| - k
  {
    if k < |t| {
      UnitsGrow(t, k + 1);
      assert t[..k + 1] == t[..k] + [t[k]];
      UnitsSnoc(t[..k], t[k]);
    } else {
      assert t[..k] == t;
    }
  }

  method StringLength(t: Text) returns (n: nat)
    ensures n == Units(t)
  {
    n := 0;
    for k := 0 to |t|
      invariant n == Units(t[..k])
    {
      assert t[..k + 1] == t[..k] + [t[k]];
      UnitsSnoc(t[..k], t[k]);
      n := n + 1;
      if t[k] > 0xFFFF {
        n := n + 1;
      }
    }
    assert t[..|t|] == t;
  }

  /**
   * The longest prefix of at most limit units; where a pair would be split, a
   * replacement character takes the last unit. A text that fits is unchanged.
   */
  method Slice(t: Text, limit: nat) returns (s: Text)
    ensures IsSlice(s, t, limit)
  {
    hide Units;
    var used := 0;
    NoUnits();
    assert t[..0] == [];
    for k := 0 to |t|
      invariant used == Units(t[..k]) <= limit
    {
      var width := if t[k] > 0xFFFF then 2 else 1;
      assert t[..k + 1] == t[..k] + [t[k]];
      UnitsSnoc(t[..k], t[k]);
      if used + width > limit {
        UnitsGrow(t, k + 1);
        s := t[..k];
        if used < limit {
          UnitsSnoc(s, REPLACEMENT);
          s := s + [REPLACEMENT];
        }
        return;
      }
      used := used + width;
    }
    assert t[..|t|] == t;
    return t;
  }

  function Min(a: int, b: int): int { if a < b then a else b }

  /** The longest prefix of at most limit units, in which a split pair leaves a replacement character. */
  predicate IsSlice(s: Text, t: Text, limit: nat) {
    if Units(t) <= limit then s == t
    else Units(s) == limit && exists k :: 0 <= k < |t| && (s == t[..k] || (s == t[..k] + [REPLACEMENT] && t[k] > 0xFFFF))
  }

  // ---- what is left of a value ----

  /** out is what is left of j: parts of it in their order, with marks where something is missing. */
  ghost predicate Trims(out: Json, j: Json)
    decreases j, 0
  {
    match out
    case Mark => true
    case String(s) => j.String? && (s == j.text || exists limit: nat :: limit < Units(j.text) && IsSlice(s, j.text, limit))
    case CutString(s) => j.String? && exists limit: nat :: limit < Units(j.text) && IsSlice(s, j.text, limit)
    case Array(items) => j.Array? && |items| <= |j.items| && forall i :: 0 <= i < |items| ==> Trims(items[i], j.items[i])
    case Object(fields) => j.Object? && TrimsFields(fields, j, |j.fields|)
    case Scalar(_) => out == j
  }

  /** The fields are left of the first k fields of the object, in their order. */
  ghost predicate TrimsFields(out: seq<Field>, j: Json, k: nat)
    requires j.Object? && k <= |j.fields|
    decreases j, 0, k
  {
    if k == 0 then out == []
    else
      || TrimsFields(out, j, k - 1)
      || (out != [] && out[|out| - 1].key == j.fields[k - 1].key && Trims(out[|out| - 1].value, j.fields[k - 1].value)
          && TrimsFields(out[..|out| - 1], j, k - 1))
  }

  // ---- what fits ----

  datatype Limits = Limits(entries: nat, characters: nat, text: nat)

  /** Whether the walk from this point leaves nothing out. */
  ghost predicate Fits(j: Json, depth: nat, entries: nat, characters: nat, l: Limits)
    decreases j, 0
  {
    && entries < l.entries && characters < l.characters && depth <= MAX_DEPTH
    && match j
       case String(text) => Units(text) <= l.text && characters + Units(text) <= l.characters
       case Array(items) =>
         |items| <= MAX_WIDTH && entries + 1 + |items| <= l.entries && FitsOf(j, |items|, depth + 1, entries + 1, characters, l)
       case Object(fields) => |fields| <= MAX_WIDTH && FitsIn(j, |fields|, depth + 1, entries + 1, characters, l)
       case _ => true
  }

  ghost predicate FitsOf(j: Json, k: nat, depth: nat, entries: nat, characters: nat, l: Limits)
    requires j.Array? && k <= |j.items|
    decreases j, 0, k
  {
    forall i :: 0 <= i < k ==> Fits(j.items[i], depth, entries + NodesOf(j.items[..i]), characters + CharactersOf(j.items[..i]), l)
  }

  ghost predicate FitsIn(j: Json, k: nat, depth: nat, entries: nat, characters: nat, l: Limits)
    requires j.Object? && k <= |j.fields|
    decreases j, 0, k
  {
    forall i :: 0 <= i < k ==>
      Fits(j.fields[i].value, depth, entries + NodesIn(j.fields[..i]),
           characters + CharactersIn(j.fields[..i]) + Units(j.fields[i].key), l)
  }

  /** No array or object is wider than 100, and no text longer than the limit. */
  predicate Small(j: Json, text: nat) {
    match j
    case String(t) => Units(t) <= text
    case Array(items) => |items| <= MAX_WIDTH && forall i :: 0 <= i < |items| ==> Small(items[i], text)
    case Object(fields) => |fields| <= MAX_WIDTH && forall i :: 0 <= i < |fields| ==> Small(fields[i].value, text)
    case _ => true
  }

  /** At most n containers stand around any value inside. */
  predicate Shallow(j: Json, n: int) {
    && n >= 0
    && match j
       case Array(items) => forall i :: 0 <= i < |items| ==> Shallow(items[i], n - 1)
       case Object(fields) => forall i :: 0 <= i < |fields| ==> Shallow(fields[i].value, n - 1)
       case _ => true
  }

  /** The text units, keys included, in front of the last node. */
  function Prior(j: Json): nat {
    match j
    case Array(items) => if items == [] then 0 else CharactersOf(items[..|items| - 1]) + Prior(items[|items| - 1])
    case Object(fields) =>
      if fields == [] then 0 else
        CharactersIn(fields[..|fields| - 1]) + Units(fields[|fields| - 1].key) + Prior(fields[|fields| - 1].value)
    case _ => 0
  }

  /**
   * The value is small and at most 8 deep, has no more nodes and text units than allowed,
   * and there is a unit to spare when its last node begins.
   */
  predicate FitsWhole(j: Json, depth: nat, entries: nat, characters: nat, l: Limits) {
    && Small(j, l.text) && Shallow(j, MAX_DEPTH - depth)
    && entries + Nodes(j) <= l.entries
    && characters + Characters(j) <= l.characters && characters + Prior(j) < l.characters
  }

  lemma {:induction false} NodesAtLeast(j: Json)
    requires Plain(j)
    ensures Nodes(j) >= 1
  {}

  lemma {:induction false} PriorBound(j: Json)
    ensures Prior(j) <= Characters(j)
  {
    match j
    case Array(items) => if items != [] { PriorBound(items[|items| - 1]); }
    case Object(fields) => if fields != [] { PriorBound(fields[|fields| - 1].value); }
    case _ =>
  }

  lemma {:induction false} NodesOfAtLeast(items: seq<Json>)
    requires forall i :: 0 <= i < |items| ==> Plain(items[i])
    ensures NodesOf(items) >= |items|
  {
    if items != [] {
      NodesOfAtLeast(items[..|items| - 1]);
      NodesAtLeast(items[|items| - 1]);
    }
  }

  /** The first k items fit as a whole, one after the other. */
  predicate FitsItems(j: Json, k: nat, depth: nat, entries: nat, characters: nat, l: Limits)
    requires j.Array? && k <= |j.items|
  {
    && (forall i :: 0 <= i < k ==> Small(j.items[i], l.text) && Shallow(j.items[i], MAX_DEPTH - depth))
    && (k > 0 ==>
          && entries + NodesOf(j.items[..k]) <= l.entries && characters + CharactersOf(j.items[..k]) <= l.characters
          && characters + CharactersOf(j.items[..k - 1]) + Prior(j.items[k - 1]) < l.characters)
  }

  predicate FitsFields(j: Json, k: nat, depth: nat, entries: nat, characters: nat, l: Limits)
    requires j.Object? && k <= |j.fields|
  {
    && (forall i :: 0 <= i < k ==> Small(j.fields[i].value, l.text) && Shallow(j.fields[i].value, MAX_DEPTH - depth))
    && (k > 0 ==>
          && entries + NodesIn(j.fields[..k]) <= l.entries && characters + CharactersIn(j.fields[..k]) <= l.characters
          && characters + CharactersIn(j.fields[..k - 1]) + Units(j.fields[k - 1].key) + Prior(j.fields[k - 1].value) < l.characters)
  }

  lemma ItemsWhole(j: Json, depth: nat, entries: nat, characters: nat, l: Limits)
    requires j.Array? && Plain(j) && entries < l.entries && characters < l.characters && depth <= MAX_DEPTH
    ensures |j.items| <= MAX_WIDTH && entries + 1 + |j.items| <= l.entries
            && FitsItems(j, |j.items|, depth + 1, entries + 1, characters, l) <==>
      FitsWhole(j, depth, entries, characters, l)
  {
    hide CharactersOf, NodesOf, Plain;
    PlainItems(j);
    NodesOfAtLeast(j.items);
    assert j.items[..|j.items|] == j.items;
    assert forall i :: 0 <= i < |j.items| ==> (Shallow(j.items[i], MAX_DEPTH - depth - 1) <==> Shallow(j.items[i], MAX_DEPTH - (depth + 1)));
    hide Small, Shallow;
    ItemsSmall(j, depth, l);
    NoNodes();
  }

  lemma PlainItems(j: Json)
    requires Plain(j)
    ensures j.Array? ==> forall i :: 0 <= i < |j.items| ==> Plain(j.items[i])
    ensures j.Object? ==> forall i :: 0 <= i < |j.fields| ==> Plain(j.fields[i].value)
  {}

  lemma NoNodes()
    ensures NodesOf([]) == 0 && CharactersOf([]) == 0 && NodesIn([]) == 0 && CharactersIn([]) == 0
  {}

  lemma ItemsSmall(j: Json, depth: nat, l: Limits)
    requires j.Array? && depth <= MAX_DEPTH
    ensures Small(j, l.text) && Shallow(j, MAX_DEPTH - depth) <==>
      |j.items| <= MAX_WIDTH && forall i :: 0 <= i < |j.items| ==> Small(j.items[i], l.text) && Shallow(j.items[i], MAX_DEPTH - (depth + 1))
  {
    assert MAX_DEPTH - depth - 1 == MAX_DEPTH - (depth + 1);
  }

  lemma FieldsSmall(j: Json, depth: nat, l: Limits)
    requires j.Object? && depth <= MAX_DEPTH
    ensures Small(j, l.text) && Shallow(j, MAX_DEPTH - depth) <==>
      && |j.fields| <= MAX_WIDTH
      && forall i :: 0 <= i < |j.fields| ==> Small(j.fields[i].value, l.text) && Shallow(j.fields[i].value, MAX_DEPTH - (depth + 1))
  {
    assert MAX_DEPTH - depth - 1 == MAX_DEPTH - (depth + 1);
  }

  lemma FieldsWhole(j: Json, depth: nat, entries: nat, characters: nat, l: Limits)
    requires j.Object? && Plain(j) && entries < l.entries && characters < l.characters && depth <= MAX_DEPTH
    ensures |j.fields| <= MAX_WIDTH && FitsFields(j, |j.fields|, depth + 1, entries + 1, characters, l) <==>
      FitsWhole(j, depth, entries, characters, l)
  {
    hide CharactersIn, NodesIn, Plain, Units, Small, Shallow;
    assert j.fields[..|j.fields|] == j.fields;
    FieldsSmall(j, depth, l);
    NoNodes();
  }

  /** What fits on the way is what fits as a whole. */
  lemma {:induction false} FitsIs(j: Json, depth: nat, entries: nat, characters: nat, l: Limits)
    requires Plain(j)
    ensures Fits(j, depth, entries, characters, l) <==> FitsWhole(j, depth, entries, characters, l)
    decreases j, 1
  {
    hide FitsOf, FitsIn, FitsItems, FitsFields, Plain, FitsWhole;
    WholeStarts(j, depth, entries, characters, l);
    if entries < l.entries && characters < l.characters && depth <= MAX_DEPTH {
      match j
      case Array(items) =>
        FitsOfIs(j, |items|, depth + 1, entries + 1, characters, l);
        ItemsWhole(j, depth, entries, characters, l);
      case Object(fields) =>
        FitsInIs(j, |fields|, depth + 1, entries + 1, characters, l);
        FieldsWhole(j, depth, entries, characters, l);
      case _ =>
        LeafWhole(j, depth, entries, characters, l);
    }
  }

  lemma WholeStarts(j: Json, depth: nat, entries: nat, characters: nat, l: Limits)
    requires Plain(j)
    ensures FitsWhole(j, depth, entries, characters, l) ==> entries < l.entries && characters < l.characters && depth <= MAX_DEPTH
  {
    NodesAtLeast(j);
  }

  lemma LeafWhole(j: Json, depth: nat, entries: nat, characters: nat, l: Limits)
    requires !j.Array? && !j.Object? && Plain(j) && entries < l.entries && characters < l.characters && depth <= MAX_DEPTH
    ensures FitsWhole(j, depth, entries, characters, l) <==>
      (j.String? ==> Units(j.text) <= l.text && characters + Units(j.text) <= l.characters)
  {}

  lemma {:induction false} FitsOfIs(j: Json, k: nat, depth: nat, entries: nat, characters: nat, l: Limits)
    requires j.Array? && Plain(j) && k <= |j.items|
    ensures FitsOf(j, k, depth, entries, characters, l) <==> FitsItems(j, k, depth, entries, characters, l)
    decreases j, 0, k
  {
    hide FitsItems, FitsWhole, Plain, Fits, FitsOf, NodesOf, CharactersOf;
    if k > 0 {
      PlainItem(j, k - 1);
      FitsOfIs(j, k - 1, depth, entries, characters, l);
      FitsIs(j.items[k - 1], depth, entries + NodesOf(j.items[..k - 1]), characters + CharactersOf(j.items[..k - 1]), l);
      ItemsStep(j, k, depth, entries, characters, l);
      FitsOfStep(j, k, depth, entries, characters, l);
    } else {
      NoItems(j, depth, entries, characters, l);
      FitsOfNone(j, depth, entries, characters, l);
    }
  }

  lemma FitsOfNone(j: Json, depth: nat, entries: nat, characters: nat, l: Limits)
    requires j.Array?
    ensures FitsOf(j, 0, depth, entries, characters, l)
  {}

  lemma FitsOfStep(j: Json, k: nat, depth: nat, entries: nat, characters: nat, l: Limits)
    requires j.Array? && 0 < k <= |j.items|
    ensures FitsOf(j, k, depth, entries, characters, l) <==>
      && FitsOf(j, k - 1, depth, entries, characters, l)
      && Fits(j.items[k - 1], depth, entries + NodesOf(j.items[..k - 1]), characters + CharactersOf(j.items[..k - 1]), l)
  {
    hide Fits, NodesOf, CharactersOf;
  }

  lemma NoItems(j: Json, depth: nat, entries: nat, characters: nat, l: Limits)
    ensures j.Array? ==> FitsItems(j, 0, depth, entries, characters, l)
    ensures j.Object? ==> FitsFields(j, 0, depth, entries, characters, l)
  {}

  lemma ItemsStep(j: Json, k: nat, depth: nat, entries: nat, characters: nat, l: Limits)
    requires j.Array? && Plain(j) && 0 < k <= |j.items|
    ensures FitsItems(j, k, depth, entries, characters, l) <==>
      && FitsItems(j, k - 1, depth, entries, characters, l)
      && FitsWhole(j.items[k - 1], depth, entries + NodesOf(j.items[..k - 1]), characters + CharactersOf(j.items[..k - 1]), l)
  {
    hide Small, Shallow, Plain, Prior, NodesOf, CharactersOf, Nodes, Characters;
    var item, front := j.items[k - 1], j.items[..k - 1];
    assert j.items[..k] == front + [item];
    Snoc(front, item);
    PlainItem(j, k - 1);
    NodesAtLeast(item);
    if k > 1 {
      var before := j.items[..k - 2];
      assert front == before + [j.items[k - 2]];
      Snoc(before, j.items[k - 2]);
      PriorBound(j.items[k - 2]);
    }
  }

  lemma PlainItem(j: Json, i: nat)
    requires Plain(j)
    ensures j.Array? && i < |j.items| ==> Plain(j.items[i])
    ensures j.Object? && i < |j.fields| ==> Plain(j.fields[i].value)
  {}

  lemma {:induction false} FitsInIs(j: Json, k: nat, depth: nat, entries: nat, characters: nat, l: Limits)
    requires j.Object? && Plain(j) && k <= |j.fields|
    ensures FitsIn(j, k, depth, entries, characters, l) <==> FitsFields(j, k, depth, entries, characters, l)
    decreases j, 0, k
  {
    hide FitsFields, FitsWhole, Plain, Fits, FitsIn, NodesIn, CharactersIn, Units;
    if k > 0 {
      var f, front := j.fields[k - 1], j.fields[..k - 1];
      PlainItem(j, k - 1);
      FitsInIs(j, k - 1, depth, entries, characters, l);
      FitsIs(f.value, depth, entries + NodesIn(front), characters + CharactersIn(front) + Units(f.key), l);
      FieldsStep(j, k, depth, entries, characters, l);
      FitsInStep(j, k, depth, entries, characters, l);
    } else {
      NoItems(j, depth, entries, characters, l);
      FitsInNone(j, depth, entries, characters, l);
    }
  }

  lemma FitsInNone(j: Json, depth: nat, entries: nat, characters: nat, l: Limits)
    requires j.Object?
    ensures FitsIn(j, 0, depth, entries, characters, l)
  {}

  lemma FitsInStep(j: Json, k: nat, depth: nat, entries: nat, characters: nat, l: Limits)
    requires j.Object? && 0 < k <= |j.fields|
    ensures var f, front := j.fields[k - 1], j.fields[..k - 1];
      FitsIn(j, k, depth, entries, characters, l) <==>
        && FitsIn(j, k - 1, depth, entries, characters, l)
        && Fits(f.value, depth, entries + NodesIn(front), characters + CharactersIn(front) + Units(f.key), l)
  {
    hide Fits, NodesIn, CharactersIn, Units;
  }

  lemma FieldsStep(j: Json, k: nat, depth: nat, entries: nat, characters: nat, l: Limits)
    requires j.Object? && Plain(j) && 0 < k <= |j.fields|
    ensures var f, front := j.fields[k - 1], j.fields[..k - 1];
      FitsFields(j, k, depth, entries, characters, l) <==>
        && FitsFields(j, k - 1, depth, entries, characters, l)
        && FitsWhole(f.value, depth, entries + NodesIn(front), characters + CharactersIn(front) + Units(f.key), l)
  {
    hide Small, Shallow, Plain, Prior, NodesIn, CharactersIn, Nodes, Characters, Units;
    var f, front := j.fields[k - 1], j.fields[..k - 1];
    assert j.fields[..k] == front + [f];
    SnocField(front, f);
    PlainItem(j, k - 1);
    NodesAtLeast(f.value);
    if k > 1 {
      var before := j.fields[..k - 2];
      assert front == before + [j.fields[k - 2]];
      SnocField(before, j.fields[k - 2]);
      PriorBound(j.fields[k - 2].value);
    }
  }

  // ---- the walk ----

  class Budget {
    const maxEntries: nat
    const maxCharacters: nat
    const maxString: nat
    const capture: bool
    var entries: nat
    var characters: nat
    var truncated: bool

    constructor (maxEntries: nat, maxCharacters: nat, maxString: nat, capture: bool)
      ensures this.maxEntries == maxEntries && this.maxCharacters == maxCharacters && this.maxString == maxString
      ensures this.capture == capture && Within() && entries == 0 && characters == 0 && !truncated
    {
      this.maxEntries, this.maxCharacters, this.maxString, this.capture := maxEntries, maxCharacters, maxString, capture;
      entries, characters, truncated := 0, 0, false;
    }

    predicate Within()
      reads this
    {
      entries <= maxEntries && characters <= maxCharacters
    }

    ghost function Allowed(): Limits {
      Limits(maxEntries, maxCharacters, maxString)
    }

    /**
     * Something is marked as left out exactly when the value does not fit in what is left
     * of the budget; then the output is what is left of the input, and otherwise it is
     * the input. Exactly the nodes and text units of the output are counted, both stay
     * within the budget, and a node is replaced by a mark only where the budget is used
     * up or the depth exceeded.
     */
    method Visit(j: Json, depth: nat) returns (out: Json)
      requires Within() && Plain(j)
      modifies this
      ensures Within() && (truncated <==> old(truncated) || !Fits(j, depth, old(entries), old(characters), Allowed()))
      ensures entries == old(entries) + Nodes(out) && characters == old(characters) + Characters(out)
      ensures !truncated ==> out == j
      ensures Trims(out, j)
      ensures out == Mark <==> old(entries) >= maxEntries || old(characters) >= maxCharacters || depth > MAX_DEPTH
      ensures j.Array? && out.Array? ==> |out.items| == Min(|j.items|, Min(MAX_WIDTH, maxEntries - old(entries) - 1))
      ensures j.String? && out != Mark ==>
        characters == old(characters) + Min(Units(j.text), Min(maxString, maxCharacters - old(characters)))
      decreases j, 1
    {
      hide FitsOf, FitsIn, TrimsFields, Units, IsSlice;
      if entries >= maxEntries || characters >= maxCharacters || depth > MAX_DEPTH {
        truncated := true;
        return Mark;
      }
      entries := entries + 1;
      match j
      case String(text) =>
        out := VisitString(text);
      case Array(items) =>
        var kept := VisitItems(j, items, Min(MAX_WIDTH, maxEntries - entries), depth);
        return Array(kept);
      case Object(fields) =>
        var kept := VisitFields(j, fields, depth);
        return Object(kept);
      case Scalar(_) =>
        return j;
    }

    method VisitString(text: Text) returns (out: Json)
      requires Within()
      modifies this
      ensures Within() && entries == old(entries)
      ensures truncated <==> old(truncated) || !(Units(text) <= maxString && old(characters) + Units(text) <= maxCharacters)
      ensures characters == old(characters) + Characters(out) && Nodes(out) == 1
      ensures characters == old(characters) + Min(Units(text), Min(maxString, maxCharacters - old(characters)))
      ensures !truncated ==> out == String(text)
      ensures Trims(out, String(text)) && out != Mark
    {
      var length := StringLength(text);
      var limit := Min(length, Min(maxString, maxCharacters - characters));
      characters := characters + limit;
      var s := Slice(text, limit);
      assert IsSlice(s, text, limit);
      if limit < length {
        truncated := true;
        if capture {
          return CutString(s);
        }
      }
      return String(s);
    }

    method VisitItems(ghost whole: Json, items: seq<Json>, limit: nat, depth: nat) returns (out: seq<Json>)
      requires Within() && whole.Array? && whole.items == items && Plain(whole)
      modifies this
      ensures Within()
      ensures truncated <==>
        old(truncated) || |items| > limit || !FitsOf(whole, |items|, depth + 1, old(entries), old(characters), Allowed())
      ensures entries == old(entries) + NodesOf(out) && characters == old(characters) + CharactersOf(out)
      ensures !truncated ==> out == items
      ensures |out| == Min(|items|, limit) && forall i :: 0 <= i < |out| ==> Trims(out[i], items[i])
      decreases whole, 0
    {
      hide Fits, Trims, Nodes, Characters, Plain, FitsOf, NodesOf, CharactersOf;
      ghost var e, c := entries, characters;
      PlainItems(whole);
      NoNodes();
      FitsOfNone(whole, depth + 1, e, c, Allowed());
      var prefix := items;
      if |items| > limit {
        prefix := items[..limit];
        truncated := true;
      }
      out := [];
      for i := 0 to |prefix|
        invariant Within()
        invariant truncated <==> old(truncated) || |items| > limit || !FitsOf(whole, i, depth + 1, e, c, Allowed())
        invariant entries == e + NodesOf(out) && characters == c + CharactersOf(out)
        invariant |out| == i && (!truncated ==> out == items[..i])
        invariant forall k :: 0 <= k < i ==> Trims(out[k], items[k])
      {
        FitsOfStep(whole, i + 1, depth + 1, e, c, Allowed());
        var item := Visit(prefix[i], depth + 1);
        Snoc(out, item);
        out := out + [item];
      }
    }

    lemma NoFields()
      ensures NodesIn([]) == 0 && CharactersIn([]) == 0
    {}

    /** Fields that do not fit keep the whole from fitting. */
    lemma FitsInPart(j: Json, i: nat, k: nat, depth: nat, e: nat, c: nat)
      requires j.Object? && i <= k <= |j.fields| && FitsIn(j, k, depth, e, c, Allowed())
      ensures FitsIn(j, i, depth, e, c, Allowed())
    {
      hide Fits, NodesIn, CharactersIn, Units;
    }

    lemma {:induction false} TrimsMore(out: seq<Field>, j: Json, i: nat, k: nat)
      requires j.Object? && i <= k <= |j.fields| && TrimsFields(out, j, i)
      ensures TrimsFields(out, j, k)
      decreases k
    {
      hide Trims;
      if i < k {
        TrimsMore(out, j, i, k - 1);
      }
    }

    lemma TrimsSnoc(out: seq<Field>, j: Json, i: nat, v: Json)
      requires j.Object? && i < |j.fields| && TrimsFields(out, j, i) && Trims(v, j.fields[i].value)
      ensures TrimsFields(out + [Field(j.fields[i].key, v)], j, i + 1)
    {
      hide Trims;
      assert (out + [Field(j.fields[i].key, v)])[..|out|] == out;
    }

    lemma FieldFails(j: Json, i: nat, depth: nat, e: nat, c: nat)
      requires j.Object? && i < |j.fields|
      requires var k := c + CharactersIn(j.fields[..i]) + Units(j.fields[i].key);
        e + NodesIn(j.fields[..i]) >= maxEntries || k >= maxCharacters
      ensures !FitsIn(j, i + 1, depth, e, c, Allowed())
    {
      hide NodesIn, CharactersIn, Units;
    }

    method VisitFields(ghost whole: Json, fields: seq<Field>, depth: nat) returns (out: seq<Field>)
      requires Within() && whole.Object? && whole.fields == fields && Plain(whole)
      modifies this
      ensures Within()
      ensures truncated <==>
        old(truncated) || |fields| > MAX_WIDTH || !FitsIn(whole, |fields|, depth + 1, old(entries), old(characters), Allowed())
      ensures entries == old(entries) + NodesIn(out) && characters == old(characters) + CharactersIn(out)
      ensures !truncated ==> out == fields
      ensures TrimsFields(out, whole, |fields|)
      decreases whole, 0
    {
      hide NodesIn, CharactersIn, Nodes, Characters, Units, Plain, Fits, FitsIn, Trims, TrimsFields;
      ghost var e, c := entries, characters;
      NoFields();
      PlainItems(whole);
      FitsInNone(whole, depth + 1, e, c, Allowed());
      assert TrimsFields([], whole, 0) by { NoTrims(whole); }
      TrimsMore([], whole, 0, |fields|);
      var some := fields;
      if |fields| > MAX_WIDTH {
        some := fields[..MAX_WIDTH];
        truncated := true;
      }
      out := [];
      for i := 0 to |some|
        invariant Within()
        invariant truncated <==> old(truncated) || |fields| > MAX_WIDTH || !FitsIn(whole, i, depth + 1, e, c, Allowed())
        invariant entries == e + NodesIn(out) && characters == c + CharactersIn(out)
        invariant !truncated ==> out == fields[..i]
        invariant TrimsFields(out, whole, i) && TrimsFields(out, whole, |fields|)
      {
        TrimsMore(out, whole, i, i + 1);
        FitsInStep(whole, i + 1, depth + 1, e, c, Allowed());
        if entries >= maxEntries || characters >= maxCharacters {
          if !truncated {
            FieldFails(whole, i, depth + 1, e, c);
          }
          truncated := true;
          if FitsIn(whole, |fields|, depth + 1, e, c, Allowed()) {
            FitsInPart(whole, i, |fields|, depth + 1, e, c);
            FitsInPart(whole, i + 1, |fields|, depth + 1, e, c);
          }
          break;
        }
        var length := StringLength(some[i].key);
        if length > maxCharacters - characters {
          if !truncated {
            FieldFails(whole, i, depth + 1, e, c);
          }
          truncated := true;
          continue;
        }
        characters := characters + length;
        var v := Visit(some[i].value, depth + 1);
        SnocField(out, Field(some[i].key, v));
        TrimsSnoc(out, whole, i, v);
        out := out + [Field(some[i].key, v)];
        TrimsMore(out, whole, i + 1, |fields|);
      }
    }
  }

  lemma NoTrims(j: Json)
    requires j.Object?
    ensures TrimsFields([], j, 0)
  {}

  /** A value of the whole budget fits on the way exactly when it fits as a whole. */
  lemma FitsBudget(j: Json, l: Limits)
    requires Plain(j)
    ensures Fits(j, 0, 0, 0, l) <==>
      && Small(j, l.text) && Shallow(j, MAX_DEPTH) && Nodes(j) <= l.entries
      && Characters(j) <= l.characters && Prior(j) < l.characters
  {
    FitsIs(j, 0, 0, 0, l);
  }

  /**
   * The value is returned whole exactly when it is at most 8 deep, no array or object in
   * it is wider than 100, no text is longer than the limit, it has at most so many nodes
   * and text units, and a unit is to spare when its last node begins. Otherwise what is
   * left of it is returned and reported as truncated.
   */
  method Bound(j: Json, maxEntries: nat, maxCharacters: nat, maxString: nat, capture: bool) returns (out: Json, truncated: bool)
    requires Plain(j)
    ensures !truncated <==>
      && Small(j, maxString) && Shallow(j, MAX_DEPTH) && Nodes(j) <= maxEntries
      && Characters(j) <= maxCharacters && Prior(j) < maxCharacters
    ensures !truncated ==> out == j
    ensures Trims(out, j)
    ensures Nodes(out) <= maxEntries && Characters(out) <= maxCharacters
  {
    hide Fits, Small, Shallow, Nodes, Characters, Prior, Trims;
    FitsBudget(j, Limits(maxEntries, maxCharacters, maxString));
    var budget := new Budget(maxEntries, maxCharacters, maxString, capture);
    out := budget.Visit(j, 0);
    truncated := budget.truncated;
  }
}
