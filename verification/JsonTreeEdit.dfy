/**
 * The meaning of an edit: setting or deleting the value at a path of keys in a
 * concrete syntax tree, and what that does to every path.
 */
module JsonTreeEdit {
  import opened Options
  import opened JsonText
  import opened JsonTree

  predicate IsObject(t: Cst) {
    t.Container? && t.kind == '{'
  }

  /** The first member of an object with the key. */
  function FindEntry(c: Codec, es: seq<Entry>, key: string): (i: Option<nat>)
    ensures i.Some? ==> i.value < |es| && KeyOf(c, '{', es[i.value]) == key
    ensures i.Some? ==> forall j :: 0 <= j < i.value ==> KeyOf(c, '{', es[j]) != key
    ensures i.None? ==> forall j :: 0 <= j < |es| ==> KeyOf(c, '{', es[j]) != key
  {
    if es == [] then None
    else if KeyOf(c, '{', es[0]) == key then Some(0)
    else match FindEntry(c, es[1..], key)
      case None =>
        assert forall j :: 0 < j < |es| ==> es[j] == es[1..][j - 1];
        None
      case Some(i) =>
        assert forall j :: 0 < j < |es| ==> es[j] == es[1..][j - 1];
        Some(i + 1)
  }

  function Lookup(c: Codec, t: Cst, keys: seq<string>): Option<Cst>
    decreases keys
  {
    if keys == [] then Some(t)
    else if !IsObject(t) then None
    else match FindEntry(c, t.entries, keys[0])
      case None => None
      case Some(i) => Lookup(c, t.entries[i].value, keys[1..])
  }

  /** A value under keys that do not exist yet. */
  function Wrap(c: Codec, keys: seq<string>, r: Cst): Cst {
    if keys == [] then r
    else Container('{', [Entry("", c.quote(keys[0]), "", " ", Wrap(c, keys[1..], r), "", false)], "")
  }

  function NewEntry(c: Codec, keys: seq<string>, r: Cst, post: string): Entry
    requires keys != []
  {
    Entry("\n  ", c.quote(keys[0]), "", " ", Wrap(c, keys[1..], r), "\n" + post, false)
  }

  /** A new last member; a last member without a comma gets one. */
  function Append(c: Codec, t: Cst, keys: seq<string>, r: Cst): Cst
    requires IsObject(t) && keys != []
  {
    var es := t.entries;
    if es == [] || es[|es| - 1].comma then
      Container('{', es + [NewEntry(c, keys, r, t.tail)], "")
    else
      var last := es[|es| - 1];
      Container('{', es[..|es| - 1] + [last.(post := "", comma := true)] + [NewEntry(c, keys, r, last.post)], t.tail)
  }

  function Put(c: Codec, t: Cst, keys: seq<string>, r: Cst): Option<Cst>
    decreases keys
  {
    if keys == [] || !IsObject(t) then None
    else match FindEntry(c, t.entries, keys[0])
      case None => Some(Append(c, t, keys, r))
      case Some(i) =>
        if |keys| == 1 then Some(SetValue(t, i, r))
        else match Put(c, t.entries[i].value, keys[1..], r)
          case None => None
          case Some(v) => Some(SetValue(t, i, v))
  }

  function SetValue(t: Cst, i: nat, v: Cst): Cst
    requires t.Container? && i < |t.entries|
  {
    t.(entries := t.entries[i := t.entries[i].(value := v)])
  }

  /** Without one member; the trivia around it stays. */
  function Drop(t: Cst, i: nat): Cst
    requires t.Container? && i < |t.entries|
  {
    var es, e := t.entries, t.entries[i];
    var gap := e.pre + e.post;
    if e.comma then
      if i + 1 < |es| then
        Container(t.kind, es[..i] + [es[i + 1].(pre := gap + es[i + 1].pre)] + es[i + 2..], t.tail)
      else
        Container(t.kind, es[..i], gap + t.tail)
    else if i > 0 && es[i - 1].comma then
      Container(t.kind, es[..i - 1] + [es[i - 1].(post := es[i - 1].post + gap, comma := false)] + es[i + 1..], t.tail)
    else
      Container(t.kind, es[..i] + es[i + 1..], gap + t.tail)
  }

  function Remove(c: Codec, t: Cst, keys: seq<string>): Option<Cst>
    decreases keys
  {
    if keys == [] || !IsObject(t) then None
    else match FindEntry(c, t.entries, keys[0])
      case None => Some(t)
      case Some(i) =>
        if |keys| == 1 then Some(Drop(t, i))
        else match Remove(c, t.entries[i].value, keys[1..])
          case None => None
          case Some(v) => Some(SetValue(t, i, v))
  }

  /** Neither path leads through the other. */
  predicate Unrelated(p: seq<string>, q: seq<string>) {
    !(p <= q) && !(q <= p)
  }

  // Well-formed members, index by index

  ghost predicate WfIndexed(c: Codec, kind: char, es: seq<Entry>, depth: nat) {
    && (forall i :: 0 <= i < |es| ==> WfEntry(c, kind, es[i], depth))
    && (forall i :: 0 <= i < |es| - 1 ==> es[i].comma)
    && (kind == '{' ==> forall i, j :: 0 <= i < j < |es| ==> KeyOf(c, kind, es[i]) != KeyOf(c, kind, es[j]))
  }

  lemma {:induction false} WfToIndexed(c: Codec, kind: char, es: seq<Entry>, depth: nat)
    requires WfEntries(c, kind, es, depth)
    ensures WfIndexed(c, kind, es, depth)
    decreases |es|
  {
    hide WfEntry, KeyOf;
    if es != [] {
      var rest := es[1..];
      WfToIndexed(c, kind, rest, depth);
      assert forall i :: 1 <= i < |es| ==> es[i] == rest[i - 1];
      forall i, j | 0 <= i < j < |es| && kind == '{'
        ensures KeyOf(c, kind, es[i]) != KeyOf(c, kind, es[j])
      {
        if i == 0 {
          assert KeyOf(c, kind, rest[j - 1]) in Keys(c, kind, rest);
        }
      }
    }
  }

  lemma {:induction false} IndexedToWf(c: Codec, kind: char, es: seq<Entry>, depth: nat)
    requires WfIndexed(c, kind, es, depth)
    ensures WfEntries(c, kind, es, depth)
    decreases |es|
  {
    hide WfEntry, KeyOf;
    if es != [] {
      var rest := es[1..];
      assert forall i :: 0 <= i < |rest| ==> rest[i] == es[i + 1];
      assert WfIndexed(c, kind, rest, depth);
      IndexedToWf(c, kind, rest, depth);
    }
  }

  /** An object is well-formed when its members, taken one by one, are. */
  ghost predicate WfObject(c: Codec, t: Cst, depth: nat) {
    && IsObject(t) && depth <= MAX_DEPTH
    && WfIndexed(c, '{', t.entries, depth + 1)
    && ClosedTrivia(t.tail)
    && (t.entries != [] && !t.entries[|t.entries| - 1].comma ==> t.tail == "")
  }

  lemma WfObjectIff(c: Codec, t: Cst, depth: nat)
    requires IsObject(t)
    ensures Wf(c, t, depth) <==> WfObject(c, t, depth)
  {
    hide WfEntries, WfIndexed, ClosedTrivia;
    if WfEntries(c, '{', t.entries, depth + 1) {
      WfToIndexed(c, '{', t.entries, depth + 1);
    }
    if WfIndexed(c, '{', t.entries, depth + 1) {
      IndexedToWf(c, '{', t.entries, depth + 1);
    }
  }

  // Edits keep trees well-formed

  lemma SetValueWf(c: Codec, t: Cst, depth: nat, i: nat, v: Cst)
    requires Wf(c, t, depth) && IsObject(t) && i < |t.entries| && Wf(c, v, depth + 1)
    ensures Wf(c, SetValue(t, i, v), depth)
    ensures IsObject(SetValue(t, i, v))
    ensures forall j :: 0 <= j < |t.entries| ==> KeyOf(c, '{', SetValue(t, i, v).entries[j]) == KeyOf(c, '{', t.entries[j])
  {
    hide Wf, ClosedTrivia, WfLabel;
    WfObjectIff(c, t, depth);
    var e := t.entries[i].(value := v);
    assert WfEntry(c, '{', e, depth + 1) by {
      SameLabel(c, t.entries[i], v);
    }
    assert KeyOf(c, '{', e) == KeyOf(c, '{', t.entries[i]) by {
      SameLabel(c, t.entries[i], v);
    }
    hide WfEntry, KeyOf;
    WfObjectIff(c, SetValue(t, i, v), depth);
  }

  lemma SameLabel(c: Codec, e: Entry, v: Cst)
    ensures KeyOf(c, '{', e.(value := v)) == KeyOf(c, '{', e)
    ensures WfLabel(c, '{', e.(value := v)) == WfLabel(c, '{', e)
  {}

  lemma DropWf(c: Codec, t: Cst, depth: nat, i: nat)
    requires Wf(c, t, depth) && IsObject(t) && i < |t.entries|
    ensures Wf(c, Drop(t, i), depth) && IsObject(Drop(t, i))
  {
    hide Wf, ClosedTrivia, WfEntry, KeyOf;
    WfObjectIff(c, t, depth);
    var es, e := t.entries, t.entries[i];
    var t' := Drop(t, i);
    WfObjectIff(c, t', depth);
    EntryTrivia(c, e, depth + 1);
    Blanks();
    ClosedTriviaConcat(e.pre, e.post);
    var gap := e.pre + e.post;
    if e.comma {
      if i + 1 < |es| {
        Widen(c, es[i + 1], depth + 1, gap, "");
        assert es[i + 1].post + "" == es[i + 1].post;
        assert es[i + 1].(pre := gap + es[i + 1].pre, post := es[i + 1].post) == es[i + 1].(pre := gap + es[i + 1].pre);
        ShiftIndexed(c, es, depth + 1, i, es[i + 1].(pre := gap + es[i + 1].pre));
      } else {
        ClosedTriviaConcat(gap, t.tail);
      }
    } else if i > 0 {
      assert es[i - 1].comma && i == |es| - 1;
      Widen(c, es[i - 1], depth + 1, "", gap);
      assert "" + es[i - 1].pre == es[i - 1].pre;
      var p := es[i - 1].(post := es[i - 1].post + gap);
      assert es[i - 1].(pre := es[i - 1].pre, post := es[i - 1].post + gap) == p;
      SetCommaWf(c, p, depth + 1, false);
      assert t'.entries == es[..i - 1] + [p.(comma := false)];
    } else {
      assert t'.entries == [];
      ClosedTriviaConcat(gap, t.tail);
    }
  }

  lemma ShiftIndexed(c: Codec, es: seq<Entry>, depth: nat, i: nat, e: Entry)
    requires WfIndexed(c, '{', es, depth) && i + 1 < |es|
    requires WfEntry(c, '{', e, depth) && KeyOf(c, '{', e) == KeyOf(c, '{', es[i + 1]) && e.comma == es[i + 1].comma
    ensures WfIndexed(c, '{', es[..i] + [e] + es[i + 2..], depth)
  {
    hide WfEntry, KeyOf;
    var es' := es[..i] + [e] + es[i + 2..];
    assert forall j :: 0 <= j < i ==> es'[j] == es[j];
    assert es'[i] == e;
    assert forall j :: i < j < |es'| ==> es'[j] == es[j + 1];
  }

  lemma EntryTrivia(c: Codec, e: Entry, depth: nat)
    requires WfEntry(c, '{', e, depth)
    ensures ClosedTrivia(e.pre) && ClosedTrivia(e.post)
  {}

  lemma Widen(c: Codec, e: Entry, depth: nat, gap: string, gap': string)
    requires WfEntry(c, '{', e, depth) && ClosedTrivia(gap) && ClosedTrivia(gap')
    ensures var e' := e.(pre := gap + e.pre, post := e.post + gap');
            WfEntry(c, '{', e', depth) && KeyOf(c, '{', e') == KeyOf(c, '{', e)
  {
    hide ClosedTrivia, Wf, WfStr;
    ClosedTriviaConcat(gap, e.pre);
    ClosedTriviaConcat(e.post, gap');
  }

  lemma SetCommaWf(c: Codec, e: Entry, depth: nat, comma: bool)
    requires WfEntry(c, '{', e, depth)
    ensures WfEntry(c, '{', e.(comma := comma), depth) && KeyOf(c, '{', e.(comma := comma)) == KeyOf(c, '{', e)
  {}

  lemma Blanks()
    ensures ClosedTrivia("") && ClosedTrivia(" ") && ClosedTrivia("\n") && ClosedTrivia("\n  ")
  {
    assert " "[1..] == "" && "\n"[1..] == "";
    assert "\n  "[1..] == "  " && "  "[1..] == " ";
  }

  /** A member written with the encoding of a key has that key. */
  lemma QuotedKey(c: Codec, keys: seq<string>, e: Entry)
    requires keys != [] && forall k <- keys :: Quotable(c, k)
    requires e.keyToken == c.quote(keys[0])
    ensures WfStr(c, e.keyToken) && KeyOf(c, '{', e) == keys[0]
    ensures forall k <- keys[1..] :: Quotable(c, k)
  {
    hide IsStringToken;
    assert keys[0] in keys;
  }

  lemma {:induction false} WrapWf(c: Codec, keys: seq<string>, r: Cst, depth: nat)
    requires forall k <- keys :: Quotable(c, k)
    requires Wf(c, r, depth + |keys|) && depth + |keys| <= MAX_DEPTH
    ensures Wf(c, Wrap(c, keys, r), depth)
    decreases |keys|
  {
    hide Wf, ClosedTrivia, IsStringToken;
    if keys != [] {
      Blanks();
      var t := Wrap(c, keys, r);
      QuotedKey(c, keys, t.entries[0]);
      WrapWf(c, keys[1..], r, depth + 1);
      WfObjectIff(c, t, depth);
    }
  }

  lemma NewEntryWf(c: Codec, keys: seq<string>, r: Cst, post: string, depth: nat)
    requires keys != [] && forall k <- keys :: Quotable(c, k)
    requires Wf(c, r, depth + |keys| - 1) && depth + |keys| - 1 <= MAX_DEPTH
    requires ClosedTrivia(post)
    ensures WfEntry(c, '{', NewEntry(c, keys, r, post), depth)
    ensures KeyOf(c, '{', NewEntry(c, keys, r, post)) == keys[0]
  {
    hide Wf, ClosedTrivia, IsStringToken, Wrap;
    Blanks();
    ClosedTriviaConcat("\n", post);
    QuotedKey(c, keys, NewEntry(c, keys, r, post));
    WrapWf(c, keys[1..], r, depth);
  }

  lemma AppendWf(c: Codec, t: Cst, keys: seq<string>, r: Cst, depth: nat)
    requires Wf(c, t, depth) && IsObject(t)
    requires keys != [] && forall k <- keys :: Quotable(c, k)
    requires Wf(c, r, depth + |keys|) && depth + |keys| <= MAX_DEPTH
    requires FindEntry(c, t.entries, keys[0]) == None
    ensures Wf(c, Append(c, t, keys, r), depth)
  {
    hide Wf, ClosedTrivia, WfEntry, KeyOf, NewEntry;
    WfObjectIff(c, t, depth);
    var es := t.entries;
    var t' := Append(c, t, keys, r);
    WfObjectIff(c, t', depth);
    Blanks();
    if es == [] || es[|es| - 1].comma {
      NewEntryWf(c, keys, r, t.tail, depth + 1);
    } else {
      var last := es[|es| - 1];
      EntryTrivia(c, last, depth + 1);
      NewEntryWf(c, keys, r, last.post, depth + 1);
      ClosePostWf(c, last, depth + 1);
    }
  }

  lemma ClosePostWf(c: Codec, e: Entry, depth: nat)
    requires WfEntry(c, '{', e, depth)
    ensures WfEntry(c, '{', e.(post := "", comma := true), depth)
    ensures KeyOf(c, '{', e.(post := "", comma := true)) == KeyOf(c, '{', e)
  {}

  /** Setting a value at a path keeps the tree well-formed. */
  lemma {:induction false} PutWf(c: Codec, t: Cst, keys: seq<string>, r: Cst, depth: nat)
    requires Wf(c, t, depth) && Put(c, t, keys, r).Some?
    requires forall k <- keys :: Quotable(c, k)
    requires Wf(c, r, depth + |keys|) && depth + |keys| <= MAX_DEPTH
    ensures Wf(c, Put(c, t, keys, r).value, depth) && IsObject(Put(c, t, keys, r).value)
    decreases |keys|
  {
    hide Wf, SetValue, KeyOf;
    match FindEntry(c, t.entries, keys[0])
    case None => AppendWf(c, t, keys, r, depth);
    case Some(i) =>
      ValueWf(c, t, depth, i);
      if |keys| == 1 {
        SetValueWf(c, t, depth, i, r);
      } else {
        PutWf(c, t.entries[i].value, keys[1..], r, depth + 1);
        SetValueWf(c, t, depth, i, Put(c, t.entries[i].value, keys[1..], r).value);
      }
  }

  lemma ValueWf(c: Codec, t: Cst, depth: nat, i: nat)
    requires Wf(c, t, depth) && IsObject(t) && i < |t.entries|
    ensures WfEntry(c, '{', t.entries[i], depth + 1) && Wf(c, t.entries[i].value, depth + 1)
  {
    hide Wf, ClosedTrivia, KeyOf;
    WfObjectIff(c, t, depth);
  }

  /** Deleting a path keeps the tree well-formed. */
  lemma {:induction false} RemoveWf(c: Codec, t: Cst, keys: seq<string>, depth: nat)
    requires Wf(c, t, depth) && Remove(c, t, keys).Some?
    ensures Wf(c, Remove(c, t, keys).value, depth) && IsObject(Remove(c, t, keys).value)
    decreases |keys|
  {
    hide Wf, SetValue, KeyOf, Drop;
    match FindEntry(c, t.entries, keys[0])
    case None =>
    case Some(i) =>
      if |keys| == 1 {
        DropWf(c, t, depth, i);
      } else {
        ValueWf(c, t, depth, i);
        RemoveWf(c, t.entries[i].value, keys[1..], depth + 1);
        SetValueWf(c, t, depth, i, Remove(c, t.entries[i].value, keys[1..]).value);
      }
  }

  // What an edit does to every path

  /** When keys are distinct, any member with the key is the one found. */
  lemma FindAt(c: Codec, es: seq<Entry>, i: nat, key: string)
    requires i < |es| && KeyOf(c, '{', es[i]) == key
    requires forall j :: 0 <= j < |es| && j != i ==> KeyOf(c, '{', es[j]) != key
    ensures FindEntry(c, es, key) == Some(i)
  {
    hide KeyOf;
  }

  lemma FindSetValue(c: Codec, t: Cst, i: nat, v: Cst, key: string)
    requires IsObject(t) && i < |t.entries|
    ensures IsObject(SetValue(t, i, v)) && FindEntry(c, SetValue(t, i, v).entries, key) == FindEntry(c, t.entries, key)
  {
    SameLabel(c, t.entries[i], v);
    hide KeyOf;
    var es' := SetValue(t, i, v).entries;
    assert forall j :: 0 <= j < |es'| ==> KeyOf(c, '{', es'[j]) == KeyOf(c, '{', t.entries[j]);
  }

  lemma LookupSetValue(c: Codec, t: Cst, i: nat, v: Cst, q: seq<string>)
    requires IsObject(t) && i < |t.entries| && q != []
    ensures FindEntry(c, t.entries, q[0]) == Some(i) ==> Lookup(c, SetValue(t, i, v), q) == Lookup(c, v, q[1..])
    ensures FindEntry(c, t.entries, q[0]) != Some(i) ==> Lookup(c, SetValue(t, i, v), q) == Lookup(c, t, q)
  {
    hide KeyOf, FindEntry;
    FindSetValue(c, t, i, v, q[0]);
  }

  lemma {:induction false} LookupWrap(c: Codec, keys: seq<string>, r: Cst, q: seq<string>)
    requires forall k <- keys :: Quotable(c, k)
    ensures q == keys ==> Lookup(c, Wrap(c, keys, r), q) == Some(r)
    ensures Unrelated(keys, q) ==> Lookup(c, Wrap(c, keys, r), q) == None
    decreases |keys|
  {
    if keys != [] && q != [] {
      var e := Entry("", c.quote(keys[0]), "", " ", Wrap(c, keys[1..], r), "", false);
      QuotedKey(c, keys, e);
      hide KeyOf, IsStringToken;
      if q[0] == keys[0] {
        FindAt(c, [e], 0, keys[0]);
        LookupWrap(c, keys[1..], r, q[1..]);
        UnrelatedTail(keys, q);
      }
    }
  }

  lemma UnrelatedTail(p: seq<string>, q: seq<string>)
    requires p != [] && q != [] && p[0] == q[0]
    ensures Unrelated(p, q) <==> Unrelated(p[1..], q[1..])
    ensures p == q <==> p[1..] == q[1..]
  {
    assert p == [p[0]] + p[1..] && q == [q[0]] + q[1..];
  }

  lemma LookupAppend(c: Codec, t: Cst, keys: seq<string>, r: Cst, q: seq<string>)
    requires IsObject(t) && keys != [] && q != []
    requires forall k <- keys :: Quotable(c, k)
    requires FindEntry(c, t.entries, keys[0]) == None
    ensures q == keys ==> Lookup(c, Append(c, t, keys, r), q) == Some(r)
    ensures Unrelated(keys, q) ==> Lookup(c, Append(c, t, keys, r), q) == Lookup(c, t, q)
  {
    var es := t.entries;
    var t' := Append(c, t, keys, r);
    var es' := t'.entries;
    var n := |es|;
    assert |es'| == n + 1;
    assert es'[n].value == Wrap(c, keys[1..], r);
    QuotedKey(c, keys, es'[n]);
    assert n > 0 ==> KeyOf(c, '{', es'[n - 1]) == KeyOf(c, '{', es[n - 1]);
    hide KeyOf, IsStringToken;
    assert forall j :: 0 <= j < n - 1 ==> es'[j] == es[j];
    assert forall j :: 0 <= j < n ==> KeyOf(c, '{', es'[j]) == KeyOf(c, '{', es[j]) && es'[j].value == es[j].value;
    if q[0] == keys[0] {
      FindAt(c, es', n, keys[0]);
      LookupWrap(c, keys[1..], r, q[1..]);
      UnrelatedTail(keys, q);
    } else {
      FindSameKeys(c, es, es', q[0]);
    }
  }

  lemma FindSameKeys(c: Codec, es: seq<Entry>, es': seq<Entry>, key: string)
    requires |es'| == |es| + 1 && KeyOf(c, '{', es'[|es|]) != key
    requires forall j :: 0 <= j < |es| ==> KeyOf(c, '{', es'[j]) == KeyOf(c, '{', es[j])
    ensures FindEntry(c, es', key) == FindEntry(c, es, key)
  {
    hide KeyOf;
  }

  /** After setting a path it leads to the new value; unrelated paths lead where they led. */
  lemma {:induction false} PutLookup(c: Codec, t: Cst, keys: seq<string>, r: Cst, q: seq<string>)
    requires Put(c, t, keys, r).Some?
    requires forall k <- keys :: Quotable(c, k)
    ensures q == keys ==> Lookup(c, Put(c, t, keys, r).value, q) == Some(r)
    ensures Unrelated(keys, q) ==> Lookup(c, Put(c, t, keys, r).value, q) == Lookup(c, t, q)
    decreases |keys|
  {
    hide KeyOf, IsStringToken, SetValue, Append;
    if q != [] {
      match FindEntry(c, t.entries, keys[0])
      case None => LookupAppend(c, t, keys, r, q);
      case Some(i) =>
        var old_ := t.entries[i].value;
        var v := if |keys| == 1 then r else Put(c, old_, keys[1..], r).value;
        LookupSetValue(c, t, i, v, q);
        if q[0] == keys[0] {
          UnrelatedTail(keys, q);
          if |keys| > 1 {
            PutLookup(c, old_, keys[1..], r, q[1..]);
          }
        } else {
          FindOther(c, t.entries, keys[0], q[0]);
        }
    }
  }

  lemma FindOther(c: Codec, es: seq<Entry>, p: string, q: string)
    requires p != q && FindEntry(c, es, p).Some?
    ensures FindEntry(c, es, q) != FindEntry(c, es, p)
  {}

  /** Setting the same value twice is setting it once. */
  lemma {:induction false} PutTwice(c: Codec, t: Cst, keys: seq<string>, r: Cst)
    requires Put(c, t, keys, r).Some?
    requires forall k <- keys :: Quotable(c, k)
    ensures Put(c, Put(c, t, keys, r).value, keys, r) == Put(c, t, keys, r)
    decreases |keys|
  {
    hide KeyOf, IsStringToken;
    match FindEntry(c, t.entries, keys[0])
    case None => PutAppended(c, t, keys, r);
    case Some(i) =>
      var v := if |keys| == 1 then r else Put(c, t.entries[i].value, keys[1..], r).value;
      FindSetValue(c, t, i, v, keys[0]);
      if |keys| > 1 {
        PutTwice(c, t.entries[i].value, keys[1..], r);
      }
      var t' := SetValue(t, i, v);
      assert SetValue(t', i, v) == t' by {
        assert t'.entries[i := t'.entries[i].(value := v)] == t'.entries;
      }
  }

  lemma PutAppended(c: Codec, t: Cst, keys: seq<string>, r: Cst)
    requires IsObject(t) && keys != [] && FindEntry(c, t.entries, keys[0]) == None
    requires forall k <- keys :: Quotable(c, k)
    ensures Put(c, Append(c, t, keys, r), keys, r) == Some(Append(c, t, keys, r))
  {
    var es := t.entries;
    var t' := Append(c, t, keys, r);
    var es' := t'.entries;
    var n := |es|;
    QuotedKey(c, keys, es'[n]);
    assert n > 0 ==> KeyOf(c, '{', es'[n - 1]) == KeyOf(c, '{', es[n - 1]);
    hide KeyOf, IsStringToken;
    assert forall j :: 0 <= j < n - 1 ==> es'[j] == es[j];
    assert forall j :: 0 <= j < n ==> KeyOf(c, '{', es'[j]) == KeyOf(c, '{', es[j]);
    FindAt(c, es', n, keys[0]);
    var w := Wrap(c, keys[1..], r);
    assert es'[n].value == w;
    PutWrapped(c, keys[1..], r);
    assert SetValue(t', n, w) == t' by {
      assert es'[n := es'[n].(value := w)] == es';
    }
  }

  lemma {:induction false} PutWrapped(c: Codec, keys: seq<string>, r: Cst)
    requires forall k <- keys :: Quotable(c, k)
    ensures keys != [] ==> Put(c, Wrap(c, keys, r), keys, r) == Some(Wrap(c, keys, r))
    decreases |keys|
  {
    if keys != [] {
      var t := Wrap(c, keys, r);
      var e := t.entries[0];
      QuotedKey(c, keys, e);
      hide KeyOf, IsStringToken;
      FindAt(c, [e], 0, keys[0]);
      PutWrapped(c, keys[1..], r);
      assert SetValue(t, 0, e.value) == t;
    }
  }

  /** The members that stay keep their keys and values. */
  lemma DropKeeps(c: Codec, t: Cst, i: nat)
    requires IsObject(t) && i < |t.entries|
    ensures IsObject(Drop(t, i))
    ensures var es, es' := t.entries, Drop(t, i).entries;
            |es'| == |es| - 1 && forall j :: 0 <= j < |es'| ==> SameMember(c, es'[j], es[if j < i then j else j + 1])
  {}

  predicate SameMember(c: Codec, e: Entry, e': Entry) {
    KeyOf(c, '{', e) == KeyOf(c, '{', e') && e.value == e'.value
  }

  lemma FindDropped(c: Codec, es: seq<Entry>, es': seq<Entry>, i: nat, key: string)
    requires i < |es| && |es'| == |es| - 1
    requires forall j, k :: 0 <= j < k < |es| ==> KeyOf(c, '{', es[j]) != KeyOf(c, '{', es[k])
    requires forall j :: 0 <= j < |es'| ==> SameMember(c, es'[j], es[if j < i then j else j + 1])
    ensures key == KeyOf(c, '{', es[i]) ==> FindEntry(c, es', key) == None
    ensures key != KeyOf(c, '{', es[i]) ==>
      match FindEntry(c, es, key)
      case None => FindEntry(c, es', key) == None
      case Some(k) => FindEntry(c, es', key) == Some(if k < i then k else k - 1)
  {
    hide KeyOf;
    match FindEntry(c, es, key)
    case None =>
    case Some(k) =>
      if k != i {
        var j := if k < i then k else k - 1;
        assert SameMember(c, es'[j], es[k]);
        forall m | 0 <= m < |es'| && m != j
          ensures KeyOf(c, '{', es'[m]) != key
        {
          assert SameMember(c, es'[m], es[if m < i then m else m + 1]);
        }
        FindAt(c, es', j, key);
      }
  }

  /** Distinct keys after a member is dropped: its key is gone, the others stay. */
  lemma LookupDrop(c: Codec, t: Cst, depth: nat, i: nat, q: seq<string>)
    requires Wf(c, t, depth) && IsObject(t) && i < |t.entries| && q != []
    ensures IsObject(Drop(t, i))
    ensures q[0] == KeyOf(c, '{', t.entries[i]) ==> FindEntry(c, Drop(t, i).entries, q[0]) == None
    ensures q[0] != KeyOf(c, '{', t.entries[i]) ==> Lookup(c, Drop(t, i), q) == Lookup(c, t, q)
  {
    hide Wf, ClosedTrivia, WfEntry, Drop, FindEntry, KeyOf;
    WfObjectIff(c, t, depth);
    DropKeeps(c, t, i);
    var es, es' := t.entries, Drop(t, i).entries;
    FindDropped(c, es, es', i, q[0]);
    match FindEntry(c, es, q[0])
    case None =>
    case Some(k) =>
      if k != i && q[0] != KeyOf(c, '{', es[i]) {
        var j := if k < i then k else k - 1;
        assert SameMember(c, es'[j], es[if j < i then j else j + 1]);
      }
  }

  /** After deleting a path it leads nowhere; unrelated paths lead where they led. */
  lemma {:induction false} RemoveLookup(c: Codec, t: Cst, keys: seq<string>, depth: nat, q: seq<string>)
    requires Wf(c, t, depth) && Remove(c, t, keys).Some?
    ensures Lookup(c, Remove(c, t, keys).value, keys) == None
    ensures Unrelated(keys, q) ==> Lookup(c, Remove(c, t, keys).value, q) == Lookup(c, t, q)
    decreases |keys|
  {
    hide Wf, KeyOf, SetValue, Drop;
    match FindEntry(c, t.entries, keys[0])
    case None =>
    case Some(i) =>
      if |keys| == 1 {
        LookupDrop(c, t, depth, i, keys);
        if q != [] {
          LookupDrop(c, t, depth, i, q);
        }
      } else {
        var old_ := t.entries[i].value;
        ValueWf(c, t, depth, i);
        var v := Remove(c, old_, keys[1..]).value;
        LookupSetValue(c, t, i, v, keys);
        RemoveLookup(c, old_, keys[1..], depth + 1, if q == [] then q else q[1..]);
        if q != [] {
          LookupSetValue(c, t, i, v, q);
          if q[0] == keys[0] {
            UnrelatedTail(keys, q);
          } else {
            FindOther(c, t.entries, keys[0], q[0]);
          }
        }
      }
  }

  /** Deleting twice is deleting once. */
  lemma {:induction false} RemoveTwice(c: Codec, t: Cst, keys: seq<string>, depth: nat)
    requires Wf(c, t, depth) && Remove(c, t, keys).Some?
    ensures Remove(c, Remove(c, t, keys).value, keys) == Remove(c, t, keys)
    decreases |keys|
  {
    hide Wf, KeyOf, Drop;
    match FindEntry(c, t.entries, keys[0])
    case None =>
    case Some(i) =>
      if |keys| == 1 {
        LookupDrop(c, t, depth, i, keys);
      } else {
        ValueWf(c, t, depth, i);
        var v := Remove(c, t.entries[i].value, keys[1..]).value;
        RemoveTwice(c, t.entries[i].value, keys[1..], depth + 1);
        FindSetValue(c, t, i, v, keys[0]);
        var t' := SetValue(t, i, v);
        assert SetValue(t', i, v) == t' by {
          assert t'.entries[i := t'.entries[i].(value := v)] == t'.entries;
        }
      }
  }

  /** Every proper prefix of the path leads to an object or nowhere. */
  ghost predicate ObjectPath(c: Codec, t: Cst, keys: seq<string>) {
    keys != [] && forall n :: 0 <= n < |keys| ==>
      Lookup(c, t, keys[..n]).None? || IsObject(Lookup(c, t, keys[..n]).value)
  }

  /** Edits are refused exactly when some proper prefix leads to something that is not an object. */
  lemma {:induction false} EditsNeedObjectPath(c: Codec, t: Cst, keys: seq<string>, r: Cst)
    ensures Put(c, t, keys, r).Some? <==> ObjectPath(c, t, keys)
    ensures Remove(c, t, keys).Some? <==> ObjectPath(c, t, keys)
    decreases |keys|
  {
    hide KeyOf, SetValue, Append, Drop;
    if keys != [] {
      assert keys[..0] == [];
      assert Lookup(c, t, keys[..0]) == Some(t);
      if IsObject(t) {
        forall n | 0 < n < |keys|
          ensures Lookup(c, t, keys[..n]) ==
            match FindEntry(c, t.entries, keys[0])
            case None => None
            case Some(i) => Lookup(c, t.entries[i].value, keys[1..][..n - 1])
        {
          assert keys[..n][0] == keys[0] && keys[..n][1..] == keys[1..][..n - 1];
        }
        match FindEntry(c, t.entries, keys[0])
        case None =>
        case Some(i) =>
          var v := t.entries[i].value;
          if |keys| > 1 {
            EditsNeedObjectPath(c, v, keys[1..], r);
            if ObjectPath(c, t, keys) {
              forall n | 0 <= n < |keys[1..]|
                ensures Lookup(c, v, keys[1..][..n]).None? || IsObject(Lookup(c, v, keys[1..][..n]).value)
              {
                assert Lookup(c, t, keys[..n + 1]) == Lookup(c, v, keys[1..][..n + 1 - 1]);
              }
            }
          }
      }
    }
  }
}
