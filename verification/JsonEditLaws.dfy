/**
 * What installJSONEdit promises, stated on texts alone: the edited text parses
 * again, the path reads back as asked, every unrelated path keeps its bytes, a
 * second identical edit changes nothing, and a deletion takes away the member
 * and at most one comma.
 */
module JsonEditLaws {
  import opened Options
  import opened JsonText
  import opened JsonTree
  import opened JsonGrammar
  import opened JsonParser
  import opened JsonTreeEdit
  import opened JsonEdit

  /** The text is one JSON value, with nothing around it, that may stand at this depth. */
  predicate IsValueText(c: Codec, text: string, depth: nat) {
    depth <= MAX_DEPTH && ReadValue(c, text, depth).Some? && ReadValue(c, text, depth).value.size == |text|
  }

  /** Every proper prefix of the path is absent from the text or leads to an object. */
  ghost predicate TextObjectPath(c: Codec, raw: string, keys: seq<string>) {
    keys != [] && forall n :: 0 <= n < |keys| ==>
      match LookupText(c, raw, keys[..n])
      case None => true
      case Some(v) => v != "" && v[0] == '{'
  }

  // Reading a path in a text is reading it in the tree

  /** The span covers exactly this text. */
  predicate Reads(raw: string, m: JsonNode, text: string) {
    m.start <= m.end <= |raw| && raw[m.start..m.end] == text
  }

  lemma {:induction false} LookupSpans(c: Codec, t: Cst, depth: nat, keys: seq<string>, raw: string, a: string, b: string)
    requires Wf(c, t, depth) && raw == a + Print(t) + b
    ensures match Lookup(c, t, keys)
            case None => InstallJSONLookup(Spans(c, t, |a|), keys) == None
            case Some(v) =>
              && InstallJSONLookup(Spans(c, t, |a|), keys).Some?
              && Reads(raw, InstallJSONLookup(Spans(c, t, |a|), keys).value, Print(v))
    decreases |keys|
  {
    hide Print, Spans, SpanEntries, Wf, FindEntry, Find, Before, After, Lookup, InstallJSONLookup, Reads, SetValue, KeyOf;
    var n := Spans(c, t, |a|);
    KindIsObject(c, t, depth, |a|);
    LookupUnfolds(c, t, n, keys);
    if keys == [] {
      ReadsSelf(n, a, Print(t), b);
    } else if IsObject(t) {
      FindSame(c, t.entries, |a| + 1, keys[0]);
      match FindEntry(c, t.entries, keys[0])
      case None =>
      case Some(i) =>
        var v := t.entries[i].value;
        Descend(c, t, depth, i, raw, a, b);
        LookupSpans(c, v, depth + 1, keys[1..], raw, a + Before(t.entries, i), After(t.entries, t.tail, i) + b);
    }
  }

  lemma Descend(c: Codec, t: Cst, depth: nat, i: nat, raw: string, a: string, b: string)
    requires Wf(c, t, depth) && IsObject(t) && i < |t.entries| && raw == a + Print(t) + b
    ensures var v := t.entries[i].value;
            var a', b' := a + Before(t.entries, i), After(t.entries, t.tail, i) + b;
            && Wf(c, v, depth + 1) && raw == a' + Print(v) + b'
            && |Spans(c, t, |a|).members| == |t.entries|
            && Spans(c, t, |a|).members[i].value == Spans(c, v, |a'|)
  {
    hide Print, Spans, SpanEntries, Wf, Before, After, SetValue;
    KindIsObject(c, t, depth, |a|);
    ValueWf(c, t, depth, i);
    MemberSpans(c, t, depth, |a|, i);
    TextAround(t, i, t.entries[i].value, a, b);
  }

  lemma ReadsSelf(m: JsonNode, a: string, text: string, b: string)
    requires m.start == |a| && m.end == |a| + |text|
    ensures Reads(a + text + b, m, text)
  {
    Slices(a, text, b);
  }

  /** One step of a lookup, in the tree and in the spans. */
  lemma LookupUnfolds(c: Codec, t: Cst, n: JsonNode, keys: seq<string>)
    ensures Lookup(c, t, keys) ==
      if keys == [] then Some(t)
      else if !IsObject(t) then None
      else match FindEntry(c, t.entries, keys[0])
        case None => None
        case Some(i) => Lookup(c, t.entries[i].value, keys[1..])
    ensures InstallJSONLookup(n, keys) ==
      if keys == [] then Some(n)
      else if n.kind != '{' then None
      else match Find(n.members, keys[0])
        case None => None
        case Some(i) => InstallJSONLookup(n.members[i].value, keys[1..])
  {}

  /** The text in front of the root object. */
  function Lead(d: Doc): string {
    (if d.bom then BOM else "") + d.lead
  }

  lemma DocPieces(c: Codec, raw: string)
    requires ParseSpans(c, raw).Some?
    ensures ReadDoc(c, raw).Some?
    ensures var d := ReadDoc(c, raw).value;
            && WfDoc(c, d) && IsObject(d.root) && raw == Lead(d) + Print(d.root) + d.tail
            && ParseSpans(c, raw) == Some(Spans(c, d.root, |Lead(d)|))
  {
    hide ReadDoc, Print, Spans, Wf, Trivia, ClosedTrivia;
    DocSound(c, raw);
  }

  lemma LookupIsTree(c: Codec, raw: string, keys: seq<string>)
    requires ParseSpans(c, raw).Some?
    ensures ReadDoc(c, raw).Some? && LookupText(c, raw, keys) == Text(Lookup(c, ReadDoc(c, raw).value.root, keys))
  {
    hide ReadDoc, Print, Spans, Wf, Trivia, ClosedTrivia, Lookup, InstallJSONLookup, Lead, ParseSpans;
    DocPieces(c, raw);
    var d := ReadDoc(c, raw).value;
    LookupSpans(c, d.root, 0, keys, raw, Lead(d), d.tail);
  }

  lemma EditIsTree(c: Codec, raw: string, keys: seq<string>, r: Option<Cst>)
    requires ParseSpans(c, raw).Some?
    ensures ReadDoc(c, raw).Some?
    ensures var d := ReadDoc(c, raw).value;
            Edit(c, raw, keys, Text(r)) ==
              match TreeEdit(c, d.root, keys, r)
              case None => None
              case Some(t) => Some(PrintDoc(d.(root := t)))
  {
    hide ReadDoc, Print, Spans, Wf, Trivia, ClosedTrivia, TreeEdit, EditNode, ParseSpans, Nested;
    DocPieces(c, raw);
    var d := ReadDoc(c, raw).value;
    ParsedSpansNested(c, raw);
    EditSplices(c, d.root, 0, keys, r, Lead(d), d.tail);
    match TreeEdit(c, d.root, keys, r)
    case None =>
    case Some(t) => LeadText(d.(root := t));
  }

  lemma LeadText(d: Doc)
    ensures PrintDoc(d) == Lead(d) + Print(d.root) + d.tail
  {
    hide Print;
  }

  /** The document that an edited text reads as. */
  lemma EditedDoc(c: Codec, d: Doc, t: Cst)
    requires WfDoc(c, d) && Wf(c, t, 0) && IsObject(t)
    ensures ReadDoc(c, PrintDoc(d.(root := t))) == Some(d.(root := t))
    ensures ParseSpans(c, PrintDoc(d.(root := t))).Some?
  {
    hide ReadDoc, PrintDoc, Wf, Trivia, ClosedTrivia, Spans;
    DocComplete(c, d.(root := t));
  }

  lemma ObjectPathSame(c: Codec, raw: string, keys: seq<string>)
    requires ParseSpans(c, raw).Some?
    ensures ReadDoc(c, raw).Some? && (TextObjectPath(c, raw, keys) <==> ObjectPath(c, ReadDoc(c, raw).value.root, keys))
  {
    hide ReadDoc, Print, Wf, Trivia, ClosedTrivia, Lookup, LookupText, ParseSpans;
    DocPieces(c, raw);
    var d := ReadDoc(c, raw).value;
    forall n | 0 <= n < |keys|
      ensures (match LookupText(c, raw, keys[..n]) case None => true case Some(v) => v != "" && v[0] == '{')
          <==> (Lookup(c, d.root, keys[..n]).None? || IsObject(Lookup(c, d.root, keys[..n]).value))
    {
      LookupIsTree(c, raw, keys[..n]);
      LookupWf(c, d.root, 0, keys[..n]);
    }
  }

  lemma {:induction false} LookupWf(c: Codec, t: Cst, depth: nat, keys: seq<string>)
    requires Wf(c, t, depth)
    ensures match Lookup(c, t, keys)
            case None => true
            case Some(v) => Print(v) != "" && (Print(v)[0] == '{' <==> IsObject(v))
    decreases |keys|
  {
    hide Wf, Print, FindEntry;
    if keys == [] {
      KindOfContainer(c, t, depth);
    } else if IsObject(t) {
      match FindEntry(c, t.entries, keys[0])
      case None =>
      case Some(i) =>
        ValueWf(c, t, depth, i);
        LookupWf(c, t.entries[i].value, depth + 1, keys[1..]);
    }
  }

  /**
   * Setting a path. The edit is refused exactly when a proper prefix of the path
   * leads to something other than an object. Otherwise the new text parses, the
   * path leads to exactly the given bytes, every unrelated path leads to exactly
   * the bytes it led to before, and setting it again changes nothing.
   */
  lemma SetLaw(c: Codec, raw: string, keys: seq<string>, text: string)
    requires ParseSpans(c, raw).Some?
    requires forall k <- keys :: Quotable(c, k)
    requires IsValueText(c, text, |keys|)
    ensures Edit(c, raw, keys, Some(text)).Some? <==> TextObjectPath(c, raw, keys)
    ensures match Edit(c, raw, keys, Some(text))
            case None => true
            case Some(out) =>
              && ParseSpans(c, out).Some?
              && LookupText(c, out, keys) == Some(text)
              && (forall q | Unrelated(keys, q) :: LookupText(c, out, q) == LookupText(c, raw, q))
              && Edit(c, out, keys, Some(text)) == Some(out)
  {
    hide ReadDoc, ReadValue, Print, PrintDoc, Wf, Trivia, ClosedTrivia, Lookup, LookupText, ParseSpans, Put, Edit, ObjectPath,
         TextObjectPath, Quotable, Unrelated;
    ReadValueSound(c, text, |keys|);
    var r := ReadValue(c, text, |keys|).value.tree;
    assert text[..|text|] == text;
    DocPieces(c, raw);
    var d := ReadDoc(c, raw).value;
    EditIsTree(c, raw, keys, Some(r));
    ObjectPathSame(c, raw, keys);
    EditsNeedObjectPath(c, d.root, keys, r);
    match Put(c, d.root, keys, r)
    case None =>
    case Some(t) =>
      PutWf(c, d.root, keys, r, 0);
      EditedDoc(c, d, t);
      var out := PrintDoc(d.(root := t));
      LookupIsTree(c, out, keys);
      PutLookup(c, d.root, keys, r, keys);
      forall q | Unrelated(keys, q)
        ensures LookupText(c, out, q) == LookupText(c, raw, q)
      {
        LookupIsTree(c, out, q);
        LookupIsTree(c, raw, q);
        PutLookup(c, d.root, keys, r, q);
      }
      EditIsTree(c, out, keys, Some(r));
      PutTwice(c, d.root, keys, r);
  }

  /**
   * Deleting a path. It is refused exactly when setting it would be. Otherwise
   * the new text parses, the path leads nowhere, every unrelated path leads to
   * exactly the bytes it led to before, deleting again changes nothing, and a
   * path that led nowhere leaves the text alone.
   */
  lemma DeleteLaw(c: Codec, raw: string, keys: seq<string>)
    requires ParseSpans(c, raw).Some?
    ensures Edit(c, raw, keys, None).Some? <==> TextObjectPath(c, raw, keys)
    ensures match Edit(c, raw, keys, None)
            case None => true
            case Some(out) =>
              && ParseSpans(c, out).Some?
              && LookupText(c, out, keys) == None
              && (forall q | Unrelated(keys, q) :: LookupText(c, out, q) == LookupText(c, raw, q))
              && Edit(c, out, keys, None) == Some(out)
              && (LookupText(c, raw, keys) == None ==> out == raw)
  {
    hide ReadDoc, Print, PrintDoc, Wf, Trivia, ClosedTrivia, Lookup, LookupText, ParseSpans, Remove, Edit, ObjectPath,
         TextObjectPath, Unrelated;
    DocPieces(c, raw);
    var d := ReadDoc(c, raw).value;
    EditIsTree(c, raw, keys, None);
    ObjectPathSame(c, raw, keys);
    EditsNeedObjectPath(c, d.root, keys, d.root);
    match Remove(c, d.root, keys)
    case None =>
    case Some(t) =>
      RemoveWf(c, d.root, keys, 0);
      EditedDoc(c, d, t);
      var out := PrintDoc(d.(root := t));
      LookupIsTree(c, out, keys);
      LookupIsTree(c, raw, keys);
      RemoveLookup(c, d.root, keys, 0, keys);
      forall q | Unrelated(keys, q)
        ensures LookupText(c, out, q) == LookupText(c, raw, q)
      {
        LookupIsTree(c, out, q);
        LookupIsTree(c, raw, q);
        RemoveLookup(c, d.root, keys, 0, q);
      }
      EditIsTree(c, out, keys, None);
      RemoveTwice(c, d.root, keys, 0);
      if Lookup(c, d.root, keys).None? {
        RemoveAbsent(c, d.root, keys);
        DocSound(c, raw);
      }
  }

  lemma {:induction false} RemoveAbsent(c: Codec, t: Cst, keys: seq<string>)
    requires Remove(c, t, keys).Some? && Lookup(c, t, keys).None?
    ensures Remove(c, t, keys) == Some(t)
    decreases |keys|
  {
    hide KeyOf, FindEntry;
    match FindEntry(c, t.entries, keys[0])
    case None =>
    case Some(i) =>
      var v := t.entries[i].value;
      if |keys| > 1 {
        RemoveAbsent(c, v, keys[1..]);
        assert t.entries[i := t.entries[i].(value := v)] == t.entries;
      }
  }

  // Which bytes a deletion takes away

  /** out is raw without the bytes from s to e and, when k is not -1, without the comma at k. */
  predicate Without(raw: string, out: string, s: nat, e: nat, k: int) {
    && s < e <= |raw|
    && if k < 0 then k == -1 && out == raw[..s] + raw[e..]
       else
         && (k < s || e <= k) && k < |raw| && raw[k] == ','
         && out == if k < s then raw[..k] + raw[k + 1..s] + raw[e..] else raw[..s] + raw[e..k] + raw[k + 1..]
  }

  ghost predicate ExactCut(raw: string, out: string, s: nat, e: nat) {
    exists k :: Without(raw, out, s, e, k)
  }

  /** The bytes of the member that holds the value a path leads to, from its key on. */
  function MemberAtPath(n: JsonNode, keys: seq<string>): Option<JsonMember>
    decreases keys
  {
    if keys == [] || n.kind != '{' then None
    else match Find(n.members, keys[0])
      case None => None
      case Some(i) => if |keys| == 1 then Some(n.members[i]) else MemberAtPath(n.members[i].value, keys[1..])
  }

  lemma OneMemberGone(c: Codec, t: Cst, depth: nat, i: nat, a: string, b: string)
    requires Wf(c, t, depth) && IsObject(t) && i < |t.entries|
    requires Nested(Spans(c, t, |a|)) && Spans(c, t, |a|).end <= |a + Print(t) + b|
    requires |Spans(c, t, |a|).members| == |t.entries|
    ensures var raw := a + Print(t) + b;
            var m := Spans(c, t, |a|).members[i];
            ExactCut(raw, DeleteMember(raw, Spans(c, t, |a|), i), m.start, m.value.end)
  {
    hide Print, Spans, PrintEntries, PrintLabel, Front, Own, Rear, Wf, Nested, Drop, DeleteMember, ExactCut;
    var e := t.entries[i];
    var n := Spans(c, t, |a|);
    var raw := a + Print(t) + b;
    MemberOffsets(c, t, depth, a, i);
    TextOfMember(t, i, a, b);
    var x, y := Front(a, t.entries, i), Rear(t, i, b);
    OwnStarts(c, t, depth, i);
    if e.comma {
      GoneWithComma(raw, n, i, x, Own(e), e.post, y);
    } else {
      WfCommas(c, t, depth, i);
      NoComma(e.post, y);
      if i > 0 {
        var p := t.entries[i - 1];
        MemberOffsets(c, t, depth, a, i - 1);
        PrintDropLast(t, i, a, b);
        var z := Front(a, t.entries, i - 1) + Own(p) + p.post;
        GoneLast(raw, n, i, z, e.pre, Own(e), e.post + y);
      } else {
        GoneOnly(raw, n, x, Own(e), e.post + y);
      }
    }
  }

  lemma OwnStarts(c: Codec, t: Cst, depth: nat, i: nat)
    requires Wf(c, t, depth) && IsObject(t) && i < |t.entries|
    ensures Own(t.entries[i]) != "" && Own(t.entries[i])[0] == '\"'
  {
    hide Wf, Print, ClosedTrivia, StringScan;
    ValueWf(c, t, depth, i);
  }

  lemma GoneWithComma(raw: string, n: JsonNode, i: nat, x: string, own: string, post: string, y: string)
    requires Nested(n) && n.end <= |raw| && i < |n.members| && own != ""
    requires raw == x + own + (post + "," + y)
    requires n.members[i].start == |x| && n.members[i].value.end == |x| + |own|
    requires n.members[i].comma == |x| + |own| + |post|
    ensures ExactCut(raw, DeleteMember(raw, n, i), |x|, |x| + |own|)
  {
    hide Nested;
    var k := |x| + |own| + |post|;
    assert raw == (x + own + post) + "," + y;
    assert raw[k] == ',';
    assert Without(raw, DeleteMember(raw, n, i), |x|, |x| + |own|, k);
  }

  lemma GoneLast(raw: string, n: JsonNode, i: nat, z: string, pre: string, own: string, y: string)
    requires Nested(n) && n.end <= |raw| && 0 < i < |n.members| && own != ""
    requires raw == z + "," + pre + own + y
    requires n.members[i].start == |z| + 1 + |pre| && n.members[i].value.end == |z| + 1 + |pre| + |own|
    requires n.members[i].comma == -1 && n.members[i - 1].comma == |z|
    ensures ExactCut(raw, DeleteMember(raw, n, i), n.members[i].start, n.members[i].value.end)
  {
    hide Nested;
    assert raw[|z|] == ',';
    assert Without(raw, DeleteMember(raw, n, i), n.members[i].start, n.members[i].value.end, |z|);
  }

  lemma GoneOnly(raw: string, n: JsonNode, x: string, own: string, y: string)
    requires Nested(n) && n.end <= |raw| && 0 < |n.members| && own != ""
    requires raw == x + own + y
    requires n.members[0].start == |x| && n.members[0].value.end == |x| + |own| && n.members[0].comma == -1
    ensures ExactCut(raw, DeleteMember(raw, n, 0), |x|, |x| + |own|)
  {
    hide Nested;
    assert Without(raw, DeleteMember(raw, n, 0), |x|, |x| + |own|, -1);
  }

  lemma {:induction false} DeletedBytes(c: Codec, t: Cst, depth: nat, keys: seq<string>, a: string, b: string)
    requires Wf(c, t, depth) && Lookup(c, t, keys).Some? && keys != []
    requires Nested(Spans(c, t, |a|)) && Spans(c, t, |a|).end <= |a + Print(t) + b|
    ensures var raw := a + Print(t) + b;
            var n := Spans(c, t, |a|);
            && EditNode(c, raw, n, keys, None).Some?
            && MemberAtPath(n, keys).Some?
            && var m := MemberAtPath(n, keys).value;
               && InstallJSONLookup(n, keys) == Some(m.value)
               && ExactCut(raw, EditNode(c, raw, n, keys, None).value, m.start, m.value.end)
    decreases |keys|
  {
    hide Print, Spans, Wf, Nested, DeleteMember, Before, After, Find, FindEntry, ExactCut;
    KindIsObject(c, t, depth, |a|);
    FindSame(c, t.entries, |a| + 1, keys[0]);
    var i := FindEntry(c, t.entries, keys[0]).value;
    var n := Spans(c, t, |a|);
    if |keys| == 1 {
      OneMemberGone(c, t, depth, i, a, b);
      assert keys[1..] == [];
    } else {
      var v := t.entries[i].value;
      var a', b' := a + Before(t.entries, i), After(t.entries, t.tail, i) + b;
      ValueWf(c, t, depth, i);
      MemberSpans(c, t, depth, |a|, i);
      NestedMember(n, i);
      SpansBounds(c, v, |a'|);
      TextAround(t, i, v, a, b);
      DeletedBytes(c, v, depth + 1, keys[1..], a', b');
    }
  }

  /** Deleting a present path removes exactly its member's bytes and at most one comma. */
  lemma DeleteRemovesMember(c: Codec, raw: string, keys: seq<string>)
    requires ParseSpans(c, raw).Some? && keys != [] && LookupText(c, raw, keys).Some?
    ensures Edit(c, raw, keys, None).Some?
    ensures MemberAtPath(ParseSpans(c, raw).value, keys).Some?
    ensures var m := MemberAtPath(ParseSpans(c, raw).value, keys).value;
            && InstallJSONLookup(ParseSpans(c, raw).value, keys) == Some(m.value)
            && ExactCut(raw, Edit(c, raw, keys, None).value, m.start, m.value.end)
  {
    hide ReadDoc, Print, Spans, Wf, Trivia, ClosedTrivia, EditNode, ParseSpans, Nested, Lookup, LookupText, ExactCut, Lead;
    DocPieces(c, raw);
    var d := ReadDoc(c, raw).value;
    LookupIsTree(c, raw, keys);
    ParsedSpansNested(c, raw);
    DeletedBytes(c, d.root, 0, keys, Lead(d), d.tail);
  }

  // Which bytes a setting adds

  /** Where a new member goes: behind the last comma or value of the object, before any comments that follow it. */
  function InsertPos(n: JsonNode): int {
    if n.members == [] then n.start + 1
    else
      var last := n.members[|n.members| - 1];
      if last.comma >= 0 then last.comma + 1 else last.value.end
  }

  /** out is raw with one piece of text added inside the object that the first m keys lead to. */
  predicate AddedIn(c: Codec, raw: string, out: string, n: JsonNode, keys: seq<string>, text: string, m: nat) {
    m < |keys| &&
    match InstallJSONLookup(n, keys[..m])
    case None => false
    case Some(o) =>
      var pos := InsertPos(o);
      && o.kind == '{' && InstallJSONLookup(n, keys[..m + 1]).None?
      && o.start < pos < o.end <= |raw|
      && var comma := if o.members != [] && o.members[|o.members| - 1].comma < 0 then "," else "";
         out == raw[..pos] + (comma + InsertText(c, keys[m..], text)) + raw[pos..]
  }

  /** The value that the path leads to, or a new member, and no other byte is touched. */
  predicate SetBytes(c: Codec, raw: string, out: string, n: JsonNode, keys: seq<string>, text: string) {
    match InstallJSONLookup(n, keys)
    case Some(v) => v.start <= v.end <= |raw| && out == raw[..v.start] + text + raw[v.end..]
    case None => exists m: nat :: m < |keys| && AddedIn(c, raw, out, n, keys, text, m)
  }

  lemma LookupDown(n: JsonNode, keys: seq<string>, i: nat, m: nat)
    requires keys != [] && n.kind == '{' && Find(n.members, keys[0]) == Some(i) && 0 < m <= |keys|
    ensures InstallJSONLookup(n, keys[..m]) == InstallJSONLookup(n.members[i].value, keys[1..][..m - 1])
  {
    assert keys[..m][0] == keys[0] && keys[..m][1..] == keys[1..][..m - 1];
  }

  lemma {:induction false} EditSetsBytes(c: Codec, raw: string, n: JsonNode, keys: seq<string>, text: string)
    requires Nested(n) && n.end <= |raw| && EditNode(c, raw, n, keys, Some(text)).Some?
    ensures SetBytes(c, raw, EditNode(c, raw, n, keys, Some(text)).value, n, keys, text)
    decreases |keys|
  {
    hide InsertText, Nested, SetBytes, InsertMember;
    var out := EditNode(c, raw, n, keys, Some(text)).value;
    match Find(n.members, keys[0])
    case Some(i) =>
      NestedMember(n, i);
      if |keys| > 1 {
        EditSetsBytes(c, raw, n.members[i].value, keys[1..], text);
        SetDeeper(c, raw, out, n, keys, i, text);
      } else {
        SetInPlace(c, raw, n, keys, i, text);
      }
    case None =>
      SetHere(c, raw, n, keys, text);
  }

  lemma SetDeeper(c: Codec, raw: string, out: string, n: JsonNode, keys: seq<string>, i: nat, text: string)
    requires |keys| > 1 && n.kind == '{' && Find(n.members, keys[0]) == Some(i)
    requires SetBytes(c, raw, out, n.members[i].value, keys[1..], text)
    ensures SetBytes(c, raw, out, n, keys, text)
  {
    hide InsertText, InsertPos;
    var v := n.members[i].value;
    LookupDown(n, keys, i, |keys|);
    assert keys[..|keys|] == keys && keys[1..][..|keys| - 1] == keys[1..];
    if InstallJSONLookup(v, keys[1..]).None? {
      var m: nat :| m < |keys| - 1 && AddedIn(c, raw, out, v, keys[1..], text, m);
      LookupDown(n, keys, i, m + 1);
      LookupDown(n, keys, i, m + 2);
      hide InstallJSONLookup;
      assert keys[1..][m..] == keys[m + 1..];
      assert AddedIn(c, raw, out, n, keys, text, m + 1);
    }
  }

  lemma SetInPlace(c: Codec, raw: string, n: JsonNode, keys: seq<string>, i: nat, text: string)
    requires Nested(n) && n.end <= |raw| && |keys| == 1 && n.kind == '{' && Find(n.members, keys[0]) == Some(i)
    ensures var v := n.members[i].value;
      v.start <= v.end <= |raw| && SetBytes(c, raw, raw[..v.start] + text + raw[v.end..], n, keys, text)
  {
    NestedMember(n, i);
    NestedOrder(n.members[i].value);
    hide Nested;
    assert keys[1..] == [] && InstallJSONLookup(n.members[i].value, []) == Some(n.members[i].value);
    assert InstallJSONLookup(n, keys) == Some(n.members[i].value);
  }

  lemma SetHere(c: Codec, raw: string, n: JsonNode, keys: seq<string>, text: string)
    requires Nested(n) && n.end <= |raw| && keys != [] && n.kind == '{' && Find(n.members, keys[0]).None?
    ensures SetBytes(c, raw, InsertMember(raw, n, InsertText(c, keys, text)), n, keys, text)
  {
    var out := InsertMember(raw, n, InsertText(c, keys, text));
    NestedOrder(n);
    if n.members != [] {
      NestedMember(n, |n.members| - 1);
      NestedOrder(n.members[|n.members| - 1].value);
    }
    InsertedHere(c, raw, n, keys, text);
    hide Nested, InsertText, InsertMember;
    assert keys[..0] == [] && keys[0..] == keys && keys[..1] == [keys[0]];
    assert AddedIn(c, raw, out, n, keys, text, 0);
  }

  lemma NestedOrder(n: JsonNode)
    requires Nested(n)
    ensures n.start <= n.end && (n.kind == '{' ==> n.start + 1 < n.end)
  {}

  lemma InsertedHere(c: Codec, raw: string, n: JsonNode, keys: seq<string>, text: string)
    requires Nested(n) && n.end <= |raw| && keys != []
    ensures 0 <= InsertPos(n) <= |raw|
    ensures var comma := if n.members != [] && n.members[|n.members| - 1].comma < 0 then "," else "";
      InsertMember(raw, n, InsertText(c, keys, text)) ==
        raw[..InsertPos(n)] + (comma + InsertText(c, keys, text)) + raw[InsertPos(n)..]
  {
    hide InsertText;
    if n.members != [] {
      NestedMember(n, |n.members| - 1);
    }
    hide Nested;
    assert "" + InsertText(c, keys, text) == InsertText(c, keys, text);
  }

  /**
   * Setting a path replaces the bytes of the value it leads to, or adds one member to
   * the deepest object on the way; every other byte, comments included, is kept.
   */
  lemma SetKeepsBytes(c: Codec, raw: string, keys: seq<string>, text: string)
    requires ParseSpans(c, raw).Some? && Edit(c, raw, keys, Some(text)).Some?
    ensures SetBytes(c, raw, Edit(c, raw, keys, Some(text)).value, ParseSpans(c, raw).value, keys, text)
  {
    hide ParseSpans, Nested, EditNode, SetBytes;
    ParsedSpansNested(c, raw);
    EditSetsBytes(c, raw, ParseSpans(c, raw).value, keys, text);
  }

  // The editor

  /** What the editor is asked to do: to delete, or to set a value that fits at that depth. */
  ghost predicate Editable(c: Codec, keys: seq<string>, replacement: Option<string>) {
    replacement.Some? ==> (forall k <- keys :: Quotable(c, k)) && IsValueText(c, replacement.value, |keys|)
  }

  /**
   * The editor. A text that does not parse is refused. Otherwise the edit is refused
   * exactly when a proper prefix of the path leads to something other than an object;
   * the edited text parses, the path leads to the replacement, or nowhere after a
   * deletion, and every unrelated path leads to the bytes it led to before.
   */
  method InstallJSONEdit(c: Codec, raw: string, keys: seq<string>, replacement: Option<string>) returns (r: Option<string>)
    ensures r == Edit(c, raw, keys, replacement)
    ensures ParseSpans(c, raw).None? ==> r.None?
    ensures ParseSpans(c, raw).Some? && Editable(c, keys, replacement) ==>
      && (r.Some? <==> TextObjectPath(c, raw, keys))
      && (r.Some? ==>
        && ParseSpans(c, r.value).Some? && LookupText(c, r.value, keys) == replacement
        && forall q | Unrelated(keys, q) :: LookupText(c, r.value, q) == LookupText(c, raw, q))
  {
    hide LookupText, ParseSpans, TextObjectPath, Quotable, IsValueText, Unrelated, EditNode;
    var root := InstallParseJSON(c, raw);
    if root.None? {
      return None;
    }
    ParsedSpansNested(c, raw);
    r := EditNode(c, raw, root.value, keys, replacement);
    hide Edit;
    if Editable(c, keys, replacement) {
      match replacement
      case None => DeleteLaw(c, raw, keys);
      case Some(text) => SetLaw(c, raw, keys, text);
    }
  }
}
