/**
 * Setting and deleting a member by splicing the text. The splices are proved to
 * print an edited tree (JsonTreeEdit), so the edited text parses again and only
 * the addressed path changes.
 */
module JsonEdit {
  import opened Options
  import opened JsonText
  import opened JsonTree
  import opened JsonGrammar
  import opened JsonParser
  import opened JsonTreeEdit

  /** The first member with the key. */
  function Find(ms: seq<JsonMember>, key: string): (i: Option<nat>)
    ensures i.Some? ==> i.value < |ms| && ms[i.value].key == key
  {
    if ms == [] then None
    else if ms[0].key == key then Some(0)
    else match Find(ms[1..], key)
      case None => None
      case Some(i) => Some(i + 1)
  }

  function InstallJSONLookup(n: JsonNode, keys: seq<string>): Option<JsonNode>
    decreases keys
  {
    if keys == [] then Some(n)
    else if n.kind != '{' then None
    else match Find(n.members, keys[0])
      case None => None
      case Some(i) => InstallJSONLookup(n.members[i].value, keys[1..])
  }

  /** The new value for the keys that do not exist yet. */
  function WrapText(c: Codec, keys: seq<string>, replacement: string): string {
    if keys == [] then replacement
    else "{" + c.quote(keys[0]) + ": " + WrapText(c, keys[1..], replacement) + "}"
  }

  function InsertText(c: Codec, keys: seq<string>, replacement: string): string
    requires keys != []
  {
    "\n" + "  " + c.quote(keys[0]) + ": " + WrapText(c, keys[1..], replacement) + "\n"
  }

  lemma NestedMember(n: JsonNode, i: nat)
    requires Nested(n) && i < |n.members|
    ensures var m := n.members[i];
            && Nested(m.value) && n.start < m.start <= m.value.start && m.value.end < n.end
            && (m.comma >= 0 ==> m.value.end <= m.comma < n.end - 1)
            && (i > 0 ==> n.members[i - 1].comma >= 0 ==> n.start < n.members[i - 1].comma < m.start)
  {
    NestedMembersAt(n.members, n.start + 1, n.end - 1, i);
  }

  lemma {:induction false} NestedMembersAt(ms: seq<JsonMember>, lo: nat, hi: int, i: nat)
    requires NestedMembers(ms, lo, hi) && i < |ms|
    ensures var m := ms[i];
            && Nested(m.value) && lo <= m.start <= m.value.start && m.value.end <= hi
            && (m.comma >= 0 ==> m.value.end <= m.comma < hi)
            && (i > 0 ==> lo <= ms[i - 1].comma < m.start)
    decreases i
  {
    if i > 0 {
      assert ms[0].comma >= 0;
      assert ms[0].value.start < ms[0].value.end;
      NestedMembersAt(ms[1..], ms[0].comma + 1, hi, i - 1);
    }
  }

  /** The text without one member and at most one comma. */
  function DeleteMember(raw: string, n: JsonNode, i: nat): string
    requires Nested(n) && n.end <= |raw| && i < |n.members|
  {
    NestedMember(n, i);
    var m := n.members[i];
    if m.comma >= 0 then
      raw[..m.start] + raw[m.value.end..m.comma] + raw[m.comma + 1..]
    else if i > 0 && n.members[i - 1].comma >= 0 then
      var comma := n.members[i - 1].comma;
      raw[..comma] + raw[comma + 1..m.start] + raw[m.value.end..]
    else
      raw[..m.start] + raw[m.value.end..]
  }

  /** The text with a new last member. */
  function InsertMember(raw: string, n: JsonNode, insert: string): string
    requires Nested(n) && n.end <= |raw|
  {
    if n.members == [] then
      raw[..n.start + 1] + insert + raw[n.start + 1..]
    else
      NestedMember(n, |n.members| - 1);
      var last := n.members[|n.members| - 1];
      if last.comma >= 0 then
        raw[..last.comma + 1] + insert + raw[last.comma + 1..]
      else
        raw[..last.value.end] + ("," + insert) + raw[last.value.end..]
  }

  function EditNode(c: Codec, raw: string, n: JsonNode, keys: seq<string>, replacement: Option<string>): Option<string>
    requires Nested(n) && n.end <= |raw|
    decreases keys
  {
    if keys == [] || n.kind != '{' then None
    else
      match Find(n.members, keys[0])
      case Some(i) =>
        NestedMember(n, i);
        var value := n.members[i].value;
        if |keys| > 1 then EditNode(c, raw, value, keys[1..], replacement)
        else if replacement.Some? then Some(raw[..value.start] + replacement.value + raw[value.end..])
        else Some(DeleteMember(raw, n, i))
      case None =>
        if replacement.None? then Some(raw)
        else Some(InsertMember(raw, n, InsertText(c, keys, replacement.value)))
  }

  function Edit(c: Codec, raw: string, keys: seq<string>, replacement: Option<string>): Option<string> {
    match ParseSpans(c, raw)
    case None => None
    case Some(n) =>
      ParsedSpansNested(c, raw);
      EditNode(c, raw, n, keys, replacement)
  }

  /** The text that a path leads to. */
  function LookupText(c: Codec, raw: string, keys: seq<string>): Option<string> {
    match ParseSpans(c, raw)
    case None => None
    case Some(n) =>
      match InstallJSONLookup(n, keys)
      case None => None
      case Some(m) => if m.start <= m.end <= |raw| then Some(raw[m.start..m.end]) else None
  }

  // Spans and trees agree

  lemma {:induction false} SpanEntryAt(c: Codec, kind: char, es: seq<Entry>, at: nat, i: nat)
    requires i < |es|
    ensures SpanEntries(c, kind, es, at)[i] == SpanEntry(c, kind, es[i], at + |PrintEntries(kind, es[..i])|)
    decreases i
  {
    hide SpanEntry, PrintEntry;
    if i == 0 {
      assert es[..0] == [];
    } else {
      SpanEntryAt(c, kind, es[1..], at + |PrintEntry(kind, es[0])|, i - 1);
      assert es[..i][1..] == es[1..][..i - 1];
      assert es[1..][i - 1] == es[i];
    }
  }

  lemma {:induction false} FindSame(c: Codec, es: seq<Entry>, at: nat, key: string)
    ensures Find(SpanEntries(c, '{', es, at), key) == FindEntry(c, es, key)
    decreases |es|
  {
    hide PrintEntry, KeyOf, Spans;
    if es != [] {
      var ms := SpanEntries(c, '{', es, at);
      var next := at + |PrintEntry('{', es[0])|;
      assert ms[1..] == SpanEntries(c, '{', es[1..], next);
      FindSame(c, es[1..], next, key);
    }
  }

  lemma KindIsObject(c: Codec, t: Cst, depth: nat, at: nat)
    requires Wf(c, t, depth)
    ensures Spans(c, t, at).kind == '{' <==> IsObject(t)
    ensures IsObject(t) ==> Spans(c, t, at).members == SpanEntries(c, '{', t.entries, at + 1)
    ensures Spans(c, t, at).start == at && Spans(c, t, at).end == at + |Print(t)|
  {
    hide Print, SpanEntries, WfEntries;
    KindOfContainer(c, t, depth);
  }

  // The text around one member

  function Before(es: seq<Entry>, i: nat): string
    requires i < |es|
  {
    "{" + PrintEntries('{', es[..i]) + PrintHead('{', es[i])
  }

  function After(es: seq<Entry>, tail: string, i: nat): string
    requires i < |es|
  {
    es[i].post + PrintComma(es[i]) + PrintEntries('{', es[i + 1..]) + tail + "}"
  }

  lemma PrintAround(es: seq<Entry>, tail: string, i: nat, v: Cst)
    requires i < |es|
    ensures Print(Container('{', es[i := es[i].(value := v)], tail)) == Before(es, i) + Print(v) + After(es, tail, i)
  {
    hide PrintHead, PrintComma, PrintEntries;
    var e := es[i].(value := v);
    var es' := es[i := e];
    PrintEntriesSplit('{', es', i);
    assert es'[..i] == es[..i] && es'[i + 1..] == es[i + 1..];
    assert PrintHead('{', e) == PrintHead('{', es[i]) by {
      SameHead(es[i], v);
    }
    assert PrintComma(e) == PrintComma(es[i]) by {
      SameHead(es[i], v);
    }
    AroundText("{", PrintEntries('{', es[..i]), PrintHead('{', e), Print(v), e.post, PrintComma(e), PrintEntries('{', es[i + 1..]), tail, "}");
  }

  lemma SameHead(e: Entry, v: Cst)
    ensures PrintHead('{', e.(value := v)) == PrintHead('{', e) && PrintComma(e.(value := v)) == PrintComma(e)
  {}

  lemma AroundText(k: string, p: string, h: string, v: string, post: string, comma: string, q: string, tail: string, z: string)
    ensures k + (p + (h + v + post + comma) + q) + tail + z == (k + p + h) + v + (post + comma + q + tail + z)
  {}

  /** The spans of one member of an object whose text starts at an offset. */
  lemma MemberSpans(c: Codec, t: Cst, depth: nat, at: nat, i: nat)
    requires Wf(c, t, depth) && IsObject(t) && i < |t.entries|
    ensures var m := Spans(c, t, at).members[i];
            && m == SpanEntry(c, '{', t.entries[i], at + 1 + |PrintEntries('{', t.entries[..i])|)
            && m.value == Spans(c, t.entries[i].value, at + |Before(t.entries, i)|)
  {
    hide Print, SpanEntries, WfEntries, PrintEntries, Spans, PrintHead;
    KindIsObject(c, t, depth, at);
    SpanEntryAt(c, '{', t.entries, at + 1, i);
  }

  /** The text of an object, split around the value of one member. */
  lemma TextAround(t: Cst, i: nat, v: Cst, a: string, b: string)
    requires IsObject(t) && i < |t.entries|
    ensures a + Print(SetValue(t, i, v)) + b == (a + Before(t.entries, i)) + Print(v) + (After(t.entries, t.tail, i) + b)
    ensures a + Print(t) + b == (a + Before(t.entries, i)) + Print(t.entries[i].value) + (After(t.entries, t.tail, i) + b)
  {
    hide Print, Before, After;
    PrintAround(t.entries, t.tail, i, v);
    PrintAround(t.entries, t.tail, i, t.entries[i].value);
    assert t.entries[i := t.entries[i].(value := t.entries[i].value)] == t.entries;
    Middle(a, Before(t.entries, i), Print(v), After(t.entries, t.tail, i), b);
    Middle(a, Before(t.entries, i), Print(t.entries[i].value), After(t.entries, t.tail, i), b);
  }

  lemma Middle(a: string, p: string, v: string, q: string, b: string)
    ensures a + (p + v + q) + b == (a + p) + v + (q + b)
  {}

  lemma Slices(p: string, v: string, q: string)
    ensures (p + v + q)[..|p|] == p && (p + v + q)[|p| + |v|..] == q && (p + v + q)[|p|..|p| + |v|] == v
  {}

  // Deleting one member

  /** What stands before a member of an object that starts after a. */
  function Front(a: string, es: seq<Entry>, i: nat): string
    requires i < |es|
  {
    a + "{" + PrintEntries('{', es[..i]) + es[i].pre
  }

  /** The bytes that deleting a member removes. */
  function Own(e: Entry): string {
    PrintLabel('{', e) + Print(e.value)
  }

  /** What stands after a member and its comma. */
  function Rear(t: Cst, i: nat, b: string): string
    requires t.Container? && i < |t.entries|
  {
    PrintEntries('{', t.entries[i + 1..]) + t.tail + "}" + b
  }

  lemma TextOfMember(t: Cst, i: nat, a: string, b: string)
    requires IsObject(t) && i < |t.entries|
    ensures var e := t.entries[i];
            a + Print(t) + b == Front(a, t.entries, i) + Own(e) + (e.post + PrintComma(e) + Rear(t, i, b))
  {
    hide Print, PrintEntries, PrintLabel, PrintComma;
    var e := t.entries[i];
    TextAround(t, i, e.value, a, b);
    MemberText(a, PrintEntries('{', t.entries[..i]), e.pre, PrintLabel('{', e), Print(e.value),
      e.post, PrintComma(e), PrintEntries('{', t.entries[i + 1..]), t.tail, b);
  }

  lemma MemberText(a: string, p: string, pre: string, l: string, v: string, post: string, comma: string, q: string, tail: string, b: string)
    ensures (a + ("{" + p + (pre + l))) + v + ((post + comma + q + tail + "}") + b)
         == (a + "{" + p + pre) + (l + v) + (post + comma + (q + tail + "}" + b))
  {}

  lemma MemberOffsets(c: Codec, t: Cst, depth: nat, a: string, i: nat)
    requires Wf(c, t, depth) && IsObject(t) && i < |t.entries|
    ensures var m := Spans(c, t, |a|).members[i];
            var e := t.entries[i];
            && m.start == |Front(a, t.entries, i)|
            && m.value.end == |Front(a, t.entries, i)| + |Own(e)|
            && m.comma == if e.comma then m.value.end + |e.post| else -1
  {
    hide Wf, Print, PrintEntries, PrintEntry, Spans, Front, Own, PrintHead, Before;
    var e := t.entries[i];
    MemberSpans(c, t, depth, |a|, i);
    SpansBounds(c, e.value, |a| + |Before(t.entries, i)|);
    EntrySizes('{', e);
    FrontSize(a, t.entries, i);
  }

  lemma FrontSize(a: string, es: seq<Entry>, i: nat)
    requires i < |es|
    ensures |Front(a, es, i)| == |a| + 1 + |PrintEntries('{', es[..i])| + |es[i].pre|
    ensures |Before(es, i)| == 1 + |PrintEntries('{', es[..i])| + |PrintHead('{', es[i])|
    ensures |PrintHead('{', es[i])| + |Print(es[i].value)| == |es[i].pre| + |Own(es[i])|
  {
    hide Print, PrintEntries, PrintLabel;
  }

  /** Trivia put in front of the members that follow, or of the bracket. */
  lemma PrintAbsorb(gap: string, es: seq<Entry>, tail: string)
    ensures es != [] ==>
      PrintEntries('{', [es[0].(pre := gap + es[0].pre)] + es[1..]) + tail == gap + (PrintEntries('{', es) + tail)
  {
    hide Print, PrintLabel, PrintComma;
    if es != [] {
      var e := es[0].(pre := gap + es[0].pre);
      assert PrintEntry('{', e) == gap + PrintEntry('{', es[0]) by {
        SamePieces(es[0], e);
        AbsorbText(gap, es[0].pre, PrintLabel('{', es[0]), Print(es[0].value), es[0].post, PrintComma(es[0]));
      }
      assert ([e] + es[1..])[1..] == es[1..];
      Regroup(gap, PrintEntry('{', es[0]), PrintEntries('{', es[1..]));
      Regroup(gap, PrintEntries('{', es), tail);
    }
  }

  lemma SamePieces(e: Entry, e': Entry)
    requires e' == e.(pre := e'.pre, post := e'.post, comma := e'.comma)
    ensures PrintLabel('{', e) == PrintLabel('{', e')
    ensures e.comma == e'.comma ==> PrintComma(e) == PrintComma(e')
  {}

  lemma AbsorbText(gap: string, pre: string, l: string, v: string, post: string, comma: string)
    ensures (gap + pre + l) + v + post + comma == gap + ((pre + l) + v + post + comma)
  {}

  lemma PrintDropComma(t: Cst, i: nat, a: string, b: string)
    requires IsObject(t) && i < |t.entries| && t.entries[i].comma
    ensures a + Print(Drop(t, i)) + b == Front(a, t.entries, i) + t.entries[i].post + Rear(t, i, b)
  {
    hide Print, PrintEntries, Drop;
    var e := t.entries[i];
    var front, rest := PrintEntries('{', t.entries[..i]), PrintEntries('{', t.entries[i + 1..]);
    if i + 1 < |t.entries| {
      PrintDropInner(t, i, a, b);
    } else {
      PrintDropTrailing(t, i, a, b);
    }
    GapText(a + "{" + front, e.pre, e.post, Rear(t, i, b));
    RearText(a, front, e.pre + e.post, rest, t.tail, b);
  }

  lemma PrintDropInner(t: Cst, i: nat, a: string, b: string)
    requires IsObject(t) && i + 1 < |t.entries| && t.entries[i].comma
    ensures a + Print(Drop(t, i)) + b == a + "{" + PrintEntries('{', t.entries[..i])
      + (((t.entries[i].pre + t.entries[i].post) + (PrintEntries('{', t.entries[i + 1..]) + t.tail)) + "}" + b)
  {
    hide Print, PrintEntries, PrintEntry;
    var es := t.entries;
    var gap := es[i].pre + es[i].post;
    var rest := es[i + 1..];
    ContainerText(Drop(t, i));
    PrintAbsorb(gap, rest, t.tail);
    assert rest[0] == es[i + 1] && rest[1..] == es[i + 2..];
    var moved := [rest[0].(pre := gap + rest[0].pre)] + rest[1..];
    assert Drop(t, i).entries == es[..i] + moved;
    PrintEntriesAppend('{', es[..i], moved);
    DropText(a, PrintEntries('{', es[..i]), PrintEntries('{', moved), t.tail, b);
  }

  lemma PrintDropTrailing(t: Cst, i: nat, a: string, b: string)
    requires IsObject(t) && i + 1 == |t.entries| && t.entries[i].comma
    ensures a + Print(Drop(t, i)) + b == a + "{" + PrintEntries('{', t.entries[..i])
      + (((t.entries[i].pre + t.entries[i].post) + (PrintEntries('{', t.entries[i + 1..]) + t.tail)) + "}" + b)
  {
    hide Print, PrintEntries, PrintEntry;
    var es := t.entries;
    var gap := es[i].pre + es[i].post;
    ContainerText(Drop(t, i));
    assert es[i + 1..] == [];
    NoEntries();
    DropText(a, PrintEntries('{', es[..i]), "", gap + t.tail, b);
    assert PrintEntries('{', es[..i]) + "" == PrintEntries('{', es[..i]);
    assert "" + (gap + t.tail) == gap + t.tail == gap + ("" + t.tail);
  }

  lemma NoEntries()
    ensures PrintEntries('{', []) == ""
  {}

  lemma ContainerText(t: Cst)
    requires IsObject(t)
    ensures Print(t) == "{" + PrintEntries('{', t.entries) + t.tail + "}"
  {
    hide PrintEntries;
  }

  lemma DropText(a: string, front: string, moved: string, tail: string, b: string)
    ensures a + ("{" + (front + moved) + tail + "}") + b == a + "{" + front + ((moved + tail) + "}" + b)
  {}

  lemma GapText(x: string, pre: string, post: string, y: string)
    ensures x + ((pre + post) + y) == (x + pre) + post + y
  {}

  lemma RearText(a: string, front: string, gap: string, rest: string, tail: string, b: string)
    ensures a + "{" + front + ((gap + (rest + tail)) + "}" + b) == a + "{" + front + (gap + (rest + tail + "}" + b))
  {}

  /** Deleting the last of several members takes the comma of the one before it. */
  lemma PrintDropLast(t: Cst, i: nat, a: string, b: string)
    requires IsObject(t) && 0 < i && i + 1 == |t.entries| && !t.entries[i].comma && t.entries[i - 1].comma
    ensures var p := t.entries[i - 1];
            var x := Front(a, t.entries, i - 1) + Own(p) + p.post;
            && Front(a, t.entries, i) == x + "," + t.entries[i].pre
            && a + Print(Drop(t, i)) + b == x + t.entries[i].pre + (t.entries[i].post + Rear(t, i, b))
  {
    hide Print, PrintEntries, PrintLabel;
    var es, e, p := t.entries, t.entries[i], t.entries[i - 1];
    var before := es[..i - 1];
    var p' := p.(post := p.post + (e.pre + e.post), comma := false);
    assert es[..i] == before + [p];
    assert Drop(t, i).entries == before + [p'];
    PrintEntriesAppend('{', before, [p]);
    PrintEntriesAppend('{', before, [p']);
    OneEntry(p);
    OneEntry(p');
    ContainerText(Drop(t, i));
    assert es[i + 1..] == [];
    NoEntries();
    SamePieces(p, p');
    PairText(a, PrintEntries('{', before), p.pre, PrintLabel('{', p), Print(p.value), p.post, e.pre, e.post, t.tail, b);
  }

  lemma OneEntry(e: Entry)
    ensures PrintEntries('{', [e]) == e.pre + PrintLabel('{', e) + Print(e.value) + e.post + PrintComma(e)
  {
    hide Print, PrintLabel, PrintComma;
    var es := [e];
    NoEntries();
    assert es[1..] == [];
    assert PrintEntries('{', es) == PrintEntry('{', e) + "";
  }

  lemma PairText(a: string, q: string, pre: string, l: string, v: string, post: string, pre': string, post': string, tail: string, b: string)
    ensures a + "{" + (q + (pre + l + v + post + ",")) + pre' == (a + "{" + q + pre) + (l + v) + post + "," + pre'
    ensures a + ("{" + (q + (pre + l + v + (post + (pre' + post')) + "")) + tail + "}") + b
         == ((a + "{" + q + pre) + (l + v) + post) + pre' + (post' + ("" + tail + "}" + b))
  {}

  lemma PrintDropOnly(t: Cst, a: string, b: string)
    requires IsObject(t) && |t.entries| == 1 && !t.entries[0].comma
    ensures a + Print(Drop(t, 0)) + b == Front(a, t.entries, 0) + (t.entries[0].post + Rear(t, 0, b))
  {
    hide Print;
    var e := t.entries[0];
    ContainerText(Drop(t, 0));
    assert Drop(t, 0).entries == [] && t.entries[1..] == [] && t.entries[..0] == [];
    OnlyText(a, e.pre, e.post, t.tail, b);
  }

  lemma OnlyText(a: string, pre: string, post: string, tail: string, b: string)
    ensures a + ("{" + "" + ((pre + post) + tail) + "}") + b == (a + "{" + "" + pre) + (post + ("" + tail + "}" + b))
  {}

  lemma DeleteWithComma(raw: string, n: JsonNode, i: nat, x: string, own: string, post: string, y: string)
    requires Nested(n) && n.end <= |raw| && i < |n.members|
    requires raw == x + own + (post + "," + y)
    requires n.members[i].start == |x| && n.members[i].value.end == |x| + |own|
    requires n.members[i].comma == |x| + |own| + |post|
    ensures DeleteMember(raw, n, i) == x + post + y
  {
    hide Nested;
    CutWithComma(x, own, post, y);
  }

  lemma DeleteLast(raw: string, n: JsonNode, i: nat, z: string, pre: string, own: string, y: string)
    requires Nested(n) && n.end <= |raw| && 0 < i < |n.members|
    requires raw == z + "," + pre + own + y
    requires n.members[i].start == |z| + 1 + |pre| && n.members[i].value.end == |z| + 1 + |pre| + |own|
    requires n.members[i].comma == -1 && n.members[i - 1].comma == |z|
    ensures DeleteMember(raw, n, i) == z + pre + y
  {
    hide Nested;
    CutBeforeLast(z, pre, own, y);
  }

  lemma DeleteOnly(raw: string, n: JsonNode, x: string, own: string, y: string)
    requires Nested(n) && n.end <= |raw| && 0 < |n.members|
    requires raw == x + own + y
    requires n.members[0].start == |x| && n.members[0].value.end == |x| + |own| && n.members[0].comma == -1
    ensures DeleteMember(raw, n, 0) == x + y
  {
    hide Nested;
    Slices(x, own, y);
  }

  /** Deleting a member in the text is dropping it from the tree. */
  lemma DeleteSplices(c: Codec, t: Cst, depth: nat, i: nat, a: string, b: string)
    requires Wf(c, t, depth) && IsObject(t) && i < |t.entries|
    requires Nested(Spans(c, t, |a|)) && Spans(c, t, |a|).end <= |a + Print(t) + b|
    requires |Spans(c, t, |a|).members| == |t.entries|
    ensures DeleteMember(a + Print(t) + b, Spans(c, t, |a|), i) == a + Print(Drop(t, i)) + b
  {
    hide Print, Spans, PrintEntries, PrintLabel, Front, Own, Rear, Wf, Nested, Drop, DeleteMember;
    var e := t.entries[i];
    var n := Spans(c, t, |a|);
    var raw := a + Print(t) + b;
    MemberOffsets(c, t, depth, a, i);
    TextOfMember(t, i, a, b);
    var x, y := Front(a, t.entries, i), Rear(t, i, b);
    if e.comma {
      DeleteWithComma(raw, n, i, x, Own(e), e.post, y);
      PrintDropComma(t, i, a, b);
    } else {
      WfCommas(c, t, depth, i);
      NoComma(e.post, y);
      if i > 0 {
        var p := t.entries[i - 1];
        MemberOffsets(c, t, depth, a, i - 1);
        PrintDropLast(t, i, a, b);
        var z := Front(a, t.entries, i - 1) + Own(p) + p.post;
        DeleteLast(raw, n, i, z, e.pre, Own(e), e.post + y);
      } else {
        DeleteOnly(raw, n, x, Own(e), e.post + y);
        PrintDropOnly(t, a, b);
      }
    }
  }

  lemma NoComma(post: string, y: string)
    ensures post + "" + y == post + y
  {}

  lemma WfCommas(c: Codec, t: Cst, depth: nat, i: nat)
    requires Wf(c, t, depth) && IsObject(t) && i < |t.entries| && !t.entries[i].comma
    ensures i + 1 == |t.entries| && (i > 0 ==> t.entries[i - 1].comma)
  {
    hide Wf, WfEntry, KeyOf, ClosedTrivia;
    WfObjectIff(c, t, depth);
  }

  lemma CutWithComma(x: string, own: string, post: string, y: string)
    ensures var raw := x + own + (post + "," + y);
            var end := |x| + |own|;
            raw[..|x|] + raw[end..end + |post|] + raw[end + |post| + 1..] == x + post + y
  {
    var raw := x + own + (post + "," + y);
    assert raw == x + own + post + "," + y;
  }

  lemma CutBeforeLast(z: string, pre: string, own: string, y: string)
    ensures var raw := z + "," + pre + own + y;
            var start := |z| + 1 + |pre|;
            raw[..|z|] + raw[|z| + 1..start] + raw[start + |own|..] == z + pre + y
  {}

  // Adding a member

  lemma {:induction false} WrapTextIs(c: Codec, keys: seq<string>, r: Cst)
    ensures WrapText(c, keys, Print(r)) == Print(Wrap(c, keys, r))
    decreases |keys|
  {
    if keys != [] {
      WrapTextIs(c, keys[1..], r);
      hide Print, PrintEntries, PrintLabel;
      var e := Entry("", c.quote(keys[0]), "", " ", Wrap(c, keys[1..], r), "", false);
      ContainerText(Wrap(c, keys, r));
      OneEntry(e);
      WrapPieces(e);
    }
  }

  lemma WrapPieces(e: Entry)
    requires e.colonGap == "" && e.valueGap == " " && !e.comma
    ensures PrintLabel('{', e) == e.keyToken + ": "
    ensures e.pre == "" && e.post == "" ==>
      "{" + (e.pre + PrintLabel('{', e) + Print(e.value) + e.post + PrintComma(e)) + "" + "}"
      == "{" + e.keyToken + ": " + Print(e.value) + "}"
  {
    hide Print;
    assert "" + ":" + " " == ": ";
    assert e.keyToken + "" + ":" + " " == e.keyToken + ": ";
  }

  lemma NewEntryText(c: Codec, keys: seq<string>, r: Cst, post: string)
    requires keys != []
    ensures PrintEntries('{', [NewEntry(c, keys, r, post)]) == InsertText(c, keys, Print(r)) + post
  {
    hide Print, PrintEntries, PrintLabel, Wrap, WrapText;
    var e := NewEntry(c, keys, r, post);
    OneEntry(e);
    WrapTextIs(c, keys[1..], r);
    WrapPieces(e);
    InsertPieces(c.quote(keys[0]), Print(e.value), post);
  }

  lemma InsertPieces(q: string, v: string, post: string)
    ensures "\n  " + (q + ": ") + v + ("\n" + post) + "" == ("\n" + "  " + q + ": " + v + "\n") + post
  {}

  lemma AppendText(a: string, p: string, x: string, tail: string, b: string)
    ensures a + ("{" + (p + (x + tail)) + "" + "}") + b == (a + "{" + p) + x + (tail + "}" + b)
    ensures a + ("{" + p + tail + "}") + b == (a + "{" + p) + (tail + "}" + b)
  {}

  lemma InsertAt(p: string, x: string, q: string)
    ensures (p + q)[..|p|] + x + (p + q)[|p|..] == p + x + q
  {}

  lemma AddedLast(q: string, h: string, v: string, post: string, x: string, tail: string, a: string, b: string)
    ensures a + ("{" + (q + (h + v + post + "")) + tail + "}") + b == (a + "{" + q + h + v) + (post + tail + "}" + b)
    ensures a + ("{" + (q + (h + v + "" + ",") + (x + post)) + tail + "}") + b == (a + "{" + q + h + v) + ("," + x) + (post + tail + "}" + b)
  {}

  /** Inserting a member in the text is appending it to the tree. */
  lemma AppendSplices(c: Codec, t: Cst, depth: nat, keys: seq<string>, r: Cst, a: string, b: string)
    requires Wf(c, t, depth) && IsObject(t) && keys != []
    requires Nested(Spans(c, t, |a|)) && Spans(c, t, |a|).end <= |a + Print(t) + b|
    ensures InsertMember(a + Print(t) + b, Spans(c, t, |a|), InsertText(c, keys, Print(r)))
         == a + Print(Append(c, t, keys, r)) + b
  {
    if t.entries == [] || t.entries[|t.entries| - 1].comma {
      AppendAfterComma(c, t, depth, keys, r, a, b);
    } else {
      AppendAfterValue(c, t, depth, keys, r, a, b);
    }
  }

  lemma AppendCommaText(c: Codec, t: Cst, keys: seq<string>, r: Cst, a: string, b: string)
    requires IsObject(t) && keys != []
    requires t.entries == [] || t.entries[|t.entries| - 1].comma
    ensures var p := PrintEntries('{', t.entries);
            && a + Print(t) + b == (a + "{" + p) + (t.tail + "}" + b)
            && a + Print(Append(c, t, keys, r)) + b == (a + "{" + p) + InsertText(c, keys, Print(r)) + (t.tail + "}" + b)
  {
    hide Print, PrintEntries, NewEntry, InsertText;
    ContainerText(t);
    ContainerText(Append(c, t, keys, r));
    var p, x := PrintEntries('{', t.entries), InsertText(c, keys, Print(r));
    NewEntryText(c, keys, r, t.tail);
    PrintEntriesAppend('{', t.entries, [NewEntry(c, keys, r, t.tail)]);
    AppendText(a, p, x, t.tail, b);
  }

  lemma AppendAfterComma(c: Codec, t: Cst, depth: nat, keys: seq<string>, r: Cst, a: string, b: string)
    requires Wf(c, t, depth) && IsObject(t) && keys != []
    requires Nested(Spans(c, t, |a|)) && Spans(c, t, |a|).end <= |a + Print(t) + b|
    requires t.entries == [] || t.entries[|t.entries| - 1].comma
    ensures InsertMember(a + Print(t) + b, Spans(c, t, |a|), InsertText(c, keys, Print(r)))
         == a + Print(Append(c, t, keys, r)) + b
  {
    hide Print, Spans, SpanEntries, PrintEntries, Wf, Nested, Append, InsertText;
    var p := PrintEntries('{', t.entries);
    KindIsObject(c, t, depth, |a|);
    AppendCommaText(c, t, keys, r, a, b);
    InsertAt(a + "{" + p, InsertText(c, keys, Print(r)), t.tail + "}" + b);
    if t.entries == [] {
      NoEntries();
      NoSpans(c, |a| + 1);
    } else {
      LastComma(c, t, depth, |a|);
    }
  }

  lemma NoSpans(c: Codec, at: nat)
    ensures SpanEntries(c, '{', [], at) == []
  {}

  lemma AppendAfterValue(c: Codec, t: Cst, depth: nat, keys: seq<string>, r: Cst, a: string, b: string)
    requires Wf(c, t, depth) && IsObject(t) && keys != []
    requires Nested(Spans(c, t, |a|)) && Spans(c, t, |a|).end <= |a + Print(t) + b|
    requires t.entries != [] && !t.entries[|t.entries| - 1].comma
    ensures InsertMember(a + Print(t) + b, Spans(c, t, |a|), InsertText(c, keys, Print(r)))
         == a + Print(Append(c, t, keys, r)) + b
  {
    hide Print, Spans, PrintEntries, PrintHead, Wf, Nested, NewEntry, InsertText;
    var k := |t.entries| - 1;
    var e := t.entries[k];
    var q := PrintEntries('{', t.entries[..k]);
    var x := InsertText(c, keys, Print(r));
    AppendedText(c, t, keys, r, a, b);
    InsertAt(a + "{" + q + PrintHead('{', e) + Print(e.value), "," + x, e.post + t.tail + "}" + b);
    LastValueEnd(c, t, depth, a);
  }

  lemma AppendedText(c: Codec, t: Cst, keys: seq<string>, r: Cst, a: string, b: string)
    requires IsObject(t) && keys != []
    requires t.entries != [] && !t.entries[|t.entries| - 1].comma
    ensures var k := |t.entries| - 1;
            var e := t.entries[k];
            var p := a + "{" + PrintEntries('{', t.entries[..k]) + PrintHead('{', e) + Print(e.value);
            var s := e.post + t.tail + "}" + b;
            && a + Print(t) + b == p + s
            && a + Print(Append(c, t, keys, r)) + b == p + ("," + InsertText(c, keys, Print(r))) + s
  {
    hide Print, PrintEntries, PrintHead, NewEntry, InsertText;
    var es := t.entries;
    var k := |es| - 1;
    var e := es[k];
    var q := PrintEntries('{', es[..k]);
    ContainerText(t);
    ContainerText(Append(c, t, keys, r));
    assert es == es[..k] + [e];
    PrintEntriesAppend('{', es[..k], [e]);
    var e' := e.(post := "", comma := true);
    var one, two := [e'], [NewEntry(c, keys, r, e.post)];
    NewEntryText(c, keys, r, e.post);
    PrintEntriesAppend('{', es[..k] + one, two);
    PrintEntriesAppend('{', es[..k], one);
    HeadOfOne(e);
    HeadOfOne(e');
    SameHeads(e, e');
    AddedLast(q, PrintHead('{', e), Print(e.value), e.post, InsertText(c, keys, Print(r)), t.tail, a, b);
  }

  lemma HeadOfOne(e: Entry)
    ensures PrintEntries('{', [e]) == PrintHead('{', e) + Print(e.value) + e.post + if e.comma then "," else ""
  {
    hide Print, PrintHead;
    var es := [e];
    NoEntries();
    assert es[1..] == [];
    assert PrintEntries('{', es) == PrintEntry('{', e) + "";
  }

  lemma SameHeads(e: Entry, e': Entry)
    requires e' == e.(post := e'.post, comma := e'.comma)
    ensures PrintHead('{', e) == PrintHead('{', e')
  {}

  lemma LastComma(c: Codec, t: Cst, depth: nat, at: nat)
    requires Wf(c, t, depth) && IsObject(t) && t.entries != [] && t.entries[|t.entries| - 1].comma
    ensures var n := Spans(c, t, at);
            n.members != [] && n.members[|n.members| - 1].comma == at + |PrintEntries('{', t.entries)|
  {
    hide Print, Spans, PrintEntries, PrintEntry, PrintHead, Wf;
    var es := t.entries;
    var k := |es| - 1;
    KindIsObject(c, t, depth, at);
    MemberSpans(c, t, depth, at, k);
    assert es == es[..k] + [es[k]];
    PrintEntriesAppend('{', es[..k], [es[k]]);
    HeadOfOne(es[k]);
    EntrySizes('{', es[k]);
  }

  lemma LastValueEnd(c: Codec, t: Cst, depth: nat, a: string)
    requires Wf(c, t, depth) && IsObject(t) && t.entries != [] && !t.entries[|t.entries| - 1].comma
    ensures var n := Spans(c, t, |a|);
            var k := |t.entries| - 1;
            var e := t.entries[k];
            && |n.members| == k + 1 && n.members[k].comma == -1
            && n.members[k].value.end == |a + "{" + PrintEntries('{', t.entries[..k]) + PrintHead('{', e) + Print(e.value)|
  {
    hide Print, Spans, PrintEntries, PrintEntry, PrintHead, Wf;
    var k := |t.entries| - 1;
    KindIsObject(c, t, depth, |a|);
    MemberSpans(c, t, depth, |a|, k);
    SpansBounds(c, t.entries[k].value, |a| + |Before(t.entries, k)|);
  }

  // A whole edit

  function TreeEdit(c: Codec, t: Cst, keys: seq<string>, r: Option<Cst>): Option<Cst> {
    match r
    case Some(v) => Put(c, t, keys, v)
    case None => Remove(c, t, keys)
  }

  function Text(r: Option<Cst>): Option<string> {
    match r
    case Some(v) => Some(Print(v))
    case None => None
  }

  /** Splicing the text of a tree prints the edited tree. */
  lemma {:induction false} EditSplices(c: Codec, t: Cst, depth: nat, keys: seq<string>, r: Option<Cst>, a: string, b: string)
    requires Wf(c, t, depth)
    requires Nested(Spans(c, t, |a|)) && Spans(c, t, |a|).end <= |a + Print(t) + b|
    ensures EditNode(c, a + Print(t) + b, Spans(c, t, |a|), keys, Text(r)) ==
      match TreeEdit(c, t, keys, r)
      case None => None
      case Some(t') => Some(a + Print(t') + b)
    decreases |keys|
  {
    hide Print, Spans, Wf, Nested, Drop, Append, SetValue, Before, After, DeleteMember, InsertMember, InsertText, Find, FindEntry;
    KindIsObject(c, t, depth, |a|);
    if keys != [] && IsObject(t) {
      FindSame(c, t.entries, |a| + 1, keys[0]);
      match FindEntry(c, t.entries, keys[0])
      case None =>
        if r.Some? {
          AppendSplices(c, t, depth, keys, r.value, a, b);
        }
      case Some(i) =>
        if |keys| == 1 && r.None? {
          DeleteSplices(c, t, depth, i, a, b);
        } else {
          ValueSplices(c, t, depth, keys, r, a, b);
        }
    }
  }

  lemma ReplaceText(c: Codec, raw: string, n: JsonNode, keys: seq<string>, i: nat, a: string, old_: string, new_: string, b: string)
    requires Nested(n) && n.end <= |raw| && n.kind == '{' && |keys| == 1 && Find(n.members, keys[0]) == Some(i)
    requires raw == a + old_ + b && n.members[i].value.start == |a| && n.members[i].value.end == |a| + |old_|
    ensures EditNode(c, raw, n, keys, Some(new_)) == Some(a + new_ + b)
  {
    hide Nested, Find;
    Slices(a, old_, b);
  }

  lemma DescendText(c: Codec, raw: string, n: JsonNode, keys: seq<string>, i: nat, r: Option<string>)
    requires Nested(n) && n.end <= |raw| && n.kind == '{' && |keys| > 1 && Find(n.members, keys[0]) == Some(i)
    requires Nested(n.members[i].value) && n.members[i].value.end <= |raw|
    ensures EditNode(c, raw, n, keys, r) == EditNode(c, raw, n.members[i].value, keys[1..], r)
  {
    hide Nested, Find, DeleteMember, InsertMember;
  }

  lemma {:induction false} ValueSplices(c: Codec, t: Cst, depth: nat, keys: seq<string>, r: Option<Cst>, a: string, b: string)
    requires Wf(c, t, depth) && IsObject(t)
    requires Nested(Spans(c, t, |a|)) && Spans(c, t, |a|).end <= |a + Print(t) + b|
    requires keys != [] && FindEntry(c, t.entries, keys[0]).Some? && (|keys| > 1 || r.Some?)
    ensures EditNode(c, a + Print(t) + b, Spans(c, t, |a|), keys, Text(r)) ==
      match TreeEdit(c, t, keys, r)
      case None => None
      case Some(t') => Some(a + Print(t') + b)
    decreases |keys|, 0
  {
    hide Print, Spans, Wf, Nested, SetValue, Before, After, FindEntry, EditNode, Find;
    KindIsObject(c, t, depth, |a|);
    FindSame(c, t.entries, |a| + 1, keys[0]);
    var i := FindEntry(c, t.entries, keys[0]).value;
    var old_ := t.entries[i].value;
    var n := Spans(c, t, |a|);
    var a', b' := a + Before(t.entries, i), After(t.entries, t.tail, i) + b;
    ValueWf(c, t, depth, i);
    MemberSpans(c, t, depth, |a|, i);
    NestedMember(n, i);
    SpansBounds(c, old_, |a'|);
    TextAround(t, i, old_, a, b);
    if |keys| == 1 {
      TextAround(t, i, r.value, a, b);
      ReplaceText(c, a + Print(t) + b, n, keys, i, a', Print(old_), Print(r.value), b');
    } else {
      DescendText(c, a + Print(t) + b, n, keys, i, Text(r));
      EditSplices(c, old_, depth + 1, keys[1..], r, a', b');
      match TreeEdit(c, old_, keys[1..], r)
      case None =>
      case Some(v) => TextAround(t, i, v, a, b);
    }
  }
}
