/**
 * What the parser reads, as a function from the remaining text to a concrete
 * syntax tree, and the proof that it reads exactly the grammar: a text is
 * accepted if and only if it is the printed form of a well-formed document, and
 * the tree returned is that document.
 */
module JsonGrammar {
  import opened Options
  import opened JsonText
  import opened JsonTree

  datatype ParsedValue = ParsedValue(tree: Cst, size: nat)
  datatype ParsedNode = ParsedNode(gap: string, tree: Cst, size: nat)
  datatype ParsedLabel = ParsedLabel(keyToken: string, colonGap: string, size: nat)
  datatype ParsedItem = ParsedItem(gap: string, tree: Cst, post: string, comma: bool, size: nat)
  datatype ParsedEntry = ParsedEntry(entry: Entry, size: nat)
  datatype ParsedEntries = ParsedEntries(entries: seq<Entry>, tail: string, size: nat)

  function ReadString(c: Codec, s: string): (r: Option<nat>)
    ensures r.Some? ==> 2 <= r.value <= |s|
  {
    if s == "" || s[0] != '\"' then None
    else match StringScan(s, 1)
      case None => None
      case Some(n) => if c.unquote(s[..n]).Some? then Some(n) else None
  }

  /** Reads a value whose first byte is the first byte of the text. */
  function ReadValue(c: Codec, s: string, depth: nat): (r: Option<ParsedValue>)
    ensures r.Some? ==> 1 <= r.value.size <= |s|
    decreases |s|, 1
  {
    if s == "" then None
    else if s[0] == '{' || s[0] == '[' then
      match ReadEntries(c, s[0], s[1..], depth + 1, {})
      case None => None
      case Some(p) => Some(ParsedValue(Container(s[0], p.entries, p.tail), 1 + p.size))
    else if s[0] == '\"' then
      match ReadString(c, s)
      case None => None
      case Some(n) => Some(ParsedValue(Str(s[..n]), n))
    else
      var n := ScalarEnd(s);
      if n == 0 || !c.validScalar(s[..n]) then None else Some(ParsedValue(Scalar(s[..n]), n))
  }

  /** Reads trivia and then a value, unless the value is nested too deep. */
  function ReadNode(c: Codec, s: string, depth: nat): (r: Option<ParsedNode>)
    ensures r.Some? ==> r.value.size <= |s| && |r.value.gap| < r.value.size
    decreases |s|, 2
  {
    if depth > MAX_DEPTH then None
    else match Trivia(s)
      case None => None
      case Some(k) =>
        match ReadValue(c, s[k..], depth)
        case None => None
        case Some(p) => Some(ParsedNode(s[..k], p.tree, k + p.size))
  }

  /** Reads a key and its colon; nothing in an array. */
  function ReadLabel(c: Codec, kind: char, s: string, seen: set<string>): (r: Option<ParsedLabel>)
    ensures r.Some? ==> r.value.size <= |s|
  {
    if kind != '{' then Some(ParsedLabel("", "", 0))
    else match ReadString(c, s)
      case None => None
      case Some(n) =>
        if c.unquote(s[..n]).value in seen then None
        else match Trivia(s[n..])
          case None => None
          case Some(k) =>
            if n + k < |s| && s[n + k] == ':' then Some(ParsedLabel(s[..n], s[n..][..k], n + k + 1)) else None
  }

  /** Reads a value, the trivia after it, and its comma unless the bracket closes. */
  function ReadItem(c: Codec, kind: char, s: string, depth: nat): (r: Option<ParsedItem>)
    ensures r.Some? ==> 1 <= r.value.size <= |s|
    decreases |s|, 3
  {
    match ReadNode(c, s, depth)
    case None => None
    case Some(node) =>
      var after := s[node.size..];
      match Trivia(after)
      case None => None
      case Some(j) =>
        if j == |after| || (after[j] != ',' && after[j] != Close(kind)) then None
        else
          var comma := after[j] == ',';
          Some(ParsedItem(node.gap, node.tree, after[..j], comma, node.size + j + if comma then 1 else 0))
  }

  /** Reads one member whose own first byte is at offset k, after its trivia. */
  function ReadEntry(c: Codec, kind: char, s: string, k: nat, depth: nat, seen: set<string>): (r: Option<ParsedEntry>)
    requires k <= |s|
    ensures r.Some? ==> k < r.value.size <= |s|
    decreases |s|, 4
  {
    match ReadLabel(c, kind, s[k..], seen)
    case None => None
    case Some(lab) =>
      match ReadItem(c, kind, s[k..][lab.size..], depth)
      case None => None
      case Some(p) =>
        Some(ParsedEntry(Entry(s[..k], lab.keyToken, lab.colonGap, p.gap, p.tree, p.post, p.comma), k + lab.size + p.size))
  }

  /** Reads members up to and including the closing bracket. */
  function ReadEntries(c: Codec, kind: char, s: string, depth: nat, seen: set<string>): (r: Option<ParsedEntries>)
    ensures r.Some? ==> 1 <= r.value.size <= |s|
    decreases |s|, 5
  {
    match Trivia(s)
    case None => None
    case Some(k) =>
      if k == |s| then None
      else if s[k] == Close(kind) then Some(ParsedEntries([], s[..k], k + 1))
      else match ReadEntry(c, kind, s, k, depth, seen)
        case None => None
        case Some(p) =>
          match ReadEntries(c, kind, s[p.size..], depth, WithKey(c, kind, p.entry, seen))
          case None => None
          case Some(q) => Some(ParsedEntries([p.entry] + q.entries, q.tail, p.size + q.size))
  }

  function WithKey(c: Codec, kind: char, e: Entry, seen: set<string>): set<string> {
    if kind == '{' then seen + {KeyOf(c, kind, e)} else seen
  }

  /** Reads a whole text. */
  function ReadDoc(c: Codec, raw: string): Option<Doc> {
    var bom := BOM <= raw;
    var s := AfterBom(raw);
    match ReadNode(c, s, 0)
    case None => None
    case Some(p) =>
      if Trivia(s[p.size..]) == Some(|s| - p.size) && p.tree.Container? && p.tree.kind == '{'
      then Some(Doc(bom, p.gap, p.tree, s[p.size..]))
      else None
  }

  // Everything read is in the grammar

  lemma {:induction false} TriviaStops(s: string)
    requires Trivia(s).Some?
    ensures Trivia(s[Trivia(s).value..]) == Some(0)
    decreases |s|
  {
    var k := Piece(s).value;
    if k == 0 {
      assert s[0..] == s;
    } else {
      TriviaStops(s[k..]);
      assert s[k..][Trivia(s[k..]).value..] == s[Trivia(s).value..];
    }
  }

  lemma ReadStringSound(c: Codec, s: string)
    requires ReadString(c, s).Some?
    ensures WfStr(c, s[..ReadString(c, s).value])
  {
    StringScanOfPrefix(s, 1);
  }

  lemma {:induction false} ReadValueSound(c: Codec, s: string, depth: nat)
    requires ReadValue(c, s, depth).Some? && depth <= MAX_DEPTH
    ensures Wf(c, ReadValue(c, s, depth).value.tree, depth)
    ensures Print(ReadValue(c, s, depth).value.tree) == s[..ReadValue(c, s, depth).value.size]
    ensures ReadValue(c, s, depth).value.tree.Scalar? && ReadValue(c, s, depth).value.size < |s|
            ==> IsDelimiter(s[ReadValue(c, s, depth).value.size])
    decreases |s|, 1
  {
    hide Trivia, ClosedTrivia, Piece, StringScan, ReadEntries, WfEntries, PrintEntries, Keys;
    if s[0] == '{' || s[0] == '[' {
      ReadEntriesSound(c, s[0], s[1..], depth + 1, {});
      var p := ReadEntries(c, s[0], s[1..], depth + 1, {}).value;
      assert s[..1 + p.size] == [s[0]] + s[1..][..p.size];
    } else if s[0] == '\"' {
      ReadStringSound(c, s);
    }
  }

  lemma {:induction false} ReadNodeSound(c: Codec, s: string, depth: nat)
    requires ReadNode(c, s, depth).Some?
    ensures var p := ReadNode(c, s, depth).value;
            && ClosedTrivia(p.gap) && Wf(c, p.tree, depth)
            && p.gap + Print(p.tree) == s[..p.size]
            && (p.tree.Scalar? && p.size < |s| ==> IsDelimiter(s[p.size]))
            && (Trivia(s) == Some(0) ==> p.gap == "")
    decreases |s|, 2
  {
    hide Trivia, ClosedTrivia, Piece, StringScan, ScalarEnd, Wf, Print, ReadValue;
    var k := Trivia(s).value;
    TriviaIsClosed(s);
    ReadValueSound(c, s[k..], depth);
    var p := ReadValue(c, s[k..], depth).value;
    assert s[..k + p.size] == s[..k] + s[k..][..p.size];
  }

  lemma ReadLabelSound(c: Codec, kind: char, s: string, seen: set<string>)
    requires ReadLabel(c, kind, s, seen).Some?
    ensures var p := ReadLabel(c, kind, s, seen).value;
            if kind == '{' then
              && WfStr(c, p.keyToken) && c.unquote(p.keyToken).Some? && ClosedTrivia(p.colonGap)
              && c.unquote(p.keyToken).value !in seen
              && p.keyToken + p.colonGap + ":" == s[..p.size]
            else p == ParsedLabel("", "", 0)
  {
    hide Trivia, ClosedTrivia, Piece, StringScan, ScalarEnd, WfStr;
    if kind == '{' {
      ReadStringSound(c, s);
      var n := ReadString(c, s).value;
      TriviaIsClosed(s[n..]);
      var k := Trivia(s[n..]).value;
      assert s[..n + k + 1] == s[..n] + s[n..][..k] + [s[n + k]];
    }
  }

  lemma {:induction false} ReadItemSound(c: Codec, kind: char, s: string, depth: nat)
    requires ReadItem(c, kind, s, depth).Some?
    ensures var p := ReadItem(c, kind, s, depth).value;
            && ClosedTrivia(p.gap) && ClosedTrivia(p.post) && Wf(c, p.tree, depth)
            && p.gap + Print(p.tree) + p.post + (if p.comma then "," else "") == s[..p.size]
            && (!p.comma ==> p.size < |s| && s[p.size] == Close(kind))
            && (Trivia(s) == Some(0) ==> p.gap == "")
    decreases |s|, 3
  {
    hide Trivia, ClosedTrivia, Piece, Wf, Print, ReadNode;
    ReadNodeSound(c, s, depth);
    var node := ReadNode(c, s, depth).value;
    var after := s[node.size..];
    var j := Trivia(after).value;
    TriviaIsClosed(after);
    SplitAt(s, node.size, j);
    var p := ReadItem(c, kind, s, depth).value;
    if p.comma {
      assert s[..p.size] == s[..node.size + j] + ",";
    }
  }

  lemma EntryText(kind: char, e: Entry, lab: string, item: string)
    requires kind == '{' ==> lab == e.keyToken + e.colonGap + ":"
    requires kind != '{' ==> lab == ""
    requires item == e.valueGap + Print(e.value) + e.post + PrintComma(e)
    requires kind != '{' ==> e.valueGap == ""
    ensures PrintEntry(kind, e) == e.pre + lab + item
  {
    hide Print, PrintComma;
    if kind == '{' {
      assert PrintHead(kind, e) == e.pre + lab + e.valueGap;
    }
  }

  lemma {:induction false} ReadEntrySound(c: Codec, kind: char, s: string, k: nat, depth: nat, seen: set<string>)
    requires kind == '{' || kind == '['
    requires Trivia(s) == Some(k) && k < |s| && ReadEntry(c, kind, s, k, depth, seen).Some?
    ensures var p := ReadEntry(c, kind, s, k, depth, seen).value;
            && WfEntry(c, kind, p.entry, depth)
            && PrintEntry(kind, p.entry) == s[..p.size]
            && (kind == '{' ==> KeyOf(c, kind, p.entry) !in seen)
            && (!p.entry.comma ==> p.size < |s| && s[p.size] == Close(kind))
    decreases |s|, 4
  {
    hide Trivia, ClosedTrivia, Piece, StringScan, Wf, WfStr, Print, PrintEntry, ReadItem, ReadLabel;
    TriviaIsClosed(s);
    TriviaStops(s);
    ReadLabelSound(c, kind, s[k..], seen);
    var lab := ReadLabel(c, kind, s[k..], seen).value;
    var body := s[k..][lab.size..];
    assert lab.size == 0 ==> body == s[k..];
    ReadItemSound(c, kind, body, depth);
    var item := ReadItem(c, kind, body, depth).value;
    var e := ReadEntry(c, kind, s, k, depth, seen).value.entry;
    SplitAt(s, k, lab.size);
    SplitAt(s, k + lab.size, item.size);
    EntryText(kind, e, s[k..][..lab.size], body[..item.size]);
  }

  /** One turn of the member loop. */
  lemma ReadEntriesStep(c: Codec, kind: char, s: string, depth: nat, seen: set<string>)
    requires ReadEntries(c, kind, s, depth, seen).Some?
    requires s[Trivia(s).value] != Close(kind)
    ensures ReadEntry(c, kind, s, Trivia(s).value, depth, seen).Some?
    ensures var p := ReadEntry(c, kind, s, Trivia(s).value, depth, seen).value;
            var q := ReadEntries(c, kind, s[p.size..], depth, WithKey(c, kind, p.entry, seen));
            q.Some? && ReadEntries(c, kind, s, depth, seen).value
              == ParsedEntries([p.entry] + q.value.entries, q.value.tail, p.size + q.value.size)
  {
    hide Trivia, ReadEntry, WithKey;
  }

  lemma ReadEntriesClose(c: Codec, kind: char, tail: string, rest: string, depth: nat, seen: set<string>)
    requires kind == '{' || kind == '['
    requires ClosedTrivia(tail)
    ensures ReadEntries(c, kind, tail + [Close(kind)] + rest, depth, seen) == Some(ParsedEntries([], tail, |tail| + 1))
  {
    hide Trivia, ClosedTrivia, ReadEntry, WithKey;
    var s := tail + [Close(kind)] + rest;
    assert s == tail + ([Close(kind)] + rest);
    TriviaBefore(tail, [Close(kind)] + rest);
    SplitConcat(tail, [Close(kind)] + rest);
  }

  /** Adding a member in front of well-formed members. */
  lemma WfEntriesCons(c: Codec, kind: char, e: Entry, es: seq<Entry>, depth: nat)
    requires WfEntry(c, kind, e, depth) && WfEntries(c, kind, es, depth)
    requires es != [] ==> e.comma
    requires kind == '{' ==> KeyOf(c, kind, e) !in Keys(c, kind, es)
    ensures WfEntries(c, kind, [e] + es, depth)
    ensures PrintEntries(kind, [e] + es) == PrintEntry(kind, e) + PrintEntries(kind, es)
    ensures Keys(c, kind, [e] + es) == WithKey(c, kind, e, Keys(c, kind, es))
  {
    hide WfEntry, PrintEntry, KeyOf;
    assert ([e] + es)[1..] == es;
  }

  lemma DisjointKeys(c: Codec, kind: char, e: Entry, ks: set<string>, seen: set<string>)
    requires ks !! WithKey(c, kind, e, seen)
    requires kind == '{' ==> KeyOf(c, kind, e) !in seen
    ensures kind == '{' ==> KeyOf(c, kind, e) !in ks
    ensures ks !! seen ==> WithKey(c, kind, e, ks) !! seen
    ensures ks !! seen
  {
    hide KeyOf;
    assert kind == '{' ==> KeyOf(c, kind, e) in WithKey(c, kind, e, seen);
  }

  /** What was read is well-formed and is what the text says. */
  ghost predicate EntriesSound(c: Codec, kind: char, s: string, depth: nat, seen: set<string>, p: ParsedEntries) {
    && WfEntries(c, kind, p.entries, depth)
    && ClosedTrivia(p.tail)
    && (p.entries != [] && !p.entries[|p.entries| - 1].comma ==> p.tail == "")
    && Keys(c, kind, p.entries) !! seen
    && p.size <= |s| && PrintEntries(kind, p.entries) + p.tail + [Close(kind)] == s[..p.size]
  }

  lemma SoundCons(c: Codec, kind: char, s: string, depth: nat, seen: set<string>, e: Entry, n: nat, q: ParsedEntries)
    requires n <= |s| && WfEntry(c, kind, e, depth) && PrintEntry(kind, e) == s[..n]
    requires kind == '{' ==> KeyOf(c, kind, e) !in seen
    requires EntriesSound(c, kind, s[n..], depth, WithKey(c, kind, e, seen), q)
    requires !e.comma ==> q.entries == [] && q.tail == ""
    ensures EntriesSound(c, kind, s, depth, seen, ParsedEntries([e] + q.entries, q.tail, n + q.size))
  {
    hide Trivia, ClosedTrivia, WfEntry, WfEntries, Print, PrintEntry, PrintEntries, Keys, KeyOf, WithKey;
    DisjointKeys(c, kind, e, Keys(c, kind, q.entries), seen);
    WfEntriesCons(c, kind, e, q.entries, depth);
    SplitAt(s, n, q.size);
    Regroup(s[..n], PrintEntries(kind, q.entries), q.tail);
    Regroup(s[..n], PrintEntries(kind, q.entries) + q.tail, [Close(kind)]);
  }

  lemma SoundNil(c: Codec, kind: char, s: string, depth: nat, seen: set<string>, k: nat)
    requires k < |s| && ClosedTrivia(s[..k]) && s[k] == Close(kind)
    ensures EntriesSound(c, kind, s, depth, seen, ParsedEntries([], s[..k], k + 1))
  {
    hide ClosedTrivia;
    assert s[..k + 1] == s[..k] + [Close(kind)];
  }

  lemma {:induction false} ReadEntriesSound(c: Codec, kind: char, s: string, depth: nat, seen: set<string>)
    requires kind == '{' || kind == '['
    requires ReadEntries(c, kind, s, depth, seen).Some?
    ensures EntriesSound(c, kind, s, depth, seen, ReadEntries(c, kind, s, depth, seen).value)
    decreases |s|, 5
  {
    hide Trivia, ClosedTrivia, ReadEntry, WfEntry, Print, PrintEntry, KeyOf, EntriesSound, WithKey;
    var k := Trivia(s).value;
    TriviaIsClosed(s);
    if s[k] == Close(kind) {
      SoundNil(c, kind, s, depth, seen, k);
    } else {
      hide ReadEntries;
      ReadEntriesStep(c, kind, s, depth, seen);
      ReadEntrySound(c, kind, s, k, depth, seen);
      var p := ReadEntry(c, kind, s, k, depth, seen).value;
      var rest := s[p.size..];
      ReadEntriesSound(c, kind, rest, depth, WithKey(c, kind, p.entry, seen));
      var q := ReadEntries(c, kind, rest, depth, WithKey(c, kind, p.entry, seen)).value;
      if !p.entry.comma {
        NoTrivia();
        assert rest == "" + [Close(kind)] + rest[1..];
        ReadEntriesClose(c, kind, "", rest[1..], depth, WithKey(c, kind, p.entry, seen));
      }
      SoundCons(c, kind, s, depth, seen, p.entry, p.size, q);
    }
  }

  // Everything in the grammar is read back

  /** Nothing that follows the value can become part of it. */
  predicate Ends(t: Cst, rest: string) {
    t.Scalar? && rest != "" ==> IsDelimiter(rest[0])
  }

  lemma ReadStringComplete(c: Codec, t: string, rest: string)
    requires WfStr(c, t)
    ensures ReadString(c, t + rest) == Some(|t|)
  {
    StringScanPrefix(t, rest, 1);
    assert (t + rest)[..|t|] == t;
  }

  lemma {:induction false} ReadValueComplete(c: Codec, t: Cst, depth: nat, rest: string)
    requires Wf(c, t, depth) && Ends(t, rest)
    ensures ReadValue(c, Print(t) + rest, depth) == Some(ParsedValue(t, |Print(t)|))
    decreases t, 1
  {
    hide Trivia, ClosedTrivia, Piece, StringScan, ScalarEnd, WfEntries, PrintEntries, ReadEntries, Keys;
    var s := Print(t) + rest;
    match t
    case Scalar(token) =>
      ScalarEndUnique(s, |token|);
      assert s[..|token|] == token;
    case Str(token) =>
      ReadStringComplete(c, token, rest);
      assert s[..|token|] == token;
    case Container(kind, entries, tail) =>
      ReadEntriesComplete(c, kind, entries, tail, depth + 1, {}, rest);
      assert s[0] == kind;
      assert s[1..] == PrintEntries(kind, entries) + (tail + [Close(kind)] + rest);
  }

  lemma {:induction false} ReadNodeComplete(c: Codec, gap: string, t: Cst, depth: nat, rest: string)
    requires ClosedTrivia(gap) && Wf(c, t, depth) && Ends(t, rest)
    ensures ReadNode(c, gap + (Print(t) + rest), depth) == Some(ParsedNode(gap, t, |gap| + |Print(t)|))
    decreases t, 2
  {
    hide Trivia, ClosedTrivia, StopsTrivia, Wf, Print, ReadValue;
    PrintStarts(c, t, depth);
    assert StopsTrivia(Print(t) + rest) by {
      StopsAppend(Print(t), rest);
    }
    TriviaBefore(gap, Print(t) + rest);
    ReadValueComplete(c, t, depth, rest);
    SplitConcat(gap, Print(t) + rest);
  }

  lemma ReadLabelComplete(c: Codec, kind: char, e: Entry, seen: set<string>, rest: string)
    requires kind == '{' && WfLabel(c, kind, e) && KeyOf(c, kind, e) !in seen
    ensures ReadLabel(c, kind, e.keyToken + (e.colonGap + (":" + rest)), seen)
         == Some(ParsedLabel(e.keyToken, e.colonGap, |e.keyToken| + |e.colonGap| + 1))
  {
    hide Trivia, ClosedTrivia, ReadString;
    var after := e.colonGap + (":" + rest);
    assert WfStr(c, e.keyToken);
    ReadStringComplete(c, e.keyToken, after);
    TriviaBefore(e.colonGap, ":" + rest);
    SplitConcat(e.keyToken, after);
    SplitConcat(e.colonGap, ":" + rest);
  }

  lemma StopsAppend(a: string, b: string)
    requires StopsTrivia(a)
    ensures StopsTrivia(a + b)
  {}

  lemma CommaStart(kind: char, e: Entry, rest: string)
    requires kind == '{' || kind == '['
    requires !e.comma ==> rest != "" && rest[0] == Close(kind)
    ensures |PrintComma(e)| == if e.comma then 1 else 0
    ensures var last := PrintComma(e) + rest;
            StopsTrivia(last) && IsDelimiter(last[0]) && last[0] == if e.comma then ',' else Close(kind)
  {}

  lemma AfterValue(post: string, last: string)
    requires ClosedTrivia(post) && last != "" && IsDelimiter(last[0])
    ensures IsDelimiter((post + last)[0])
  {
    if post == "" {
      assert post + last == last;
    } else {
      ClosedTriviaStart(post);
    }
  }

  lemma {:induction false} ReadItemComplete(c: Codec, kind: char, e: Entry, depth: nat, rest: string)
    requires kind == '{' || kind == '['
    requires WfEntry(c, kind, e, depth)
    requires !e.comma ==> rest != "" && rest[0] == Close(kind)
    ensures ReadItem(c, kind, e.valueGap + (Print(e.value) + (e.post + (PrintComma(e) + rest))), depth)
         == Some(ParsedItem(e.valueGap, e.value, e.post, e.comma, |e.valueGap| + |Print(e.value)| + |e.post| + |PrintComma(e)|))
    decreases e, 3
  {
    hide Trivia, ClosedTrivia, Piece, WfStr, Wf, Print, ReadNode, ReadItem, PrintComma, IsDelimiter, StopsTrivia;
    var last := PrintComma(e) + rest;
    CommaStart(kind, e, rest);
    var after := e.post + last;
    AfterValue(e.post, last);
    NoTrivia();
    ReadNodeComplete(c, e.valueGap, e.value, depth, after);
    var s := e.valueGap + (Print(e.value) + after);
    DropTwo(e.valueGap, Print(e.value), after);
    TriviaBefore(e.post, last);
    var node := ParsedNode(e.valueGap, e.value, |e.valueGap| + |Print(e.value)|);
    ReadItemMade(c, kind, e.valueGap + (Print(e.value) + after), depth, node, e.post, last);
  }

  lemma ReadItemMade(c: Codec, kind: char, s: string, depth: nat, node: ParsedNode, post: string, last: string)
    requires ReadNode(c, s, depth) == Some(node)
    requires s[node.size..] == post + last && Trivia(post + last) == Some(|post|)
    requires last != "" && (last[0] == ',' || last[0] == Close(kind))
    ensures ReadItem(c, kind, s, depth) == Some(ParsedItem(node.gap, node.tree, post, last[0] == ',',
      node.size + |post| + if last[0] == ',' then 1 else 0))
  {
    hide Trivia, ReadNode;
    SplitConcat(post, last);
  }

  /** The text of a member, piece by piece. */
  function Pieces(kind: char, e: Entry, rest: string): string {
    var item := e.valueGap + (Print(e.value) + (e.post + (PrintComma(e) + rest)));
    if kind == '{' then e.keyToken + (e.colonGap + (":" + item)) else Print(e.value) + (e.post + (PrintComma(e) + rest))
  }

  lemma EntrySize(kind: char, e: Entry)
    ensures |PrintEntry(kind, e)| == |e.pre| + (if kind == '{' then |e.keyToken| + |e.colonGap| + 1 + |e.valueGap| else 0)
                                   + |Print(e.value)| + |e.post| + |PrintComma(e)|
  {
    hide Print, PrintComma;
  }

  lemma PrintEntryPieces(c: Codec, kind: char, e: Entry, rest: string)
    requires WfLabel(c, kind, e)
    ensures PrintEntry(kind, e) + rest == e.pre + Pieces(kind, e, rest)
  {
    hide Print, PrintComma, ClosedTrivia, WfStr;
  }

  lemma {:induction false} ReadEntryComplete(c: Codec, kind: char, e: Entry, depth: nat, seen: set<string>, rest: string)
    requires kind == '{' || kind == '['
    requires WfEntry(c, kind, e, depth)
    requires kind == '{' ==> KeyOf(c, kind, e) !in seen
    requires !e.comma ==> rest != "" && rest[0] == Close(kind)
    ensures ReadEntry(c, kind, e.pre + Pieces(kind, e, rest), |e.pre|, depth, seen)
         == Some(ParsedEntry(e, |PrintEntry(kind, e)|))
    decreases e, 4
  {
    hide Trivia, ClosedTrivia, Wf, WfStr, Print, PrintEntry, ReadItem, PrintComma, KeyOf;
    EntrySize(kind, e);
    var own := Pieces(kind, e, rest);
    SplitConcat(e.pre, own);
    ReadItemComplete(c, kind, e, depth, rest);
    var item := e.valueGap + (Print(e.value) + (e.post + (PrintComma(e) + rest)));
    if kind == '{' {
      hide ReadLabel;
      ReadLabelComplete(c, kind, e, seen, item);
      var lab := e.keyToken + e.colonGap + ":";
      Regroup(e.keyToken, e.colonGap, ":" + item);
      Regroup(e.keyToken + e.colonGap, ":", item);
      SplitConcat(lab, item);
    } else {
      assert own == item;
      assert own[0..] == own;
    }
  }

  lemma PiecesStart(c: Codec, kind: char, e: Entry, depth: nat, rest: string)
    requires kind == '{' || kind == '['
    requires WfEntry(c, kind, e, depth)
    ensures StopsTrivia(Pieces(kind, e, rest)) && Pieces(kind, e, rest)[0] != Close(kind)
  {
    PrintStarts(c, e.value, depth);
    hide Print, Wf, PrintComma, ClosedTrivia, StringScan;
  }

  lemma KeysFirst(c: Codec, kind: char, es: seq<Entry>)
    requires es != []
    ensures Keys(c, kind, es) == WithKey(c, kind, es[0], Keys(c, kind, es[1..]))
  {
    hide KeyOf;
    assert es == [es[0]] + es[1..];
  }

  lemma {:induction false} ReadEntriesComplete(c: Codec, kind: char, es: seq<Entry>, tail: string, depth: nat, seen: set<string>, rest: string)
    requires kind == '{' || kind == '['
    requires WfEntries(c, kind, es, depth) && ClosedTrivia(tail)
    requires es != [] && !es[|es| - 1].comma ==> tail == ""
    requires Keys(c, kind, es) !! seen
    ensures ReadEntries(c, kind, PrintEntries(kind, es) + (tail + [Close(kind)] + rest), depth, seen)
         == Some(ParsedEntries(es, tail, |PrintEntries(kind, es)| + |tail| + 1))
    decreases es, 5
  {
    hide Trivia, ClosedTrivia, ReadEntry, ReadEntries, WfEntry, WfEntries, Print, PrintEntry, PrintEntries, KeyOf, Keys;
    var close := tail + [Close(kind)] + rest;
    EntriesFirst(c, kind, es, depth);
    if es == [] {
      assert PrintEntries(kind, es) + close == close;
      ReadEntriesClose(c, kind, tail, rest, depth, seen);
    } else {
      var e := es[0];
      var after := PrintEntries(kind, es[1..]) + close;
      KeysFirst(c, kind, es);
      if !e.comma {
        EntriesFirst(c, kind, es[1..], depth);
        assert "" + close == close == [Close(kind)] + rest;
      }
      MemberFirst(c, kind, e, depth, seen, after);
      Regroup(PrintEntry(kind, e), PrintEntries(kind, es[1..]), close);
      ReadEntriesComplete(c, kind, es[1..], tail, depth, WithKey(c, kind, e, seen), rest);
      SplitConcat(PrintEntry(kind, e), after);
      ReadEntriesMember(c, kind, PrintEntry(kind, e) + after, depth, seen);
      assert [e] + es[1..] == es;
    }
  }

  lemma EntriesFirst(c: Codec, kind: char, es: seq<Entry>, depth: nat)
    requires WfEntries(c, kind, es, depth)
    ensures es == [] ==> PrintEntries(kind, es) == ""
    ensures es != [] ==>
      && WfEntry(c, kind, es[0], depth)
      && WfEntries(c, kind, es[1..], depth)
      && (!es[0].comma ==> es[1..] == [])
      && (kind == '{' ==> KeyOf(c, kind, es[0]) !in Keys(c, kind, es[1..]))
      && PrintEntries(kind, es) == PrintEntry(kind, es[0]) + PrintEntries(kind, es[1..])
  {
    hide WfEntry, PrintEntry, KeyOf, Keys;
  }

  /** One turn of the member loop, the other way round. */
  lemma ReadEntriesMember(c: Codec, kind: char, s: string, depth: nat, seen: set<string>)
    requires Trivia(s).Some? && Trivia(s).value < |s| && s[Trivia(s).value] != Close(kind)
    requires ReadEntry(c, kind, s, Trivia(s).value, depth, seen).Some?
    requires var p := ReadEntry(c, kind, s, Trivia(s).value, depth, seen).value;
             ReadEntries(c, kind, s[p.size..], depth, WithKey(c, kind, p.entry, seen)).Some?
    ensures var p := ReadEntry(c, kind, s, Trivia(s).value, depth, seen).value;
            var q := ReadEntries(c, kind, s[p.size..], depth, WithKey(c, kind, p.entry, seen)).value;
            ReadEntries(c, kind, s, depth, seen) == Some(ParsedEntries([p.entry] + q.entries, q.tail, p.size + q.size))
  {
    hide Trivia, ReadEntry, WithKey;
  }

  lemma {:induction false} MemberFirst(c: Codec, kind: char, e: Entry, depth: nat, seen: set<string>, after: string)
    requires kind == '{' || kind == '['
    requires WfEntry(c, kind, e, depth)
    requires kind == '{' ==> KeyOf(c, kind, e) !in seen
    requires !e.comma ==> after != "" && after[0] == Close(kind)
    ensures var s := PrintEntry(kind, e) + after;
            && Trivia(s) == Some(|e.pre|) && |e.pre| < |s| && s[|e.pre|] != Close(kind)
            && ReadEntry(c, kind, s, |e.pre|, depth, seen) == Some(ParsedEntry(e, |PrintEntry(kind, e)|))
    decreases e, 5
  {
    hide Trivia, ClosedTrivia, ReadEntry, Wf, WfStr, Print, PrintEntry, Pieces, KeyOf;
    PrintEntryPieces(c, kind, e, after);
    ReadEntryComplete(c, kind, e, depth, seen, after);
    PiecesStart(c, kind, e, depth, after);
    TriviaBefore(e.pre, Pieces(kind, e, after));
  }

  // The two directions together

  lemma DocSound(c: Codec, raw: string)
    requires ReadDoc(c, raw).Some?
    ensures WfDoc(c, ReadDoc(c, raw).value) && PrintDoc(ReadDoc(c, raw).value) == raw
  {
    hide Trivia, ClosedTrivia, Wf, Print, ReadNode, AfterBom, PrintDoc;
    BomStrip(raw);
    var s := AfterBom(raw);
    ReadNodeSound(c, s, 0);
    var p := ReadNode(c, s, 0).value;
    SplitAt(s, p.size, |s| - p.size);
    DocText(ReadDoc(c, raw).value);
  }

  lemma DocText(d: Doc)
    ensures PrintDoc(d) == (if d.bom then BOM else "") + (d.lead + Print(d.root) + d.tail)
    ensures PrintDoc(d) == (if d.bom then BOM else "") + (d.lead + (Print(d.root) + d.tail))
  {
    hide Print;
    Regroup(d.lead, Print(d.root), d.tail);
    var front := if d.bom then BOM else "";
    Regroup(front, d.lead, Print(d.root));
    Regroup(front, d.lead + Print(d.root), d.tail);
  }

  lemma DocStart(c: Codec, d: Doc)
    requires WfDoc(c, d)
    ensures var s := d.lead + (Print(d.root) + d.tail); s != "" && s[0] != BOM[0]
  {
    hide Trivia;
  }

  lemma DocComplete(c: Codec, d: Doc)
    requires WfDoc(c, d)
    ensures ReadDoc(c, PrintDoc(d)) == Some(d)
  {
    hide Trivia, ClosedTrivia, Wf, Print, ReadNode, AfterBom, PrintDoc;
    var s := d.lead + (Print(d.root) + d.tail);
    DocText(d);
    DocStart(c, d);
    BomPrefix(s);
    ReadNodeComplete(c, d.lead, d.root, 0, d.tail);
    DropTwo(d.lead, Print(d.root), d.tail);
  }

  /** The parser accepts exactly the printed forms of well-formed documents. */
  lemma ParserDecidesGrammar(c: Codec, raw: string)
    ensures ReadDoc(c, raw).Some? <==> exists d :: WfDoc(c, d) && PrintDoc(d) == raw
  {
    if ReadDoc(c, raw).Some? {
      DocSound(c, raw);
    } else if d :| WfDoc(c, d) && PrintDoc(d) == raw {
      DocComplete(c, d);
    }
  }

  /** No text has two readings. */
  lemma GrammarUnambiguous(c: Codec, d: Doc, e: Doc)
    requires WfDoc(c, d) && WfDoc(c, e) && PrintDoc(d) == PrintDoc(e)
    ensures d == e
  {
    DocComplete(c, d);
    DocComplete(c, e);
  }
}
