/**
 * The installer's recursive-descent parser. It walks a position over the text
 * and records byte spans; it is proved to find the spans of the tree that the
 * grammar assigns to the text.
 */
module JsonParser {
  import opened Options
  import opened JsonText
  import opened JsonTree
  import opened JsonGrammar

  /** A member: its key, its first byte, its value, and the offset of its comma or -1. */
  datatype JsonMember = JsonMember(key: string, start: nat, value: JsonNode, comma: int)

  /** A value: its span, its first byte and, for objects and arrays, its members. */
  datatype JsonNode = JsonNode(start: nat, end: nat, kind: char, members: seq<JsonMember>)

  /** Something read from the text, and the offset where its text ends. */
  datatype NodeRead = NodeRead(node: JsonNode, end: nat)
  datatype ItemRead = ItemRead(node: JsonNode, comma: int, end: nat)
  datatype MemberRead = MemberRead(member: JsonMember, end: nat)

  function Kind(t: Cst): char {
    match t
    case Scalar(token) => if token == "" then ' ' else token[0]
    case Str(_) => '\"'
    case Container(kind, _, _) => kind
  }

  /** The spans of a tree whose first byte is at the given offset. */
  function Spans(c: Codec, t: Cst, at: nat): (n: JsonNode)
    decreases t, 0
  {
    JsonNode(at, at + |Print(t)|, Kind(t),
      match t
      case Container(kind, entries, _) => SpanEntries(c, kind, entries, at + 1)
      case _ => [])
  }

  function SpanEntries(c: Codec, kind: char, es: seq<Entry>, at: nat): (ms: seq<JsonMember>)
    ensures |ms| == |es|
    decreases es, 0
  {
    if es == [] then []
    else [SpanEntry(c, kind, es[0], at)] + SpanEntries(c, kind, es[1..], at + |PrintEntry(kind, es[0])|)
  }

  function SpanEntry(c: Codec, kind: char, e: Entry, at: nat): JsonMember
    decreases e, 0
  {
    JsonMember(KeyOf(c, kind, e), at + |e.pre|, Spans(c, e.value, at + |PrintHead(kind, e)|),
      if e.comma then at + |PrintEntry(kind, e)| - 1 else -1)
  }

  /** The byte order mark counts as trivia at the very start only. */
  function SkipBom(raw: string, pos: nat): (p: nat)
    ensures p >= pos
    ensures pos <= |raw| ==> p <= |raw|
    ensures pos > 0 ==> p == pos
  {
    if pos == 0 && BOM <= raw then 3 else pos
  }

  /** Where the trivia at this position ends. */
  function TriviaAt(raw: string, pos: nat): (p: Option<nat>)
    requires pos <= |raw|
    ensures p.Some? ==> pos <= p.value <= |raw|
  {
    Plus(SkipBom(raw, pos), Trivia(raw[SkipBom(raw, pos)..]))
  }

  /** The value that starts, after trivia, at this position, and where it ends. */
  function NodeAt(c: Codec, raw: string, pos: nat, depth: nat): (r: Option<NodeRead>)
    requires pos <= |raw|
    ensures r.Some? ==> pos < r.value.end <= |raw|
  {
    var p := SkipBom(raw, pos);
    match ReadNode(c, raw[p..], depth)
    case None => None
    case Some(n) => Some(NodeRead(Spans(c, n.tree, p + |n.gap|), p + n.size))
  }

  function LabelKey(c: Codec, kind: char, p: ParsedLabel): string {
    if kind == '{' && c.unquote(p.keyToken).Some? then c.unquote(p.keyToken).value else ""
  }

  /** A member's value at this position, the offset of its comma, and where its text ends. */
  function ItemAt(c: Codec, kind: char, raw: string, pos: nat, depth: nat): (r: Option<ItemRead>)
    requires pos <= |raw|
    ensures r.Some? ==> pos < r.value.end <= |raw|
  {
    match ReadItem(c, kind, raw[pos..], depth)
    case None => None
    case Some(p) =>
      Some(ItemRead(Spans(c, p.tree, pos + |p.gap|), if p.comma then pos + p.size - 1 else -1, pos + p.size))
  }

  /** The member whose first byte is at this position, and where its text ends. */
  function MemberAt(c: Codec, kind: char, raw: string, pos: nat, depth: nat, seen: set<string>): (r: Option<MemberRead>)
    requires pos <= |raw|
    ensures r.Some? ==> pos < r.value.end <= |raw|
  {
    match ReadLabel(c, kind, raw[pos..], seen)
    case None => None
    case Some(lab) =>
      match ItemAt(c, kind, raw, pos + lab.size, depth)
      case None => None
      case Some(i) => Some(MemberRead(JsonMember(LabelKey(c, kind, lab), pos, i.node, i.comma), i.end))
  }

  lemma ItemSteps(c: Codec, kind: char, raw: string, pos: nat, depth: nat)
    requires 0 < pos <= |raw|
    ensures ItemAt(c, kind, raw, pos, depth) ==
      match NodeAt(c, raw, pos, depth)
      case None => None
      case Some(n) =>
        match TriviaAt(raw, n.end)
        case None => None
        case Some(q) =>
          if q < |raw| && raw[q] == ',' then Some(ItemRead(n.node, q, q + 1))
          else if q < |raw| && raw[q] == Close(kind) then Some(ItemRead(n.node, -1, q))
          else None
  {
    hide Trivia, ReadNode, Spans;
    var s := raw[pos..];
    match ReadNode(c, s, depth)
    case None =>
    case Some(node) =>
      assert s[node.size..] == raw[pos + node.size..];
  }

  /** The spans of an accepted text. */
  function ParseSpans(c: Codec, raw: string): Option<JsonNode> {
    match ReadDoc(c, raw)
    case None => None
    case Some(d) => Some(Spans(c, d.root, |if d.bom then BOM else ""| + |d.lead|))
  }

  /**
   * The members read so far, together with those the remaining text still
   * yields, are all the members of the container.
   */
  ghost predicate Resumes(c: Codec, kind: char, whole: Option<ParsedEntries>, base: nat,
                          members: seq<JsonMember>, rest: Option<ParsedEntries>, pos: nat)
  {
    match rest
    case None => whole.None?
    case Some(q) =>
      && whole.Some?
      && SpanEntries(c, kind, whole.value.entries, base) == members + SpanEntries(c, kind, q.entries, pos)
      && base + whole.value.size == pos + q.size
  }

  lemma HeadSize(kind: char, e: Entry)
    ensures |PrintHead(kind, e)| == |e.pre| + if kind == '{' then |e.keyToken| + |e.colonGap| + 1 + |e.valueGap| else 0
  {}

  /** A read entry takes the bytes it prints to, and its value starts after its head. */
  lemma EntryParts(c: Codec, kind: char, s: string, k: nat, depth: nat, seen: set<string>)
    requires kind == '{' || kind == '['
    requires Trivia(s) == Some(k) && k < |s| && ReadEntry(c, kind, s, k, depth, seen).Some?
    ensures var p := ReadEntry(c, kind, s, k, depth, seen).value;
            var lab := ReadLabel(c, kind, s[k..], seen);
            && |PrintEntry(kind, p.entry)| == p.size
            && lab.Some? && p.entry.pre == s[..k] && p.entry.keyToken == lab.value.keyToken
            && |PrintHead(kind, p.entry)| == k + lab.value.size + |p.entry.valueGap|
  {
    hide Trivia, ClosedTrivia, Piece, StringScan, WfStr, Wf, ReadItem, ReadLabel, Print, PrintEntry, PrintHead, KeyOf;
    ReadEntrySound(c, kind, s, k, depth, seen);
    ReadLabelSound(c, kind, s[k..], seen);
    HeadSize(kind, ReadEntry(c, kind, s, k, depth, seen).value.entry);
  }

  /** The member read at a position is the span of the entry read before its trivia. */
  lemma MemberOfEntry(c: Codec, kind: char, raw: string, at: nat, depth: nat, seen: set<string>)
    requires kind == '{' || kind == '['
    requires at <= |raw|
    requires Trivia(raw[at..]).Some? && Trivia(raw[at..]).value < |raw| - at
    ensures var k := Trivia(raw[at..]).value;
            match ReadEntry(c, kind, raw[at..], k, depth, seen)
            case None => MemberAt(c, kind, raw, at + k, depth, seen).None?
            case Some(p) =>
              && MemberAt(c, kind, raw, at + k, depth, seen) == Some(MemberRead(SpanEntry(c, kind, p.entry, at), at + p.size))
              && |PrintEntry(kind, p.entry)| == p.size
              && (kind == '{' ==> KeyOf(c, kind, p.entry) == SpanEntry(c, kind, p.entry, at).key)
  {
    hide Trivia, ClosedTrivia, Piece, StringScan, WfStr, Wf, ReadItem, ReadLabel, Spans, Print, PrintEntry, PrintHead;
    var s := raw[at..];
    var k := Trivia(s).value;
    assert s[k..] == raw[at + k..];
    match ReadLabel(c, kind, s[k..], seen)
    case None =>
    case Some(lab) =>
      assert s[k..][lab.size..] == raw[at + k + lab.size..];
      match ReadItem(c, kind, s[k..][lab.size..], depth)
      case None =>
      case Some(p) =>
        EntryParts(c, kind, s, k, depth, seen);
  }

  lemma ResumesStep(c: Codec, kind: char, whole: Option<ParsedEntries>, base: nat, members: seq<JsonMember>,
                    raw: string, pos: nat, depth: nat, seen: set<string>)
    requires kind == '{' || kind == '['
    requires pos <= |raw|
    requires var s := raw[pos..];
             && Resumes(c, kind, whole, base, members, ReadEntries(c, kind, s, depth, seen), pos)
             && Trivia(s).Some? && Trivia(s).value < |s| && s[Trivia(s).value] != Close(kind)
    ensures match MemberAt(c, kind, raw, pos + Trivia(raw[pos..]).value, depth, seen)
            case None => whole.None?
            case Some(m) =>
              Resumes(c, kind, whole, base, members + [m.member],
                ReadEntries(c, kind, raw[m.end..], depth, if kind == '{' then seen + {m.member.key} else seen), m.end)
  {
    hide Trivia, ReadEntry, ReadEntries, SpanEntry, PrintEntry, MemberAt, KeyOf;
    var s := raw[pos..];
    var k := Trivia(s).value;
    MemberOfEntry(c, kind, raw, pos, depth, seen);
    match ReadEntry(c, kind, s, k, depth, seen)
    case None =>
      ReadEntriesFails(c, kind, s, depth, seen);
    case Some(p) =>
      assert s[p.size..] == raw[pos + p.size..];
      var next := WithKey(c, kind, p.entry, seen);
      match ReadEntries(c, kind, s[p.size..], depth, next)
      case None =>
        ReadEntriesFails(c, kind, s, depth, seen);
      case Some(q) =>
        ReadEntriesMember(c, kind, s, depth, seen);
        var all := [p.entry] + q.entries;
        assert all[1..] == q.entries;
        var m := SpanEntry(c, kind, p.entry, pos);
        var later := SpanEntries(c, kind, q.entries, pos + p.size);
        assert SpanEntries(c, kind, all, pos) == [m] + later;
        assert members + ([m] + later) == members + [m] + later;
  }

  lemma ReadEntriesFails(c: Codec, kind: char, s: string, depth: nat, seen: set<string>)
    requires Trivia(s).Some? && Trivia(s).value < |s| && s[Trivia(s).value] != Close(kind)
    requires match ReadEntry(c, kind, s, Trivia(s).value, depth, seen)
             case None => true
             case Some(p) => ReadEntries(c, kind, s[p.size..], depth, WithKey(c, kind, p.entry, seen)).None?
    ensures ReadEntries(c, kind, s, depth, seen).None?
  {
    hide Trivia, ReadEntry, WithKey;
  }

  /** How the member loop ends: without a member to read, it closes or it fails. */
  lemma ReadEntriesStops(c: Codec, kind: char, s: string, depth: nat, seen: set<string>)
    requires match Trivia(s)
             case None => true
             case Some(k) => k == |s| || s[k] == Close(kind)
    ensures match Trivia(s)
            case None => ReadEntries(c, kind, s, depth, seen).None?
            case Some(k) =>
              if k == |s| then ReadEntries(c, kind, s, depth, seen).None?
              else ReadEntries(c, kind, s, depth, seen) == Some(ParsedEntries([], s[..k], k + 1))
  {
    hide Trivia, ReadEntry;
  }

  lemma TriviaNone()
    ensures JsonText.Trivia("") == Some(0)
  {}

  lemma TriviaStep(raw: string, pos: nat)
    requires pos < |raw|
    ensures var s := raw[pos..];
      && (raw[pos] != '/' ==> !OpensLineComment(s) && !OpensBlockComment(s))
      && (IsSpace(raw[pos]) ==> JsonText.Trivia(s) == Plus(1, JsonText.Trivia(raw[pos + 1..])))
      && (OpensLineComment(s) ==>
            LineEnd(s) > 0 && JsonText.Trivia(s) == Plus(LineEnd(s), JsonText.Trivia(raw[pos + LineEnd(s)..])))
      && (OpensBlockComment(s) ==> pos + 2 <= |raw|)
      && (OpensBlockComment(s) ==>
            match BlockEnd(raw[pos + 2..])
            case None => JsonText.Trivia(s) == None
            case Some(n) => pos + 2 + n <= |raw| && JsonText.Trivia(s) == Plus(2 + n, JsonText.Trivia(raw[pos + 2 + n..])))
      && (!IsSpace(raw[pos]) && !OpensLineComment(s) && !OpensBlockComment(s) ==> JsonText.Trivia(s) == Some(0))
  {
    var s := raw[pos..];
    assert s[1..] == raw[pos + 1..];
    if OpensLineComment(s) {
      assert s[LineEnd(s)..] == raw[pos + LineEnd(s)..];
    } else if OpensBlockComment(s) {
      assert s[2..] == raw[pos + 2..];
      match BlockEnd(s[2..])
      case None =>
      case Some(n) => assert s[n + 2..] == raw[pos + 2 + n..];
    }
  }

  /**
   * What reading a string at the front of s answers and takes: the decoded text up to
   * the first unescaped quote, and nothing when there is no such quote.
   */
  ghost predicate TokenTaken(c: Codec, s: string, r: Option<string>, n: int) {
    if s != "" && s[0] == '\"' then
      && (forall j: nat :: FirstClose(s, 1, j) ==> j < |s| && r == c.unquote(s[..j + 1]) && (r.Some? ==> n == j + 1))
      && ((forall j: nat :: !FirstClose(s, 1, j)) ==> r.None?)
    else r.None?
  }

  lemma TokenIs(c: Codec, s: string)
    ensures match ReadString(c, s)
            case None => TokenTaken(c, s, None, 0)
            case Some(n) => TokenTaken(c, s, c.unquote(s[..n]), n)
  {
    if s != "" && s[0] == '\"' {
      StringScanIs(s, 1);
      match StringScan(s, 1)
      case None =>
      case Some(n) => assert FirstClose(s, 1, n - 1);
    }
  }

  class Parser {
    const codec: Codec
    const raw: string
    var pos: nat

    constructor (codec: Codec, raw: string)
      ensures this.codec == codec && this.raw == raw && pos == 0
    {
      this.codec, this.raw := codec, raw;
      pos := 0;
    }

    method Trivia() returns (ok: bool)
      requires pos <= |raw|
      modifies this`pos
      ensures match TriviaAt(raw, old(pos)) case None => !ok case Some(p) => ok && pos == p
    {
      hide JsonText.Trivia;
      if pos == 0 && BOM <= raw {
        pos := 3;
      }
      ok := BlanksAndComments();
    }

    method BlanksAndComments() returns (ok: bool)
      requires pos <= |raw|
      modifies this`pos
      ensures match Plus(old(pos), JsonText.Trivia(raw[old(pos)..]))
              case None => !ok
              case Some(p) => ok && pos == p <= |raw|
    {
      hide JsonText.Trivia, LineEnd, BlockEnd, IsSpace, OpensLineComment, OpensBlockComment;
      ghost var goal := Plus(pos, JsonText.Trivia(raw[pos..]));
      while pos < |raw|
        invariant pos <= |raw|
        invariant goal == Plus(pos, JsonText.Trivia(raw[pos..]))
        decreases |raw| - pos
      {
        TriviaStep(raw, pos);
        if IsSpace(raw[pos]) {
          pos := pos + 1;
        } else if raw[pos] == '/' {
          if OpensLineComment(raw[pos..]) {
            pos := pos + LineEnd(raw[pos..]);
          } else if OpensBlockComment(raw[pos..]) {
            var end := BlockEnd(raw[pos + 2..]);
            if end.None? {
              return false;
            }
            pos := pos + 2 + end.value;
          } else {
            return true;
          }
        } else {
          return true;
        }
      }
      assert raw[pos..] == "";
      TriviaNone();
      return true;
    }

    method StringToken() returns (s: Option<string>)
      requires pos <= |raw|
      modifies this`pos
      ensures match ReadString(codec, raw[old(pos)..])
              case None => s.None?
              case Some(n) => s.Some? && s == codec.unquote(raw[old(pos)..][..n]) && pos == old(pos) + n
      ensures TokenTaken(codec, raw[old(pos)..], s, pos - old(pos))
    {
      var start := pos;
      TokenIs(codec, raw[start..]);
      if start >= |raw| || raw[start] != '\"' {
        return None;
      }
      pos := pos + 1;
      while pos < |raw|
        invariant start < pos
        invariant StringScan(raw[start..], 1) == StringScan(raw[start..], pos - start)
        decreases |raw| - pos
      {
        var c := raw[pos];
        pos := pos + 1;
        if c == '\\' {
          pos := pos + 1;
          continue;
        }
        if c == '\"' {
          assert raw[start..pos] == raw[start..][..pos - start];
          return codec.unquote(raw[start..pos]);
        }
      }
      return None;
    }

    /** The key and colon of a member; nothing in an array. */
    method Label(kind: char, seen: set<string>) returns (key: Option<string>)
      requires 0 < pos <= |raw|
      modifies this`pos
      ensures match ReadLabel(codec, kind, raw[old(pos)..], seen)
              case None => key.None?
              case Some(p) => key == Some(LabelKey(codec, kind, p)) && pos == old(pos) + p.size
    {
      hide JsonText.Trivia, ReadString;
      if kind != '{' {
        return Some("");
      }
      ghost var start := pos;
      ghost var s := raw[start..];
      var token := StringToken();
      if token.None? || token.value in seen {
        return None;
      }
      ghost var n := pos - start;
      assert raw[pos..] == s[n..];
      var ok := Trivia();
      if !ok || pos >= |raw| {
        return None;
      }
      assert raw[pos] == s[pos - start];
      if raw[pos] != ':' {
        return None;
      }
      pos := pos + 1;
      return token;
    }

    /** One turn of the member loop, from the first byte of the member. */
    method Member(kind: char, depth: nat, seen: set<string>) returns (r: Option<JsonMember>)
      requires kind == '{' || kind == '['
      requires 0 < pos <= |raw|
      modifies this`pos
      ensures match MemberAt(codec, kind, raw, old(pos), depth, seen)
              case None => r.None?
              case Some(m) => r == Some(m.member) && pos == m.end
      decreases |raw| - pos, 1
    {
      hide JsonText.Trivia, ReadLabel, ReadNode, Spans, LabelKey, ItemAt;
      var start := pos;
      var key := Label(kind, seen);
      if key.None? {
        return None;
      }
      ghost var v := pos;
      ItemSteps(codec, kind, raw, v, depth);
      var child := Node(depth);
      if child.None? {
        return None;
      }
      var ok := Trivia();
      if !ok || pos >= |raw| {
        return None;
      }
      var comma: int := -1;
      if raw[pos] == ',' {
        comma := pos;
        pos := pos + 1;
      } else if raw[pos] != Close(kind) {
        return None;
      }
      r := Some(JsonMember(key.value, start, child.value, comma));
    }

    /** The member loop, from just after the opening bracket. */
    method Members(kind: char, depth: nat) returns (r: Option<seq<JsonMember>>)
      requires kind == '{' || kind == '['
      requires 0 < pos <= |raw|
      modifies this`pos
      ensures match ReadEntries(codec, kind, raw[old(pos)..], depth, {})
              case None => r.None?
              case Some(p) => r == Some(SpanEntries(codec, kind, p.entries, old(pos))) && pos == old(pos) + p.size
      decreases |raw| - pos, 2
    {
      hide JsonText.Trivia, ReadEntries, MemberAt, SpanEntry;
      var members: seq<JsonMember> := [];
      var close := if kind == '[' then ']' else '}';
      var seen: set<string> := {};
      ghost var base := pos;
      ghost var whole := ReadEntries(codec, kind, raw[base..], depth, {});
      while true
        invariant base <= pos <= |raw|
        invariant Resumes(codec, kind, whole, base, members, ReadEntries(codec, kind, raw[pos..], depth, seen), pos)
        decreases |raw| - pos
      {
        ghost var at := pos;
        ghost var rest := raw[at..];
        var ok := Trivia();
        if !ok || pos >= |raw| {
          ReadEntriesStops(codec, kind, rest, depth, seen);
          return None;
        }
        assert raw[pos] == rest[pos - at];
        if raw[pos] == close {
          pos := pos + 1;
          ReadEntriesStops(codec, kind, rest, depth, seen);
          assert members + [] == members;
          return Some(members);
        }
        ResumesStep(codec, kind, whole, base, members, raw, at, depth, seen);
        var member := Member(kind, depth, seen);
        if member.None? {
          return None;
        }
        if kind == '{' {
          seen := seen + {member.value.key};
        }
        members := members + [member.value];
      }
    }

    method Scalar() returns (ok: bool)
      requires pos < |raw|
      modifies this`pos
      ensures var s := raw[old(pos)..]; var n := ScalarEnd(s);
              && pos == old(pos) + n
              && ok == (n > 0 && codec.validScalar(s[..n]))
    {
      ghost var s := raw[pos..];
      var start := pos;
      while pos < |raw| && !IsDelimiter(raw[pos])
        invariant start <= pos <= |raw|
        invariant forall j :: 0 <= j < pos - start ==> !IsDelimiter(s[j])
      {
        assert s[pos - start] == raw[pos];
        pos := pos + 1;
      }
      assert pos < |raw| ==> s[pos - start] == raw[pos];
      ScalarEndUnique(s, pos - start);
      var token := raw[start..pos];
      assert token == s[..pos - start];
      ok := |token| != 0 && codec.validScalar(token);
    }

    method Node(depth: nat) returns (r: Option<JsonNode>)
      requires pos <= |raw|
      modifies this`pos
      ensures match NodeAt(codec, raw, old(pos), depth)
              case None => r.None?
              case Some(p) => r == Some(p.node) && pos == p.end
      decreases |raw| - pos, 0
    {
      hide JsonText.Trivia, ReadEntries, StringScan, SpanEntries, ScalarEnd, ReadString, Print, Wf, ReadValue, SkipBom, Spans,
        TokenTaken, ClosesString, FirstClose;
      if depth > MAX_DEPTH {
        return None;
      }
      ghost var from := SkipBom(raw, pos);
      var ok := Trivia();
      if !ok {
        return None;
      }
      assert raw[from..][pos - from..] == raw[pos..];
      if pos >= |raw| {
        assert ReadValue(codec, raw[pos..], depth).None? by {
          ReadNothing(codec, depth);
        }
        return None;
      }
      var start, kind := pos, raw[pos];
      ghost var s := raw[start..];
      ghost var value := ReadValue(codec, s, depth);
      ValueSteps(codec, raw, start, depth);
      var members: seq<JsonMember> := [];
      if kind == '{' || kind == '[' {
        pos := pos + 1;
        var inner := Members(kind, depth + 1);
        if inner.None? {
          return None;
        }
        members := inner.value;
      } else if kind == '\"' {
        var token := StringToken();
        if token.None? {
          return None;
        }
      } else {
        ok := Scalar();
        if !ok {
          return None;
        }
      }
      r := Some(JsonNode(start, pos, kind, members));
    }
  }

  lemma ReadNothing(c: Codec, depth: nat)
    ensures ReadValue(c, "", depth) == None
  {}

  /** What reading a value comes to, by the byte it starts with. */
  lemma ValueSteps(c: Codec, raw: string, start: nat, depth: nat)
    requires start < |raw| && depth <= MAX_DEPTH
    ensures var s := raw[start..];
      var value := ReadValue(c, s, depth);
      var kind := raw[start];
      && (value.Some? ==> Spans(c, value.value.tree, start).start == start)
      && (value.Some? ==> Spans(c, value.value.tree, start).end == start + value.value.size)
      && (value.Some? ==> Spans(c, value.value.tree, start).kind == kind)
      && if kind == '{' || kind == '[' then
           match ReadEntries(c, kind, raw[start + 1..], depth + 1, {})
           case None => value.None?
           case Some(p) =>
             && value.Some? && value.value.size == 1 + p.size
             && Spans(c, value.value.tree, start).members == SpanEntries(c, kind, p.entries, start + 1)
         else
           && (value.Some? ==> Spans(c, value.value.tree, start).members == [])
           && if kind == '\"' then
                match ReadString(c, s)
                case None => value.None?
                case Some(n) => value.Some? && value.value.size == n
              else
                var n := ScalarEnd(s);
                if n > 0 && c.validScalar(s[..n]) then value.Some? && value.value.size == n else value.None?
  {
    hide StringScan, ReadEntries, SpanEntries, Print, Wf, PrintEntries;
    var s := raw[start..];
    assert s[0] == raw[start] && s[1..] == raw[start + 1..];
    if ReadValue(c, s, depth).Some? {
      ReadValueSound(c, s, depth);
    }
  }

  method InstallParseJSON(c: Codec, raw: string) returns (r: Option<JsonNode>)
    ensures r == ParseSpans(c, raw)
  {
    hide Trivia, ReadNode, Spans;
    var p := new Parser(c, raw);
    var n := p.Node(0);
    DocSteps(c, raw);
    if n.None? {
      return None;
    }
    var ok := p.Trivia();
    if !ok || p.pos != |raw| || n.value.kind != '{' {
      return None;
    }
    return n;
  }

  lemma DocSteps(c: Codec, raw: string)
    ensures match NodeAt(c, raw, 0, 0)
            case None => ParseSpans(c, raw).None?
            case Some(n) =>
              ParseSpans(c, raw) == if TriviaAt(raw, n.end) == Some(|raw|) && n.node.kind == '{' then Some(n.node) else None
  {
    hide Trivia, ReadNode, Print, Wf, AfterBom, Spans;
    var s := AfterBom(raw);
    BomSkipped(raw);
    match ReadNode(c, s, 0)
    case None =>
    case Some(p) =>
      var at := SkipBom(raw, 0) + p.size;
      assert raw[SkipBom(raw, 0)..][p.size..] == raw[at..];
      ReadNodeSound(c, s, 0);
      KindOfContainer(c, p.tree, 0);
      SpansBounds(c, p.tree, SkipBom(raw, 0) + |p.gap|);
      SpansKind(c, p.tree, SkipBom(raw, 0) + |p.gap|);
  }

  lemma BomSkipped(raw: string)
    ensures raw[SkipBom(raw, 0)..] == AfterBom(raw)
    ensures SkipBom(raw, 0) == |if BOM <= raw then BOM else ""|
  {}

  lemma SpansKind(c: Codec, t: Cst, at: nat)
    ensures Spans(c, t, at).kind == Kind(t)
  {}

  lemma KindOfContainer(c: Codec, t: Cst, depth: nat)
    requires Wf(c, t, depth)
    ensures Kind(t) == '{' <==> t.Container? && t.kind == '{'
    ensures |Print(t)| > 0 && Kind(t) == Print(t)[0]
  {}

  // The shape of the recorded spans

  /** Spans nest: children lie between the brackets, in order, without overlap. */
  predicate Nested(n: JsonNode)
    decreases n, 0
  {
    n.start < n.end && (n.kind == '{' ==> n.start + 1 < n.end) && NestedMembers(n.members, n.start + 1, n.end - 1)
  }

  /**
   * Members lie in [lo, hi) one after another; each member but the last has its
   * comma, which comes after its value and before the next member.
   */
  predicate NestedMembers(ms: seq<JsonMember>, lo: nat, hi: int)
    decreases ms, 0
  {
    ms == [] ||
    var m := ms[0];
    && lo <= m.start <= m.value.start && m.value.end <= hi
    && Nested(m.value)
    && (|ms| > 1 ==> m.comma >= 0)
    && (m.comma >= 0 ==> m.value.end <= m.comma < hi && NestedMembers(ms[1..], m.comma + 1, hi))
  }

  lemma {:induction false} SpansNested(c: Codec, t: Cst, depth: nat, at: nat)
    requires Wf(c, t, depth)
    ensures Nested(Spans(c, t, at))
    decreases t, 1
  {
    hide Print, Wf, WfEntries, SpanEntries, NestedMembers, Keys;
    PrintStarts(c, t, depth);
    KindOfContainer(c, t, depth);
    match t
    case Scalar(_) => assert NestedMembers([], at + 1, at + |Print(t)| - 1) by { NoMembers(at + 1, at + |Print(t)| - 1); }
    case Str(_) => assert NestedMembers([], at + 1, at + |Print(t)| - 1) by { NoMembers(at + 1, at + |Print(t)| - 1); }
    case Container(kind, entries, tail) =>
      ContainerWf(c, t, depth);
      ContainerSize(t);
      SpanEntriesNested(c, kind, entries, depth + 1, at + 1, at + 1 + |PrintEntries(kind, entries)| + |tail|);
  }

  lemma NoMembers(lo: nat, hi: int)
    ensures NestedMembers([], lo, hi)
  {}

  lemma ContainerWf(c: Codec, t: Cst, depth: nat)
    requires Wf(c, t, depth) && t.Container?
    ensures WfEntries(c, t.kind, t.entries, depth + 1)
  {}

  lemma ContainerSize(t: Cst)
    requires t.Container?
    ensures |Print(t)| == 2 + |PrintEntries(t.kind, t.entries)| + |t.tail|
  {
    hide PrintEntries;
  }

  lemma {:induction false} SpanEntriesNested(c: Codec, kind: char, es: seq<Entry>, depth: nat, at: nat, hi: nat)
    requires WfEntries(c, kind, es, depth)
    requires at + |PrintEntries(kind, es)| <= hi
    ensures NestedMembers(SpanEntries(c, kind, es, at), at, hi)
    decreases es, 1
  {
    hide Wf, WfLabel, Print, PrintEntry, PrintEntries, Spans, PrintHead, Nested, WfEntries, ClosedTrivia;
    if es != [] {
      var e := es[0];
      EntriesFirst(c, kind, es, depth);
      SpansNested(c, e.value, depth, at + |PrintHead(kind, e)|);
      EntrySizes(kind, e);
      SpansBounds(c, e.value, at + |PrintHead(kind, e)|);
      SpanEntriesNested(c, kind, es[1..], depth, at + |PrintEntry(kind, e)|, hi);
      assert SpanEntries(c, kind, es, at)[1..] == SpanEntries(c, kind, es[1..], at + |PrintEntry(kind, e)|);
    }
  }

  lemma SpansBounds(c: Codec, t: Cst, at: nat)
    ensures Spans(c, t, at).start == at && Spans(c, t, at).end == at + |Print(t)|
  {}

  lemma EntrySizes(kind: char, e: Entry)
    ensures |e.pre| <= |PrintHead(kind, e)|
    ensures |PrintEntry(kind, e)| == |PrintHead(kind, e)| + |Print(e.value)| + |e.post| + if e.comma then 1 else 0
  {
    hide Print;
  }

  /** What the parser returns for an accepted text is properly nested in it. */
  lemma ParsedSpansNested(c: Codec, raw: string)
    requires ParseSpans(c, raw).Some?
    ensures Nested(ParseSpans(c, raw).value) && ParseSpans(c, raw).value.end <= |raw|
  {
    hide Wf, Print, Spans, Nested, Trivia, ClosedTrivia, ReadDoc;
    DocSound(c, raw);
    var d := ReadDoc(c, raw).value;
    var at := |if d.bom then BOM else ""| + |d.lead|;
    SpansNested(c, d.root, 0, at);
    SpansBounds(c, d.root, at);
  }
}
