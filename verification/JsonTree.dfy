/**
 * The grammar of the accepted texts, as concrete syntax trees that keep every
 * byte: JSON values (RFC 8259) extended with comments, trailing commas and a
 * leading byte order mark, at most 128 levels deep and without duplicate keys.
 */
module JsonTree {
  import opened Options
  import opened JsonText

  const MAX_DEPTH := 128

  /**
   * What the parser takes from encoding/json: decoding a string token, checking
   * a scalar token, and encoding a string.
   */
  datatype Codec = Codec(
    unquote: string -> Option<string>,
    validScalar: string -> bool,
    quote: string -> string)

  /** The encoding of this key reads back as this key. */
  predicate Quotable(c: Codec, key: string) {
    IsStringToken(c.quote(key)) && c.unquote(c.quote(key)) == Some(key)
  }

  datatype Cst =
    | Scalar(token: string)
    | Str(token: string)
    | Container(kind: char, entries: seq<Entry>, tail: string)

  /**
   * One member: pre is the trivia before its first byte, colonGap and valueGap
   * surround the colon, post stands between the value and its comma (or, when it
   * has none, the closing bracket). Array items have no key and no gaps.
   */
  datatype Entry = Entry(pre: string, keyToken: string, colonGap: string, valueGap: string,
                         value: Cst, post: string, comma: bool)

  function Close(kind: char): char {
    if kind == '[' then ']' else '}'
  }

  function Print(c: Cst): (s: string)
    decreases c, 0
  {
    match c
    case Scalar(token) => token
    case Str(token) => token
    case Container(kind, entries, tail) => [kind] + PrintEntries(kind, entries) + tail + [Close(kind)]
  }

  function PrintEntries(kind: char, es: seq<Entry>): string
    decreases es, 0
  {
    if es == [] then "" else PrintEntry(kind, es[0]) + PrintEntries(kind, es[1..])
  }

  /** Everything up to the first byte of the value. */
  function PrintHead(kind: char, e: Entry): string {
    e.pre + PrintLabel(kind, e)
  }

  /** From the first byte of the member up to the first byte of its value. */
  function PrintLabel(kind: char, e: Entry): string {
    if kind == '{' then e.keyToken + e.colonGap + ":" + e.valueGap else ""
  }

  function PrintComma(e: Entry): string {
    if e.comma then "," else ""
  }

  function PrintEntry(kind: char, e: Entry): string
    decreases e, 0
  {
    PrintHead(kind, e) + Print(e.value) + e.post + PrintComma(e)
  }

  /** The key as the parser reads it; array items have the empty key. */
  function KeyOf(c: Codec, kind: char, e: Entry): string {
    if kind == '{' && c.unquote(e.keyToken).Some? then c.unquote(e.keyToken).value else ""
  }

  function Keys(c: Codec, kind: char, es: seq<Entry>): (ks: set<string>) {
    if kind == '{' then set e <- es :: KeyOf(c, kind, e) else {}
  }

  predicate WfScalar(c: Codec, token: string) {
    && token != ""
    && (forall k :: 0 <= k < |token| ==> !IsDelimiter(token[k]))
    && token[0] !in ['{', '[', '\"']
    && c.validScalar(token)
  }

  predicate WfStr(c: Codec, token: string) {
    IsStringToken(token) && c.unquote(token).Some?
  }

  /** The trees of values that may stand at this depth. */
  predicate Wf(c: Codec, t: Cst, depth: nat)
    decreases t, 0
  {
    && depth <= MAX_DEPTH
    && match t
       case Scalar(token) => WfScalar(c, token)
       case Str(token) => WfStr(c, token)
       case Container(kind, entries, tail) =>
         && (kind == '{' || kind == '[')
         && WfEntries(c, kind, entries, depth + 1)
         && ClosedTrivia(tail)
         && (entries != [] && !entries[|entries| - 1].comma ==> tail == "")
  }

  /** Members with pairwise distinct keys, each but the last with its comma. */
  predicate WfEntries(c: Codec, kind: char, es: seq<Entry>, depth: nat)
    decreases es, 0
  {
    es == [] ||
    (&& WfEntry(c, kind, es[0], depth)
     && (|es| > 1 ==> es[0].comma)
     && (kind == '{' ==> KeyOf(c, kind, es[0]) !in Keys(c, kind, es[1..]))
     && WfEntries(c, kind, es[1..], depth))
  }

  predicate WfLabel(c: Codec, kind: char, e: Entry) {
    && ClosedTrivia(e.pre) && ClosedTrivia(e.post)
    && if kind == '{' then
         WfStr(c, e.keyToken) && ClosedTrivia(e.colonGap) && ClosedTrivia(e.valueGap)
       else
         e.keyToken == "" && e.colonGap == "" && e.valueGap == ""
  }

  predicate WfEntry(c: Codec, kind: char, e: Entry, depth: nat)
    decreases e, 0
  {
    WfLabel(c, kind, e) && Wf(c, e.value, depth)
  }

  /** A whole text: an object, with trivia around it. */
  datatype Doc = Doc(bom: bool, lead: string, root: Cst, tail: string)

  function PrintDoc(d: Doc): string {
    (if d.bom then BOM else "") + d.lead + Print(d.root) + d.tail
  }

  /** Only the trivia at the very end may leave a line comment open. */
  predicate WfDoc(c: Codec, d: Doc) {
    && ClosedTrivia(d.lead)
    && d.root.Container? && d.root.kind == '{' && Wf(c, d.root, 0)
    && Trivia(d.tail) == Some(|d.tail|)
  }

  // How printed values start and end

  lemma PrintStarts(c: Codec, t: Cst, depth: nat)
    requires Wf(c, t, depth)
    ensures depth <= MAX_DEPTH
    ensures StopsTrivia(Print(t))
    ensures Print(t)[0] != ']' && Print(t)[0] != '}' && Print(t)[0] != ','
  {}

  lemma PrintEntriesAppend(kind: char, a: seq<Entry>, b: seq<Entry>)
    ensures PrintEntries(kind, a + b) == PrintEntries(kind, a) + PrintEntries(kind, b)
  {
    if a == [] {
      assert a + b == b;
    } else {
      assert (a + b)[1..] == a[1..] + b;
      PrintEntriesAppend(kind, a[1..], b);
    }
  }

  /** The text of the members, split around one of them. */
  lemma PrintEntriesSplit(kind: char, es: seq<Entry>, i: nat)
    requires i < |es|
    ensures PrintEntries(kind, es) == PrintEntries(kind, es[..i]) + PrintEntry(kind, es[i]) + PrintEntries(kind, es[i + 1..])
  {
    hide PrintEntry, Print;
    assert es == es[..i] + es[i..];
    PrintEntriesAppend(kind, es[..i], es[i..]);
    assert es[i..][0] == es[i] && es[i..][1..] == es[i + 1..];
  }
}
