/**
 * One artifact: its upload in chunks, its pages, and the client that downloads it.
 * File contents are kept in the item; base64 and the hash are parameters.
 */
module Artifact {
  import opened Options

  const CHUNK := 196608
  const MAX_BYTES := 33554432
  const MAX_DOWNLOAD := 128 * 1024 * 1024
  const MAX_SAFE := 9007199254740991

  /** decode is strict; hash prints a digest. */
  datatype Codec = Codec(encode: string -> string, decode: string -> Option<string>, hash: string -> string)

  /** Decoding inverts encoding, and an encoding is a third longer. */
  ghost predicate Lawful(c: Codec) {
    forall b :: c.decode(c.encode(b)) == Some(b) && |c.encode(b)| == (|b| + 2) / 3 * 4
  }

  datatype Descriptor = Descriptor(id: string, kind: string, mime: string, size: int, sha256: string, chunks: int)

  /** open is set while the transfer is incomplete; content is what the file holds. */
  datatype Item = Item(d: Descriptor, request: string, owner: string, extension: string, expires: int,
                       next: int, written: int, content: string, open: bool)

  function ChunkCount(size: int): int {
    (size + CHUNK - 1) / CHUNK
  }

  /** What every item of the store satisfies. */
  predicate Sound(c: Codec, i: Item) {
    && 0 <= i.d.size <= MAX_BYTES && i.d.chunks == ChunkCount(i.d.size)
    && 0 <= i.next && 0 <= i.written == |i.content| <= i.d.size
    && (!i.open ==> i.written == i.d.size && i.next == i.d.chunks && c.hash(i.content) == i.d.sha256)
  }

  // ---- upload ----

  predicate ChunkFits(c: Codec, i: Item, index: int, data: string) {
    && i.open && index == i.next && |data| <= (CHUNK + 2) / 3 * 4
    && c.decode(data).Some?
    && var b := c.decode(data).value;
    && c.encode(b) == data && 0 < |b| <= CHUNK && i.written + |b| <= i.d.size
  }

  function Written(c: Codec, i: Item, data: string): Item
    requires c.decode(data).Some?
  {
    var b := c.decode(data).value;
    i.(content := i.content + b, written := i.written + |b|, next := i.next + 1)
  }

  predicate Complete(c: Codec, i: Item) {
    i.open && i.written == i.d.size && i.next == i.d.chunks && c.hash(i.content) == i.d.sha256
  }

  /** The item after the chunks from its next index on, if each of them is accepted. */
  function WriteAll(c: Codec, i: Item, chunks: seq<string>): Option<Item>
    decreases |chunks|
  {
    if chunks == [] then Some(i)
    else if !ChunkFits(c, i, i.next, chunks[0]) then None
    else WriteAll(c, Written(c, i, chunks[0]), chunks[1..])
  }

  function Decoded(c: Codec, chunks: seq<string>): string {
    if chunks == [] then ""
    else (match c.decode(chunks[0]) case None => "" case Some(b) => b) + Decoded(c, chunks[1..])
  }

  /** Accepted chunks are appended one after the other. */
  lemma {:induction false} WritesConcatenate(c: Codec, i: Item, chunks: seq<string>)
    requires Sound(c, i) && WriteAll(c, i, chunks).Some?
    ensures var j := WriteAll(c, i, chunks).value;
      Sound(c, j) && j.content == i.content + Decoded(c, chunks) && j.next == i.next + |chunks|
      && j == i.(content := j.content, written := j.written, next := j.next)
    decreases |chunks|
  {
    if chunks == [] {
      assert i.content + "" == i.content;
    } else {
      var j := Written(c, i, chunks[0]);
      WritesConcatenate(c, j, chunks[1..]);
      assert j.content + Decoded(c, chunks[1..]) == i.content + Decoded(c, chunks);
    }
  }

  // ---- pages ----

  datatype Page = Page(id: string, data: string, offset: int, byteLength: int, nextOffset: Option<int>)

  /** The page of a committed artifact from an offset. */
  function PageOf(c: Codec, i: Item, offset: int, limit: int): Page
    requires !i.open && Sound(c, i) && 0 <= offset && 1 <= limit
  {
    var from := if offset > i.d.size then i.d.size else offset;
    var count := if limit < i.d.size - from then limit else i.d.size - from;
    Page(i.d.id, c.encode(i.content[from..from + count]), from, count,
         if from + count < i.d.size then Some(from + count) else None)
  }

  /** From any offset before the end, pages continue exactly where the last one stopped. */
  lemma {:induction false} PagesTile(c: Codec, i: Item, offset: int, limit: int)
    requires !i.open && Sound(c, i) && 0 <= offset < i.d.size && 1 <= limit
    ensures var p := PageOf(c, i, offset, limit);
      && p.offset == offset && 0 < p.byteLength <= limit
      && c.encode(i.content[offset..offset + p.byteLength]) == p.data
      && (p.nextOffset.Some? ==> p.nextOffset.value == offset + p.byteLength < i.d.size)
      && (p.nextOffset.None? ==> offset + p.byteLength == i.d.size)
  {}

  // ---- the client ----

  /** The answers of a server that holds the item and does not change it. */
  ghost predicate Serves(c: Codec, i: Item, call: int -> Option<Page>) {
    !i.open && Sound(c, i) && forall offset :: 0 <= offset < i.d.size ==> call(offset) == Some(PageOf(c, i, offset, CHUNK))
  }

  /** The client knows the artifact and expects its kind. */
  predicate Expected(d: Descriptor, kind: string) {
    d.id != "" && d.kind == kind && (kind == "har" ==> d.mime == "application/json")
  }

  datatype Taken = Broken | More(data: string, next: int) | Last(data: string)

  /** What the client makes of the answer to its request for the page at offset. */
  function Take(c: Codec, d: Descriptor, offset: int, page: Option<Page>): Taken {
    if page.None? || page.value.id != d.id || page.value.offset != offset then Broken
    else
      var data := c.decode(page.value.data);
      if data.None? || c.encode(data.value) != page.value.data || |data.value| != page.value.byteLength
         || offset + |data.value| > d.size then Broken
      else if page.value.nextOffset.None? then Last(data.value)
      else
        var next := page.value.nextOffset.value;
        if next != offset + |data.value| || next <= offset then Broken else More(data.value, next)
  }

  /**
   * The client asks for pages until it has the declared size. Whatever it is answered,
   * it stops, and what it returns has the declared size and digest; from a server that
   * holds the artifact it returns the artifact.
   */
  method Download(c: Codec, d: Descriptor, kind: string, call: int -> Option<Page>, ghost i: Item) returns (r: Option<string>)
    ensures r.Some? ==> |r.value| == d.size && c.hash(r.value) == d.sha256
    ensures Lawful(c) && Serves(c, i, call) && i.d == d && Expected(d, kind) ==> r == Some(i.content)
  {
    if !Expected(d, kind) || d.size < 0 || d.size > MAX_DOWNLOAD {
      assert Sound(c, i) && i.d == d ==> 0 <= d.size <= MAX_DOWNLOAD;
      return None;
    }
    ghost var honest := Lawful(c) && Serves(c, i, call) && i.d == d;
    assert honest ==> Sound(c, i) && !i.open;
    hide Lawful, Serves, PageOf, Take;
    var out := "";
    var offset := 0;
    var done := false;
    while offset < d.size && !done
      invariant 0 <= offset
      invariant honest && !done ==> offset <= d.size && out == i.content[..offset]
      invariant honest && done ==> out == i.content
      decreases if done then 0 else 1, d.size - offset
    {
      if honest {
        HonestPage(c, i, offset);
        assert call(offset) == Some(PageOf(c, i, offset, CHUNK)) by { Asked(c, i, call, offset); }
      }
      var taken := Take(c, d, offset, call(offset));
      match taken {
        case Broken =>
          return None;
        case Last(data) =>
          out := out + data;
          done := true;
        case More(data, next) =>
          TakesForward(c, d, offset, call(offset));
          out := out + data;
          offset := next;
      }
    }
    assert i.content[..|i.content|] == i.content;
    if |out| != d.size || c.hash(out) != d.sha256 {
      return None;
    }
    return Some(out);
  }

  lemma Asked(c: Codec, i: Item, call: int -> Option<Page>, offset: int)
    requires Serves(c, i, call) && 0 <= offset < i.d.size
    ensures call(offset) == Some(PageOf(c, i, offset, CHUNK))
  {}

  lemma TakesForward(c: Codec, d: Descriptor, offset: int, page: Option<Page>)
    requires Take(c, d, offset, page).More?
    ensures Take(c, d, offset, page).next > offset
  {}

  /** The client takes every page of the artifact, and the last one as the last. */
  lemma HonestPage(c: Codec, i: Item, offset: int)
    requires Lawful(c) && !i.open && Sound(c, i) && 0 <= offset < i.d.size
    ensures var t := Take(c, i.d, offset, Some(PageOf(c, i, offset, CHUNK)));
      && !t.Broken?
      && (t.More? ==> t.next <= i.d.size && i.content[..offset] + t.data == i.content[..t.next])
      && (t.Last? ==> i.content[..offset] + t.data == i.content)
  {
    PagesTile(c, i, offset, CHUNK);
    var p := PageOf(c, i, offset, CHUNK);
    var b := i.content[offset..offset + p.byteLength];
    assert c.decode(c.encode(b)) == Some(b);
    assert i.content[..offset] + b == i.content[..offset + p.byteLength];
    assert i.content[..|i.content|] == i.content;
  }

  /** The committed form of a complete transfer. */
  function Sealed(i: Item): Item {
    i.(open := false)
  }

  /** A complete transfer that is committed holds the concatenation of its decoded chunks. */
  lemma UploadSeals(c: Codec, i: Item, chunks: seq<string>)
    requires Sound(c, i) && i.open && i.content == "" && i.next == 0
    requires WriteAll(c, i, chunks).Some? && Complete(c, WriteAll(c, i, chunks).value)
    ensures var done := Sealed(WriteAll(c, i, chunks).value);
      && Sound(c, done) && done.content == Decoded(c, chunks)
      && done == i.(content := done.content, written := done.written, next := done.next, open := false)
      && |chunks| == ChunkCount(|Decoded(c, chunks)|)
  {
    WritesConcatenate(c, i, chunks);
    assert "" + Decoded(c, chunks) == Decoded(c, chunks);
  }
}
