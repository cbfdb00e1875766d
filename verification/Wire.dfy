/**
 * Framing of the byte streams: newline-terminated lines of at most 1 MiB, and native
 * frames with a four-byte length; and the writer that many senders share.
 */
module Wire {
  import opened Options

  type Byte = b: nat | b < 256
  type Bytes = seq<Byte>

  const NEWLINE: Byte := 10
  const MAX_LINE := 1024 * 1024
  const MAX_NATIVE := 1024 * 1024

  // ---- the buffered reader ----

  /** The position of the first newline, or the length when there is none. */
  function LineEnd(s: Bytes): (n: nat)
    ensures n <= |s|
    ensures n < |s| ==> s[n] == NEWLINE
    ensures forall k :: 0 <= k < n ==> s[k] != NEWLINE
  {
    if s == [] || s[0] == NEWLINE then 0 else 1 + LineEnd(s[1..])
  }

  /** How a slice ended: at a newline, at a full buffer, or at the end of the stream. */
  datatype Stop = AtNewline | BufferFull | EndOfStream

  /**
   * A buffered reader gives a line in slices. How many bytes it can hold for a slice is
   * arbitrary, and may differ from call to call.
   */
  class Reader {
    var rest: Bytes
    var calls: nat
    const room: nat -> nat

    constructor (rest: Bytes, room: nat -> nat)
      ensures this.rest == rest && this.room == room
    {
      this.rest, this.calls, this.room := rest, 0, room;
    }

    method ReadSlice() returns (part: Bytes, stop: Stop)
      modifies this
      ensures old(rest) == part + rest
      ensures stop == AtNewline ==> LineEnd(old(rest)) < |old(rest)| && part == old(rest)[..LineEnd(old(rest)) + 1]
      ensures stop == BufferFull ==> part != [] && |part| <= LineEnd(old(rest))
      ensures stop == EndOfStream ==> rest == [] && part == old(rest) && LineEnd(part) == |part|
    {
      var n := if room(calls) == 0 then 1 else room(calls);
      calls := calls + 1;
      var end := LineEnd(rest);
      if end < |rest| && end < n {
        part, stop := rest[..end + 1], AtNewline;
      } else if n <= |rest| {
        part, stop := rest[..n], BufferFull;
      } else {
        part, stop := rest, EndOfStream;
      }
      rest := rest[|part|..];
    }
  }

  // ---- lines ----

  datatype LineResult = Line(bytes: Bytes) | Oversized(terminated: bool) | UnexpectedEnd | End

  lemma {:induction false} LineEndAfter(part: Bytes, s: Bytes)
    requires NEWLINE !in part
    ensures LineEnd(part + s) == |part| + LineEnd(s)
  {
    if part == [] {
      assert part + s == s;
    } else {
      assert (part + s)[1..] == part[1..] + s;
      LineEndAfter(part[1..], s);
    }
  }

  lemma NoNewlineBefore(s: Bytes, part: Bytes, rest: Bytes)
    requires s == part + rest && |part| <= LineEnd(s)
    ensures NEWLINE !in part && LineEnd(s) == |part| + LineEnd(rest)
  {
    forall k | 0 <= k < |part|
      ensures part[k] != NEWLINE
    {
      assert part[k] == s[k];
    }
    LineEndAfter(part, rest);
  }

  /** What reading a line from s must answer, and where it must leave the reader. */
  predicate LineRead(s: Bytes, r: LineResult, rest: Bytes) {
    var n := LineEnd(s);
    if n < |s| && n <= MAX_LINE then r == Line(s[..n + 1]) && rest == s[n + 1..]
    else if n <= MAX_LINE then r == (if s == [] then End else UnexpectedEnd) && rest == []
    else r.Oversized? && (if r.terminated then n < |s| && rest == s[n + 1..]
                          else |s| - n <= |rest| <= |s| && rest == s[|s| - |rest|..])
  }

  /** A slice that ended the line, the buffer or the stream settles the answer. */
  lemma LineSettled(s: Bytes, line: Bytes, part: Bytes, stop: Stop, rest: Bytes)
    requires s == line + (part + rest) && |line| <= MAX_LINE && LineEnd(s) == |line| + LineEnd(part + rest)
    requires stop == AtNewline ==> |part| == LineEnd(part + rest) + 1
    requires stop == BufferFull ==> part != [] && |part| <= LineEnd(part + rest)
    requires stop == EndOfStream ==> rest == [] && LineEnd(part) == |part|
    ensures |line| + |part| > MAX_LINE + 1 ==> LineRead(s, Oversized(stop == AtNewline), rest)
    ensures |line| + |part| == MAX_LINE + 1 ==> (stop == AtNewline <==> (line + part)[MAX_LINE] == NEWLINE)
    ensures |line| + |part| == MAX_LINE + 1 && stop != AtNewline ==> LineRead(s, Oversized(false), rest)
    ensures |line| + |part| <= MAX_LINE + 1 && stop == AtNewline ==> LineRead(s, Line(line + part), rest)
    ensures |line| + |part| <= MAX_LINE && stop == EndOfStream ==>
      LineRead(s, if line + part == [] then End else UnexpectedEnd, rest)
  {
    SliceStep(s, line, part, part + rest, rest);
    if stop != AtNewline && part != [] {
      var k := |part| - 1;
      assert part[k] == (part + rest)[k];
      assert part[k] != NEWLINE by {
        if stop == EndOfStream {
          assert part + rest == part;
        }
      }
    }
    if stop == AtNewline {
      assert (part + rest)[|part| - 1] == NEWLINE == part[|part| - 1];
    }
    if stop == EndOfStream {
      assert part + rest == part;
    }
  }

  /**
   * However the stream is cut into slices, a line of at most 1 MiB is read whole and
   * nothing more is consumed; a longer one is reported, with the reader still inside
   * it unless its newline has been consumed.
   */
  method ReadLine(reader: Reader) returns (r: LineResult)
    modifies reader
    ensures LineRead(old(reader.rest), r, reader.rest)
    ensures r.Line? <==> ReadFrame(false, old(reader.rest)).Some?
    ensures r.Line? ==> r.bytes != [] && ReadFrame(false, old(reader.rest)) == Some((r.bytes[..|r.bytes| - 1], reader.rest))
  {
    r := ReadSlices(reader);
    ReadLineReadsFrame(old(reader.rest), r, reader.rest);
  }

  /** The loop: slices are taken until one of them settles the answer. */
  method ReadSlices(reader: Reader) returns (r: LineResult)
    modifies reader
    ensures LineRead(old(reader.rest), r, reader.rest)
  {
    hide LineEnd, LineRead;
    ghost var s := reader.rest;
    var line: Bytes := [];
    while true
      invariant s == line + reader.rest && LineEnd(s) == |line| + LineEnd(reader.rest)
      invariant |line| <= MAX_LINE
      decreases |reader.rest|
    {
      ghost var before := reader.rest;
      var part, stop := reader.ReadSlice();
      LineSettled(s, line, part, stop, reader.rest);
      SliceStep(s, line, part, before, reader.rest);
      if |line| + |part| > MAX_LINE + 1 {
        return Oversized(stop == AtNewline);
      }
      line := line + part;
      if |line| > MAX_LINE && line[|line| - 1] != NEWLINE {
        return Oversized(false);
      }
      if stop == BufferFull {
        NoNewlineBefore(before, part, reader.rest);
        continue;
      }
      if stop == EndOfStream {
        return if |line| != 0 then UnexpectedEnd else End;
      }
      return Line(line);
    }
  }

  lemma SliceStep(s: Bytes, line: Bytes, part: Bytes, before: Bytes, rest: Bytes)
    requires s == line + before && before == part + rest
    ensures s == (line + part) + rest && line + part == s[..|line| + |part|] && rest == s[|line| + |part|..]
    ensures |rest| <= |s| && |s| - |rest| == |line| + |part|
    ensures part != [] ==> (line + part)[|line| + |part| - 1] == part[|part| - 1]
  {}

  /** Skips what is left of an oversized line; end says that the stream ended inside it. */
  method SkipOversizedLine(reader: Reader, terminated: bool) returns (end: bool)
    modifies reader
    ensures terminated ==> reader.rest == old(reader.rest) && !end
    ensures !terminated ==>
      var s, n := old(reader.rest), LineEnd(old(reader.rest));
      if n < |s| then reader.rest == s[n + 1..] && !end else reader.rest == [] && end
  {
    hide LineEnd;
    if terminated {
      return false;
    }
    ghost var s := reader.rest;
    ghost var n := LineEnd(s);
    ghost var gone := 0;
    while true
      invariant gone <= n && gone <= |s| && reader.rest == s[gone..] && n == gone + LineEnd(reader.rest)
      decreases |reader.rest|
    {
      ghost var before := reader.rest;
      var part, stop := reader.ReadSlice();
      if stop == BufferFull {
        NoNewlineBefore(before, part, reader.rest);
        gone := gone + |part|;
        assert reader.rest == s[gone..];
        continue;
      }
      assert |part| + |reader.rest| == |before|;
      assert reader.rest == before[|part|..];
      return stop == EndOfStream;
    }
  }

  /** After an oversized line and its skip, the reader is at the first byte of the next line. */
  method ReadPast(reader: Reader) returns (r: LineResult, end: bool)
    modifies reader
    ensures var s, n := old(reader.rest), LineEnd(old(reader.rest));
      && (n < |s| ==> reader.rest == s[n + 1..] && !end && (r.Line? <==> n <= MAX_LINE))
      && (n == |s| ==> reader.rest == [] && !r.Line?)
  {
    hide LineEnd;
    ghost var s := reader.rest;
    ghost var n := LineEnd(s);
    r := ReadLine(reader);
    end := false;
    if r.Oversized? {
      ghost var from := |s| - |reader.rest|;
      if !r.terminated {
        assert s == s[..from] + reader.rest;
        NoNewlineBefore(s, s[..from], reader.rest);
      }
      end := SkipOversizedLine(reader, r.terminated);
      if !r.terminated && n < |s| {
        assert reader.rest == s[n + 1..];
      }
    }
  }

  // ---- native frames ----

  function Header(n: nat): Bytes
    requires n < 0x1_0000_0000
  {
    [n % 256, n / 256 % 256, n / 65536 % 256, n / 16777216]
  }

  function Size(h: Bytes): nat
    requires |h| == 4
  {
    var a: int, b: int, c: int, d: int := h[0], h[1], h[2], h[3];
    a + 256 * b + 65536 * c + 16777216 * d
  }

  lemma SizeOfHeader(n: nat)
    requires n < 0x1_0000_0000
    ensures Size(Header(n)) == n
  {
    assert n / 256 == 256 * (n / 65536) + n / 256 % 256;
    assert n / 65536 == 256 * (n / 16777216) + n / 65536 % 256;
  }

  // ---- frames of either kind ----

  /** What a sender may hand over: encoded JSON has no newline and is not empty. */
  predicate Clean(native: bool, payload: Bytes) {
    if native then payload != [] else NEWLINE !in payload
  }

  function Limit(native: bool): nat {
    if native then MAX_NATIVE else MAX_LINE
  }

  predicate Sendable(native: bool, payload: Bytes) {
    Clean(native, payload) && |payload| <= Limit(native)
  }

  function Frame(native: bool, payload: Bytes): Bytes
    requires Sendable(native, payload)
  {
    if native then Header(|payload|) + payload else payload + [NEWLINE]
  }

  /** The payload at the front of the stream and what follows it. */
  function ReadFrame(native: bool, s: Bytes): Option<(Bytes, Bytes)> {
    if native then
      if |s| < 4 || Size(s[..4]) == 0 || Size(s[..4]) > MAX_NATIVE || |s| < 4 + Size(s[..4]) then None
      else Some((s[4..4 + Size(s[..4])], s[4 + Size(s[..4])..]))
    else
      if LineEnd(s) == |s| || LineEnd(s) > MAX_LINE then None else Some((s[..LineEnd(s)], s[LineEnd(s) + 1..]))
  }

  /** The line reader reads frames of lines. */
  lemma ReadLineReadsFrame(s: Bytes, r: LineResult, rest: Bytes)
    requires LineRead(s, r, rest)
    ensures r.Line? <==> ReadFrame(false, s).Some?
    ensures r.Line? ==> r.bytes != [] && ReadFrame(false, s) == Some((r.bytes[..|r.bytes| - 1], rest))
  {
    if r.Line? {
      assert s[..LineEnd(s) + 1][..LineEnd(s)] == s[..LineEnd(s)];
    }
  }

  /** Reading a frame gives back its payload and leaves what follows it. */
  lemma ReadOfFrame(native: bool, payload: Bytes, rest: Bytes)
    requires Sendable(native, payload)
    ensures ReadFrame(native, Frame(native, payload) + rest) == Some((payload, rest))
  {
    hide Size, Header, LineEnd;
    var n := |payload|;
    var s := Frame(native, payload) + rest;
    if native {
      HeaderLength(n);
      SizeOfHeader(n);
      assert s == Header(n) + (payload + rest);
      assert s[..4] == Header(n) && s[4..] == payload + rest;
      assert s[4..4 + n] == payload && s[4 + n..] == rest;
    } else {
      assert s == payload + ([NEWLINE] + rest);
      LineEndAfter(payload, [NEWLINE] + rest);
      LineEndHere(rest);
      assert s[..n] == payload && s[n + 1..] == rest;
    }
  }

  lemma LineEndHere(rest: Bytes)
    ensures LineEnd([NEWLINE] + rest) == 0
  {}

  lemma HeaderLength(n: nat)
    requires n < 0x1_0000_0000
    ensures |Header(n)| == 4
  {}

  /** Only frames are read: what was read, written again, is what was there. */
  lemma {:induction false} FrameOfRead(native: bool, s: Bytes)
    requires ReadFrame(native, s).Some?
    ensures Sendable(native, ReadFrame(native, s).value.0)
    ensures Frame(native, ReadFrame(native, s).value.0) + ReadFrame(native, s).value.1 == s
  {
    if native {
      var n := Size(s[..4]);
      HeaderOfSize(s[..4]);
      assert s == s[..4] + s[4..4 + n] + s[4 + n..];
    } else {
      var n := LineEnd(s);
      assert s == s[..n] + [s[n]] + s[n + 1..];
    }
  }

  lemma HeaderOfSize(h: Bytes)
    requires |h| == 4
    ensures Size(h) < 0x1_0000_0000 && Header(Size(h)) == h
  {
    var a: int, b: int, c: int, d: int := h[0], h[1], h[2], h[3];
    var n := Size(h);
    assert n == a + 256 * (b + 256 * (c + 256 * d));
    assert n / 256 == b + 256 * (c + 256 * d) && n % 256 == a;
    assert n / 65536 == n / 256 / 256 == c + 256 * d;
    assert n / 16777216 == n / 65536 / 256 == d;
  }

  predicate AllSendable(native: bool, payloads: seq<Bytes>) {
    forall p :: p in payloads ==> Sendable(native, p)
  }

  function Frames(native: bool, payloads: seq<Bytes>): Bytes
    requires AllSendable(native, payloads)
  {
    if payloads == [] then [] else Frame(native, payloads[0]) + Frames(native, payloads[1..])
  }

  lemma ReadShortens(native: bool, s: Bytes)
    ensures ReadFrame(native, s).Some? ==> |ReadFrame(native, s).value.1| < |s|
  {}

  /** All payloads of a stream; None when it does not consist of frames. */
  function ReadAll(native: bool, s: Bytes): Option<seq<Bytes>>
    decreases |s|
  {
    if s == [] then Some([])
    else
      ReadShortens(native, s);
      match ReadFrame(native, s)
      case None => None
      case Some((payload, rest)) =>
        match ReadAll(native, rest)
        case None => None
        case Some(more) => Some([payload] + more)
  }

  lemma {:induction false} ReadAllFrames(native: bool, payloads: seq<Bytes>)
    requires AllSendable(native, payloads)
    ensures ReadAll(native, Frames(native, payloads)) == Some(payloads)
    decreases |payloads|
  {
    hide ReadFrame, Frame;
    if payloads != [] {
      ReadOfFrame(native, payloads[0], Frames(native, payloads[1..]));
      ReadAllFrames(native, payloads[1..]);
      FrameLength(native, payloads[0]);
      assert [payloads[0]] + payloads[1..] == payloads;
    }
  }

  lemma FrameLength(native: bool, payload: Bytes)
    requires Sendable(native, payload)
    ensures |Frame(native, payload)| == |payload| + if native then 4 else 1
  {}

  lemma {:induction false} FramesSnoc(native: bool, payloads: seq<Bytes>, p: Bytes)
    requires AllSendable(native, payloads) && Sendable(native, p)
    ensures AllSendable(native, payloads + [p])
    ensures Frames(native, payloads + [p]) == Frames(native, payloads) + Frame(native, p)
    decreases |payloads|
  {
    hide Frame;
    if payloads == [] {
      assert payloads + [p] == [p] && [p][1..] == [];
    } else {
      FramesSnoc(native, payloads[1..], p);
      assert (payloads + [p])[1..] == payloads[1..] + [p];
    }
  }

  // ---- concurrent senders ----

  /** Where a sender is in its program; a sender that has ended is not listed. */
  datatype Sender = Waiting(payload: Bytes) | Sending(payload: Bytes, sent: nat)

  /**
   * Many senders share one output. taken is whether the channel holds its one token:
   * each sender waits until it can put the token in, writes its frame in pieces of any
   * length and takes the token out again. What the others do in between is arbitrary.
   * A write error ends the output: what follows a broken frame is not covered here.
   */
  class Writer {
    const native: bool
    var out: Bytes
    var taken: bool
    var senders: map<nat, Sender>
    var failed: bool
    /** The sender whose token is in the channel, while there is one. */
    ghost var holder: nat
    /** The payloads that were sent whole, in order. */
    ghost var sent: seq<Bytes>

    /** At most one sender is sending, and the output is whole frames and the part of its frame. */
    ghost predicate Valid()
      reads this
    {
      && AllSendable(native, sent)
      && (forall w :: w in senders ==> Sendable(native, senders[w].payload))
      && (forall w :: w in senders && senders[w].Sending? ==>
            taken && w == holder && senders[w].sent <= |Frame(native, senders[w].payload)|)
      && (taken ==> holder in senders && senders[holder].Sending?)
      && (!failed ==> out == Frames(native, sent) + Partial())
    }

    ghost function Partial(): Bytes
      reads this
    {
      if taken && holder in senders && senders[holder].Sending? && Sendable(native, senders[holder].payload)
         && senders[holder].sent <= |Frame(native, senders[holder].payload)|
      then Frame(native, senders[holder].payload)[..senders[holder].sent] else []
    }

    constructor (native: bool)
      ensures Valid() && this.native == native && out == [] && !taken && senders == map[] && !failed && sent == []
    {
      this.native := native;
      out, taken, senders, failed, sent := [], false, map[], false, [];
    }

    /** A payload that is too long, or a sender that was cancelled, does not even wait. */
    method Start(w: nat, payload: Bytes, cancelled: bool) returns (ok: bool)
      requires Valid() && w !in senders && Clean(native, payload)
      modifies this
      ensures Valid() && out == old(out) && sent == old(sent) && failed == old(failed) && taken == old(taken)
      ensures ok <==> |payload| <= Limit(native) && !cancelled
      ensures senders == if ok then old(senders)[w := Waiting(payload)] else old(senders)
    {
      hide Frame, Frames, Clean;
      if cancelled || |payload| > Limit(native) {
        return false;
      }
      senders := senders[w := Waiting(payload)];
      return true;
    }

    /** One look at the channel: the sender goes on waiting, gives up or may send. */
    method Take(w: nat, cancelled: bool)
      requires Valid() && w in senders && senders[w].Waiting?
      modifies this
      ensures Valid() && out == old(out) && sent == old(sent) && failed == old(failed)
      ensures if cancelled then senders == old(senders) - {w} && taken == old(taken)
        else if old(taken) then senders == old(senders) && taken
        else senders == old(senders)[w := Sending(old(senders)[w].payload, 0)] && taken && holder == w
    {
      hide Frame, Frames, Sendable;
      if cancelled {
        senders := senders - {w};
      } else if !taken {
        var payload := senders[w].payload;
        assert Frame(native, payload)[..0] == [];
        taken := true;
        holder := w;
        senders := senders[w := Sending(payload, 0)];
      }
    }

    /** One write of n bytes of the frame. */
    method Write(w: nat, n: nat)
      requires Valid() && w in senders && senders[w].Sending? && senders[w].sent + n <= |Frame(native, senders[w].payload)|
      modifies this
      ensures Valid() && sent == old(sent) && failed == old(failed) && taken == old(taken)
      ensures senders == old(senders)[w := old(senders)[w].(sent := old(senders)[w].sent + n)]
      ensures var e := old(senders)[w]; out == old(out) + Frame(native, e.payload)[e.sent..e.sent + n]
    {
      hide Frame, Frames, Sendable;
      var e := senders[w];
      var frame := Frame(native, e.payload);
      assert frame[..e.sent + n] == frame[..e.sent] + frame[e.sent..e.sent + n];
      assert Frames(native, sent) + frame[..e.sent + n] == (Frames(native, sent) + frame[..e.sent]) + frame[e.sent..e.sent + n];
      out := out + frame[e.sent..e.sent + n];
      senders := senders[w := e.(sent := e.sent + n)];
    }

    /** The sender ends after its whole frame, or after an error, and frees the channel. */
    method Finish(w: nat, error: bool)
      requires Valid() && w in senders && senders[w].Sending?
      requires error || senders[w].sent == |Frame(native, senders[w].payload)|
      modifies this
      ensures Valid() && !taken && senders == old(senders) - {w} && out == old(out)
      ensures failed == (old(failed) || error)
      ensures sent == if error then old(sent) else old(sent) + [old(senders)[w].payload]
    {
      hide Frame, Frames, Sendable;
      var e := senders[w];
      if error {
        failed := true;
      } else {
        FramesSnoc(native, sent, e.payload);
        assert Frame(native, e.payload)[..e.sent] == Frame(native, e.payload);
        sent := sent + [e.payload];
      }
      taken := false;
      senders := senders - {w};
      assert !failed ==> out + [] == out;
    }

    /**
     * Whatever the senders did, no two are sending, and the other side reads the payloads
     * that were sent, whole and in order; beyond them there is only a part of one frame.
     */
    lemma NeverInterleaved()
      requires Valid() && !failed
      ensures forall v, w :: v in senders && w in senders && senders[v].Sending? && senders[w].Sending? ==> v == w
      ensures !taken ==> ReadAll(native, out) == Some(sent)
      ensures taken ==>
        && holder in senders && senders[holder].Sending? && Sendable(native, senders[holder].payload)
        && |out| - senders[holder].sent >= 0
        && ReadAll(native, out[..|out| - senders[holder].sent]) == Some(sent)
        && out[|out| - senders[holder].sent..] <= Frame(native, senders[holder].payload)
    {
      hide Frame, Frames, Sendable, ReadAll;
      ReadAllFrames(native, sent);
      var whole := Frames(native, sent);
      assert whole + [] == whole;
      if taken {
        var e := senders[holder];
        assert out == whole + Frame(native, e.payload)[..e.sent];
        assert out[..|out| - e.sent] == whole;
      }
    }
  }
}
