/** JSON string quoting and its inverse over the byte form of text. */
module CliQuote {
  import opened Options
  import opened CliUnicode

  const QUOTE: Byte := 34
  const BACKSLASH: Byte := 92
  const SLASH: Byte := 47
  const LETTER_U: Byte := 117

  /** A hexadecimal digit as the quoter writes it. */
  function HexDigit(n: nat): Byte
    requires n < 16
  {
    if n < 10 then 48 + n else 87 + n
  }

  function HexValue(b: Byte): (n: Option<nat>)
    ensures n.Some? ==> n.value < 16
  {
    if 48 <= b <= 57 then Some(b - 48)
    else if 97 <= b <= 102 then Some(b - 87)
    else if 65 <= b <= 70 then Some(b - 55)
    else None
  }

  function Hex4(r: nat): Bytes
    requires r < 0x10000
  {
    [HexDigit(r / 4096), HexDigit(r / 256 % 16), HexDigit(r / 16 % 16), HexDigit(r % 16)]
  }

  /** The number written by four hexadecimal digits. */
  function ParseHex(s: Bytes): (n: Option<Unit>)
    requires |s| == 4
  {
    match (HexValue(s[0]), HexValue(s[1]), HexValue(s[2]), HexValue(s[3]))
    case (Some(a), Some(b), Some(c), Some(d)) => Some(a * 4096 + b * 256 + c * 16 + d)
    case _ => None
  }

  lemma ParseHex4(r: nat)
    requires r < 0x10000
    ensures ParseHex(Hex4(r)) == Some(r)
  {
    hide HexDigit, HexValue;
    var a, b, c, d := r / 4096, r / 256 % 16, r / 16 % 16, r % 16;
    FourDigits(r);
    HexRoundTrip(a);
    HexRoundTrip(b);
    HexRoundTrip(c);
    HexRoundTrip(d);
  }

  lemma FourDigits(r: nat)
    ensures r / 4096 * 4096 + r / 256 % 16 * 256 + r / 16 % 16 * 16 + r % 16 == r
  {
    assert r / 256 == 16 * (r / 4096) + r / 256 % 16;
    assert r / 16 == 16 * (r / 256) + r / 16 % 16;
  }

  lemma HexRoundTrip(n: nat)
    requires n < 16
    ensures HexValue(HexDigit(n)) == Some(n)
  {}

  // ---- quoting ----

  /** The letter of a short escape, if the rune has one. */
  function ShortEscape(r: Rune): Option<Byte> {
    if r == QUOTE || r == BACKSLASH then Some(r)
    else if r == 8 then Some(98)
    else if r == 12 then Some(102)
    else if r == 10 then Some(110)
    else if r == 13 then Some(114)
    else if r == 9 then Some(116)
    else None
  }

  function Escape(r: Rune): Bytes {
    match ShortEscape(r)
    case Some(letter) => [BACKSLASH, letter]
    case None => if r < 32 || IsSurrogate(r) then [BACKSLASH, LETTER_U] + Hex4(r) else EncodeRune(r)
  }

  function QuoteBody(s: Bytes): Bytes {
    if s == [] then [] else
      var d := DecodeRune(s);
      Escape(d.rune) + QuoteBody(s[d.width..])
  }

  function Quote(s: Bytes): Bytes {
    [QUOTE] + (QuoteBody(s) + [QUOTE])
  }

  predicate IsPlain(b: Byte) {
    32 <= b < 128 && b != QUOTE && b != BACKSLASH
  }

  lemma PlainStep(s: Bytes)
    requires s != [] && IsPlain(s[0])
    ensures QuoteBody(s) == [s[0]] + QuoteBody(s[1..])
  {}

  lemma {:induction false} PlainRun(s: Bytes, i: nat)
    requires i <= |s| && forall k :: 0 <= k < i ==> IsPlain(s[k])
    ensures QuoteBody(s) == s[..i] + QuoteBody(s[i..])
    decreases i
  {
    hide QuoteBody;
    if i == 0 {
      assert s[0..] == s && s[..0] == [];
    } else {
      PlainStep(s);
      PlainRun(s[1..], i - 1);
      assert s[1..][i - 1..] == s[i..] && [s[0]] + s[1..][..i - 1] == s[..i];
    }
  }

  lemma QuoteStep(s: Bytes)
    requires s != []
    ensures QuoteBody(s) == Escape(DecodeRune(s).rune) + QuoteBody(s[DecodeRune(s).width..])
  {}

  lemma QuoteNothing()
    ensures QuoteBody([]) == []
  {}

  /** Runs of plain bytes are copied, everything else goes rune by rune. */
  method AppendQuote(s: Bytes) returns (out: Bytes)
    ensures out == Quote(s)
  {
    hide QuoteBody, DecodeRune, EncodeRune, Hex4;
    out := [QUOTE];
    var rest := s;
    QuoteNothing();
    while |rest| > 0
      invariant out + QuoteBody(rest) == [QUOTE] + QuoteBody(s)
      decreases |rest|
    {
      var i := 0;
      while i < |rest| && IsPlain(rest[i])
        invariant 0 <= i <= |rest| && forall k :: 0 <= k < i ==> IsPlain(rest[k])
      {
        i := i + 1;
      }
      PlainRun(rest, i);
      Regroup(out, rest[..i], QuoteBody(rest[i..]));
      out := out + rest[..i];
      rest := rest[i..];
      if |rest| == 0 {
        break;
      }
      var d := DecodeRune(rest);
      QuoteStep(rest);
      Regroup(out, Escape(d.rune), QuoteBody(rest[d.width..]));
      rest := rest[d.width..];
      var letter := ShortEscape(d.rune);
      if letter.Some? {
        out := out + [BACKSLASH, letter.value];
      } else if d.rune < 32 || IsSurrogate(d.rune) {
        out := out + ([BACKSLASH, LETTER_U] + Hex4(d.rune));
      } else {
        out := out + EncodeRune(d.rune);
      }
    }
    assert out + [] == out;
    Regroup([QUOTE], QuoteBody(s), [QUOTE]);
    out := out + [QUOTE];
  }

  // ---- decoding ----

  /** The byte a short escape stands for. */
  function Unescaped(b: Byte): Option<Byte> {
    if b == QUOTE || b == BACKSLASH || b == SLASH then Some(b)
    else if b == 98 then Some(8)
    else if b == 102 then Some(12)
    else if b == 110 then Some(10)
    else if b == 114 then Some(13)
    else if b == 116 then Some(9)
    else None
  }

  /** The low surrogate that an escape at the front of t stands for, if it is one. */
  function LowEscape(t: Bytes): Option<Unit> {
    if |t| >= 6 && t[0] == BACKSLASH && t[1] == LETTER_U && ParseHex(t[2..6]).Some? && IsLow(ParseHex(t[2..6]).value)
    then Some(ParseHex(t[2..6]).value) else None
  }

  /** The text of the rest of a literal; its last byte is the closing quote and is not read. */
  function Unescape(t: Bytes): Bytes
    decreases |t|
  {
    if |t| <= 1 then []
    else if t[0] != BACKSLASH then [t[0]] + Unescape(t[1..])
    else if Unescaped(t[1]).Some? then [Unescaped(t[1]).value] + Unescape(t[2..])
    else if t[1] != LETTER_U then Unescape(t[2..])
    else if |t| <= 5 || ParseHex(t[2..6]).None? then []
    else
      var n := ParseHex(t[2..6]).value;
      if IsHigh(n) && LowEscape(t[6..]).Some? then EncodeRune(Pair(n, LowEscape(t[6..]).value)) + Unescape(t[12..])
      else EncodeRune(n) + Unescape(t[6..])
  }

  lemma {:induction false} NoEscapes(t: Bytes)
    requires BACKSLASH !in t
    ensures Unescape(t) == if |t| <= 1 then [] else t[..|t| - 1]
    decreases |t|
  {
    if |t| > 1 {
      NoEscapes(t[1..]);
      assert t[..|t| - 1] == [t[0]] + t[1..][..|t| - 2];
    }
  }

  lemma UnescapeStep(t: Bytes)
    requires |t| > 1
    ensures Unescape(t) ==
      if t[0] != BACKSLASH then [t[0]] + Unescape(t[1..])
      else if Unescaped(t[1]).Some? then [Unescaped(t[1]).value] + Unescape(t[2..])
      else if t[1] != LETTER_U then Unescape(t[2..])
      else if |t| <= 5 || ParseHex(t[2..6]).None? then []
      else if IsHigh(ParseHex(t[2..6]).value) && LowEscape(t[6..]).Some? then
        EncodeRune(Pair(ParseHex(t[2..6]).value, LowEscape(t[6..]).value)) + Unescape(t[12..])
      else EncodeRune(ParseHex(t[2..6]).value) + Unescape(t[6..])
  {}

  /** The low surrogate escaped at offset k, if one is. */
  function LowAt(raw: Bytes, k: nat): Option<Unit> {
    if k + 6 <= |raw| && raw[k] == BACKSLASH && raw[k + 1] == LETTER_U && ParseHex(raw[k + 2..k + 6]).Some?
       && IsLow(ParseHex(raw[k + 2..k + 6]).value)
    then ParseHex(raw[k + 2..k + 6]) else None
  }

  lemma LowEscapeAt(raw: Bytes, k: nat)
    requires k <= |raw|
    ensures LowEscape(raw[k..]) == LowAt(raw, k)
  {
    hide ParseHex;
    if k + 6 <= |raw| {
      assert raw[k..][2..6] == raw[k + 2..k + 6];
    }
  }

  /** One step of reading, in offsets of the whole literal. */
  lemma UnescapeAt(raw: Bytes, i: nat)
    requires 1 <= i < |raw| - 1
    ensures Unescape(raw[i..]) ==
      if raw[i] != BACKSLASH then [raw[i]] + Unescape(raw[i + 1..])
      else if Unescaped(raw[i + 1]).Some? then [Unescaped(raw[i + 1]).value] + Unescape(raw[i + 2..])
      else if raw[i + 1] != LETTER_U then Unescape(raw[i + 2..])
      else if i + 5 >= |raw| || ParseHex(raw[i + 2..i + 6]).None? then []
      else if IsHigh(ParseHex(raw[i + 2..i + 6]).value) && LowAt(raw, i + 6).Some? then
        EncodeRune(Pair(ParseHex(raw[i + 2..i + 6]).value, LowAt(raw, i + 6).value)) + Unescape(raw[i + 12..])
      else EncodeRune(ParseHex(raw[i + 2..i + 6]).value) + Unescape(raw[i + 6..])
  {
    hide Unescape, EncodeRune, ParseHex, Unescaped, Pair, LowEscape, LowAt;
    var t := raw[i..];
    UnescapeStep(t);
    assert t[1..] == raw[i + 1..] && t[2..] == raw[i + 2..];
    if i + 6 <= |raw| {
      assert t[2..6] == raw[i + 2..i + 6] && t[6..] == raw[i + 6..];
      LowEscapeAt(raw, i + 6);
      LowIsLong(raw, i + 6);
      if i + 12 <= |raw| {
        assert t[12..] == raw[i + 12..];
      }
    }
  }

  lemma LowIs(raw: Bytes, k: nat)
    ensures LowAt(raw, k) ==
      if k + 6 <= |raw| && raw[k] == BACKSLASH && raw[k + 1] == LETTER_U && ParseHex(raw[k + 2..k + 6]).Some?
         && IsLow(ParseHex(raw[k + 2..k + 6]).value)
      then ParseHex(raw[k + 2..k + 6]) else None
  {}

  lemma LowIsLong(raw: Bytes, k: nat)
    ensures LowAt(raw, k).Some? ==> k + 6 <= |raw| && IsLow(LowAt(raw, k).value)
  {}

  lemma UnescapeEnd(t: Bytes)
    requires |t| <= 1
    ensures Unescape(t) == []
  {}

  /** A literal's text: without a backslash its inner bytes, otherwise escape by escape. */
  method DecodeString(raw: Bytes) returns (out: Bytes)
    ensures out == if raw == [] then [] else Unescape(raw[1..])
  {
    hide Unescape, EncodeRune, ParseHex, Unescaped, Pair, LowEscape, LowAt;
    if |raw| >= 2 && BACKSLASH !in raw {
      NoEscapes(raw[1..]);
      assert raw[1..][..|raw| - 2] == raw[1..|raw| - 1];
      return raw[1..|raw| - 1];
    }
    out := [];
    if raw == [] {
      return;
    }
    var i := 1;
    while i < |raw| - 1
      invariant 1 <= i
      invariant out + (if i <= |raw| then Unescape(raw[i..]) else []) == Unescape(raw[1..])
    {
      UnescapeAt(raw, i);
      if raw[i] != BACKSLASH {
        Regroup(out, [raw[i]], Unescape(raw[i + 1..]));
        out := out + [raw[i]];
        i := i + 1;
        continue;
      }
      i := i + 1;
      if Unescaped(raw[i]).Some? {
        Regroup(out, [Unescaped(raw[i]).value], Unescape(raw[i + 1..]));
        out := out + [Unescaped(raw[i]).value];
      } else if raw[i] == LETTER_U {
        if i + 4 >= |raw| {
          assert out + [] == out;
          return;
        }
        var n := ParseHex(raw[i + 1..i + 5]);
        if n.None? {
          assert out + [] == out;
          return;
        }
        i := i + 4;
        var r: Rune := n.value;
        LowIs(raw, i + 1);
        if IsHigh(r) && i + 6 < |raw| && raw[i + 1] == BACKSLASH && raw[i + 2] == LETTER_U {
          var low := ParseHex(raw[i + 3..i + 7]);
          if low.Some? && IsLow(low.value) {
            r := Pair(n.value, low.value);
            i := i + 6;
          }
        }
        Regroup(out, EncodeRune(r), Unescape(raw[i + 1..]));
        out := out + EncodeRune(r);
      }
      i := i + 1;
    }
    if i <= |raw| {
      UnescapeEnd(raw[i..]);
    }
    assert out + [] == out;
  }

  // ---- decoding what was quoted ----

  /** Bytes without a backslash are copied. */
  lemma {:induction false} CopyPlain(p: Bytes, rest: Bytes)
    requires rest != [] && BACKSLASH !in p
    ensures Unescape(p + rest) == p + Unescape(rest)
    decreases |p|
  {
    hide Unescape;
    if p == [] {
      assert p + rest == rest && p + Unescape(rest) == Unescape(rest);
    } else {
      UnescapeStep(p + rest);
      assert (p + rest)[1..] == p[1..] + rest;
      CopyPlain(p[1..], rest);
      Regroup([p[0]], p[1..], Unescape(rest));
      assert [p[0]] + p[1..] == p;
    }
  }

  lemma EncodedIsPlain(r: Rune)
    requires r >= 32 && r != BACKSLASH
    ensures BACKSLASH !in EncodeRune(r)
  {
    if IsSurrogate(r) {
    } else if r < 0x80 {
    } else if r < 0x800 {
    } else if r < 0x10000 {
    }
  }

  lemma Slices(r: nat, rest: Bytes)
    requires r < 0x10000
    ensures var t := [BACKSLASH, LETTER_U] + Hex4(r) + rest;
      |t| == |rest| + 6 && t[0] == BACKSLASH && t[1] == LETTER_U && t[2..6] == Hex4(r) && t[6..] == rest
  {
    hide HexDigit;
    var t := [BACKSLASH, LETTER_U] + Hex4(r) + rest;
    assert t == [BACKSLASH, LETTER_U] + (Hex4(r) + rest);
    assert t[2..] == Hex4(r) + rest;
  }

  /** An escaped rune reads back as the rune, unless it joins the low surrogate after it. */
  lemma UnescapeEscape(r: Rune, rest: Bytes)
    requires rest != [] && (IsHigh(r) ==> LowEscape(rest).None?)
    ensures Unescape(Escape(r) + rest) == EncodeRune(r) + Unescape(rest)
  {
    hide Unescape, LowEscape;
    var t := Escape(r) + rest;
    if ShortEscape(r).Some? {
      UnescapeStep(t);
      assert t[2..] == rest;
      ShortRoundTrip(r);
    } else if r < 32 || IsSurrogate(r) {
      Slices(r, rest);
      UnescapeStep(t);
      ParseHex4(r);
    } else {
      EncodedIsPlain(r);
      CopyPlain(EncodeRune(r), rest);
    }
  }

  lemma ShortRoundTrip(r: Rune)
    requires ShortEscape(r).Some?
    ensures Unescaped(ShortEscape(r).value) == Some(EncodeRune(r)[0]) && |EncodeRune(r)| == 1
  {}

  lemma UnescapePair(high: Unit, low: Unit, rest: Bytes)
    requires IsHigh(high) && IsLow(low) && rest != []
    ensures Unescape(Escape(high) + (Escape(low) + rest)) == EncodeRune(Pair(high, low)) + Unescape(rest)
  {
    hide Unescape, EncodeRune;
    Slices(low, rest);
    Slices(high, Escape(low) + rest);
    ParseHex4(high);
    ParseHex4(low);
    var t := Escape(high) + (Escape(low) + rest);
    UnescapeStep(t);
    assert t[12..] == (t[6..])[6..];
  }

  /** After a rune that is not a low surrogate comes no low escape. */
  lemma NoLowEscape(s: Bytes)
    requires s != [] ==> !IsLow(DecodeRune(s).rune)
    ensures LowEscape(QuoteBody(s) + [QUOTE]).None?
  {
    hide DecodeRune, QuoteBody;
    if s == [] {
      QuoteNothing();
    } else {
      var d := DecodeRune(s);
      var rest := QuoteBody(s[d.width..]) + [QUOTE];
      QuoteStep(s);
      Regroup(Escape(d.rune), QuoteBody(s[d.width..]), [QUOTE]);
      if ShortEscape(d.rune).None? && (d.rune < 32 || IsSurrogate(d.rune)) {
        Slices(d.rune, rest);
        ParseHex4(d.rune);
      } else if ShortEscape(d.rune).None? {
        EncodedIsPlain(d.rune);
        assert EncodeRune(d.rune) != [];
        assert (Escape(d.rune) + rest)[0] == EncodeRune(d.rune)[0];
        assert EncodeRune(d.rune)[0] in EncodeRune(d.rune);
      } else {
        assert (Escape(d.rune) + rest)[1] == ShortEscape(d.rune).value;
      }
    }
  }

  /**
   * Decoding a quoted text reads it through its code units: it gives the byte form of
   * them, in which every surrogate pair has become one code point and every bad byte
   * a replacement character.
   */
  lemma {:induction false} DecodeQuote(s: Bytes)
    ensures Unescape(QuoteBody(s) + [QUOTE]) == FromUtf16(ToUtf16(s))
    decreases |s|
  {
    hide DecodeRune, EncodeRune, QuoteBody, Unescape, ToUtf16, FromUtf16, LowEscape, Escape;
    if s == [] {
      Nothing();
    } else {
      var d := DecodeRune(s);
      var rest := s[d.width..];
      QuoteStep(s);
      UnitsStep(s);
      Regroup(Escape(d.rune), QuoteBody(rest), [QUOTE]);
      if IsHigh(d.rune) && rest != [] && IsLow(DecodeRune(rest).rune) {
        var e := DecodeRune(rest);
        var last := rest[e.width..];
        QuoteStep(rest);
        UnitsStep(rest);
        Regroup(Escape(e.rune), QuoteBody(last), [QUOTE]);
        UnescapePair(d.rune, e.rune, QuoteBody(last) + [QUOTE]);
        DecodeQuote(last);
        JoinUnits([d.rune], [e.rune], ToUtf16(last));
        BytesStep(ToUtf16(s));
      } else {
        NextIsNotLow(d.rune, rest);
        UnescapeEscape(d.rune, QuoteBody(rest) + [QUOTE]);
        DecodeQuote(rest);
        UnitsBack(d.rune, rest);
      }
    }
  }

  lemma NextIsNotLow(r: Rune, rest: Bytes)
    requires !(IsHigh(r) && rest != [] && IsLow(DecodeRune(rest).rune))
    ensures IsHigh(r) ==> LowEscape(QuoteBody(rest) + [QUOTE]).None?
  {
    hide DecodeRune, QuoteBody, LowEscape;
    if IsHigh(r) {
      NoLowEscape(rest);
    }
  }

  lemma Nothing()
    ensures Unescape(QuoteBody([]) + [QUOTE]) == [] && FromUtf16(ToUtf16([])) == []
  {
    QuoteNothing();
    UnescapeEnd([QUOTE]);
    assert QuoteBody([]) + [QUOTE] == [QUOTE];
  }

  lemma JoinUnits(a: seq<Unit>, b: seq<Unit>, c: seq<Unit>)
    requires |a| == |b| == 1
    ensures var u := a + (b + c); |u| >= 2 && u[0] == a[0] && u[1] == b[0] && u[2..] == c
  {}

  /** The units of a rune that does not start a pair with what follows are read back as that rune. */
  lemma UnitsBack(r: Rune, rest: Bytes)
    requires !(IsHigh(r) && rest != [] && IsLow(DecodeRune(rest).rune))
    ensures FromUtf16(UnitsOf(r) + ToUtf16(rest)) == EncodeRune(r) + FromUtf16(ToUtf16(rest))
  {
    hide DecodeRune, EncodeRune, FromUtf16, ToUtf16;
    var u := UnitsOf(r) + ToUtf16(rest);
    BytesStep(u);
    if r > 0xFFFF {
      PairOfUnits(r);
      assert u[..2] == UnitsOf(r) && u[2..] == ToUtf16(rest);
    } else {
      assert u[1..] == ToUtf16(rest);
      if rest != [] {
        UnitsStep(rest);
        FirstUnit(DecodeRune(rest).rune);
      } else {
        NoUnits();
      }
    }
  }

  lemma FirstUnit(r: Rune)
    ensures UnitsOf(r) != [] && (IsLow(UnitsOf(r)[0]) ==> IsLow(r))
  {}

  /** Quoting then decoding gives back every text that came from code units. */
  lemma QuoteRoundTrip(u: seq<Unit>)
    ensures Unescape(Quote(FromUtf16(u))[1..]) == FromUtf16(u)
  {
    hide QuoteBody, Unescape, ToUtf16, FromUtf16;
    var s := FromUtf16(u);
    assert Quote(s)[1..] == QuoteBody(s) + [QUOTE];
    DecodeQuote(s);
    Utf16RoundTrip(u);
  }

  // ---- which texts survive ----

  /** The first rune is an undecodable byte, which the decoder replaces. */
  predicate IsError(d: Decoded) {
    d.rune == REPLACEMENT && d.width == 1
  }

  predicate StartsLow(s: Bytes) {
    s != [] && IsLow(DecodeRune(s).rune)
  }

  /** Every rune decodes, and no high surrogate is directly followed by a low one. */
  predicate WellFormed(s: Bytes) {
    s == [] ||
      var d := DecodeRune(s);
      var rest := s[d.width..];
      !IsError(d) && !(IsHigh(d.rune) && StartsLow(rest)) && WellFormed(rest)
  }

  lemma TwoBack(b: Byte, x: Byte)
    requires 0xC2 <= b <= 0xDF && IsTail(x)
    ensures EncodeRune(Join(b - 0xC0, x)) == [b, x]
  {
    var bits, tail := b - 0xC0, x - 0x80;
    assert (bits * 64 + tail) / 64 == bits && (bits * 64 + tail) % 64 == tail;
  }

  lemma ThreeBack(b: Byte, x: Byte, y: Byte)
    requires 0xE0 <= b <= 0xEF && IsTail(x) && IsTail(y) && (b == 0xE0 ==> x >= 0xA0)
    ensures Join(Join(b - 0xE0, x), y) < 0x10000 && EncodeRune(Join(Join(b - 0xE0, x), y)) == [b, x, y]
  {
    hide EncodeRune;
    var r := Join(Join(b - 0xE0, x), y);
    var upper := (b - 0xE0) * 64 + (x - 0x80);
    assert r == upper * 64 + (y - 0x80);
    assert r / 64 == upper && r % 64 == y - 0x80;
    assert upper / 64 == b - 0xE0 && upper % 64 == x - 0x80;
    assert r / 4096 == upper / 64;
    SurrogateBytes(r);
  }

  lemma FourBack(b: Byte, x: Byte, y: Byte, z: Byte)
    requires 0xF0 <= b <= 0xF4 && IsTail(x) && IsTail(y) && IsTail(z)
    requires (b == 0xF0 ==> x >= 0x90) && (b == 0xF4 ==> x <= 0x8F)
    ensures var r := Join(Join(Join(b - 0xF0, x), y), z);
      0x10000 <= r <= 0x10FFFF && EncodeRune(r) == [b, x, y, z]
  {
    hide EncodeRune;
    var top := (b - 0xF0) * 64 + (x - 0x80);
    var upper := top * 64 + (y - 0x80);
    var r := upper * 64 + (z - 0x80);
    assert r == Join(Join(Join(b - 0xF0, x), y), z);
    Digits(upper, z - 0x80);
    Digits(top, y - 0x80);
    Digits(b - 0xF0, x - 0x80);
    ByThousands(r);
    WideBytes(r);
  }

  lemma Digits(bits: nat, tail: nat)
    requires tail < 64
    ensures (bits * 64 + tail) / 64 == bits && (bits * 64 + tail) % 64 == tail
  {}

  lemma ByThousands(r: nat)
    ensures r / 4096 == r / 64 / 64 && r / 262144 == r / 64 / 64 / 64
  {}

  lemma WideBytes(r: Rune)
    requires r >= 0x10000
    ensures EncodeRune(r) == [0xF0 + r / 262144, 0x80 + r / 4096 % 64, 0x80 + r / 64 % 64, 0x80 + r % 64]
  {}

  /** A rune that decodes without error encodes to the bytes it was read from. */
  lemma EncodeDecode(s: Bytes)
    requires s != [] && !IsError(DecodeRune(s))
    ensures EncodeRune(DecodeRune(s).rune) == s[..DecodeRune(s).width]
  {
    hide EncodeRune, Join;
    var d := DecodeRune(s);
    if d.width == 2 {
      TwoBack(s[0], s[1]);
    } else if d.width == 3 {
      ThreeBack(s[0], s[1], s[2]);
    } else if d.width == 4 {
      FourBack(s[0], s[1], s[2], s[3]);
    } else {
      OneBack(d.rune);
    }
  }

  lemma OneBack(r: Rune)
    ensures r < 0x80 ==> EncodeRune(r) == [r]
  {}

  lemma {:induction false} WellFormedSurvives(s: Bytes)
    requires WellFormed(s)
    ensures FromUtf16(ToUtf16(s)) == s
    decreases |s|
  {
    hide DecodeRune, EncodeRune, FromUtf16, ToUtf16;
    if s == [] {
      Nothing();
    } else {
      var d := DecodeRune(s);
      var rest := s[d.width..];
      UnitsStep(s);
      UnitsBack(d.rune, rest);
      WellFormedSurvives(rest);
      EncodeDecode(s);
    }
  }

  lemma FirstRune(u: seq<Unit>)
    requires u != []
    ensures FromUtf16(u) != []
    ensures DecodeRune(FromUtf16(u)).rune == if StartsPair(u) then Pair(u[0], u[1]) else u[0]
    ensures FromUtf16(u)[DecodeRune(FromUtf16(u)).width..] == FromUtf16(if StartsPair(u) then u[2..] else u[1..])
    ensures !IsError(DecodeRune(FromUtf16(u)))
  {
    hide DecodeRune, EncodeRune, FromUtf16, Pair;
    var r: Rune, rest := u[0], u[1..];
    if StartsPair(u) {
      r, rest := Pair(u[0], u[1]), u[2..];
    }
    BytesStep(u);
    DecodeEncode(r, FromUtf16(rest));
    ReplacementIsThree();
  }

  lemma ReplacementIsThree()
    ensures |EncodeRune(REPLACEMENT)| == 3
  {}

  lemma {:induction false} UnitsWellFormed(u: seq<Unit>)
    ensures WellFormed(FromUtf16(u))
    decreases |u|
  {
    hide DecodeRune, EncodeRune, FromUtf16;
    if u == [] {
      Nothing();
      NoUnits();
    } else {
      FirstRune(u);
      var rest := if StartsPair(u) then u[2..] else u[1..];
      UnitsWellFormed(rest);
      if rest != [] {
        FirstRune(rest);
      } else {
        Nothing();
        NoUnits();
      }
    }
  }

  /** Quoting then decoding gives a text back exactly when it is well formed, which is to say made of code units. */
  lemma QuoteSurvives(s: Bytes)
    ensures Unescape(Quote(s)[1..]) == s <==> WellFormed(s)
    ensures WellFormed(s) <==> exists u :: s == FromUtf16(u)
  {
    hide QuoteBody, Unescape, ToUtf16, FromUtf16, WellFormed;
    assert Quote(s)[1..] == QuoteBody(s) + [QUOTE];
    DecodeQuote(s);
    if WellFormed(s) {
      WellFormedSurvives(s);
      assert s == FromUtf16(ToUtf16(s));
    }
    if u :| s == FromUtf16(u) {
      UnitsWellFormed(u);
    }
  }

  /** Two encoded surrogates that join, and a byte that does not decode, do not survive. */
  lemma TextsThatChange()
    ensures Unescape(Quote([0xED, 0xA0, 0x80, 0xED, 0xB0, 0x80])[1..]) != [0xED, 0xA0, 0x80, 0xED, 0xB0, 0x80]
    ensures Unescape(Quote([0xFF])[1..]) != [0xFF]
  {
    hide Unescape, Quote, FromUtf16;
    var s: Bytes := [0xED, 0xA0, 0x80, 0xED, 0xB0, 0x80];
    assert s[3..] == [0xED, 0xB0, 0x80];
    assert DecodeRune(s) == Decoded(0xD800, 3) && DecodeRune(s[3..]) == Decoded(0xDC00, 3);
    assert !WellFormed(s);
    QuoteSurvives(s);
    QuoteSurvives([0xFF]);
  }

  // ---- the quoted text is one literal ----

  /** How far a literal's text reaches: up to the first quote that is not part of an escape. */
  function LiteralEnd(t: Bytes): nat {
    if t == [] || t[0] == QUOTE then 0
    else if t[0] == BACKSLASH && |t| >= 2 then 2 + LiteralEnd(t[2..])
    else 1 + LiteralEnd(t[1..])
  }

  predicate NoControls(t: Bytes) {
    forall b :: b in t ==> b >= 32
  }

  lemma {:induction false} PlainEnd(p: Bytes, rest: Bytes)
    requires QUOTE !in p && BACKSLASH !in p
    ensures LiteralEnd(p + rest) == |p| + LiteralEnd(rest)
    decreases |p|
  {
    if p == [] {
      assert p + rest == rest;
    } else {
      assert (p + rest)[1..] == p[1..] + rest;
      PlainEnd(p[1..], rest);
    }
  }

  lemma HexIsPlain(r: nat)
    requires r < 0x10000
    ensures QUOTE !in Hex4(r) && BACKSLASH !in Hex4(r) && NoControls(Hex4(r))
  {}

  lemma EncodedIsHigh(r: Rune)
    requires r >= 32 && r != QUOTE && r != BACKSLASH
    ensures QUOTE !in EncodeRune(r) && NoControls(EncodeRune(r))
  {
    if IsSurrogate(r) {
    } else if r < 0x80 {
    } else if r < 0x800 {
    } else if r < 0x10000 {
    }
  }

  /** An escaped rune is read over whole and holds no control byte. */
  lemma EscapeEnd(r: Rune, rest: Bytes)
    ensures LiteralEnd(Escape(r) + rest) == |Escape(r)| + LiteralEnd(rest) && NoControls(Escape(r))
  {
    hide EncodeRune, Hex4;
    if ShortEscape(r).Some? {
      assert (Escape(r) + rest)[2..] == rest;
    } else if r < 32 || IsSurrogate(r) {
      HexIsPlain(r);
      assert (Escape(r) + rest)[2..] == Hex4(r) + rest;
      PlainEnd(Hex4(r), rest);
    } else {
      EncodedIsPlain(r);
      EncodedIsHigh(r);
      PlainEnd(EncodeRune(r), rest);
    }
  }

  /** A quoted text is one JSON literal: it ends at its last byte and holds no control byte. */
  lemma {:induction false} QuotedIsLiteral(s: Bytes)
    ensures LiteralEnd(QuoteBody(s) + [QUOTE]) == |QuoteBody(s)| && NoControls(QuoteBody(s))
    decreases |s|
  {
    hide DecodeRune, Escape, QuoteBody;
    if s == [] {
      QuoteNothing();
      assert QuoteBody([]) + [QUOTE] == [QUOTE];
    } else {
      var d := DecodeRune(s);
      var rest := s[d.width..];
      QuoteStep(s);
      Regroup(Escape(d.rune), QuoteBody(rest), [QUOTE]);
      EscapeEnd(d.rune, QuoteBody(rest) + [QUOTE]);
      QuotedIsLiteral(rest);
    }
  }
}
