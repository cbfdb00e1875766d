/**
 * Text between UTF-16 code units and bytes. The bytes are UTF-8 in which a surrogate
 * without a partner is kept as three bytes of its own, so every list of code units
 * has a byte form.
 */
module CliUnicode {
  type Byte = b: nat | b < 256
  type Unit = u: nat | u < 0x10000
  /** A code point, surrogates included. */
  type Rune = r: nat | r <= 0x10FFFF
  type Bytes = seq<Byte>

  const REPLACEMENT: Rune := 0xFFFD

  predicate IsHigh(r: int) { 0xD800 <= r <= 0xDBFF }

  predicate IsLow(r: int) { 0xDC00 <= r <= 0xDFFF }

  predicate IsSurrogate(r: int) { 0xD800 <= r <= 0xDFFF }

  predicate IsTail(b: int) { 0x80 <= b <= 0xBF }

  /** The code point of a surrogate pair. */
  function Pair(high: Unit, low: Unit): Rune
    requires IsHigh(high) && IsLow(low)
  {
    var h: int, l: int := high, low;
    0x10000 + (h - 0xD800) * 1024 + (l - 0xDC00)
  }

  // ---- one rune ----

  datatype Decoded = Decoded(rune: Rune, width: nat)

  /** The bits so far followed by the six bits of a tail byte. */
  function Join(bits: int, tail: int): int {
    bits * 64 + (tail - 0x80)
  }

  /** UTF-8 decoding as the standard library does it: a bad byte is one replacement rune. */
  function DecodeUtf8(s: Bytes): (d: Decoded)
    requires s != []
    ensures 1 <= d.width <= |s|
  {
    var b := s[0];
    if b < 0x80 then Decoded(b, 1)
    else if 0xC2 <= b <= 0xDF && |s| >= 2 && IsTail(s[1]) then Decoded(Join(b - 0xC0, s[1]), 2)
    else if 0xE0 <= b <= 0xEF && |s| >= 3 && IsTail(s[1]) && IsTail(s[2])
            && (b == 0xE0 ==> s[1] >= 0xA0) && (b == 0xED ==> s[1] <= 0x9F) then
      Decoded(Join(Join(b - 0xE0, s[1]), s[2]), 3)
    else if 0xF0 <= b <= 0xF4 && |s| >= 4 && IsTail(s[1]) && IsTail(s[2]) && IsTail(s[3])
            && (b == 0xF0 ==> s[1] >= 0x90) && (b == 0xF4 ==> s[1] <= 0x8F) then
      Decoded(Join(Join(Join(b - 0xF0, s[1]), s[2]), s[3]), 4)
    else Decoded(REPLACEMENT, 1)
  }

  function EncodeUtf8(r: Rune): Bytes {
    if r < 0x80 then [r]
    else if r < 0x800 then [0xC0 + r / 64, 0x80 + r % 64]
    else if IsSurrogate(r) then [0xEF, 0xBF, 0xBD]
    else if r < 0x10000 then [0xE0 + r / 4096, 0x80 + r / 64 % 64, 0x80 + r % 64]
    else [0xF0 + r / 262144, 0x80 + r / 4096 % 64, 0x80 + r / 64 % 64, 0x80 + r % 64]
  }

  /** The first rune, which may be a lone surrogate. */
  function DecodeRune(s: Bytes): (d: Decoded)
    requires s != []
    ensures 1 <= d.width <= |s|
  {
    if |s| >= 3 && s[0] == 0xED && 0xA0 <= s[1] <= 0xBF && IsTail(s[2]) then
      Decoded(Join(Join(s[0] - 0xE0, s[1]), s[2]), 3)
    else DecodeUtf8(s)
  }

  function EncodeRune(r: Rune): Bytes {
    if IsSurrogate(r) then [0xED, 0x80 + r / 64 % 64, 0x80 + r % 64] else EncodeUtf8(r)
  }

  lemma DecodeTwo(r: Rune, s: Bytes)
    requires 0x80 <= r < 0x800 && |s| >= 2 && s[0] == 0xC0 + r / 64 && s[1] == 0x80 + r % 64
    ensures DecodeRune(s) == Decoded(r, 2)
  {}

  lemma DecodeThree(r: Rune, s: Bytes)
    requires 0x800 <= r < 0x10000 && |s| >= 3
    requires s[0] == 0xE0 + r / 4096 && s[1] == 0x80 + r / 64 % 64 && s[2] == 0x80 + r % 64
    ensures DecodeRune(s) == Decoded(r, 3)
  {
    var a, b, c := r / 4096, r / 64 % 64, r % 64;
    assert r / 64 == 64 * a + b;
    assert Join(Join(a, s[1]), s[2]) == r;
  }

  lemma DecodeFour(r: Rune, s: Bytes)
    requires 0x10000 <= r && |s| >= 4
    requires s[0] == 0xF0 + r / 262144 && s[1] == 0x80 + r / 4096 % 64 && s[2] == 0x80 + r / 64 % 64 && s[3] == 0x80 + r % 64
    ensures DecodeRune(s) == Decoded(r, 4)
  {
    JoinFour(r, s[1], s[2], s[3]);
    var a := r / 262144;
    assert s[0] - 0xF0 == a && a <= 4;
    assert a == 0 ==> r / 4096 % 64 == r / 4096 >= 16;
    assert a == 4 ==> r / 4096 - 256 <= 15 && r / 4096 % 64 == r / 4096 - 256;
  }

  lemma JoinFour(r: nat, x: int, y: int, z: int)
    requires x == 0x80 + r / 4096 % 64 && y == 0x80 + r / 64 % 64 && z == 0x80 + r % 64
    ensures Join(Join(Join(r / 262144, x), y), z) == r
  {
    var a, b, c := r / 262144, r / 4096 % 64, r / 64 % 64;
    assert r / 4096 == 64 * a + b;
    assert r / 64 == 64 * (r / 4096) + c;
  }

  /** Decoding inverts encoding at the front of any bytes. */
  lemma DecodeEncode(r: Rune, rest: Bytes)
    ensures EncodeRune(r) != [] && DecodeRune(EncodeRune(r) + rest) == Decoded(r, |EncodeRune(r)|)
    ensures (EncodeRune(r) + rest)[|EncodeRune(r)|..] == rest
  {
    hide DecodeRune;
    var s := EncodeRune(r) + rest;
    if r < 0x80 {
      DecodeOne(r, s);
    } else if r < 0x800 {
      DecodeTwo(r, s);
    } else if r < 0x10000 {
      SurrogateBytes(r);
      DecodeThree(r, s);
    } else {
      DecodeFour(r, s);
    }
  }

  lemma DecodeOne(r: Rune, s: Bytes)
    requires r < 0x80 && s != [] && s[0] == r
    ensures DecodeRune(s) == Decoded(r, 1)
  {}

  lemma SurrogateBytes(r: Rune)
    requires IsSurrogate(r)|| 0x800 <= r < 0x10000
    ensures EncodeRune(r) == [0xE0 + r / 4096, 0x80 + r / 64 % 64, 0x80 + r % 64]
  {
    if IsSurrogate(r) {
      assert r / 4096 == 13;
    }
  }

  // ---- code units ----

  function UnitsOf(r: Rune): seq<Unit> {
    if r > 0xFFFF then [0xD800 + (r - 0x10000) / 1024, 0xDC00 + (r - 0x10000) % 1024] else [r]
  }

  function ToUtf16(s: Bytes): seq<Unit> {
    if s == [] then [] else
      var d := DecodeRune(s);
      UnitsOf(d.rune) + ToUtf16(s[d.width..])
  }

  predicate StartsPair(u: seq<Unit>) {
    |u| >= 2 && IsHigh(u[0]) && IsLow(u[1])
  }

  function FromUtf16(u: seq<Unit>): Bytes {
    if u == [] then []
    else if StartsPair(u) then EncodeRune(Pair(u[0], u[1])) + FromUtf16(u[2..])
    else EncodeRune(u[0]) + FromUtf16(u[1..])
  }

  method AppendUnits(s: Bytes) returns (units: seq<Unit>)
    ensures units == ToUtf16(s)
  {
    hide DecodeRune, ToUtf16;
    units := [];
    var rest := s;
    NoUnits();
    while |rest| > 0
      invariant units + ToUtf16(rest) == ToUtf16(s)
      decreases |rest|
    {
      var d := DecodeRune(rest);
      UnitsStep(rest);
      rest := rest[d.width..];
      var before := units;
      if d.rune > 0xFFFF {
        var r := d.rune - 0x10000;
        units := units + [0xD800 + r / 1024, 0xDC00 + r % 1024];
      } else {
        units := units + [d.rune];
      }
      assert units == before + UnitsOf(d.rune);
      Regroup(before, UnitsOf(d.rune), ToUtf16(rest));
    }
    assert units + [] == units;
  }

  lemma NoUnits()
    ensures ToUtf16([]) == []
  {}

  lemma Regroup<T>(a: seq<T>, b: seq<T>, c: seq<T>)
    ensures a + (b + c) == (a + b) + c
  {}

  lemma UnitsStep(s: Bytes)
    requires s != []
    ensures ToUtf16(s) == UnitsOf(DecodeRune(s).rune) + ToUtf16(s[DecodeRune(s).width..])
  {}

  method AppendBytes(units: seq<Unit>) returns (out: Bytes)
    ensures out == FromUtf16(units)
  {
    hide EncodeRune;
    out := [];
    var i := 0;
    while i < |units|
      invariant 0 <= i <= |units|
      invariant out + FromUtf16(units[i..]) == FromUtf16(units)
    {
      var rest := units[i..];
      var r: Rune := units[i];
      ghost var width := 1;
      if IsHigh(r) && i + 1 < |units| && IsLow(units[i + 1]) {
        r := 0x10000 + (r - 0xD800) * 1024 + (units[i + 1] - 0xDC00);
        width := 2;
        assert StartsPair(rest) && r == Pair(rest[0], rest[1]);
        i := i + 1;
      }
      BytesStep(rest);
      assert rest[width..] == units[i + 1..];
      assert (out + EncodeRune(r)) + FromUtf16(rest[width..]) == out + (EncodeRune(r) + FromUtf16(rest[width..]));
      out := out + EncodeRune(r);
      i := i + 1;
    }
    assert out + [] == out;
  }

  lemma BytesStep(u: seq<Unit>)
    requires u != []
    ensures FromUtf16(u) ==
      if StartsPair(u) then EncodeRune(Pair(u[0], u[1])) + FromUtf16(u[2..]) else EncodeRune(u[0]) + FromUtf16(u[1..])
  {}

  lemma UnitsOfPair(u: seq<Unit>)
    requires StartsPair(u)
    ensures UnitsOf(Pair(u[0], u[1])) == [u[0], u[1]] == u[..2]
  {}

  /** Every list of code units survives, lone surrogates included. */
  lemma {:induction false} Utf16RoundTrip(u: seq<Unit>)
    ensures ToUtf16(FromUtf16(u)) == u
    decreases |u|
  {
    hide EncodeRune, DecodeRune;
    if u != [] {
      var r: Rune, rest := u[0], u[1..];
      if StartsPair(u) {
        r, rest := Pair(u[0], u[1]), u[2..];
        UnitsOfPair(u);
      }
      Utf16RoundTrip(rest);
      BytesStep(u);
      DecodeEncode(r, FromUtf16(rest));
      UnitsStep(EncodeRune(r) + FromUtf16(rest));
      assert u == UnitsOf(r) + rest;
    }
  }

  /** The units of a code point above the first plane are read back as that code point. */
  lemma PairOfUnits(r: Rune)
    requires r > 0xFFFF
    ensures var u := UnitsOf(r); |u| == 2 && IsHigh(u[0]) && IsLow(u[1]) && Pair(u[0], u[1]) == r
  {}
}
