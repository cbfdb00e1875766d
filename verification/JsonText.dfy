/**
 * The lexical layer of the concrete-syntax JSON parser: trivia (blanks and
 * comments), string tokens and scalar tokens. A text is a Go string with one
 * char for each byte. Every scanner works on the text that remains to be read
 * and answers how many bytes it takes, so nothing here depends on what was
 * read before.
 */
module JsonText {
  import opened Options

  const BOM := "\U{ef}\U{bb}\U{bf}"

  predicate IsSpace(c: char) {
    c == ' ' || c == '\t' || c == '\r' || c == '\n'
  }

  /** The bytes that end a number or literal. */
  predicate IsDelimiter(c: char) {
    IsSpace(c) || c == ',' || c == ']' || c == '}' || c == '/'
  }

  /** The offset of the first line feed, or the length when there is none. */
  function LineEnd(s: string): (n: nat)
    ensures n <= |s|
    ensures n < |s| ==> s[n] == '\n'
    ensures forall k :: 0 <= k < n ==> s[k] != '\n'
  {
    if s == "" || s[0] == '\n' then 0 else 1 + LineEnd(s[1..])
  }

  predicate ClosesComment(s: string, i: nat) {
    i + 2 <= |s| && s[i] == '*' && s[i + 1] == '/'
  }

  /** The offset just after the first closing comment mark; None when there is none. */
  function BlockEnd(s: string): (n: Option<nat>)
    ensures n.Some? ==> 2 <= n.value <= |s| && ClosesComment(s, n.value - 2)
    ensures forall k :: 0 <= k && (n.Some? ==> k < n.value - 2) ==> !ClosesComment(s, k)
  {
    assert forall k :: 0 < k && ClosesComment(s, k) ==> ClosesComment(s[1..], k - 1);
    if |s| < 2 then None
    else if s[0] == '*' && s[1] == '/' then Some(2)
    else match BlockEnd(s[1..])
      case None => None
      case Some(n) => Some(n + 1)
  }

  predicate OpensLineComment(s: string) {
    |s| >= 2 && s[0] == '/' && s[1] == '/'
  }

  predicate OpensBlockComment(s: string) {
    |s| >= 2 && s[0] == '/' && s[1] == '*'
  }

  /** The length of the blank or comment that starts the text, 0 when none does. */
  function Piece(s: string): (n: Option<nat>)
    ensures n.Some? ==> n.value <= |s|
  {
    if s == "" then Some(0)
    else if IsSpace(s[0]) then Some(1)
    else if OpensLineComment(s) then Some(LineEnd(s))
    else if OpensBlockComment(s) then
      match BlockEnd(s[2..])
      case None => None
      case Some(n) => Some(n + 2)
    else Some(0)
  }

  /** How much trivia starts the text; None when a block comment never closes. */
  function Trivia(s: string): (n: Option<nat>)
    ensures n.Some? ==> n.value <= |s|
    decreases |s|
  {
    match Piece(s)
    case None => None
    case Some(k) => if k == 0 then Some(0) else Plus(k, Trivia(s[k..]))
  }

  function Plus(k: nat, n: Option<nat>): Option<nat> {
    match n
    case None => None
    case Some(v) => Some(k + v)
  }

  /** The text starts with a blank or comment that cannot swallow what follows it. */
  predicate ClosedPiece(s: string) {
    && s != ""
    && (IsSpace(s[0]) || (OpensLineComment(s) && LineEnd(s) < |s|) || (OpensBlockComment(s) && BlockEnd(s[2..]).Some?))
  }

  /** Trivia that leaves no comment open, so that any text may follow it. */
  predicate ClosedTrivia(t: string)
    decreases |t|
  {
    t == "" || (ClosedPiece(t) && Piece(t).value > 0 && ClosedTrivia(t[Piece(t).value..]))
  }

  lemma NoTrivia()
    ensures ClosedTrivia("")
  {}

  /** Text that begins with something other than trivia. */
  predicate StopsTrivia(s: string) {
    s != "" && !IsSpace(s[0]) && s[0] != '/'
  }

  lemma LineEndPrefix(a: string, b: string)
    requires LineEnd(a) < |a|
    ensures LineEnd(a + b) == LineEnd(a)
  {
    if a[0] != '\n' {
      assert (a + b)[1..] == a[1..] + b;
      LineEndPrefix(a[1..], b);
    }
  }

  lemma BlockEndPrefix(a: string, b: string)
    requires BlockEnd(a).Some?
    ensures BlockEnd(a + b) == BlockEnd(a)
  {
    if !(a[0] == '*' && a[1] == '/') {
      assert (a + b)[1..] == a[1..] + b;
      BlockEndPrefix(a[1..], b);
    }
  }

  lemma LineEndOfPrefix(s: string, n: nat)
    requires LineEnd(s) < n <= |s|
    ensures LineEnd(s[..n]) == LineEnd(s)
  {
    hide LineEnd;
    assert s[..n][LineEnd(s)] == s[LineEnd(s)];
  }

  lemma BlockEndOfPrefix(s: string, n: nat)
    requires BlockEnd(s).Some? && BlockEnd(s).value <= n <= |s|
    ensures BlockEnd(s[..n]) == BlockEnd(s)
  {
    hide BlockEnd;
    assert ClosesComment(s[..n], BlockEnd(s).value - 2);
    assert forall k: nat :: ClosesComment(s[..n], k) ==> ClosesComment(s, k);
  }

  lemma ClosedPiecePrefix(t: string, rest: string)
    requires ClosedPiece(t)
    ensures Piece(t).Some? && ClosedPiece(t + rest) && Piece(t + rest) == Piece(t)
  {
    var s := t + rest;
    if !IsSpace(t[0]) {
      if OpensLineComment(t) {
        LineEndPrefix(t, rest);
      } else {
        BlockEndPrefix(t[2..], rest);
        assert s[2..] == t[2..] + rest;
      }
    }
  }

  lemma PieceOfPrefix(s: string, n: nat)
    requires Piece(s).Some? && 0 < Piece(s).value <= n <= |s|
    requires OpensLineComment(s) ==> Piece(s).value < n
    ensures ClosedPiece(s[..n]) && Piece(s[..n]) == Piece(s)
  {
    if !IsSpace(s[0]) {
      if OpensLineComment(s) {
        LineEndOfPrefix(s, n);
      } else {
        BlockEndOfPrefix(s[2..], n - 2);
        assert s[..n][2..] == s[2..][..n - 2];
      }
    }
  }

  /** Closed trivia is read whole, whatever text follows it. */
  lemma {:induction false} TriviaReadsClosed(t: string, rest: string)
    requires ClosedTrivia(t)
    ensures Trivia(t + rest) == Plus(|t|, Trivia(rest))
    decreases |t|
  {
    hide Piece, ClosedPiece;
    if t == "" {
      assert t + rest == rest;
    } else {
      ClosedPiecePrefix(t, rest);
      var k := Piece(t).value;
      assert (t + rest)[k..] == t[k..] + rest;
      TriviaReadsClosed(t[k..], rest);
    }
  }

  /** Trivia that does not reach the end of the text is closed. */
  lemma {:induction false} TriviaIsClosed(s: string)
    requires Trivia(s).Some? && Trivia(s).value < |s|
    ensures ClosedTrivia(s[..Trivia(s).value])
    ensures !IsSpace(s[Trivia(s).value])
    decreases |s|
  {
    hide LineEnd, BlockEnd;
    var n := Trivia(s).value;
    var k := Piece(s).value;
    if k != 0 {
      TriviaIsClosed(s[k..]);
      if OpensLineComment(s) {
        assert s[k..][0] == '\n';
        assert Piece(s[k..]) == Some(1);
      }
      PieceOfPrefix(s, n);
      assert s[..n][k..] == s[k..][..n - k];
    }
  }

  lemma {:induction false} ClosedTriviaConcat(a: string, b: string)
    requires ClosedTrivia(a) && ClosedTrivia(b)
    ensures ClosedTrivia(a + b)
    decreases |a|
  {
    hide Piece, ClosedPiece;
    if a == "" {
      assert a + b == b;
    } else {
      ClosedPiecePrefix(a, b);
      var k := Piece(a).value;
      assert (a + b)[k..] == a[k..] + b;
      ClosedTriviaConcat(a[k..], b);
    }
  }

  /** A piece of closed trivia stops exactly where the next token starts. */
  lemma TriviaBefore(t: string, rest: string)
    requires ClosedTrivia(t) && StopsTrivia(rest)
    ensures Trivia(t + rest) == Some(|t|)
  {
    TriviaReadsClosed(t, rest);
  }

  /** What follows a value in a container starts with a delimiter. */
  lemma ClosedTriviaStart(t: string)
    requires ClosedTrivia(t) && t != ""
    ensures IsDelimiter(t[0])
  {}

  lemma SplitConcat(a: string, b: string)
    ensures (a + b)[..|a|] == a && (a + b)[|a|..] == b
  {}

  lemma SplitAt(s: string, i: nat, j: nat)
    requires i + j <= |s|
    ensures s[..i + j] == s[..i] + s[i..][..j] && s[i..][j..] == s[i + j..]
  {}

  lemma Regroup(a: string, b: string, c: string)
    ensures (a + b) + c == a + (b + c)
  {}

  lemma DropTwo(a: string, b: string, c: string)
    ensures (a + (b + c))[|a| + |b|..] == c
  {}

  /** Whether a text starts with the mark is decided by its first byte. */
  lemma BomPrefix(s: string)
    ensures BOM <= BOM + s && AfterBom(BOM + s) == s
    ensures s != "" && s[0] != BOM[0] ==> !(BOM <= "" + s) && AfterBom("" + s) == s
  {
    assert "" + s == s;
  }

  /** The text after the mark, if it starts with one. */
  function AfterBom(raw: string): string {
    if BOM <= raw then raw[3..] else raw
  }

  lemma BomStrip(raw: string)
    ensures raw == (if BOM <= raw then BOM else "") + AfterBom(raw)
  {}

  // String tokens

  /** How many backslashes stand directly before offset i. */
  function Backslashes(s: string, i: nat): nat
    requires i <= |s|
  {
    if i == 0 || s[i - 1] != '\\' then 0 else 1 + Backslashes(s, i - 1)
  }

  /** The byte at i is a quote that is not escaped. */
  predicate ClosesString(s: string, i: nat) {
    1 <= i < |s| && s[i] == '\"' && Backslashes(s, i) % 2 == 0
  }

  /** Where the string that is open at offset i ends, just after its quote. */
  function StringScan(s: string, i: nat): (n: Option<nat>)
    ensures n.Some? ==> i < n.value <= |s|
    decreases |s| - i
  {
    if i >= |s| then None
    else if s[i] == '\\' then StringScan(s, i + 2)
    else if s[i] == '\"' then Some(i + 1)
    else StringScan(s, i + 1)
  }

  /** The string open since offset i has its first unescaped quote at j. */
  predicate FirstClose(s: string, i: nat, j: nat) {
    i <= j && ClosesString(s, j) && forall k: nat :: i <= k < j ==> !ClosesString(s, k)
  }

  /** The scan ends at the first unescaped quote, and fails exactly when there is none. */
  lemma {:induction false} StringScanIs(s: string, i: nat)
    requires 1 <= i && (i <= |s| ==> Backslashes(s, i) % 2 == 0)
    ensures forall j: nat :: FirstClose(s, i, j) <==> StringScan(s, i) == Some(j + 1)
    ensures StringScan(s, i).None? <==> forall j: nat :: i <= j ==> !ClosesString(s, j)
    decreases |s| - i
  {
    if i < |s| {
      if s[i] == '\\' {
        assert Backslashes(s, i + 1) == Backslashes(s, i) + 1;
        assert !ClosesString(s, i) && !ClosesString(s, i + 1);
        StringScanIs(s, i + 2);
        assert forall j: nat :: FirstClose(s, i, j) <==> FirstClose(s, i + 2, j);
      } else if s[i] != '\"' {
        assert !ClosesString(s, i);
        StringScanIs(s, i + 1);
        assert forall j: nat :: FirstClose(s, i, j) <==> FirstClose(s, i + 1, j);
      } else {
        assert ClosesString(s, i);
      }
    }
  }

  /** A string token runs from a quote to the first quote after it that no backslash escapes. */
  lemma StringTokenIs(t: string)
    ensures IsStringToken(t) <==> |t| >= 2 && t[0] == '\"' && FirstClose(t, 1, |t| - 1)
  {
    if t != "" && t[0] == '\"' {
      StringScanIs(t, 1);
    }
  }

  predicate IsStringToken(t: string) {
    t != "" && t[0] == '\"' && StringScan(t, 1) == Some(|t|)
  }

  lemma {:induction false} StringScanPrefix(t: string, rest: string, i: nat)
    requires StringScan(t, i).Some?
    ensures StringScan(t + rest, i) == StringScan(t, i)
    decreases |t| - i
  {
    if t[i] == '\\' {
      StringScanPrefix(t, rest, i + 2);
    } else if t[i] != '\"' {
      StringScanPrefix(t, rest, i + 1);
    }
  }

  lemma {:induction false} StringScanOfPrefix(s: string, i: nat)
    requires StringScan(s, i).Some?
    ensures StringScan(s[..StringScan(s, i).value], i) == StringScan(s, i)
    decreases |s| - i
  {
    var n := StringScan(s, i).value;
    var t := s[..n];
    if s[i] == '\\' {
      StringScanOfPrefix(s, i + 2);
    } else if s[i] != '\"' {
      StringScanOfPrefix(s, i + 1);
    }
  }

  // Scalar tokens

  /** How many bytes precede the first delimiter. */
  function ScalarEnd(s: string): (n: nat)
    ensures n <= |s|
    ensures forall k :: 0 <= k < n ==> !IsDelimiter(s[k])
    ensures n < |s| ==> IsDelimiter(s[n])
  {
    if s == "" || IsDelimiter(s[0]) then 0 else 1 + ScalarEnd(s[1..])
  }

  lemma ScalarEndUnique(s: string, n: nat)
    requires n <= |s|
    requires forall k :: 0 <= k < n ==> !IsDelimiter(s[k])
    requires n < |s| ==> IsDelimiter(s[n])
    ensures ScalarEnd(s) == n
  {
    if n > 0 {
      ScalarEndUnique(s[1..], n - 1);
    }
  }
}
