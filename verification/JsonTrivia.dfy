/**
 * What trivia is, said by a grammar of its own: blanks, line comments with their line
 * feed, and block comments up to their first closing mark.
 */
module JsonTrivia {
  import opened Options
  import opened JsonText

  datatype Gap = Blank(c: char) | LineComment(text: string) | BlockComment(text: string)

  function PrintGap(g: Gap): string {
    match g
    case Blank(c) => [c]
    case LineComment(text) => "//" + text + "\n"
    case BlockComment(text) => "/*" + text + "*/"
  }

  predicate WfGap(g: Gap) {
    match g
    case Blank(c) => IsSpace(c)
    case LineComment(text) => '\n' !in text
    case BlockComment(text) => forall k: nat :: k < |text| ==> !ClosesComment(text + "*/", k)
  }

  function PrintGaps(gs: seq<Gap>): string {
    if gs == [] then "" else PrintGap(gs[0]) + PrintGaps(gs[1..])
  }

  predicate WfGaps(gs: seq<Gap>) {
    forall g :: g in gs ==> WfGap(g)
  }

  // ---- a comment, read and printed ----

  lemma LineEndIs(text: string, rest: string)
    requires '\n' !in text
    ensures LineEnd(text + "\n" + rest) == |text|
  {
    var s := text + "\n" + rest;
    assert s[|text|] == '\n';
    assert forall k :: 0 <= k < |text| ==> s[k] == text[k] && text[k] in text;
  }

  lemma BlockEndIs(text: string)
    requires WfGap(BlockComment(text))
    ensures BlockEnd(text + "*/") == Some(|text| + 2)
  {
    assert ClosesComment(text + "*/", |text|);
  }

  lemma GapIsClosed(g: Gap)
    requires WfGap(g)
    ensures ClosedTrivia(PrintGap(g))
  {
    hide LineEnd, BlockEnd;
    var s := PrintGap(g);
    match g
    case Blank(c) =>
      assert s[1..] == "";
    case LineComment(text) =>
      assert s == ("//" + text) + "\n" + "";
      assert '\n' !in "//" + text;
      LineEndIs("//" + text, "");
      assert s[|text| + 2..] == "\n" && "\n"[1..] == "";
      assert Piece("\n") == Some(1);
    case BlockComment(text) =>
      assert s[2..] == text + "*/";
      BlockEndIs(text);
      assert s[|s|..] == "";
  }

  /** Closed trivia are exactly the texts of sequences of blanks and comments. */
  lemma {:induction false} GapsAreClosed(gs: seq<Gap>)
    requires WfGaps(gs)
    ensures ClosedTrivia(PrintGaps(gs))
    decreases |gs|
  {
    hide ClosedTrivia;
    if gs == [] {
      NoTrivia();
    } else {
      GapIsClosed(gs[0]);
      GapsAreClosed(gs[1..]);
      ClosedTriviaConcat(PrintGap(gs[0]), PrintGaps(gs[1..]));
    }
  }

  lemma OneGap(t: string) returns (g: Gap)
    requires ClosedTrivia(t) && t != ""
    ensures WfGap(g) && |PrintGap(g)| <= |t| && PrintGap(g) == t[..|PrintGap(g)|] && ClosedTrivia(t[|PrintGap(g)|..])
    ensures |PrintGap(g)| > 0
  {
    hide LineEnd, BlockEnd;
    if IsSpace(t[0]) {
      g := Blank(t[0]);
    } else if OpensLineComment(t) {
      var n := LineEnd(t);
      g := LineComment(t[2..n]);
      assert t[n..][0] == '\n' && ClosedTrivia(t[n..]);
      assert Piece(t[n..]) == Some(1);
      assert t[n..][1..] == t[n + 1..];
      assert t[..n + 1] == "//" + t[2..n] + "\n";
    } else {
      var n := BlockEnd(t[2..]).value;
      var text := t[2..n];
      g := BlockComment(text);
      assert t[2..][..n] == text + "*/";
      forall k: nat | k < |text|
        ensures !ClosesComment(text + "*/", k)
      {
        assert !ClosesComment(t[2..], k);
        assert (text + "*/")[k] == t[2..][k] && (text + "*/")[k + 1] == t[2..][k + 1];
      }
      assert t[..n + 2] == "/*" + (text + "*/");
    }
  }

  lemma {:induction false} GapsOf(t: string) returns (gs: seq<Gap>)
    requires ClosedTrivia(t)
    ensures WfGaps(gs) && PrintGaps(gs) == t
    decreases |t|
  {
    hide ClosedTrivia, PrintGap, WfGap;
    if t == "" {
      gs := [];
    } else {
      var g := OneGap(t);
      var rest := GapsOf(t[|PrintGap(g)|..]);
      gs := [g] + rest;
      assert gs[1..] == rest;
    }
  }

  /** Closed trivia are exactly the texts of sequences of blanks and comments. */
  lemma ClosedTriviaIff(t: string)
    ensures ClosedTrivia(t) <==> exists gs :: WfGaps(gs) && PrintGaps(gs) == t
  {
    hide ClosedTrivia, WfGaps, PrintGaps;
    if ClosedTrivia(t) {
      var gs := GapsOf(t);
    }
    if gs :| WfGaps(gs) && PrintGaps(gs) == t {
      GapsAreClosed(gs);
    }
  }

  // ---- what is read as trivia ----

  /** The text begins with a blank or a comment, closed or not. */
  predicate StartsGap(s: string) {
    s != "" && (IsSpace(s[0]) || OpensLineComment(s) || OpensBlockComment(s))
  }

  /**
   * Trivia is read up to the first byte that starts no blank and no comment, or through
   * a last line comment to the end of the text.
   */
  predicate ReadsTo(s: string, n: nat) {
    n <= |s| &&
      exists k: nat :: k <= n && ClosedTrivia(s[..k]) &&
        if k == n then !StartsGap(s[n..]) else n == |s| && OpensLineComment(s[k..]) && '\n' !in s[k..]
  }

  ghost predicate NoClose(s: string) {
    forall j: nat :: !ClosesComment(s, j)
  }

  /** A block comment is open to the end of the text. */
  ghost predicate NeverCloses(s: string) {
    exists k: nat :: k <= |s| && ClosedTrivia(s[..k]) && OpensBlockComment(s[k..]) && NoClose(s[k + 2..])
  }

  lemma Shifted(s: string, k: nat, m: nat)
    requires k <= |s| && k + m <= |s| && ClosedTrivia(s[..k]) && ClosedTrivia(s[k..][..m])
    ensures ClosedTrivia(s[..k + m]) && s[k..][m..] == s[k + m..]
  {
    hide ClosedTrivia;
    ClosedTriviaConcat(s[..k], s[k..][..m]);
    assert s[..k] + s[k..][..m] == s[..k + m];
  }

  lemma ReadsToLater(s: string, k: nat, n: nat)
    requires k <= |s| && ClosedTrivia(s[..k]) && ReadsTo(s[k..], n)
    ensures ReadsTo(s, k + n)
  {
    hide ClosedTrivia;
    var m: nat :| m <= n && ClosedTrivia(s[k..][..m]) &&
      if m == n then !StartsGap(s[k..][n..]) else n == |s[k..]| && OpensLineComment(s[k..][m..]) && '\n' !in s[k..][m..];
    Shifted(s, k, m);
    assert s[k..][n..] == s[k + n..];
    assert k + m <= k + n;
  }

  lemma NeverClosesLater(s: string, k: nat)
    requires k <= |s| && ClosedTrivia(s[..k]) && NeverCloses(s[k..])
    ensures NeverCloses(s)
  {
    hide ClosedTrivia;
    var m: nat :| m <= |s[k..]| && ClosedTrivia(s[k..][..m]) && OpensBlockComment(s[k..][m..]) && NoClose(s[k..][m + 2..]);
    Shifted(s, k, m);
    assert s[k..][m + 2..] == s[k + m + 2..];
  }

  /** One blank, one block comment, or one line comment with its line feed. */
  lemma FirstGap(s: string) returns (k: nat)
    requires StartsGap(s) && Piece(s).Some? && !(OpensLineComment(s) && LineEnd(s) == |s|)
    ensures 0 < k <= |s| && ClosedTrivia(s[..k]) && Trivia(s) == Plus(k, Trivia(s[k..]))
  {
    hide LineEnd, BlockEnd;
    k := Piece(s).value;
    if OpensLineComment(s) {
      assert s[k..][0] == '\n' && Piece(s[k..]) == Some(1);
      assert s[k..][1..] == s[k + 1..];
      LineEndOfPrefix(s, k + 1);
      assert s[..k + 1][k..] == "\n" && "\n"[1..] == "";
      assert Piece("\n") == Some(1) && ClosedTrivia("\n");
      assert OpensLineComment(s[..k + 1]);
      k := k + 1;
    } else {
      PieceOfPrefix(s, k);
      assert s[..k][k..] == "";
    }
  }

  /** What the reader takes as trivia is read to exactly that place; it fails exactly on a comment that never closes. */
  lemma {:induction false} TriviaMeans(s: string)
    ensures match Trivia(s) case Some(n) => ReadsTo(s, n) case None => NeverCloses(s)
    decreases |s|
  {
    hide LineEnd, BlockEnd, ClosedTrivia;
    NoTrivia();
    assert s[..0] == "" && s[0..] == s;
    if StartsGap(s) {
      if OpensLineComment(s) && LineEnd(s) == |s| {
        OpenLine(s);
      } else if Piece(s).None? {
        OpenBlock(s);
      } else {
        var k := FirstGap(s);
        TriviaMeans(s[k..]);
        match Trivia(s[k..])
        case Some(n) => ReadsToLater(s, k, n);
        case None => NeverClosesLater(s, k);
      }
    }
  }

  lemma OpenLine(s: string)
    requires OpensLineComment(s) && LineEnd(s) == |s|
    ensures Trivia(s) == Some(|s|) && ReadsTo(s, |s|)
  {
    assert s[|s|..] == "" && s[..0] == "" && s[0..] == s;
    assert ClosedTrivia(s[..0]);
  }

  lemma OpenBlock(s: string)
    requires StartsGap(s) && Piece(s).None?
    ensures Trivia(s).None? && NeverCloses(s)
  {
    hide BlockEnd;
    assert s[..0] == "" && s[0..] == s;
    assert ClosedTrivia(s[..0]);
  }
}
