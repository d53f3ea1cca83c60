/** What a script with a DELIMITER line gives, said from the letters of the word and the characters that are blank. */
module Directives {
  import E = Expressions
  import opened Delimiters

  /** The characters `\s` stands for. */
  const BLANKS :=
    "\t\n\U{B}\U{C}\r\U{1C}\U{1D}\U{1E}\U{1F} \U{85}\U{A0}\U{1680}" +
    "\U{2000}\U{2001}\U{2002}\U{2003}\U{2004}\U{2005}\U{2006}\U{2007}\U{2008}\U{2009}\U{200A}" +
    "\U{2028}\U{2029}\U{202F}\U{205F}\U{3000}"

  predicate Blank(s: string) {
    forall c <- s :: c in BLANKS
  }

  /** The letters of the word in either case; a capital dotted I and a small dotless one match as well. */
  const LETTERS := ["dD", "eE", "lL", "iI\U{130}\U{131}", "mM", "iI\U{130}\U{131}", "tT", "eE", "rR"]

  predicate Spells(w: string) {
    |w| == 9 && forall k :: 0 <= k < 9 ==> w[k] in LETTERS[k]
  }

  /** Text that neither starts nor ends with a blank. */
  predicate Trimmed(s: string) {
    s != "" && s[0] !in BLANKS && s[|s| - 1] !in BLANKS
  }

  /** `lead` and `pad` around a directive that declares d. */
  datatype Line = Line(lead: string, word: string, gap: string, d: string, pad: string)
  {
    function Text(): string {
      lead + word + gap + d + pad
    }

    predicate Valid() {
      && Blank(lead) && Spells(word) && Blank(gap) && gap != "" && Trimmed(d) && Blank(pad)
      && '\n' !in d && '\n' !in pad
    }
  }

  /** Only blanks stand between j and the start of a line. */
  predicate Opens(s: string, j: nat)
    requires j <= |s|
  {
    exists i :: 0 <= i <= j && (i == 0 || s[i - 1] == '\n') && Blank(s[i..j])
  }

  /** No line opens with the word. */
  predicate Quiet(s: string) {
    forall j :: 0 <= j <= |s| - 9 && Spells(s[j..j + 9]) ==> !Opens(s, j)
  }

  /** A statement that can stand before the delimiter d: it does not contain it, not even overlapping its end. */
  predicate Statement(piece: string, d: string) {
    && Trimmed(piece)
    && forall j :: 0 <= j < |piece| ==> (piece + d)[j..][..|d|] != d
  }

  /* ---------- the two ways of saying it agree ---------- */

  lemma SpaceIsBlank(c: char)
    ensures Space(c) <==> c in BLANKS
  {
  }

  lemma BlankIsSpace(s: string)
    ensures Blank(s) <==> AllSpace(s)
  {
    hide Space;
    forall c ensures Space(c) <==> c in BLANKS {
      SpaceIsBlank(c);
    }
  }

  lemma LetterIsSame(c: char)
    ensures SameLetter(c, 'd') <==> c in "dD"
    ensures SameLetter(c, 'e') <==> c in "eE"
    ensures SameLetter(c, 'l') <==> c in "lL"
    ensures SameLetter(c, 'i') <==> c in "iI\U{130}\U{131}"
    ensures SameLetter(c, 'm') <==> c in "mM"
    ensures SameLetter(c, 't') <==> c in "tT"
    ensures SameLetter(c, 'r') <==> c in "rR"
  {
  }

  lemma WordIsSpelled(s: string, p: nat)
    requires p + 9 <= |s|
    ensures WordAt(s, p) <==> Spells(s[p..p + 9])
  {
    var w := s[p..p + 9];
    forall k | 0 <= k < 9 ensures SameLetter(s[p + k], WORD[k]) <==> w[k] in LETTERS[k] {
      LetterIsSame(s[p + k]);
    }
    hide SameLetter;
    assert WordAt(s, p) <==> forall k :: 0 <= k < 9 ==> SameLetter(s[p + k], WORD[k]);
  }

  /* ---------- the directive ---------- */

  lemma LineSlices(l: Line, rest: string)
    requires l.Valid()
    ensures var s, p, w, q, e := l.Text() + rest, |l.lead|, |l.lead| + 9, |l.lead| + 9 + |l.gap|, |l.Text()|;
      && p + 9 == w < q < e <= |s| && s[..p] == l.lead && s[p..w] == l.word && s[w..q] == l.gap
      && s[q..e] == l.d + l.pad && s[q] == l.d[0] && s[e..] == rest
  {
    hide Blank;
    assert |l.word| == 9;
  }

  lemma LineMatches(l: Line, rest: string)
    requires l.Valid() && (rest == "" || rest[0] == '\n')
    ensures var word := |l.lead|;
      DirectiveAt(l.Text() + rest, 0) == E.Some(Match(0, word, word + 9 + |l.gap|, |l.Text()|))
  {
    var s := l.Text() + rest;
    var p, w := |l.lead|, |l.lead| + 9;
    var q, e := w + |l.gap|, |l.Text()|;
    LineSlices(l, rest);
    hide Space, Spells, SkipSpace, LineEnd, Line.Text, Blank;
    WordIsSpelled(s, p);
    WordIsNotSpace(s, p);
    assert s[0..p] == l.lead;
    SkipsBlank(s, 0, p);
    SpaceIsBlank(s[q]);
    SkipsBlank(s, w, q);
    EndsAt(s, q, e);
  }

  lemma SkipsBlank(s: string, i: nat, e: nat)
    requires i <= e < |s| && Blank(s[i..e]) && !Space(s[e])
    ensures SkipSpace(s, i) == e
  {
    BlankIsSpace(s[i..e]);
    SkipsAtLeast(s, i, e);
  }

  lemma EndsAt(s: string, i: nat, e: nat)
    requires i <= e <= |s| && '\n' !in s[i..e] && (e == |s| || s[e] == '\n')
    ensures LineEnd(s, i) == e
  {
    forall k | i <= k < e ensures s[k] != '\n' {
      assert s[k] == s[i..e][k - i];
    }
  }

  /** Where no line opens with the word there is no directive. */
  lemma QuietHasNone(s: string)
    requires Quiet(s)
    ensures FindDirective(s, 0).None?
  {
    hide Spells, DirectiveAt, IsDirective, Opens;
    var found := FindDirective(s, 0);
    if found.Some? {
      DirectiveOpens(s, found.value);
    }
  }

  lemma DirectiveOpens(s: string, m: Match)
    requires IsDirective(s, m)
    ensures m.word + 9 <= |s| && Spells(s[m.word..m.word + 9]) && Opens(s, m.word)
  {
    hide Spells, Space, Blank;
    WordIsSpelled(s, m.word);
    BlankIsSpace(s[m.start..m.word]);
  }

  /* ---------- the statements ---------- */

  lemma StatementIsSeparable(p: string, d: string)
    requires Statement(p, d) && d != ""
    ensures Separable(p, d) && p != "" && !Space(p[0]) && !Space(p[|p| - 1])
  {
    hide Space;
    SpaceIsBlank(p[0]);
    SpaceIsBlank(p[|p| - 1]);
    assert (p + d)[0] == p[0];
    forall j | 0 <= j < |p| ensures !OccursAt(p + d, d, j) {
      assert (p + d)[j..][..|d|] != d && (p + d)[j..][..|d|] == (p + d)[j..j + |d|];
    }
  }

  /** The text of the statements; with `ended` the last has the delimiter after it too. */
  function Statements(pieces: seq<string>, d: string, ended: bool): string
    requires pieces != []
  {
    Join(pieces, d) + if ended then d else ""
  }

  /** A delimiter at the very end leaves an empty statement after it. */
  lemma {:induction false} EndedSplits(pieces: seq<string>, d: string)
    requires d != "" && pieces != [] && forall p <- pieces :: Separable(p, d)
    ensures Pieces(Split(Join(pieces, d) + d, d)) == pieces + [""]
    decreases |pieces|
  {
    hide Space, Join, Split, FindCut, CutAt, Separable, Pieces;
    var p, w := pieces[0], Join(pieces, d) + d;
    PiecesOfSplit(w, d);
    if |pieces| == 1 {
      LastEnded(pieces, d);
      NothingSplits(d);
      assert pieces == [p];
    } else {
      EndedSplits(pieces[1..], d);
      FirstEnded(pieces, d);
      assert pieces == [p] + pieces[1..];
    }
  }

  lemma LastEnded(pieces: seq<string>, d: string)
    requires d != "" && |pieces| == 1 && Separable(pieces[0], d)
    ensures var p, w := pieces[0], Join(pieces, d) + d;
      FindCut(w, d, 0) == E.Some(Span(|p|, |w|)) && |p| <= |w| && w[..|p|] == p && w[|w|..] == ""
  {
    hide Space, Join, FindCut, CutAt, Separable;
    JoinUnfolds(pieces, d);
    var p, w := pieces[0], Join(pieces, d) + d;
    NoCutWithin(w, p, d, |p| - 1);
    CutAtEnd(w, p, d);
    FirstCutIs(w, d, |p|, |w|);
  }

  lemma FirstEnded(pieces: seq<string>, d: string)
    requires d != "" && |pieces| > 1 && forall p <- pieces :: Separable(p, d)
    ensures var p, w, next := pieces[0], Join(pieces, d) + d, Join(pieces[1..], d) + d;
      && FindCut(w, d, 0) == E.Some(Span(|p|, |p| + |d| + 1))
      && |p| + |d| + 1 <= |w| && w[..|p|] == p && w[|p| + |d| + 1..] == next
  {
    hide *;
    JoinUnfolds(pieces, d);
    assert Separable(pieces[0], d);
    NextStarts(pieces[1..], d);
    var p, w, next := pieces[0], Join(pieces, d) + d, Join(pieces[1..], d) + d;
    assert p + d + "\n" + Join(pieces[1..], d) + d == p + d + "\n" + next;
    FirstPiece(w, p, d, next);
  }

  lemma CutAtEnd(w: string, p: string, d: string)
    requires w == p + d
    ensures CutAt(w, d, |p|) == E.Some(|w|)
  {
    assert w[|p|..] == d;
  }

  lemma NothingSplits(d: string)
    requires d != ""
    ensures Pieces(Split("", d)) == [""]
  {
    assert CutAt("", d, 0).None?;
  }

  lemma NextStarts(pieces: seq<string>, d: string)
    requires d != "" && pieces != [] && forall p <- pieces :: Separable(p, d)
    ensures !Space((Join(pieces, d) + d)[0])
  {
    hide Space;
    assert Separable(pieces[0], d);
    assert (Join(pieces, d) + d)[0] == (pieces[0] + d)[0];
  }

  lemma {:induction false} JoinTrimmed(pieces: seq<string>, d: string)
    requires d != "" && pieces != [] && forall p <- pieces :: p != "" && !Space(p[0]) && !Space(p[|p| - 1])
    ensures var w := Join(pieces, d); w != "" && !Space(w[0]) && !Space(w[|w| - 1])
    decreases |pieces|
  {
    hide Space;
    assert pieces[0] in pieces;
    if |pieces| > 1 {
      JoinTrimmed(pieces[1..], d);
    }
  }

  lemma NewlineIsBlank()
    ensures Blank("\n")
  {
  }

  lemma LineIsTrimmed(l: Line)
    requires l.Valid()
    ensures Trimmed(l.d)
  {
  }

  lemma BodyStrips(lead: string, pieces: seq<string>, d: string, ended: bool)
    requires Blank(lead) && Trimmed(d) && pieces != [] && forall p <- pieces :: Statement(p, d)
    ensures var body := Statements(pieces, d, ended); body != "" && Strip(lead + body) == body
  {
    hide Space, Statement, Join, Strip;
    forall p | p in pieces ensures p != "" && !Space(p[0]) && !Space(p[|p| - 1]) {
      StatementIsSeparable(p, d);
    }
    JoinTrimmed(pieces, d);
    SpaceIsBlank(d[|d| - 1]);
    var body := Statements(pieces, d, ended);
    BlankIsSpace(lead);
    Trimming(lead, body, "");
    assert lead + body + "" == lead + body;
  }

  lemma BodySplits(pieces: seq<string>, d: string, ended: bool)
    requires Trimmed(d) && pieces != [] && forall p <- pieces :: Statement(p, d)
    ensures Pieces(Split(Statements(pieces, d, ended), d)) == if ended then pieces + [""] else pieces
  {
    hide Space, Statement, Join, Split, Pieces, Separable;
    forall p | p in pieces ensures Separable(p, d) {
      StatementIsSeparable(p, d);
    }
    if ended {
      EndedSplits(pieces, d);
    } else {
      JoinThenSplit(pieces, d);
      assert Join(pieces, d) + "" == Join(pieces, d);
    }
  }

  /* ---------- together ---------- */

  /**
    A script that is a directive, in any spelling, and statements separated by what it declares: the
    generator yields the line of the directive and the statements. If it is told to ignore that very
    delimiter, it yields them as one, and a delimiter at the very end is followed by an empty statement.
   */
  lemma DirectiveThenStatements(l: Line, pieces: seq<string>, ended: bool, ignore: E.Option<string>)
    requires l.Valid() && pieces != [] && forall p <- pieces :: Statement(p, l.d)
    requires Quiet("\n" + Statements(pieces, l.d, ended))
    ensures var body := Statements(pieces, l.d, ended);
      Yields(Sections(l.Text() + "\n" + body, ";", ignore))
      == [l.Text()] + (if ignore == E.Some(l.d) then [body] else if ended then pieces + [""] else pieces)
  {
    hide *;
    var body := Statements(pieces, l.d, ended);
    assert l.Text() + "\n" + body == l.Text() + ("\n" + body);
    LineYields(l, "\n" + body, ignore);
    NewlineIsBlank();
    assert Trimmed(l.d) by {
      LineIsTrimmed(l);
    }
    RestYields("\n", l.d, pieces, ended, ignore);
  }

  lemma LineYields(l: Line, rest: string, ignore: E.Option<string>)
    requires l.Valid() && (rest == "" || rest[0] == '\n')
    ensures l.d != ""
    ensures Yields(Sections(l.Text() + rest, ";", ignore)) == [l.Text()] + Yields(Sections(rest, l.d, ignore))
  {
    hide Space, Pieces, Parts, Strip, DirectiveAt, FindDirective, IsDirective, Sections, Yields;
    hide Spells, Blank, Line.Text;
    var s := l.Text() + rest;
    LineMatches(l, rest);
    LineSlices(l, rest);
    FirstDirective(s, 0);
    YieldsOfSections(s, ";", ignore);
    assert s[..0] == "" && s[0..|l.Text()|] == l.Text();
    DeclaredDelimiter(l);
    EmptyStrips();
    PartsOfBlock("", ";", ignore);
  }

  lemma RestYields(lead: string, d: string, pieces: seq<string>, ended: bool, ignore: E.Option<string>)
    requires Blank(lead) && Trimmed(d) && pieces != [] && forall p <- pieces :: Statement(p, d)
    requires Quiet(lead + Statements(pieces, d, ended)) && d != ""
    ensures var body := Statements(pieces, d, ended);
      Yields(Sections(lead + body, d, ignore))
      == if ignore == E.Some(d) then [body] else if ended then pieces + [""] else pieces
  {
    hide Space, Statement, Quiet, Split, Pieces, Parts, Strip, DirectiveAt, FindDirective, IsDirective, Sections;
    hide Yields, Spells, Blank, Statements, Trimmed;
    var body := Statements(pieces, d, ended);
    QuietHasNone(lead + body);
    BodyStrips(lead, pieces, d, ended);
    YieldsOfSections(lead + body, d, ignore);
    BodySplits(pieces, d, ended);
    PartsOfBlock(body, d, ignore);
  }

  /** A script without directives, its statements ended by semicolons. */
  lemma StatementsAlone(lead: string, pieces: seq<string>, ended: bool, ignore: E.Option<string>)
    requires Blank(lead) && pieces != [] && forall p <- pieces :: Statement(p, ";")
    requires Quiet(lead + Statements(pieces, ";", ended))
    ensures var body := Statements(pieces, ";", ended);
      Yields(Sections(lead + body, ";", ignore))
      == if ignore == E.Some(";") then [body] else if ended then pieces + [""] else pieces
  {
    SpaceIsBlank(';');
    RestYields(lead, ";", pieces, ended, ignore);
  }

  lemma DeclaredDelimiter(l: Line)
    requires l.Valid()
    ensures Strip(l.d + l.pad) == l.d && l.d != ""
  {
    hide Space, Strip, Spells, Blank;
    BlankIsSpace(l.pad);
    SpaceIsBlank(l.d[0]);
    SpaceIsBlank(l.d[|l.d| - 1]);
    Trimming("", l.d, l.pad);
    assert "" + l.d + l.pad == l.d + l.pad;
  }

  lemma EmptyStrips()
    ensures Strip("") == ""
  {
  }
}
