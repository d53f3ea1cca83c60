/** Splitting a script into statements while its delimiter changes. */
module Delimiters {
  import opened Expressions

  /* ---------- text ---------- */

  /** What `\s` matches and `str.strip` removes. */
  predicate Space(c: char) {
    || '\t' <= c <= '\r' || '\U{1C}' <= c <= ' ' || c == '\U{85}' || c == '\U{A0}' || c == '\U{1680}'
    || '\U{2000}' <= c <= '\U{200A}' || c == '\U{2028}' || c == '\U{2029}' || c == '\U{202F}'
    || c == '\U{205F}' || c == '\U{3000}'
  }

  predicate AllSpace(s: string) {
    forall k :: 0 <= k < |s| ==> Space(s[k])
  }

  /** The end of the run of whitespace from i. */
  function SkipSpace(s: string, i: nat): (r: nat)
    requires i <= |s|
    ensures i <= r <= |s| && (forall k :: i <= k < r ==> Space(s[k])) && (r < |s| ==> !Space(s[r]))
    decreases |s| - i
  {
    if i < |s| && Space(s[i]) then SkipSpace(s, i + 1) else i
  }

  function LineEnd(s: string, i: nat): (r: nat)
    requires i <= |s|
    ensures i <= r <= |s| && (forall k :: i <= k < r ==> s[k] != '\n') && (r < |s| ==> s[r] == '\n')
    decreases |s| - i
  {
    if i < |s| && s[i] != '\n' then LineEnd(s, i + 1) else i
  }

  /** Where the trailing whitespace starts, looking no further back than `low`. */
  function TrimEnd(s: string, low: nat, i: nat): (r: nat)
    requires low <= i <= |s|
    ensures low <= r <= i && (forall k :: r <= k < i ==> Space(s[k])) && (low < r ==> !Space(s[r - 1]))
    decreases i
  {
    if low < i && Space(s[i - 1]) then TrimEnd(s, low, i - 1) else i
  }

  function Strip(s: string): string {
    var a := SkipSpace(s, 0);
    s[a..TrimEnd(s, a, |s|)]
  }

  /** The last index in `low..high` whose character is a line break, or is not. */
  function LastIndex(s: string, low: nat, high: nat, lineBreak: bool): (r: Option<nat>)
    requires low <= high <= |s|
    ensures r.Some? ==> low <= r.value < high && (s[r.value] == '\n') == lineBreak
    ensures forall k :: low <= k < high && (r.None? || r.value < k) ==> (s[k] == '\n') != lineBreak
    decreases high
  {
    if low == high then None
    else if (s[high - 1] == '\n') == lineBreak then Some(high - 1)
    else LastIndex(s, low, high - 1, lineBreak)
  }

  /* ---------- the directive pattern ---------- */

  const WORD := "delimiter"

  /** Comparison without case; the two Turkish letters are the only others that match an ASCII one here. */
  predicate SameLetter(c: char, letter: char)
    requires 'a' <= letter <= 'z'
  {
    || c == letter || (letter as int - c as int == 32)
    || (letter == 'i' && (c == '\U{130}' || c == '\U{131}'))
  }

  predicate WordAt(s: string, p: nat) {
    p + |WORD| <= |s| && forall k :: 0 <= k < |WORD| ==> SameLetter(s[p + k], WORD[k])
  }

  predicate LineStart(s: string, i: nat)
    requires i <= |s|
  {
    i == 0 || s[i - 1] == '\n'
  }

  /** A match: from `start` to `end`, its group from `group` to `end`. */
  datatype Match = Match(start: nat, word: nat, group: nat, end: nat)

  /** How the directive pattern can match: space, the word, more space and the rest of the line, split in any way. */
  predicate IsDirective(s: string, m: Match) {
    && m.start <= m.word && m.word + |WORD| < m.group < m.end <= |s|
    && LineStart(s, m.start) && AllSpace(s[m.start..m.word]) && WordAt(s, m.word)
    && AllSpace(s[m.word + |WORD|..m.group])
    && '\n' !in s[m.group..m.end] && (m.end < |s| ==> s[m.end] == '\n')
  }

  /**
    The match at i. The whitespace before the group is taken greedily; only when that swallows the
    rest of the text is some of it given back.
   */
  function DirectiveAt(s: string, i: nat): (r: Option<Match>)
    requires i <= |s|
    ensures r.Some? ==> r.value.start == i && IsDirective(s, r.value)
  {
    var p := SkipSpace(s, i);
    if !LineStart(s, i) || !WordAt(s, p) then None
    else
      var w := p + |WORD|;
      var q := SkipSpace(s, w);
      if q == w then None
      else if q < |s| then Some(Match(i, p, q, LineEnd(s, q)))
      else
        match LastIndex(s, w + 1, |s|, false)
        case None => None
        case Some(g) => Some(Match(i, p, g, LineEnd(s, g)))
  }

  lemma WordIsNotSpace(s: string, p: nat)
    requires WordAt(s, p)
    ensures !Space(s[p])
  {
    assert SameLetter(s[p + 0], WORD[0]) && WORD[0] == 'd';
  }

  lemma SkipsAtLeast(s: string, i: nat, e: nat)
    requires i <= e <= |s| && AllSpace(s[i..e])
    ensures SkipSpace(s, i) >= e
  {
    forall k | i <= k < e ensures Space(s[k]) {
      assert s[k] == s[i..e][k - i];
    }
  }

  /** The pattern matches at i whenever any split of the text exists. */
  lemma DirectiveAtIsComplete(s: string, m: Match)
    requires IsDirective(s, m)
    ensures DirectiveAt(s, m.start).Some?
  {
    WordIsNotSpace(s, m.word);
    SkipsAtLeast(s, m.start, m.word);
    var w := m.word + |WORD|;
    SkipsAtLeast(s, w, m.group);
    if SkipSpace(s, w) == |s| {
      assert s[m.group] != '\n' by { assert s[m.group] == s[m.group..m.end][0]; }
    }
  }

  function FindDirective(s: string, i: nat): (r: Option<Match>)
    requires i <= |s|
    ensures r.Some? ==> i <= r.value.start < r.value.group < r.value.end <= |s|
    ensures r.Some? ==> IsDirective(s, r.value) && DirectiveAt(s, r.value.start) == r
    ensures forall j :: i <= j <= |s| && (r.None? || j < r.value.start) ==> DirectiveAt(s, j).None?
    decreases |s| - i
  {
    match DirectiveAt(s, i)
    case Some(m) => Some(m)
    case None => if i == |s| then None else FindDirective(s, i + 1)
  }

  /* ---------- the splitter ---------- */

  /** From i to e there is only space, up to and including a line break or up to the end. */
  predicate EndsLine(s: string, i: nat, e: nat) {
    i <= e <= |s| && AllSpace(s[i..e]) && (e == |s| || (i < e && s[e - 1] == '\n'))
  }

  predicate OccursAt(s: string, d: string, i: nat) {
    i + |d| <= |s| && s[i..i + |d|] == d
  }

  /** The end of the match of the splitter at i: as far as it can go. */
  function CutAt(s: string, d: string, i: nat): (r: Option<nat>)
    ensures r.Some? ==> OccursAt(s, d, i) && EndsLine(s, i + |d|, r.value)
  {
    if !OccursAt(s, d, i) then None
    else
      var q := SkipSpace(s, i + |d|);
      if q == |s| then Some(q)
      else
        match LastIndex(s, i + |d|, q, true)
        case None => None
        case Some(k) => Some(k + 1)
  }

  lemma CutAtIsLongest(s: string, d: string, i: nat, e: nat)
    requires OccursAt(s, d, i) && EndsLine(s, i + |d|, e)
    ensures CutAt(s, d, i).Some? && e <= CutAt(s, d, i).value
  {
    SkipsAtLeast(s, i + |d|, e);
  }

  datatype Span = Span(start: nat, end: nat)

  function FindCut(s: string, d: string, i: nat): (r: Option<Span>)
    requires i <= |s|
    ensures r.Some? ==> i <= r.value.start && r.value.start + |d| <= r.value.end <= |s|
    ensures r.Some? ==> CutAt(s, d, r.value.start) == Some(r.value.end)
    ensures forall j :: i <= j <= |s| && (r.None? || j < r.value.start) ==> CutAt(s, d, j).None?
    decreases |s| - i
  {
    match CutAt(s, d, i)
    case Some(e) => Some(Span(i, e))
    case None => if i == |s| then None else FindCut(s, d, i + 1)
  }

  /* ---------- a script taken apart ---------- */

  /** A statement and the delimiter, with whitespace, that ended it; the last of a block has none. */
  datatype Part = Part(piece: string, cut: string)

  /** The text up to and including a directive, or up to the end of the script. */
  datatype Section = Section(lead: string, parts: seq<Part>, trail: string, directive: Option<string>)

  function Split(block: string, d: string): seq<Part>
    requires d != ""
    decreases |block|
  {
    match FindCut(block, d, 0)
    case None => [Part(block, "")]
    case Some(c) => [Part(block[..c.start], block[c.start..c.end])] + Split(block[c.end..], d)
  }

  /** The statements of a block with the whitespace around it gone. */
  function Parts(block: string, d: string, ignore: Option<string>): seq<Part>
    requires d == "" ==> block == ""
  {
    if block == "" then [] else if ignore == Some(d) then [Part(block, "")] else Split(block, d)
  }

  function SectionOf(text: string, d: string, ignore: Option<string>, directive: Option<string>): Section
    requires d == "" ==> AllSpace(text)
  {
    var a := SkipSpace(text, 0);
    StripIsBlank(text);
    Section(text[..a], Parts(Strip(text), d, ignore), text[TrimEnd(text, a, |text|)..], directive)
  }

  /** The script from `sql` on, with delimiter `d` in force. */
  function Sections(sql: string, d: string, ignore: Option<string>): seq<Section>
    requires d == "" ==> AllSpace(sql)
    decreases |sql|
  {
    match FindDirective(sql, 0)
    case None => [SectionOf(sql, d, ignore, None)]
    case Some(m) =>
      BlankIsLast(sql, m);
      [SectionOf(sql[..m.start], d, ignore, Some(sql[m.start..m.end]))]
      + Sections(sql[m.end..], Strip(sql[m.group..m.end]), ignore)
  }

  function Pieces(parts: seq<Part>): (r: seq<string>)
    ensures |r| == |parts| && forall k :: 0 <= k < |r| ==> r[k] == parts[k].piece
  {
    if parts == [] then [] else [parts[0].piece] + Pieces(parts[1..])
  }

  /** What the generator yields: the statements of each section, then its directive. */
  function Yields(sections: seq<Section>): seq<string> {
    if sections == [] then []
    else
      Pieces(sections[0].parts)
      + (if sections[0].directive.Some? then [sections[0].directive.value] else [])
      + Yields(sections[1..])
  }

  lemma StripIsBlank(s: string)
    ensures Strip(s) == "" <==> AllSpace(s)
  {
    var a := SkipSpace(s, 0);
    if a < |s| {
      assert !Space(s[a]);
    }
  }

  /** A directive can declare a blank delimiter only when nothing but whitespace follows it. */
  lemma BlankIsLast(s: string, m: Match)
    requires m.start <= |s| && DirectiveAt(s, m.start) == Some(m)
    ensures Strip(s[m.group..m.end]) == "" ==> AllSpace(s[m.end..])
  {
    StripIsBlank(s[m.group..m.end]);
    var w := m.word + |WORD|;
    var q := SkipSpace(s, w);
    if q < |s| {
      assert s[m.group..m.end][0] == s[q];
    }
  }

  lemma PiecesOfSplit(block: string, d: string)
    requires d != ""
    ensures Pieces(Split(block, d))
      == match FindCut(block, d, 0)
         case None => [block]
         case Some(c) => [block[..c.start]] + Pieces(Split(block[c.end..], d))
  {
  }

  lemma YieldsOfSections(sql: string, d: string, ignore: Option<string>)
    requires d == "" ==> AllSpace(sql)
    ensures match FindDirective(sql, 0)
      case None =>
        && (d == "" ==> Strip(sql) == "")
        && Yields(Sections(sql, d, ignore)) == Pieces(Parts(Strip(sql), d, ignore))
      case Some(m) =>
        && (d == "" ==> Strip(sql[..m.start]) == "")
        && (Strip(sql[m.group..m.end]) == "" ==> AllSpace(sql[m.end..]))
        && Yields(Sections(sql, d, ignore))
           == Pieces(Parts(Strip(sql[..m.start]), d, ignore)) + [sql[m.start..m.end]]
              + Yields(Sections(sql[m.end..], Strip(sql[m.group..m.end]), ignore))
  {
    hide SkipSpace, TrimEnd, Parts, Pieces, FindDirective, IsDirective, DirectiveAt, Space;
    var found := FindDirective(sql, 0);
    if found.Some? {
      BlankIsLast(sql, found.value);
      StripIsBlank(sql[..found.value.start]);
    } else {
      StripIsBlank(sql);
      assert Yields(Sections(sql, d, ignore)[1..]) == [];
    }
  }

  /* ---------- the generator ---------- */

  /**
    Returns everything the generator yields: the statements and directives of the one legal way to take
    the script apart. It stops on every script and with every `ignore`.
   */
  method ParseDelimiters(script: string, ignore: Option<string>) returns (output: seq<string>)
    ensures var sections := Sections(script, ";", ignore);
      output == Yields(sections) && Text(sections) == script && Legal(sections, ";", ignore)
  {
    hide *;
    ghost var goal := Yields(Sections(script, ";", ignore));
    var sql, delimiter := script, ";";
    output := [];
    while true
      invariant delimiter == "" ==> AllSpace(sql)
      invariant output + Yields(Sections(sql, delimiter, ignore)) == goal
      decreases |sql|
    {
      YieldsOfSections(sql, delimiter, ignore);
      ghost var before, rest := output, Yields(Sections(sql, delimiter, ignore));
      var found := FindDirective(sql, 0);
      var block, text, group := "", "", "";
      if found.Some? {
        var m := found.value;
        text, group := sql[m.start..m.end], sql[m.group..m.end];
        block, sql := sql[..m.start], sql[m.end..];
        block := Strip(block);
      } else {
        block := Strip(sql);
      }
      ghost var pieces := Pieces(Parts(block, delimiter, ignore));
      ghost var later := if found.Some? then Yields(Sections(sql, Strip(group), ignore)) else [];
      assert rest == if found.Some? then pieces + [text] + later else pieces;
      PartsOfBlock(block, delimiter, ignore);
      if block != "" {
        if ignore == Some(delimiter) {
          output := output + [block];
        } else {
          while true
            invariant output + Pieces(Split(block, delimiter)) == before + pieces
            decreases |block|
          {
            PiecesOfSplit(block, delimiter);
            var inner := FindCut(block, delimiter, 0);
            if inner.None? {
              output := output + [block];
              break;
            }
            ghost var piece := [block[..inner.value.start]];
            Regroup(output, piece, [], Pieces(Split(block[inner.value.end..], delimiter)));
            output := output + [block[..inner.value.start]];
            block := block[inner.value.end..];
          }
        }
      }
      assert output == before + pieces;
      if found.None? {
        break;
      }
      Regroup(before, pieces, [text], later);
      output := output + [text];
      delimiter := Strip(group);
    }
    SectionsKeepText(script, ";", ignore);
    SectionsAreLegal(script, ";", ignore);
  }

  lemma Regroup<T>(a: seq<T>, b: seq<T>, c: seq<T>, d: seq<T>)
    ensures a + (b + c + d) == a + b + c + d
    ensures a + (b + d) == a + b + d
  {
  }

  lemma PartsOfBlock(block: string, d: string, ignore: Option<string>)
    requires d == "" ==> block == ""
    ensures block == "" ==> Pieces(Parts(block, d, ignore)) == []
    ensures block != "" && ignore == Some(d) ==> Pieces(Parts(block, d, ignore)) == [block]
    ensures block != "" && ignore != Some(d) ==> Parts(block, d, ignore) == Split(block, d)
  {
  }

  /* ---------- nothing is lost ---------- */

  function PartsText(parts: seq<Part>): string {
    if parts == [] then "" else parts[0].piece + parts[0].cut + PartsText(parts[1..])
  }

  function Declaration(s: Section): string {
    if s.directive.Some? then s.directive.value else ""
  }

  function Body(s: Section): string {
    s.lead + PartsText(s.parts) + s.trail
  }

  function Text(sections: seq<Section>): string {
    if sections == [] then "" else Body(sections[0]) + Declaration(sections[0]) + Text(sections[1..])
  }

  lemma {:induction false} SplitKeepsText(block: string, d: string)
    requires d != ""
    ensures PartsText(Split(block, d)) == block
    decreases |block|
  {
    hide CutAt, Space, AllSpace;
    var c := FindCut(block, d, 0);
    if c.Some? {
      SplitKeepsText(block[c.value.end..], d);
      assert Split(block, d)[1..] == Split(block[c.value.end..], d);
      assert block == block[..c.value.start] + block[c.value.start..c.value.end] + block[c.value.end..];
    }
  }

  lemma SectionKeepsText(text: string, d: string, ignore: Option<string>, directive: Option<string>)
    requires d == "" ==> AllSpace(text)
    ensures Body(SectionOf(text, d, ignore, directive)) == text
    ensures SectionOf(text, d, ignore, directive).directive == directive
  {
    hide Split, Space, AllSpace, Parts, SkipSpace, TrimEnd;
    StripIsBlank(text);
    PartsKeepText(Strip(text), d, ignore);
  }

  lemma PartsKeepText(block: string, d: string, ignore: Option<string>)
    requires d == "" ==> block == ""
    ensures PartsText(Parts(block, d, ignore)) == block
  {
    hide Split;
    if block != "" && ignore == Some(d) {
      assert PartsText([Part(block, "")][1..]) == "";
    } else if block != "" {
      SplitKeepsText(block, d);
    }
  }

  /** The sections, laid end to end, are the script: only whitespace and delimiters are not yielded. */
  lemma {:induction false} SectionsKeepText(sql: string, d: string, ignore: Option<string>)
    requires d == "" ==> AllSpace(sql)
    ensures Text(Sections(sql, d, ignore)) == sql
    decreases |sql|
  {
    hide Body, SectionOf, DirectiveAt, IsDirective, Strip, Space;
    var found := FindDirective(sql, 0);
    if found.Some? {
      var m := found.value;
      BlankIsLast(sql, m);
      SectionKeepsText(sql[..m.start], d, ignore, Some(sql[m.start..m.end]));
      SectionsKeepText(sql[m.end..], Strip(sql[m.group..m.end]), ignore);
      assert sql == sql[..m.start] + sql[m.start..m.end] + sql[m.end..];
    } else {
      SectionKeepsText(sql, d, ignore, None);
      assert Text(Sections(sql, d, ignore)[1..]) == "";
    }
  }

  /* ---------- the sections are the only legal ones ---------- */

  /** Each cut is the leftmost place where the delimiter ends a line, and nothing is left to cut. */
  predicate PartsLegal(parts: seq<Part>, d: string) {
    var w := PartsText(parts);
    && parts != []
    && (forall j :: 0 <= j < |parts[0].piece| ==> CutAt(w, d, j).None?)
    && if |parts| == 1 then parts[0].cut == "" && CutAt(w, d, |w|).None?
       else
         && CutAt(w, d, |parts[0].piece|) == Some(|parts[0].piece| + |parts[0].cut|)
         && PartsLegal(parts[1..], d)
  }

  predicate SectionLegal(s: Section, d: string, ignore: Option<string>) {
    var block := PartsText(s.parts);
    && AllSpace(s.lead) && AllSpace(s.trail)
    && if block == "" then s.parts == [] && s.trail == ""
       else
         && !Space(block[0]) && !Space(block[|block| - 1]) && d != ""
         && if ignore == Some(d) then s.parts == [Part(block, "")] else PartsLegal(s.parts, d)
  }

  /**
    What the generator promises of a script taken apart with delimiter d in force at its start: each
    directive is the leftmost one in the text that is left, and the delimiter in force is what it
    declares; each section is legal for the delimiter in force in it.
   */
  predicate Legal(sections: seq<Section>, d: string, ignore: Option<string>) {
    && sections != [] && SectionLegal(sections[0], d, ignore)
    && var text, start := Text(sections), |Body(sections[0])|;
    && (forall j :: 0 <= j < start ==> DirectiveAt(text, j).None?)
    && var found := DirectiveAt(text, start);
    match sections[0].directive
    case None => |sections| == 1 && found.None?
    case Some(t) =>
      && found.Some? && found.value.end == start + |t|
      && Legal(sections[1..], Strip(text[found.value.group..found.value.end]), ignore)
  }

  lemma {:induction false} SplitIsLegal(block: string, d: string)
    requires d != ""
    ensures PartsLegal(Split(block, d), d)
    decreases |block|
  {
    hide CutAt, Space, AllSpace;
    SplitKeepsText(block, d);
    var c := FindCut(block, d, 0);
    if c.Some? {
      SplitIsLegal(block[c.value.end..], d);
      assert Split(block, d)[1..] == Split(block[c.value.end..], d);
    }
  }

  lemma {:induction false} LegalIsSplit(parts: seq<Part>, d: string)
    requires d != "" && PartsLegal(parts, d)
    ensures parts == Split(PartsText(parts), d)
    decreases |parts|
  {
    hide PartsLegal, PartsText, Split, FindCut;
    LegalStep(parts, d);
    if |parts| > 1 {
      LegalIsSplit(parts[1..], d);
      SplitStep(parts[0].piece, parts[0].cut, PartsText(parts[1..]), d);
      assert parts == [parts[0]] + parts[1..];
    }
  }

  lemma LegalStep(parts: seq<Part>, d: string)
    requires d != "" && PartsLegal(parts, d)
    ensures parts != []
    ensures var p, w := parts[0], PartsText(parts);
      if |parts| == 1 then parts == Split(w, d)
      else
        && PartsLegal(parts[1..], d) && w == p.piece + p.cut + PartsText(parts[1..])
        && FindCut(w, d, 0) == Some(Span(|p.piece|, |p.piece| + |p.cut|))
  {
    hide CutAt, OccursAt, EndsLine, AllSpace, Space;
    var p, w := parts[0], PartsText(parts);
    if |parts| == 1 {
      assert PartsText(parts[1..]) == "" && w == p.piece + p.cut == p.piece;
      assert parts == [Part(w, "")];
    }
  }

  lemma SplitStep(piece: string, cut: string, rest: string, d: string)
    requires d != "" && FindCut(piece + cut + rest, d, 0) == Some(Span(|piece|, |piece| + |cut|))
    ensures Split(piece + cut + rest, d) == [Part(piece, cut)] + Split(rest, d)
  {
    hide FindCut;
    var w := piece + cut + rest;
    assert w[..|piece|] == piece && w[|piece|..|piece| + |cut|] == cut && w[|piece| + |cut|..] == rest;
  }

  lemma StripTrims(text: string)
    ensures Strip(text) != "" ==> !Space(Strip(text)[0]) && !Space(Strip(text)[|Strip(text)| - 1])
    ensures var a := SkipSpace(text, 0);
      && AllSpace(text[..a]) && AllSpace(text[TrimEnd(text, a, |text|)..])
      && (Strip(text) == "" ==> a == |text|)
  {
    hide Space;
    var a := SkipSpace(text, 0);
    assert a < |text| ==> TrimEnd(text, a, |text|) > a;
  }

  lemma SectionOfIsLegal(text: string, d: string, ignore: Option<string>, directive: Option<string>)
    requires d == "" ==> AllSpace(text)
    ensures SectionLegal(SectionOf(text, d, ignore, directive), d, ignore)
  {
    hide CutAt, Space, Split, PartsLegal, PartsText, SkipSpace, TrimEnd, Strip;
    StripIsBlank(text);
    StripTrims(text);
    var block := Strip(text);
    if block != "" && ignore != Some(d) {
      SplitIsLegal(block, d);
    }
    PartsKeepText(block, d, ignore);
  }

  lemma LegalIsSectionOf(s: Section, d: string, ignore: Option<string>)
    requires SectionLegal(s, d, ignore)
    ensures (d == "" ==> AllSpace(Body(s))) && s == SectionOf(Body(s), d, ignore, s.directive)
  {
    hide CutAt, Space, Split, PartsLegal, SkipSpace, TrimEnd, Strip, PartsText;
    var block := PartsText(s.parts);
    var text := Body(s);
    Trimming(s.lead, block, s.trail);
    StripIsBlank(text);
    if block != "" && ignore != Some(d) {
      LegalIsSplit(s.parts, d);
    }
  }

  lemma Trimming(lead: string, block: string, trail: string)
    requires AllSpace(lead) && AllSpace(trail)
    requires if block == "" then trail == "" else !Space(block[0]) && !Space(block[|block| - 1])
    ensures var text := lead + block + trail;
      SkipSpace(text, 0) == |lead| && TrimEnd(text, |lead|, |text|) == |lead| + |block| && Strip(text) == block
  {
    hide Space;
    var text := lead + block + trail;
    SkipsAtLeast(text, 0, |lead|);
    assert block != "" ==> text[|lead|] == block[0];
    var end := |lead| + |block|;
    forall k | end <= k < |text| ensures Space(text[k]) {
      assert text[k] == trail[k - end];
    }
    assert block != "" ==> text[end - 1] == block[|block| - 1];
    assert text[|lead|..end] == block;
  }

  /** The generator takes every script apart legally. */
  lemma {:induction false} SectionsAreLegal(sql: string, d: string, ignore: Option<string>)
    requires d == "" ==> AllSpace(sql)
    ensures Legal(Sections(sql, d, ignore), d, ignore)
    decreases |sql|
  {
    hide Body, SectionOf, DirectiveAt, IsDirective, Strip, Space, SectionLegal;
    SectionsKeepText(sql, d, ignore);
    var found := FindDirective(sql, 0);
    if found.Some? {
      var m := found.value;
      BlankIsLast(sql, m);
      SectionOfIsLegal(sql[..m.start], d, ignore, Some(sql[m.start..m.end]));
      SectionKeepsText(sql[..m.start], d, ignore, Some(sql[m.start..m.end]));
      SectionsAreLegal(sql[m.end..], Strip(sql[m.group..m.end]), ignore);
      assert Sections(sql, d, ignore)[1..] == Sections(sql[m.end..], Strip(sql[m.group..m.end]), ignore);
    } else {
      SectionOfIsLegal(sql, d, ignore, None);
      SectionKeepsText(sql, d, ignore, None);
    }
  }

  /** There is no other way to take it apart. */
  lemma {:induction false} LegalIsSections(sections: seq<Section>, d: string, ignore: Option<string>)
    requires Legal(sections, d, ignore) && (d == "" ==> AllSpace(Text(sections)))
    ensures sections == Sections(Text(sections), d, ignore)
    decreases |sections|
  {
    hide Body, SectionOf, DirectiveAt, IsDirective, FindDirective, Strip, Space, AllSpace, SectionLegal;
    var s, text := sections[0], Text(sections);
    var body, later := Body(s), Text(sections[1..]);
    LegalIsSectionOf(s, d, ignore);
    FirstDirective(text, |body|);
    Slices(body, Declaration(s), later);
    if s.directive.None? {
      assert sections == [s] && later == "";
      assert text == body;
    } else {
      var m := FindDirective(text, 0).value;
      BlankIsLast(text, m);
      LegalIsSections(sections[1..], Strip(text[m.group..m.end]), ignore);
      assert sections == [s] + sections[1..];
    }
  }

  /** If no directive starts before i, the first one is at i, or nowhere up to i. */
  lemma FirstDirective(s: string, i: nat)
    requires i <= |s| && forall j :: 0 <= j < i ==> DirectiveAt(s, j).None?
    ensures DirectiveAt(s, i).Some? ==> FindDirective(s, 0) == DirectiveAt(s, i)
    ensures DirectiveAt(s, i).None? && i == |s| ==> FindDirective(s, 0).None?
  {
    hide DirectiveAt, FindDirective, IsDirective;
  }

  /* ---------- joining statements and splitting them again ---------- */

  function Join(pieces: seq<string>, d: string): string
    requires pieces != []
  {
    if |pieces| == 1 then pieces[0] else pieces[0] + d + "\n" + Join(pieces[1..], d)
  }

  /** The delimiter is not in the statement, not even overlapping its end, and no space starts it. */
  predicate Separable(piece: string, d: string)
    requires d != ""
  {
    && !Space((piece + d)[0])
    && forall j :: 0 <= j < |piece| ==> !OccursAt(piece + d, d, j)
  }

  /** Statements written one after the other, a delimiter and a line break between them, come back. */
  lemma {:induction false} JoinThenSplit(pieces: seq<string>, d: string)
    requires d != "" && pieces != [] && forall p <- pieces :: Separable(p, d)
    ensures Pieces(Split(Join(pieces, d), d)) == pieces
    decreases |pieces|
  {
    hide Space, Join, Split, FindCut, CutAt, Separable, Pieces;
    JoinUnfolds(pieces, d);
    var p, w := pieces[0], Join(pieces, d);
    assert Separable(p, d);
    PiecesOfSplit(w, d);
    if |pieces| == 1 {
      NoCutWithin(w, p, d, |w|);
    } else {
      var next := Join(pieces[1..], d);
      JoinThenSplit(pieces[1..], d);
      FirstJoined(pieces, d);
      assert pieces == [p] + pieces[1..];
    }
  }

  /** The first cut of joined statements is the first delimiter. */
  lemma FirstJoined(pieces: seq<string>, d: string)
    requires d != "" && |pieces| > 1 && forall p <- pieces :: Separable(p, d)
    ensures var p, w, next := pieces[0], Join(pieces, d), Join(pieces[1..], d);
      && FindCut(w, d, 0) == Some(Span(|p|, |p| + |d| + 1))
      && |p| + |d| + 1 <= |w| && w[..|p|] == p && w[|p| + |d| + 1..] == next
  {
    hide *;
    JoinUnfolds(pieces, d);
    assert Separable(pieces[0], d);
    JoinStarts(pieces[1..], d);
    FirstPiece(Join(pieces, d), pieces[0], d, Join(pieces[1..], d));
  }

  lemma FirstPiece(w: string, p: string, d: string, next: string)
    requires d != "" && Separable(p, d) && w == p + d + "\n" + next && (next == "" || !Space(next[0]))
    ensures FindCut(w, d, 0) == Some(Span(|p|, |p| + |d| + 1))
    ensures |p| + |d| + 1 <= |w| && w[..|p|] == p && w[|p| + |d| + 1..] == next
  {
    hide *;
    PieceStarts(w, p, d, next);
    NoCutWithin(w, p, d, |p| - 1);
    CutAtBreak(w, p, d, next);
    FirstCutIs(w, d, |p|, |p| + |d| + 1);
  }

  lemma PieceStarts(w: string, p: string, d: string, next: string)
    requires w == p + d + "\n" + next
    ensures p + d <= w && |p| + |d| + 1 <= |w| && w[..|p|] == p && w[|p| + |d| + 1..] == next
  {
    Slices(p, d + "\n", next);
    assert w == p + (d + "\n") + next;
  }

  lemma FirstCutIs(w: string, d: string, i: nat, e: nat)
    requires i <= |w| && CutAt(w, d, i) == Some(e) && forall j :: 0 <= j < i ==> CutAt(w, d, j).None?
    ensures FindCut(w, d, 0) == Some(Span(i, e))
  {
    hide CutAt, FindCut;
  }

  lemma Slices(a: string, b: string, c: string)
    ensures var w := a + b + c; w[..|a|] == a && w[|a|..|a| + |b|] == b && w[|a| + |b|..] == c
  {
  }

  lemma JoinUnfolds(pieces: seq<string>, d: string)
    requires pieces != []
    ensures Join(pieces, d)
      == if |pieces| == 1 then pieces[0] else pieces[0] + d + "\n" + Join(pieces[1..], d)
  {
  }

  lemma NoCutWithin(w: string, p: string, d: string, end: int)
    requires d != "" && Separable(p, d) && end <= |w|
    requires w == p || (p + d <= w && end < |p|)
    ensures forall j :: 0 <= j <= end ==> CutAt(w, d, j).None?
  {
    hide Space, Separable;
    forall j | 0 <= j <= end ensures CutAt(w, d, j).None? {
      OnlyAtEnd(w, p, d, j);
    }
  }

  lemma OnlyAtEnd(w: string, p: string, d: string, j: nat)
    requires d != "" && Separable(p, d) && p <= w && (w == p || p + d <= w) && (j < |p| || w == p)
    ensures !OccursAt(w, d, j)
  {
    if OccursAt(w, d, j) {
      assert (p + d)[j..j + |d|] == w[j..j + |d|];
      assert OccursAt(p + d, d, j);
    }
  }

  lemma JoinStarts(pieces: seq<string>, d: string)
    requires d != "" && pieces != [] && forall p <- pieces :: Separable(p, d)
    ensures Join(pieces, d) == "" || !Space(Join(pieces, d)[0])
  {
    assert Separable(pieces[0], d);
    assert Join(pieces, d) != "" ==> Join(pieces, d)[0] == (pieces[0] + d)[0];
  }

  lemma CutAtBreak(w: string, p: string, d: string, next: string)
    requires w == p + d + "\n" + next && (next == "" || !Space(next[0]))
    ensures CutAt(w, d, |p|) == Some(|p| + |d| + 1)
  {
    var i := |p| + |d|;
    assert w[|p|..i] == d && w[i] == '\n';
    assert next != "" ==> w[i + 1] == next[0];
    assert SkipSpace(w, i) == i + 1;
  }
}
