/** String literals and quoted identifiers: printed by doubling a quote, read back through a Python literal. */
module Quotes {
  import opened Expressions

  /* ---------- str.replace ---------- */

  /** Occurrences are taken from the left and do not overlap. */
  function Replace(s: string, old_: string, new_: string): string
    requires old_ != ""
    decreases |s|
  {
    if s == "" then ""
    else if old_ <= s then new_ + Replace(s[|old_|..], old_, new_)
    else [s[0]] + Replace(s[1..], old_, new_)
  }

  /* ---------- printing ---------- */

  function PrintLiteral(s: string): string {
    "'" + Replace(s, "'", "''") + "'"
  }

  function PrintIdentifier(s: string, quote: char): string {
    [quote] + Replace(s, [quote], [quote, quote]) + [quote]
  }

  /* ---------- the token patterns ---------- */

  /**
    Rounds of a doubled quote or any other character, then a quote, as a backtracking matcher runs them
    from i: another round is tried first, and the loop is left only when that leads nowhere.
   */
  function LoopThenQuote(t: string, q: char, i: nat): (r: Option<nat>)
    requires i <= |t|
    ensures r.Some? ==> i < r.value <= |t|
    decreases |t| - i
  {
    var more :=
      if i + 1 < |t| && t[i] == q && t[i + 1] == q then LoopThenQuote(t, q, i + 2)
      else if i < |t| && t[i] != q then LoopThenQuote(t, q, i + 1)
      else None;
    if more.Some? then more
    else if i < |t| && t[i] == q then Some(i + 1)
    else None
  }

  /** How much of the text the pattern takes: a quote, the rounds, and the closing quote. */
  function Quoted(t: string, q: char): Option<nat> {
    if t != "" && t[0] == q then LoopThenQuote(t, q, 1) else None
  }

  /* ---------- ast.literal_eval of one string literal ---------- */

  /** The line breaks of Python source are all read as line feeds. */
  function Newlines(s: string): (r: string)
    ensures |r| <= |s| && '\r' !in r
  {
    if s == "" then ""
    else if s[0] != '\r' then [s[0]] + Newlines(s[1..])
    else if |s| > 1 && s[1] == '\n' then Newlines(s[1..])
    else "\n" + Newlines(s[1..])
  }

  /** Where the literal closes, counted from its opening quotes; a backslash protects what follows it. */
  function CloseAt(t: string, triple: bool): Option<nat> {
    if (if triple then "\"\"\"" <= t else "\"" <= t) then Some(0)
    else if t == "" || (!triple && t[0] == '\n') then None
    else
      var step := if t[0] == '\\' && |t| > 1 then 2 else 1;
      match CloseAt(t[step..], triple)
      case Some(n) => Some(step + n)
      case None => None
  }

  function Digit(c: char): nat {
    if '0' <= c <= '9' then c as nat - '0' as nat
    else if 'a' <= c <= 'f' then c as nat - 'a' as nat + 10
    else if 'A' <= c <= 'F' then c as nat - 'A' as nat + 10
    else 16
  }

  function Number(s: string, radix: nat): Option<nat> {
    if s == "" then Some(0)
    else
      var d := Digit(s[|s| - 1]);
      match Number(s[..|s| - 1], radix)
      case Some(n) => if d < radix then Some(n * radix + d) else None
      case None => None
  }

  /** A code point as text; a lone surrogate, which this text type cannot hold, counts as a failure. */
  function Character(code: Option<nat>): Option<string> {
    if code.Some? && (code.value < 0xD800 || 0xE000 <= code.value < 0x11_0000) then Some([code.value as char])
    else None
  }

  function OctalRun(s: string, i: nat, limit: nat): (r: nat)
    requires i <= limit
    ensures i <= r <= limit && (i <= |s| ==> r <= |s|)
    decreases limit - i
  {
    if i < |s| && i < limit && Digit(s[i]) < 8 then OctalRun(s, i + 1, limit) else i
  }

  const ESCAPES := map[
    'a' := '\U{7}', 'b' := '\U{8}', 'f' := '\U{C}', 'n' := '\n', 'r' := '\r', 't' := '\t', 'v' := '\U{B}']

  /** Characters that mean something after a backslash, the quotes apart. */
  predicate Special(c: char) {
    c == '\n' || c == '\\' || c in ESCAPES || '0' <= c <= '7' || c == 'x' || c == 'u' || c == 'U' || c == 'N'
  }

  datatype Escape = Escape(text: string, taken: nat)

  function Hex(u: string, digits: nat): Option<Escape> {
    if |u| < 2 + digits then None
    else
      match Character(Number(u[2..2 + digits], 16))
      case Some(c) => Some(Escape(c, 2 + digits))
      case None => None
  }

  function IndexOf(s: string, c: char, i: nat): (r: Option<nat>)
    requires i <= |s|
    ensures r.Some? ==> i <= r.value < |s|
    decreases |s| - i
  {
    if i == |s| then None else if s[i] == c then Some(i) else IndexOf(s, c, i + 1)
  }

  /** The escape sequence at the start of the text; `named` looks up the names of `\N{...}`. */
  function EscapeAt(u: string, named: string -> Option<char>): (r: Option<Escape>)
    requires u != "" && u[0] == '\\'
    ensures r.Some? ==> 2 <= r.value.taken <= |u|
    ensures r.Some? && (Special(u[1]) || u[1] == '\'' || u[1] == '"') ==> |r.value.text| <= 1
  {
    if |u| == 1 then None
    else
      var c := u[1];
      if c == '\n' then Some(Escape("", 2))
      else if c == '\\' || c == '\'' || c == '"' then Some(Escape([c], 2))
      else if c in ESCAPES then Some(Escape([ESCAPES[c]], 2))
      else if '0' <= c <= '7' then
        var n := OctalRun(u, 2, 4);
        match Character(Number(u[1..n], 8))
        case Some(t) => Some(Escape(t, n))
        case None => None
      else if c == 'x' then Hex(u, 2)
      else if c == 'u' then Hex(u, 4)
      else if c == 'U' then Hex(u, 8)
      else if c == 'N' then
        if |u| == 2 || u[2] != '{' then None
        else
          match IndexOf(u, '}', 3)
          case Some(n) => if named(u[3..n]).Some? then Some(Escape([named(u[3..n]).value], n + 1)) else None
          case None => None
      else Some(Escape(u[..2], 2))
  }

  function Decode(u: string, named: string -> Option<char>): Option<string> {
    if u == "" then Some("")
    else if u[0] != '\\' then
      match Decode(u[1..], named)
      case Some(t) => Some([u[0]] + t)
      case None => None
    else
      match EscapeAt(u, named)
      case None => None
      case Some(e) =>
        match Decode(u[e.taken..], named)
        case Some(t) => Some(e.text + t)
        case None => None
  }

  function Closing(triple: bool): string {
    if triple then "\"\"\"" else "\""
  }

  /** The value of `"""body"""` or `"body"`, or None where Python raises an error. */
  function LiteralEval(body: string, triple: bool, named: string -> Option<char>): Option<string> {
    var u := Newlines(body);
    if '\0' in body || CloseAt(u + Closing(triple), triple) != Some(|u|) then None
    else Decode(u, named)
  }

  /* ---------- the parse actions ---------- */

  function SingleLiteral(val: string, named: string -> Option<char>): Option<string>
    requires |val| >= 2
  {
    LiteralEval(Replace(Replace(val[1..|val| - 1], "''", "\\'"), "\"", "\\\""), true, named)
  }

  function DoubleColumn(val: string, named: string -> Option<char>): Option<string>
    requires |val| >= 2
  {
    LiteralEval(Replace(val[1..|val| - 1], "\"\"", "\\\""), false, named)
  }

  function BacktickColumn(val: string, named: string -> Option<char>): Option<string>
    requires |val| >= 2
  {
    LiteralEval(Replace(Replace(val[1..|val| - 1], "``", "`"), "\"", "\\\""), false, named)
  }

  /* ---------- doubling and its inverses ---------- */

  /** Each of the characters in `quotes` is written as `how` says. */
  function Mapped(s: string, quotes: set<char>, how: char -> string): string {
    if s == "" then "" else (if s[0] in quotes then how(s[0]) else [s[0]]) + Mapped(s[1..], quotes, how)
  }

  function Same(c: char): string { [c] }

  function Twice(c: char): string { [c, c] }

  function Armour(c: char): string { ['\\', c] }

  function Armoured(s: string, quotes: set<char>): string {
    Mapped(s, quotes, Armour)
  }

  lemma {:induction false} ReplaceIsMapped(s: string, q: char, how: char -> string)
    ensures Replace(s, [q], how(q)) == Mapped(s, {q}, how)
  {
    if s != "" {
      ReplaceIsMapped(s[1..], q, how);
      assert [q] <= s <==> s[0] == q;
    }
  }

  /** Replacing pairs in text whose quotes were doubled meets each pair exactly. */
  lemma {:induction false} ReplacePairs(s: string, q: char, how: char -> string)
    ensures Replace(Mapped(s, {q}, Twice), [q, q], how(q)) == Mapped(s, {q}, how)
  {
    if s != "" {
      ReplacePairs(s[1..], q, how);
      var t := Mapped(s, {q}, Twice);
      if s[0] == q {
        assert [q, q] <= t && t[2..] == Mapped(s[1..], {q}, Twice);
      } else {
        assert t[0] != q && t[1..] == Mapped(s[1..], {q}, Twice);
      }
    }
  }

  lemma {:induction false} MappedToSame(s: string, q: char)
    ensures Mapped(s, {q}, Same) == s
  {
    if s != "" {
      MappedToSame(s[1..], q);
    }
  }

  lemma {:induction false} ArmourBoth(s: string)
    ensures Mapped(Mapped(s, {'\''}, Armour), {'"'}, Armour) == Armoured(s, {'\'', '"'})
  {
    if s != "" {
      hide Mapped;
      ArmourBoth(s[1..]);
      var single, rest := {'\''}, Mapped(s[1..], {'\''}, Armour);
      MappedHead(s[0], s[1..], single, Armour);
      MappedHead(s[0], s[1..], {'\'', '"'}, Armour);
      assert s == [s[0]] + s[1..];
      if s[0] == '\'' {
        MappedHead('\\', ['\''] + rest, {'"'}, Armour);
        MappedHead('\'', rest, {'"'}, Armour);
        assert ['\\'] + (['\''] + rest) == Armour('\'') + rest;
      } else {
        MappedHead(s[0], rest, {'"'}, Armour);
      }
    }
  }

  lemma MappedHead(c: char, s: string, quotes: set<char>, how: char -> string)
    ensures Mapped([c] + s, quotes, how) == (if c in quotes then how(c) else [c]) + Mapped(s, quotes, how)
  {
  }

  /* ---------- the pattern stops at the closing quote ---------- */

  lemma {:induction false} LoopTakesDoubled(before: string, s: string, q: char, rest: string)
    requires rest == "" || rest[0] != q
    ensures var body := Mapped(s, {q}, Twice);
      LoopThenQuote(before + body + [q] + rest, q, |before|) == Some(|before| + |body| + 1)
    decreases |s|
  {
    var body := Mapped(s, {q}, Twice);
    var t := before + body + [q] + rest;
    if s != "" {
      var head := if s[0] == q then Twice(q) else [s[0]];
      var tail := Mapped(s[1..], {q}, Twice);
      assert body == head + tail;
      assert t == (before + head) + tail + [q] + rest;
      LoopTakesDoubled(before + head, s[1..], q, rest);
      assert t[|before|] == head[0] && (|head| == 2 ==> t[|before| + 1] == head[1]);
    }
  }

  /** Printed text is taken up to its closing quote, whatever follows, unless that is one more quote. */
  lemma QuotedTakesPrinted(s: string, q: char, rest: string)
    requires rest == "" || rest[0] != q
    ensures var text := PrintIdentifier(s, q); Quoted(text + rest, q) == Some(|text|)
  {
    ReplaceIsMapped(s, q, Twice);
    LoopTakesDoubled([q], s, q, rest);
    assert PrintIdentifier(s, q) + rest == [q] + Mapped(s, {q}, Twice) + [q] + rest;
  }

  /* ---------- which strings come back ---------- */

  const BOTH := {'\'', '"'}

  /**
    The strings that come back: no NUL, no carriage return, in an identifier no line feed; and after
    every backslash, counting from the left, a character with no meaning there. A quote of a kind that
    is itself written with a backslash is such a character, except a double quote that would then
    stand bare where it closes the literal.
   */
  predicate Survives(s: string, quotes: set<char>, triple: bool) {
    s != "" ==>
      && s[0] != '\0' && s[0] != '\r' && (triple || s[0] != '\n')
      && if s[0] != '\\' then Survives(s[1..], quotes, triple)
         else
           && |s| > 1 && s[1] != '\0' && s[1] != '\r' && !Special(s[1])
           && (s[1] in BOTH ==> s[1] in quotes) && (s[1] == '"' ==> triple && |s| > 2)
           && Survives(s[2..], quotes, triple)
  }

  predicate Plain(s: string, triple: bool) {
    '\0' !in s && '\r' !in s && (triple || '\n' !in s)
  }

  /** Without backslashes only the characters themselves matter. */
  lemma {:induction false} WithoutBackslash(s: string, quotes: set<char>, triple: bool)
    requires '\\' !in s
    ensures Survives(s, quotes, triple) <==> Plain(s, triple)
  {
    if s != "" {
      WithoutBackslash(s[1..], quotes, triple);
      assert s == [s[0]] + s[1..];
    }
  }

  /** Every backslash, counting from the left, is read as itself. */
  predicate Kept(s: string, quotes: set<char>) {
    s != "" ==>
      if s[0] != '\\' then Kept(s[1..], quotes)
      else |s| > 1 && !Special(s[1]) && (s[1] in BOTH ==> s[1] in quotes) && Kept(s[2..], quotes)
  }

  predicate Closed(s: string, triple: bool) {
    s != "" ==>
      if s[0] != '\\' then (triple || s[0] != '\n') && Closed(s[1..], triple)
      else |s| > 1 ==> (s[1] == '"' ==> triple && |s| > 2) && Closed(s[2..], triple)
  }

  lemma {:induction false} SurvivesInParts(s: string, quotes: set<char>, triple: bool)
    ensures Survives(s, quotes, triple)
      <==> '\0' !in s && '\r' !in s && Kept(s, quotes) && Closed(s, triple)
  {
    if s != "" {
      assert s == [s[0]] + s[1..];
      if s[0] != '\\' {
        SurvivesInParts(s[1..], quotes, triple);
      } else if |s| > 1 {
        assert s == [s[0], s[1]] + s[2..];
        SurvivesInParts(s[2..], quotes, triple);
      }
    }
  }

  /* ---------- decoding armoured text ---------- */

  /** What decoding the armoured form of s gives: s itself exactly when s is kept, else less than s. */
  predicate Fits(d: Option<string>, s: string, quotes: set<char>) {
    && (Kept(s, quotes) ==> d == Some(s))
    && (d.Some? ==> |d.value| <= |s| && (|d.value| == |s| ==> Kept(s, quotes)))
  }

  function Prepend(p: string, d: Option<string>): Option<string> {
    if d.Some? then Some(p + d.value) else None
  }

  lemma FitsPrepend(p: string, d: Option<string>, s: string, quotes: set<char>)
    requires Fits(d, s, quotes) && (Kept(p + s, quotes) <==> Kept(s, quotes))
    ensures Fits(Prepend(p, d), p + s, quotes)
  {
    hide Kept;
  }

  lemma {:induction false} DecodeArmoured(s: string, quotes: set<char>, named: string -> Option<char>)
    requires quotes <= BOTH
    ensures Fits(Decode(Armoured(s, quotes), named), s, quotes)
    decreases |s|, 0
  {
    hide EscapeAt, Special, Decode, Fits;
    if s == "" {
      DecodeEmpty(named, quotes);
    } else if s[0] != '\\' {
      var rest := Armoured(s[1..], quotes);
      DecodeArmoured(s[1..], quotes, named);
      assert s == [s[0]] + s[1..];
      FitsPrepend([s[0]], Decode(rest, named), s[1..], quotes);
      if s[0] in quotes {
        DecodeQuote(s[0], rest, named);
      } else {
        DecodePlain(s[0], rest, named);
      }
    } else if |s| == 1 {
      assert s == "\\" + "";
      ArmouredCons('\\', "", quotes);
      DecodeLone(named, quotes);
      assert Armoured(s, quotes) == "\\";
    } else {
      var rest := Armoured(s[2..], quotes);
      DecodeArmoured(s[2..], quotes, named);
      assert s == [s[0], s[1]] + s[2..];
      ArmouredTwo(s, quotes);
      if s[1] in quotes {
        NotSpecial(s[1]);
        FitsPrepend([s[0], s[1]], Decode(rest, named), s[2..], quotes);
        DecodeBackslashQuote(s[1], rest, named);
      } else {
        assert Armoured(s, quotes) == ['\\', s[1]] + rest;
        DecodeEscape(s, quotes, named);
      }
    }
  }

  lemma ArmouredTwo(s: string, quotes: set<char>)
    requires quotes <= BOTH && |s| >= 2 && s[0] == '\\'
    ensures Armoured(s, quotes)
      == ['\\'] + (if s[1] in quotes then Armour(s[1]) else [s[1]]) + Armoured(s[2..], quotes)
  {
    ArmouredCons(s[0], s[1..], quotes);
    ArmouredCons(s[1], s[2..], quotes);
    assert s == [s[0]] + s[1..] && s[1..] == [s[1]] + s[2..];
  }

  lemma ArmouredCons(c: char, s: string, quotes: set<char>)
    requires quotes <= BOTH
    ensures Armoured([c] + s, quotes) == (if c in quotes then Armour(c) else [c]) + Armoured(s, quotes)
    ensures c == '\\' ==> c !in quotes
  {
    assert ([c] + s)[1..] == s;
    assert '\\' !in BOTH;
  }

  lemma DecodeEmpty(named: string -> Option<char>, quotes: set<char>)
    ensures Fits(Decode("", named), "", quotes)
  {
  }

  lemma DecodeLone(named: string -> Option<char>, quotes: set<char>)
    ensures Fits(Decode("\\", named), "\\", quotes)
  {
  }

  lemma DecodePlain(c: char, rest: string, named: string -> Option<char>)
    requires c != '\\'
    ensures Decode([c] + rest, named) == Prepend([c], Decode(rest, named))
  {
    assert ([c] + rest)[1..] == rest;
  }

  lemma DecodeQuote(q: char, rest: string, named: string -> Option<char>)
    requires q in BOTH
    ensures Decode(['\\', q] + rest, named) == Prepend([q], Decode(rest, named))
  {
    hide EscapeAt;
    EscapedQuote(['\\', q] + rest, named);
    assert (['\\', q] + rest)[2..] == rest;
  }

  lemma DecodeBackslashQuote(q: char, rest: string, named: string -> Option<char>)
    requires q in BOTH
    ensures Decode(['\\'] + Armour(q) + rest, named) == Prepend(['\\', q], Decode(rest, named))
  {
    hide EscapeAt;
    var u := ['\\'] + Armour(q) + rest;
    EscapedBackslash(u, named);
    assert u[2..] == [q] + rest;
    DecodePlain(q, rest, named);
    var d := Decode(rest, named);
    assert d.Some? ==> "\\" + ([q] + d.value) == ['\\', q] + d.value;
  }

  lemma EscapedQuote(u: string, named: string -> Option<char>)
    requires |u| >= 2 && u[0] == '\\' && u[1] in BOTH
    ensures EscapeAt(u, named) == Some(Escape([u[1]], 2))
  {
  }

  lemma EscapedBackslash(u: string, named: string -> Option<char>)
    requires |u| >= 2 && u[0] == '\\' && u[1] == '\\'
    ensures EscapeAt(u, named) == Some(Escape("\\", 2))
  {
  }

  lemma NotSpecial(c: char)
    requires c in BOTH
    ensures !Special(c)
  {
  }

  lemma UnknownEscape(u: string, named: string -> Option<char>)
    requires |u| >= 2 && u[0] == '\\' && !Special(u[1]) && u[1] !in BOTH
    ensures EscapeAt(u, named) == Some(Escape(u[..2], 2))
  {
  }

  /** A backslash before a character that is not armoured. */
  lemma {:induction false} DecodeEscape(s: string, quotes: set<char>, named: string -> Option<char>)
    requires quotes <= BOTH && |s| >= 2 && s[0] == '\\' && s[1] !in quotes
    requires Fits(Decode(Armoured(s[2..], quotes), named), s[2..], quotes)
    ensures Fits(Decode(['\\', s[1]] + Armoured(s[2..], quotes), named), s, quotes)
    decreases |s| - 2, 2
  {
    hide EscapeAt, Special, Armoured;
    var rest := Armoured(s[2..], quotes);
    var u := ['\\', s[1]] + rest;
    if Special(s[1]) || s[1] in BOTH {
      var e := EscapeAt(u, named);
      if e.Some? {
        assert u[e.value.taken..] == rest[e.value.taken - 2..];
        DecodeSuffix(s[2..], quotes, named, e.value.taken - 2);
      }
    } else {
      UnknownEscape(u, named);
      assert u[2..] == rest && s == u[..2] + s[2..];
    }
  }

  /** Decoding from anywhere inside armoured text never yields more than the text that was armoured. */
  lemma {:induction false} DecodeSuffix(s: string, quotes: set<char>, named: string -> Option<char>, k: nat)
    requires quotes <= BOTH && k <= |Armoured(s, quotes)|
    ensures var d := Decode(Armoured(s, quotes)[k..], named); d.Some? ==> |d.value| <= |s|
    decreases |s|, 1
  {
    hide EscapeAt, Special, Decode, Kept;
    var a := Armoured(s, quotes);
    if k == 0 {
      assert a[0..] == a;
      DecodeArmoured(s, quotes, named);
    } else if s != "" {
      var head := if s[0] in quotes then Armour(s[0]) else [s[0]];
      var rest := Armoured(s[1..], quotes);
      assert a == head + rest;
      if k >= |head| {
        assert a[k..] == rest[k - |head|..];
        DecodeSuffix(s[1..], quotes, named, k - |head|);
      } else {
        assert a[k..] == [s[0]] + rest;
        DecodePlain(s[0], rest, named);
        DecodeArmoured(s[1..], quotes, named);
      }
    }
  }

  /* ---------- where armoured text closes ---------- */

  lemma {:induction false} ArmouredCloses(s: string, quotes: set<char>, triple: bool)
    requires Kept(s, quotes) && '"' in quotes && quotes <= BOTH
    ensures CloseAt(Armoured(s, quotes) + Closing(triple), triple) == Some(|Armoured(s, quotes)|)
      <==> Closed(s, triple)
    decreases |s|
  {
    hide Special, CloseAt, Armoured;
    var a, end := Armoured(s, quotes), Closing(triple);
    if s == "" {
      ArmouredNothing(quotes);
      assert a + end == end;
      CloseEmpty(triple);
    } else if s[0] != '\\' {
      var rest := Armoured(s[1..], quotes);
      ArmouredCloses(s[1..], quotes, triple);
      assert s == [s[0]] + s[1..];
      ArmouredCons(s[0], s[1..], quotes);
      if s[0] in quotes {
        CloseProtected(s[0], rest + end, triple);
        assert a + end == ['\\', s[0]] + (rest + end);
      } else {
        assert a + end == [s[0]] + (rest + end);
        ClosePlain(s[0], rest + end, triple);
      }
    } else {
      var rest := Armoured(s[2..], quotes);
      ArmouredCloses(s[2..], quotes, triple);
      ArmouredTwo(s, quotes);
      if s[1] in quotes {
        assert a + end == ['\\', '\\'] + ([s[1]] + (rest + end));
        CloseProtected('\\', [s[1]] + (rest + end), triple);
        if s[1] == '"' {
          CloseBare(s[2..], quotes, triple);
        } else {
          ClosePlain(s[1], rest + end, triple);
        }
      } else {
        assert a + end == ['\\', s[1]] + (rest + end);
        CloseProtected(s[1], rest + end, triple);
      }
    }
  }

  lemma ArmouredNothing(quotes: set<char>)
    ensures Armoured("", quotes) == ""
  {
  }

  function Shift(n: nat, o: Option<nat>): Option<nat> {
    if o.Some? then Some(n + o.value) else None
  }

  lemma CloseEmpty(triple: bool)
    ensures CloseAt(Closing(triple), triple) == Some(0)
  {
  }

  lemma CloseProtected(c: char, t: string, triple: bool)
    ensures CloseAt(['\\', c] + t, triple) == Shift(2, CloseAt(t, triple))
  {
    var u := ['\\', c] + t;
    assert u[0] == '\\' && u[2..] == t;
    assert !("\"\"\"" <= u) && !("\"" <= u);
  }

  lemma ClosePlain(c: char, t: string, triple: bool)
    requires c != '\\' && c != '"'
    ensures CloseAt([c] + t, triple) == if c == '\n' && !triple then None else Shift(1, CloseAt(t, triple))
  {
    var u := [c] + t;
    assert u[0] == c && u[1..] == t;
    assert !("\"\"\"" <= u) && !("\"" <= u);
  }

  /** A bare double quote closes a simple literal, and a triple one only in front of its closing quotes. */
  lemma CloseBare(s: string, quotes: set<char>, triple: bool)
    requires '"' in quotes && quotes <= BOTH
    ensures var rest := Armoured(s, quotes) + Closing(triple);
      CloseAt(['"'] + rest, triple)
      == if triple && s != "" then Shift(1, CloseAt(rest, triple)) else Some(0)
  {
    var rest := Armoured(s, quotes) + Closing(triple);
    var t := ['"'] + rest;
    assert t[1..] == rest;
    if s == "" {
      assert rest == Closing(triple);
    } else {
      assert t[1] != '"';
    }
  }

  /* ---------- round trips ---------- */

  lemma {:induction false} NewlinesOfArmoured(s: string, quotes: set<char>)
    requires quotes <= BOTH
    ensures Newlines(Armoured(s, quotes)) == Armoured(Newlines(s), quotes)
    decreases |s|
  {
    hide Armoured, Newlines;
    if s == "" {
      ArmouredNothing(quotes);
      NewlinesNothing();
    } else {
      var c, t := s[0], s[1..];
      NewlinesOfArmoured(t, quotes);
      assert s == [c] + t;
      ArmouredCons(c, t, quotes);
      NewlinesCons(c, t);
      NewlinesStep(c, t, quotes);
    }
  }

  lemma NewlinesStep(c: char, t: string, quotes: set<char>)
    requires quotes <= BOTH && Newlines(Armoured(t, quotes)) == Armoured(Newlines(t), quotes)
    ensures Newlines((if c in quotes then Armour(c) else [c]) + Armoured(t, quotes))
      == Armoured(Newlines([c] + t), quotes)
  {
    hide Armoured, Newlines;
    var rest := Armoured(t, quotes);
    NewlinesCons(c, t);
    NewlinesCons(c, rest);
    if c in quotes {
      NewlinesQuote(c, rest);
      ArmouredCons(c, Newlines(t), quotes);
    } else if c == '\r' {
      ArmouredFirst(t, quotes);
      ArmouredCons('\n', Newlines(t), quotes);
    } else {
      ArmouredCons(c, Newlines(t), quotes);
    }
  }

  lemma NewlinesQuote(c: char, rest: string)
    requires c != '\r'
    ensures Newlines(Armour(c) + rest) == Armour(c) + Newlines(rest)
  {
    hide Newlines;
    NewlinesCons(c, rest);
    NewlinesCons('\\', [c] + rest);
    assert Armour(c) + rest == ['\\'] + ([c] + rest);
    assert Armour(c) + Newlines(rest) == ['\\'] + ([c] + Newlines(rest));
  }

  lemma NewlinesNothing()
    ensures Newlines("") == ""
  {
  }

  lemma NewlinesCons(c: char, s: string)
    ensures Newlines([c] + s)
      == if c != '\r' then [c] + Newlines(s) else if s != "" && s[0] == '\n' then Newlines(s) else "\n" + Newlines(s)
  {
    assert ([c] + s)[1..] == s;
  }

  lemma ArmouredFirst(s: string, quotes: set<char>)
    requires quotes <= BOTH
    ensures var a := Armoured(s, quotes); (a != "" && a[0] == '\n') <==> (s != "" && s[0] == '\n')
  {
  }

  lemma {:induction false} NulOfArmoured(s: string, quotes: set<char>)
    requires quotes <= BOTH
    ensures '\0' in Armoured(s, quotes) <==> '\0' in s
    decreases |s|
  {
    hide Armoured;
    ArmouredNothing(quotes);
    if s != "" {
      NulOfArmoured(s[1..], quotes);
      ArmouredCons(s[0], s[1..], quotes);
      assert s == [s[0]] + s[1..];
    }
  }

  lemma {:induction false} NewlinesKeeps(s: string)
    requires '\r' !in s
    ensures Newlines(s) == s
  {
    if s != "" {
      NewlinesKeeps(s[1..]);
    }
  }

  lemma EvalArmoured(s: string, quotes: set<char>, triple: bool, named: string -> Option<char>)
    requires '"' in quotes && quotes <= BOTH
    ensures LiteralEval(Armoured(s, quotes), triple, named) == Some(s) <==> Survives(s, quotes, triple)
  {
    hide Armoured, Kept, Closed, Survives, Decode;
    var n := Newlines(s);
    NewlinesOfArmoured(s, quotes);
    NulOfArmoured(s, quotes);
    SurvivesInParts(s, quotes, triple);
    DecodeArmoured(n, quotes, named);
    if '\r' !in s {
      NewlinesKeeps(s);
    }
    if Kept(n, quotes) {
      ArmouredCloses(n, quotes, triple);
    }
  }

  lemma {:induction false} CarriageReturnsShow(s: string)
    requires '\r' in s && |Newlines(s)| == |s|
    ensures '\n' in Newlines(s)
  {
    if s[0] != '\r' {
      assert s == [s[0]] + s[1..];
      CarriageReturnsShow(s[1..]);
    }
  }

  lemma {:induction false} ClosedHasNoLineFeed(s: string, quotes: set<char>)
    requires Kept(s, quotes) && Closed(s, false)
    ensures '\n' !in s
  {
    if s != "" {
      if s[0] != '\\' {
        ClosedHasNoLineFeed(s[1..], quotes);
        assert s == [s[0]] + s[1..];
      } else {
        ClosedHasNoLineFeed(s[2..], quotes);
        assert s == [s[0], s[1]] + s[2..] && s[1] != '\n';
      }
    }
  }

  /** What an identifier is read as, if not itself, is shorter. */
  lemma EvalShrinks(s: string, quotes: set<char>, named: string -> Option<char>)
    requires '"' in quotes && quotes <= BOTH
    ensures var t := LiteralEval(Armoured(s, quotes), false, named);
      t.Some? && !Survives(s, quotes, false) ==> |t.value| < |s|
  {
    hide Armoured, Kept, Closed, Survives, Decode;
    var n := Newlines(s);
    var t := LiteralEval(Armoured(s, quotes), false, named);
    NewlinesOfArmoured(s, quotes);
    DecodeArmoured(n, quotes, named);
    EvalArmoured(s, quotes, false, named);
    if t.Some? && |t.value| == |s| {
      ArmouredCloses(n, quotes, false);
      ClosedHasNoLineFeed(n, quotes);
      if '\r' in s {
        CarriageReturnsShow(s);
      }
      NewlinesKeeps(s);
    }
  }

  /** The text of a string literal inside its Python literal. */
  lemma LiteralIsArmoured(s: string, named: string -> Option<char>)
    ensures SingleLiteral(PrintLiteral(s), named) == LiteralEval(Armoured(s, BOTH), true, named)
  {
    hide LiteralEval;
    ReplaceIsMapped(s, '\'', Twice);
    var val := PrintLiteral(s);
    assert val[1..|val| - 1] == Mapped(s, {'\''}, Twice);
    ReplacePairs(s, '\'', Armour);
    ReplaceIsMapped(Mapped(s, {'\''}, Armour), '"', Armour);
    ArmourBoth(s);
  }

  /**
    A printed string literal is one token whatever follows it, and reading it gives the string back
    exactly when the string survives.
   */
  lemma LiteralRoundTrip(s: string, rest: string, named: string -> Option<char>)
    requires rest == "" || rest[0] != '\''
    ensures Quoted(PrintLiteral(s) + rest, '\'') == Some(|PrintLiteral(s)|)
    ensures SingleLiteral(PrintLiteral(s), named) == Some(s) <==> Survives(s, BOTH, true)
  {
    hide LiteralEval, Survives;
    QuotedTakesPrinted(s, '\'', rest);
    LiteralIsArmoured(s, named);
    EvalArmoured(s, BOTH, true, named);
  }

  /** The text of a quoted identifier inside its Python literal, in either style. */
  lemma IdentifierIsArmoured(s: string, named: string -> Option<char>)
    ensures DoubleColumn(PrintIdentifier(s, '"'), named) == LiteralEval(Armoured(s, {'"'}), false, named)
    ensures BacktickColumn(PrintIdentifier(s, '`'), named) == LiteralEval(Armoured(s, {'"'}), false, named)
  {
    hide LiteralEval;
    ReplaceIsMapped(s, '"', Twice);
    ReplacePairs(s, '"', Armour);
    var double := PrintIdentifier(s, '"');
    assert double[1..|double| - 1] == Mapped(s, {'"'}, Twice);
    ReplaceIsMapped(s, '`', Twice);
    ReplacePairs(s, '`', Same);
    MappedToSame(s, '`');
    ReplaceIsMapped(s, '"', Armour);
    var backtick := PrintIdentifier(s, '`');
    assert backtick[1..|backtick| - 1] == Mapped(s, {'`'}, Twice);
  }

  /** An identifier that does not survive is read as a shorter one, if at all. */
  lemma IdentifierShrinks(s: string, named: string -> Option<char>)
    requires !Survives(s, {'"'}, false)
    ensures var t := DoubleColumn(PrintIdentifier(s, '"'), named); t.Some? ==> |t.value| < |s|
    ensures var t := BacktickColumn(PrintIdentifier(s, '`'), named); t.Some? ==> |t.value| < |s|
  {
    hide LiteralEval, Survives;
    IdentifierIsArmoured(s, named);
    EvalShrinks(s, {'"'}, named);
  }

  /** The same for one part of an identifier, in either style of quotes. */
  lemma IdentifierRoundTrip(s: string, rest: string, named: string -> Option<char>)
    ensures rest == "" || rest[0] != '"' ==>
      Quoted(PrintIdentifier(s, '"') + rest, '"') == Some(|PrintIdentifier(s, '"')|)
    ensures rest == "" || rest[0] != '`' ==>
      Quoted(PrintIdentifier(s, '`') + rest, '`') == Some(|PrintIdentifier(s, '`')|)
    ensures DoubleColumn(PrintIdentifier(s, '"'), named) == Some(s) <==> Survives(s, {'"'}, false)
    ensures BacktickColumn(PrintIdentifier(s, '`'), named) == Some(s) <==> Survives(s, {'"'}, false)
  {
    hide LiteralEval, Survives;
    if rest == "" || rest[0] != '"' {
      QuotedTakesPrinted(s, '"', rest);
    }
    if rest == "" || rest[0] != '`' {
      QuotedTakesPrinted(s, '`', rest);
    }
    EvalArmoured(s, {'"'}, false, named);
    IdentifierIsArmoured(s, named);
  }

  /** A backslash and an n are read as a line feed. */
  lemma BackslashIsLost(named: string -> Option<char>)
    ensures !Survives("\\n", BOTH, true) && SingleLiteral(PrintLiteral("\\n"), named) != Some("\\n")
    ensures SingleLiteral(PrintLiteral("\\n"), named) == Some("\n")
  {
    hide LiteralEval, Armoured;
    var s := "\\n";
    LiteralIsArmoured(s, named);
    LiteralRoundTrip(s, "", named);
    ArmouredCons('n', "", BOTH);
    ArmouredCons('\\', "n", BOTH);
    ArmouredNothing(BOTH);
    assert "\\" + "n" == s && "n" + "" == "n";
    EvalLineFeed(named);
  }

  lemma EvalLineFeed(named: string -> Option<char>)
    ensures LiteralEval("\\n", true, named) == Some("\n")
  {
    hide CloseAt, EscapeAt, Newlines;
    var s := "\\n";
    NewlinesKeeps(s);
    CloseProtected('n', Closing(true), true);
    CloseEmpty(true);
    EscapedLineFeed(s, named);
    assert s[2..] == "" && "\n" + "" == "\n";
  }

  lemma EscapedLineFeed(u: string, named: string -> Option<char>)
    requires |u| >= 2 && u[0] == '\\' && u[1] == 'n'
    ensures EscapeAt(u, named) == Some(Escape("\n", 2))
  {
  }
}
