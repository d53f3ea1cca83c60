/** What each escape sequence of a string literal is read as, said from the number or letter it is written with. */
module Escapes {
  import opened Expressions
  import opened Quotes

  /** Text that means itself in a literal. */
  predicate Ordinary(s: string) {
    forall c <- s :: c != '\\' && Unquoted(c)
  }

  predicate Unquoted(c: char) {
    c != '\'' && c != '"' && c != '\r' && c != '\0'
  }

  /** A number written with so many digits. */
  function Digits(n: nat, radix: nat, width: nat, upper: bool): (s: string)
    requires 2 <= radix <= 16
    ensures |s| == width
  {
    if width == 0 then ""
    else
      Digits(n / radix, radix, width - 1, upper)
      + [(if upper then "0123456789ABCDEF" else "0123456789abcdef")[n % radix]]
  }

  /** It has no more digits. */
  predicate Holds(n: nat, radix: nat, width: nat)
    requires radix >= 2
  {
    if width == 0 then n == 0 else Holds(n / radix, radix, width - 1)
  }

  lemma DigitIsRead(d: nat)
    requires d < 16
    ensures Digit("0123456789ABCDEF"[d]) == d && Digit("0123456789abcdef"[d]) == d
    ensures Ordinary(["0123456789ABCDEF"[d]]) && Ordinary(["0123456789abcdef"[d]])
  {
  }

  lemma LastDigit(front: string, c: char, radix: nat, n: nat)
    requires radix > 0 && Number(front, radix) == Some(n / radix) && Digit(c) == n % radix
    ensures Number(front + [c], radix) == Some(n)
  {
    var s := front + [c];
    assert s[..|s| - 1] == front;
    DivMod(n, radix);
  }

  lemma DivMod(n: nat, radix: nat)
    requires radix > 0
    ensures n / radix * radix + n % radix == n && n % radix < radix
  {
  }

  lemma {:induction false} NumberIsRead(n: nat, radix: nat, width: nat, upper: bool)
    requires 2 <= radix <= 16 && Holds(n, radix, width)
    ensures Number(Digits(n, radix, width, upper), radix) == Some(n) && Ordinary(Digits(n, radix, width, upper))
    decreases width
  {
    hide Number, Digit;
    if width == 0 {
      NoDigits(radix);
    } else {
      DivMod(n, radix);
      NumberIsRead(n / radix, radix, width - 1, upper);
      DigitIsRead(n % radix);
      var digit := (if upper then "0123456789ABCDEF" else "0123456789abcdef")[n % radix];
      LastDigit(Digits(n / radix, radix, width - 1, upper), digit, radix, n);
    }
  }

  lemma NoDigits(radix: nat)
    ensures Number("", radix) == Some(0)
  {
  }

  /* ---------- the literal around an escape ---------- */

  lemma {:induction false} OrdinaryDecodes(s: string, named: string -> Option<char>)
    requires Ordinary(s)
    ensures Decode(s, named) == Some(s)
  {
    hide EscapeAt;
    if s != "" {
      assert s[0] in s;
      OrdinaryDecodes(s[1..], named);
      assert s == [s[0]] + s[1..];
    }
  }

  lemma {:induction false} OrdinaryCloses(s: string)
    requires Ordinary(s)
    ensures CloseAt(s + Closing(true), true) == Some(|s|)
  {
    hide CloseAt;
    if s == "" {
      CloseEmpty(true);
      assert s + Closing(true) == Closing(true);
    } else {
      assert s[0] in s;
      OrdinaryCloses(s[1..]);
      ClosePlain(s[0], s[1..] + Closing(true), true);
      assert s + Closing(true) == [s[0]] + (s[1..] + Closing(true));
    }
  }

  lemma {:induction false} NothingMapped(s: string, quotes: set<char>, how: char -> string)
    requires forall c <- s :: c !in quotes
    ensures Mapped(s, quotes, how) == s
  {
    if s != "" {
      NothingMapped(s[1..], quotes, how);
    }
  }

  /** A backslash, a character that is no quote, and ordinary text: the literal is read by decoding it. */
  lemma LiteralDecodes(c: char, text: string, named: string -> Option<char>)
    requires Ordinary(text) && Unquoted(c)
    ensures SingleLiteral("'" + ['\\', c] + text + "'", named) == Decode(['\\', c] + text, named)
  {
    hide Decode, Mapped, Replace, CloseAt, Newlines;
    var u := ['\\', c] + text;
    ReplaceIsMapped(u, '\'', Twice);
    NothingMapped(u, {'\''}, Twice);
    assert PrintLiteral(u) == "'" + ['\\', c] + text + "'";
    LiteralIsArmoured(u, named);
    NothingMapped(u, BOTH, Armour);
    NewlinesKeeps(u);
    OrdinaryCloses(text);
    CloseProtected(c, text + Closing(true), true);
    assert u + Closing(true) == ['\\', c] + (text + Closing(true));
  }

  /** Decoding such text is one escape and the rest as it is. */
  lemma EscapeDecodes(u: string, value: string, taken: nat, named: string -> Option<char>)
    requires u != "" && u[0] == '\\' && EscapeAt(u, named) == Some(Escape(value, taken)) && Ordinary(u[taken..])
    ensures Decode(u, named) == Some(value + u[taken..])
  {
    hide EscapeAt;
    OrdinaryDecodes(u[taken..], named);
  }

  /* ---------- the escapes ---------- */

  /** The letters `abtnvfr` stand for the characters 7 to 13. */
  lemma ControlEscapes(k: nat, tail: string, named: string -> Option<char>)
    requires k < 7 && Ordinary(tail)
    ensures SingleLiteral("'" + ['\\', "abtnvfr"[k]] + tail + "'", named) == Some([(7 + k) as char] + tail)
  {
    hide Decode, SingleLiteral;
    var c := "abtnvfr"[k];
    LiteralDecodes(c, tail, named);
    var u := ['\\', c] + tail;
    ControlEscape(k, u, named);
    assert u[2..] == tail;
    EscapeDecodes(u, [(7 + k) as char], 2, named);
  }

  lemma ControlEscape(k: nat, u: string, named: string -> Option<char>)
    requires k < 7 && |u| >= 2 && u[0] == '\\' && u[1] == "abtnvfr"[k]
    ensures EscapeAt(u, named) == Some(Escape([(7 + k) as char], 2))
  {
  }

  lemma HexHolds(n: nat, width: nat)
    requires || (width == 2 && n < 0x100) || (width == 4 && n < 0x1_0000) || (width == 8 && n < 0x1_0000_0000)
    ensures Holds(n, 16, width)
  {
    var a, b := n / 16 / 16, n / 16 / 16 / 16 / 16;
    if width == 2 {
      HoldsTwo(n, 0);
    } else if width == 4 {
      assert a < 0x100 && a / 16 / 16 == 0;
      HoldsTwo(a, 0);
      HoldsTwo(n, 2);
    } else {
      var c := b / 16 / 16;
      assert a < 0x100_0000 && b < 0x1_0000 && c < 0x100 && c / 16 / 16 == 0;
      HoldsTwo(c, 0);
      HoldsTwo(b, 2);
      HoldsTwo(a, 4);
      HoldsTwo(n, 6);
    }
  }

  lemma HoldsTwo(n: nat, width: nat)
    ensures Holds(n, 16, width + 2) <==> Holds(n / 16 / 16, 16, width)
  {
    assert Holds(n, 16, width + 2) <==> Holds(n / 16, 16, width + 1);
  }

  /** A character has the number n. */
  predicate HasCharacter(n: nat) {
    n < 0xD800 || 0xE000 <= n < 0x11_0000
  }

  /** `x`, `u` and `U` take two, four and eight hexadecimal digits, of either case. */
  lemma HexEscapes(mark: char, width: nat, n: nat, upper: bool, tail: string, named: string -> Option<char>)
    requires || (mark == 'x' && width == 2 && n < 0x100) || (mark == 'u' && width == 4 && n < 0x1_0000)
             || (mark == 'U' && width == 8 && n < 0x1_0000_0000)
    requires Ordinary(tail)
    ensures SingleLiteral("'" + ['\\', mark] + (Digits(n, 16, width, upper) + tail) + "'", named)
      == if HasCharacter(n) then Some([n as char] + tail) else None
  {
    hide Decode, SingleLiteral, Digits, Holds, Number;
    HexHolds(n, width);
    NumberIsRead(n, 16, width, upper);
    var text := Digits(n, 16, width, upper) + tail;
    LiteralDecodes(mark, text, named);
    var u := ['\\', mark] + text;
    assert u[2..2 + width] == Digits(n, 16, width, upper) && u[2 + width..] == tail;
    if HasCharacter(n) {
      EscapeDecodes(u, [n as char], 2 + width, named);
    } else {
      EscapeFails(u, named);
    }
  }

  /** Three octal digits. */
  lemma OctalEscapes(n: nat, tail: string, named: string -> Option<char>)
    requires n < 512 && Ordinary(tail)
    ensures SingleLiteral("'" + ['\\'] + Digits(n, 8, 3, false) + tail + "'", named) == Some([n as char] + tail)
  {
    hide Decode, SingleLiteral, Number;
    assert n / 8 / 8 / 8 == 0 && Holds(n / 8 / 8 / 8, 8, 0) && Holds(n / 8 / 8, 8, 1) && Holds(n / 8, 8, 2);
    NumberIsRead(n, 8, 3, false);
    var digits := Digits(n, 8, 3, false);
    OctalDigits(n, 3);
    var text := digits[1..] + tail;
    assert "'" + ['\\'] + digits + tail + "'" == "'" + ['\\', digits[0]] + text + "'";
    LiteralDecodes(digits[0], text, named);
    var u := ['\\', digits[0]] + text;
    assert u[1..4] == digits && u[4..] == tail && u[1] == digits[0] && u[2] == digits[1] && u[3] == digits[2];
    OctalEscape(u, n, named);
    EscapeDecodes(u, [n as char], 4, named);
  }

  lemma {:induction false} OctalDigits(n: nat, width: nat)
    ensures forall k :: 0 <= k < width ==> '0' <= Digits(n, 8, width, false)[k] <= '7'
    decreases width
  {
    if width > 0 {
      OctalDigits(n / 8, width - 1);
      assert n % 8 < 8;
    }
  }

  lemma OctalEscape(u: string, n: nat, named: string -> Option<char>)
    requires |u| >= 4 && u[0] == '\\' && n < 512 && Number(u[1..4], 8) == Some(n)
    requires '0' <= u[1] <= '7' && '0' <= u[2] <= '7' && '0' <= u[3] <= '7'
    ensures EscapeAt(u, named) == Some(Escape([n as char], 4))
  {
    hide Number;
    assert Digit(u[2]) < 8 && Digit(u[3]) < 8;
    assert OctalRun(u, 4, 4) == 4 && OctalRun(u, 3, 4) == 4;
    assert u[1] !in ESCAPES;
  }

  /** A name in braces is looked up. */
  lemma NamedEscapes(name: string, tail: string, named: string -> Option<char>)
    requires Ordinary(name) && '}' !in name && Ordinary(tail)
    ensures SingleLiteral("'" + ['\\', 'N'] + ("{" + name + "}" + tail) + "'", named)
      == if named(name).Some? then Some([named(name).value] + tail) else None
  {
    hide Decode, SingleLiteral;
    var text := "{" + name + "}" + tail;
    LiteralDecodes('N', text, named);
    var u := ['\\', 'N'] + text;
    assert u[3..3 + |name|] == name && u[3 + |name|] == '}' && u[4 + |name|..] == tail;
    IndexOfEnd(u, 3, 3 + |name|);
    NamedEscape(u, |name|, named);
    if named(name).Some? {
      EscapeDecodes(u, [named(name).value], 4 + |name|, named);
    } else {
      EscapeFails(u, named);
    }
  }

  lemma {:induction false} IndexOfEnd(s: string, i: nat, e: nat)
    requires i <= e < |s| && '}' !in s[i..e] && s[e] == '}'
    ensures IndexOf(s, '}', i) == Some(e)
    decreases e - i
  {
    if i < e {
      assert s[i] == s[i..e][0] && s[i + 1..e] == s[i..e][1..];
      IndexOfEnd(s, i + 1, e);
    }
  }

  lemma NamedEscape(u: string, n: nat, named: string -> Option<char>)
    requires |u| >= 4 + n && u[0] == '\\' && u[1] == 'N' && u[2] == '{' && IndexOf(u, '}', 3) == Some(3 + n)
    ensures var c := named(u[3..3 + n]);
      EscapeAt(u, named) == if c.Some? then Some(Escape([c.value], 4 + n)) else None
  {
  }

  lemma EscapeFails(u: string, named: string -> Option<char>)
    requires u != "" && u[0] == '\\' && EscapeAt(u, named).None?
    ensures Decode(u, named).None?
  {
  }

  /* ---------- what is no number and no name ---------- */

  /** A backslash before a backslash or a line break. */
  lemma EscapedMark(tail: string, named: string -> Option<char>)
    requires Ordinary(tail)
    ensures SingleLiteral("'" + ['\\', '\\'] + tail + "'", named) == Some("\\" + tail)
    ensures SingleLiteral("'" + ['\\', '\n'] + tail + "'", named) == Some(tail)
  {
    hide Decode, SingleLiteral;
    LiteralDecodes('\\', tail, named);
    LiteralDecodes('\n', tail, named);
    var u, v := ['\\', '\\'] + tail, ['\\', '\n'] + tail;
    assert u[2..] == tail && v[2..] == tail && "" + tail == tail;
    EscapeDecodes(u, "\\", 2, named);
    EscapeDecodes(v, "", 2, named);
  }

  /** Before anything else it stays. */
  lemma OtherEscapes(c: char, tail: string, named: string -> Option<char>)
    requires c !in "abtnvfr01234567xuUN\\\n'\"\r\0" && Ordinary(tail)
    ensures SingleLiteral("'" + ['\\', c] + tail + "'", named) == Some(['\\', c] + tail)
  {
    hide Decode, SingleLiteral, EscapeAt;
    NoMeaning(c);
    LiteralDecodes(c, tail, named);
    var u := ['\\', c] + tail;
    UnknownEscape(u, named);
    assert u[2..] == tail && u[..2] == ['\\', c];
    EscapeDecodes(u, ['\\', c], 2, named);
  }

  lemma NoMeaning(c: char)
    requires c !in "abtnvfr01234567xuUN\\\n'\"\r\0"
    ensures !Special(c) && c !in BOTH && Unquoted(c)
  {
  }

  /** A carriage return, alone or before a line feed, is read as a line feed. */
  lemma LineBreaks(a: string, b: string, named: string -> Option<char>)
    requires Ordinary(a) && Ordinary(b)
    ensures SingleLiteral("'" + (a + "\r\n" + b) + "'", named) == Some(a + "\n" + b)
    ensures b == "" || b[0] != '\n' ==> SingleLiteral("'" + (a + "\r" + b) + "'", named) == Some(a + "\n" + b)
  {
    hide SingleLiteral, Newlines;
    NewlinesCons('\r', "\n" + b);
    NewlinesCons('\n', b);
    assert ['\n'] + b == "\n" + b && ['\r'] + ("\n" + b) == "\r\n" + b && ['\r'] + b == "\r" + b;
    assert a + "\r\n" + b == a + ("\r\n" + b) && a + "\r" + b == a + ("\r" + b);
    NoReturn(b);
    BreakIsRead(a, "\r\n" + b, b, named);
    if b == "" || b[0] != '\n' {
      NewlinesCons('\r', b);
      BreakIsRead(a, "\r" + b, b, named);
    }
  }

  lemma NoReturn(b: string)
    requires Ordinary(b)
    ensures Newlines(b) == b
  {
    NewlinesKeeps(b);
  }

  lemma BreakIsRead(a: string, after: string, b: string, named: string -> Option<char>)
    requires Ordinary(a) && Ordinary(b) && Newlines(after) == "\n" + b
    requires forall c <- after :: c != '\'' && c != '"' && c != '\0'
    ensures SingleLiteral("'" + (a + after) + "'", named) == Some(a + "\n" + b)
  {
    hide Decode, Mapped, Replace, CloseAt, Newlines;
    var s, t := a + after, a + "\n" + b;
    ReplaceIsMapped(s, '\'', Twice);
    NothingMapped(s, {'\''}, Twice);
    assert PrintLiteral(s) == "'" + (a + after) + "'";
    LiteralIsArmoured(s, named);
    NothingMapped(s, BOTH, Armour);
    NewlinesAfter(a, after);
    assert a + ("\n" + b) == t;
    OrdinaryCloses(t);
    OrdinaryDecodes(t, named);
  }

  lemma {:induction false} NewlinesAfter(a: string, after: string)
    requires Ordinary(a)
    ensures Newlines(a + after) == a + Newlines(after)
  {
    hide Newlines;
    if a == "" {
      assert a + after == after;
    } else {
      assert a[0] in a;
      NewlinesAfter(a[1..], after);
      NewlinesCons(a[0], a[1..] + after);
      assert a + after == [a[0]] + (a[1..] + after);
      assert a + Newlines(after) == [a[0]] + (a[1..] + Newlines(after));
    }
  }

  /** NUL is an error wherever it stands. */
  lemma NulIsError(s: string, named: string -> Option<char>)
    requires '\0' in s
    ensures SingleLiteral(PrintLiteral(s), named).None?
  {
    hide Mapped;
    LiteralIsArmoured(s, named);
    NulOfArmoured(s, BOTH);
  }
}
