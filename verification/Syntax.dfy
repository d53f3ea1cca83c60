/** Tokens, the bracket structure of an expression, and the parser up to operator precedence. */
module Syntax {
  import opened Expressions
  import opened Chains
  import opened Parsing
  import opened Engine

  datatype Token =
    | TNull
    | TName(id: string)
    | TOp(op: Op)
    | TOpen | TClose | TComma
    | TCase | TWhen | TThen | TElse | TEnd

  /** One operand of a flat run; brackets of every kind hold runs of their own. */
  datatype Operand =
    | NullTerm
    | NameTerm(id: string)
    | CallTerm(fn: string, args: seq<Chain<Op, Operand>>)
    | CaseTerm(whens: seq<Branch>, els: Option<Chain<Op, Operand>>)
    | Paren(inner: Chain<Op, Operand>)

  datatype Branch = Branch(cond: Chain<Op, Operand>, result: Chain<Op, Operand>)

  type Run = Chain<Op, Operand>

  /* ---------- text of a run ---------- */

  function RenderRun(c: Run): seq<Token>
    decreases c, 0
  {
    RenderOperand(c.first) + RenderLinks(c.rest)
  }

  function RenderLinks(links: seq<Link<Op, Operand>>): seq<Token>
    decreases links
  {
    if links == [] then []
    else RenderLink(links[0]) + RenderLinks(links[1..])
  }

  function RenderLink(l: Link<Op, Operand>): seq<Token>
    decreases l, 0
  {
    [TOp(l.op)] + RenderOperand(l.item)
  }

  function RenderOperand(o: Operand): (r: seq<Token>)
    ensures r != []
    decreases o, 0
  {
    match o
    case NullTerm => [TNull]
    case NameTerm(id) => [TName(id)]
    case CallTerm(fn, args) => [TName(fn), TOpen] + RenderArgs(args) + [TClose]
    case CaseTerm(whens, els) =>
      [TCase] + RenderBranches(whens) + (if els.Some? then [TElse] + RenderRun(els.value) else []) + [TEnd]
    case Paren(inner) => [TOpen] + RenderRun(inner) + [TClose]
  }

  function RenderArgs(args: seq<Run>): seq<Token>
    decreases args
  {
    if args == [] then []
    else if |args| == 1 then RenderRun(args[0])
    else RenderRun(args[0]) + [TComma] + RenderArgs(args[1..])
  }

  function RenderBranches(bs: seq<Branch>): seq<Token>
    decreases bs
  {
    if bs == [] then [] else RenderBranch(bs[0]) + RenderBranches(bs[1..])
  }

  function RenderBranch(b: Branch): seq<Token>
    decreases b, 0
  {
    [TWhen] + RenderRun(b.cond) + [TThen] + RenderRun(b.result)
  }

  /* ---------- parsing ---------- */

  type Parsed<T> = Reading<T, Token>

  predicate At(ts: seq<Token>, t: Token) {
    ts != [] && ts[0] == t
  }

  function Expect(ts: seq<Token>, t: Token): (r: Parsed<()>)
    ensures r.Ok? ==> |r.rest| < |ts|
  {
    if At(ts, t) then Ok((), ts[1..]) else Fail
  }

  function ParseRun(ts: seq<Token>): (r: Parsed<Run>)
    ensures r.Ok? ==> |r.rest| < |ts|
    decreases |ts|, 1
  {
    var (x, ts1) :- ParseOperand(ts);
    if ts1 != [] && ts1[0].TOp? then
      var (c, ts2) :- ParseRun(ts1[1..]);
      Ok(Chain(x, [Link(ts1[0].op, c.first)] + c.rest), ts2)
    else Ok(Chain(x, []), ts1)
  }

  /** A name directly followed by a parenthesis is a call. */
  function ParseOperand(ts: seq<Token>): (r: Parsed<Operand>)
    ensures r.Ok? ==> |r.rest| < |ts|
    decreases |ts|, 0
  {
    if ts == [] then Fail
    else match ts[0]
      case TNull => Ok(NullTerm, ts[1..])
      case TName(id) =>
        if At(ts[1..], TOpen) then
          if At(ts[2..], TClose) then Ok(CallTerm(id, []), ts[3..])
          else
            var (args, ts1) :- ParseArgs(ts[2..]);
            var (_, ts2) :- Expect(ts1, TClose);
            Ok(CallTerm(id, args), ts2)
        else Ok(NameTerm(id), ts[1..])
      case TOpen =>
        var (c, ts1) :- ParseRun(ts[1..]);
        var (_, ts2) :- Expect(ts1, TClose);
        Ok(Paren(c), ts2)
      case TCase =>
        var (whens, ts1) :- ParseBranches(ts[1..]);
        if At(ts1, TElse) then
          var (e, ts2) :- ParseRun(ts1[1..]);
          var (_, ts3) :- Expect(ts2, TEnd);
          Ok(CaseTerm(whens, Some(e)), ts3)
        else
          var (_, ts2) :- Expect(ts1, TEnd);
          Ok(CaseTerm(whens, None), ts2)
      case _ => Fail
  }

  function ParseArgs(ts: seq<Token>): (r: Parsed<seq<Run>>)
    ensures r.Ok? ==> |r.rest| < |ts|
    decreases |ts|, 2
  {
    var (c, ts1) :- ParseRun(ts);
    if At(ts1, TComma) then
      var (cs, ts2) :- ParseArgs(ts1[1..]);
      Ok([c] + cs, ts2)
    else Ok([c], ts1)
  }

  function ParseBranches(ts: seq<Token>): (r: Parsed<seq<Branch>>)
    ensures r.Ok? ==> |r.rest| <= |ts|
    decreases |ts|, 2
  {
    if !At(ts, TWhen) then Ok([], ts)
    else
      var (cond, ts1) :- ParseRun(ts[1..]);
      var (_, ts2) :- Expect(ts1, TThen);
      var (result, ts3) :- ParseRun(ts2);
      var (bs, ts4) :- ParseBranches(ts3);
      Ok([Branch(cond, result)] + bs, ts4)
  }

  /* ---------- the bracket structure is recovered exactly ---------- */

  /** What may follow a complete run: neither an operator nor an opening parenthesis. */
  predicate Stops(ts: seq<Token>) {
    ts == [] || !(ts[0].TOp? || ts[0].TOpen?)
  }

  lemma {:induction false} RunRoundTrip(c: Run, ts: seq<Token>)
    requires Stops(ts)
    ensures ParseRun(RenderRun(c) + ts) == Ok(c, ts)
    decreases c, 1
  {
    var tail := RenderLinks(c.rest) + ts;
    assert RenderRun(c) + ts == RenderOperand(c.first) + tail;
    if c.rest == [] {
      assert tail == ts;
      OperandRoundTrip(c.first, tail);
    } else {
      LinksRoundTrip(c.rest, ts);
      OperandRoundTrip(c.first, tail);
      assert [Link(c.rest[0].op, c.rest[0].item)] + c.rest[1..] == c.rest;
    }
  }

  lemma {:induction false} LinksRoundTrip(links: seq<Link<Op, Operand>>, ts: seq<Token>)
    requires Stops(ts) && links != []
    ensures RenderLinks(links) + ts != []
    ensures (RenderLinks(links) + ts)[0] == TOp(links[0].op)
    ensures ParseRun((RenderLinks(links) + ts)[1..]) == Ok(Chain(links[0].item, links[1..]), ts)
    decreases links
  {
    hide RenderLink, RenderOperand, ParseOperand;
    var more := RenderLinks(links[1..]) + ts;
    assert RenderLinks(links) + ts == RenderLink(links[0]) + more;
    if |links| == 1 {
      assert more == ts;
    } else {
      LinksRoundTrip(links[1..], ts);
      assert [Link(links[1].op, links[1].item)] + links[1..][1..] == links[1..];
    }
    LinkRoundTrip(links[0], more);
  }

  lemma {:induction false} LinkRoundTrip(l: Link<Op, Operand>, ts: seq<Token>)
    requires !At(ts, TOpen)
    ensures RenderLink(l) + ts == [TOp(l.op)] + (RenderOperand(l.item) + ts)
    ensures (RenderLink(l) + ts)[1..] == RenderOperand(l.item) + ts
    ensures ParseOperand(RenderOperand(l.item) + ts) == Ok(l.item, ts)
    decreases l, 2
  {
    OperandRoundTrip(l.item, ts);
  }

  lemma {:induction false} OperandRoundTrip(o: Operand, ts: seq<Token>)
    requires !At(ts, TOpen)
    ensures ParseOperand(RenderOperand(o) + ts) == Ok(o, ts)
    decreases o, 1
  {
    match o
    case NullTerm =>
    case NameTerm(_) =>
    case CallTerm(fn, args) =>
      CallRoundTrip(o, ts);
    case CaseTerm(whens, els) =>
      CaseRoundTrip(o, ts);
    case Paren(inner) =>
      assert (RenderOperand(o) + ts)[1..] == RenderRun(inner) + ([TClose] + ts);
      RunRoundTrip(inner, [TClose] + ts);
  }

  lemma {:induction false} CallRoundTrip(o: Operand, ts: seq<Token>)
    requires o.CallTerm?
    ensures ParseOperand(RenderOperand(o) + ts) == Ok(o, ts)
    decreases o, 0
  {
    var all := RenderOperand(o) + ts;
    var close := [TClose] + ts;
    assert all == [TName(o.fn), TOpen] + (RenderArgs(o.args) + close);
    assert all[2..] == RenderArgs(o.args) + close;
    if o.args == [] {
      assert all[2..] == close && all[3..] == ts;
    } else {
      ArgsRoundTrip(o.args, close);
      ArgsStart(o.args, close);
    }
  }

  /** No run starts with a closing token. */
  lemma ArgsStart(args: seq<Run>, ts: seq<Token>)
    requires args != []
    ensures !At(RenderArgs(args) + ts, TClose)
  {
    OperandStart(args[0].first);
    assert RenderRun(args[0])[0] == RenderOperand(args[0].first)[0];
  }

  lemma OperandStart(o: Operand)
    ensures RenderOperand(o)[0] in {TNull, TOpen, TCase} || RenderOperand(o)[0].TName?
  {
  }

  lemma {:induction false} ArgsRoundTrip(args: seq<Run>, ts: seq<Token>)
    requires args != [] && Stops(ts) && !At(ts, TComma)
    ensures ParseArgs(RenderArgs(args) + ts) == Ok(args, ts)
    decreases args
  {
    hide RenderRun, ParseRun;
    if |args| == 1 {
      RunRoundTrip(args[0], ts);
      assert args == [args[0]];
    } else {
      var more := RenderArgs(args[1..]) + ts;
      assert RenderArgs(args) + ts == RenderRun(args[0]) + ([TComma] + more);
      RunRoundTrip(args[0], [TComma] + more);
      assert ([TComma] + more)[1..] == more;
      ArgsRoundTrip(args[1..], ts);
      assert args == [args[0]] + args[1..];
    }
  }

  lemma {:induction false} CaseRoundTrip(o: Operand, ts: seq<Token>)
    requires o.CaseTerm?
    ensures ParseOperand(RenderOperand(o) + ts) == Ok(o, ts)
    decreases o, 0
  {
    hide RenderRun, RenderBranches, ParseRun, ParseBranches;
    var all := RenderOperand(o) + ts;
    var end := [TEnd] + ts;
    if o.els.Some? {
      var tail := [TElse] + (RenderRun(o.els.value) + end);
      assert all == [TCase] + (RenderBranches(o.whens) + tail);
      assert all[1..] == RenderBranches(o.whens) + tail;
      BranchesRoundTrip(o.whens, tail);
      assert tail[1..] == RenderRun(o.els.value) + end;
      RunRoundTrip(o.els.value, end);
    } else {
      assert all == [TCase] + (RenderBranches(o.whens) + end);
      assert all[1..] == RenderBranches(o.whens) + end;
      BranchesRoundTrip(o.whens, end);
    }
  }

  lemma {:induction false} BranchesRoundTrip(bs: seq<Branch>, ts: seq<Token>)
    requires ts != [] && (ts[0].TElse? || ts[0].TEnd?)
    ensures ParseBranches(RenderBranches(bs) + ts) == Ok(bs, ts)
    decreases bs
  {
    hide *;
    if bs == [] {
      NoBranches(ts);
    } else {
      var more := RenderBranches(bs[1..]) + ts;
      BranchesText(bs, ts);
      BranchesRoundTrip(bs[1..], ts);
      BranchesStart(bs[1..], ts);
      BranchRoundTrip(bs[0], more);
      assert bs == [bs[0]] + bs[1..];
      var tail := [TThen] + (RenderRun(bs[0].result) + more);
      OneMoreBranch(RenderBranches(bs) + ts, bs[0], tail, more, bs[1..], ts);
    }
  }

  lemma NoBranches(ts: seq<Token>)
    requires ts != [] && (ts[0].TElse? || ts[0].TEnd?)
    ensures RenderBranches([]) + ts == ts && ParseBranches(ts) == Ok([], ts)
  {
  }

  lemma BranchesText(bs: seq<Branch>, ts: seq<Token>)
    requires bs != []
    ensures RenderBranches(bs) + ts == RenderBranch(bs[0]) + (RenderBranches(bs[1..]) + ts)
  {
    hide RenderBranch;
  }

  lemma BranchesStart(bs: seq<Branch>, ts: seq<Token>)
    requires ts != [] && (ts[0].TElse? || ts[0].TEnd?)
    ensures Stops(RenderBranches(bs) + ts)
  {
    hide RenderRun;
    if bs == [] {
      assert RenderBranches(bs) + ts == ts;
    } else {
      assert RenderBranch(bs[0])[0] == TWhen;
    }
  }

  lemma OneMoreBranch(
    all: seq<Token>, b: Branch, tail: seq<Token>, more: seq<Token>, rest: seq<Branch>, ts: seq<Token>)
    requires At(all, TWhen) && ParseRun(all[1..]) == Ok(b.cond, tail)
    requires tail != [] && tail[0] == TThen && ParseRun(tail[1..]) == Ok(b.result, more)
    requires ParseBranches(more) == Ok(rest, ts)
    ensures ParseBranches(all) == Ok([b] + rest, ts)
  {
    hide ParseRun;
  }

  lemma {:induction false} BranchRoundTrip(b: Branch, ts: seq<Token>)
    requires Stops(ts)
    ensures
      var all := RenderBranch(b) + ts;
      && At(all, TWhen)
      && var tail := [TThen] + (RenderRun(b.result) + ts);
      && ParseRun(all[1..]) == Ok(b.cond, tail)
      && ParseRun(tail[1..]) == Ok(b.result, ts)
    decreases b, 2
  {
    var tail := [TThen] + (RenderRun(b.result) + ts);
    assert RenderBranch(b) + ts == [TWhen] + (RenderRun(b.cond) + tail);
    assert (RenderBranch(b) + ts)[1..] == RenderRun(b.cond) + tail;
    RunRoundTrip(b.cond, tail);
    assert tail[1..] == RenderRun(b.result) + ts;
    RunRoundTrip(b.result, ts);
  }

  /* ---------- and nothing but its text has that structure ---------- */

  lemma {:induction false} RunIsText(ts: seq<Token>)
    requires ParseRun(ts).Ok?
    ensures RenderRun(ParseRun(ts).value) + ParseRun(ts).rest == ts
    decreases |ts|, 1
  {
    hide ParseOperand, RenderOperand;
    OperandIsText(ts);
    var x := ParseOperand(ts);
    var ts1 := x.rest;
    if ts1 != [] && ts1[0].TOp? {
      var c := ParseRun(ts1[1..]);
      RunIsText(ts1[1..]);
      RenderMoreLinks(ts1[0].op, c.value);
      assert [ts1[0]] + ts1[1..] == ts1;
    } else {
      assert RenderRun(Chain(x.value, [])) == RenderOperand(x.value);
    }
  }

  lemma RenderMoreLinks(op: Op, c: Run)
    ensures RenderLinks([Link(op, c.first)] + c.rest) == [TOp(op)] + RenderRun(c)
  {
    hide RenderOperand;
    var links := [Link(op, c.first)] + c.rest;
    assert links[0] == Link(op, c.first) && links[1..] == c.rest;
  }

  lemma {:induction false} OperandIsText(ts: seq<Token>)
    requires ParseOperand(ts).Ok?
    ensures RenderOperand(ParseOperand(ts).value) + ParseOperand(ts).rest == ts
    decreases |ts|, 0
  {
    match ts[0]
    case TName(_) =>
      if At(ts[1..], TOpen) {
        CallIsText(ts);
      }
    case TOpen => ParenIsText(ts);
    case TCase => CaseIsText(ts);
    case _ =>
  }

  lemma {:induction false} CallIsText(ts: seq<Token>)
    requires ParseOperand(ts).Ok? && ts[0].TName? && At(ts[1..], TOpen)
    ensures RenderOperand(ParseOperand(ts).value) + ParseOperand(ts).rest == ts
    decreases |ts|, 0, 0
  {
    hide ParseArgs, RenderArgs;
    assert ts == [ts[0], TOpen] + ts[2..];
    if At(ts[2..], TClose) {
      NoArgs();
      assert ts == [ts[0], TOpen, TClose] + ts[3..];
    } else {
      ArgsAreText(ts[2..]);
      var args := ParseArgs(ts[2..]);
      assert args.rest == [TClose] + args.rest[1..];
    }
  }

  lemma NoArgs()
    ensures RenderArgs([]) == []
  {
  }

  lemma {:induction false} ParenIsText(ts: seq<Token>)
    requires ParseOperand(ts).Ok? && ts[0] == TOpen
    ensures RenderOperand(ParseOperand(ts).value) + ParseOperand(ts).rest == ts
    decreases |ts|, 0, 0
  {
    hide ParseRun, RenderRun;
    RunIsText(ts[1..]);
    var c := ParseRun(ts[1..]);
    assert ts == [TOpen] + ts[1..] && c.rest == [TClose] + c.rest[1..];
  }

  lemma {:induction false} CaseIsText(ts: seq<Token>)
    requires ParseOperand(ts).Ok? && ts[0] == TCase
    ensures RenderOperand(ParseOperand(ts).value) + ParseOperand(ts).rest == ts
    decreases |ts|, 0, 0
  {
    hide ParseRun, RenderRun, ParseBranches, RenderBranches;
    var whens := ParseBranches(ts[1..]);
    BranchesAreText(ts[1..]);
    if At(whens.rest, TElse) {
      var e := ParseRun(whens.rest[1..]);
      assert ParseOperand(ts) == Ok(CaseTerm(whens.value, Some(e.value)), e.rest[1..]) && e.rest[0] == TEnd;
      hide ParseOperand, RenderOperand;
      RunIsText(whens.rest[1..]);
      CaseElseText(ts, whens.value, whens.rest, e.value, e.rest);
    } else {
      assert ParseOperand(ts) == Ok(CaseTerm(whens.value, None), whens.rest[1..]) && whens.rest[0] == TEnd;
      assert ts == [TCase] + ts[1..] && whens.rest == [TEnd] + whens.rest[1..];
    }
  }

  lemma CaseElseText(ts: seq<Token>, whens: seq<Branch>, ts1: seq<Token>, e: Run, ts2: seq<Token>)
    requires ts != [] && ts[0] == TCase && RenderBranches(whens) + ts1 == ts[1..]
    requires ts1 != [] && ts1[0] == TElse && RenderRun(e) + ts2 == ts1[1..] && ts2 != [] && ts2[0] == TEnd
    ensures RenderOperand(CaseTerm(whens, Some(e))) + ts2[1..] == ts
  {
    hide RenderBranches, RenderRun;
    assert ts == [TCase] + ts[1..] && ts1 == [TElse] + ts1[1..] && ts2 == [TEnd] + ts2[1..];
  }

  lemma {:induction false} ArgsAreText(ts: seq<Token>)
    requires ParseArgs(ts).Ok?
    ensures RenderArgs(ParseArgs(ts).value) + ParseArgs(ts).rest == ts
    decreases |ts|, 2
  {
    hide ParseRun, RenderRun;
    RunIsText(ts);
    var c := ParseRun(ts);
    if At(c.rest, TComma) {
      ArgsAreText(c.rest[1..]);
      var cs := ParseArgs(c.rest[1..]);
      assert c.rest == [TComma] + c.rest[1..];
      assert ([c.value] + cs.value)[1..] == cs.value;
    }
  }

  lemma {:induction false} BranchesAreText(ts: seq<Token>)
    requires ParseBranches(ts).Ok?
    ensures RenderBranches(ParseBranches(ts).value) + ParseBranches(ts).rest == ts
    decreases |ts|, 2
  {
    hide ParseRun, RenderRun;
    if At(ts, TWhen) {
      var cond := ParseRun(ts[1..]);
      var result := ParseRun(cond.rest[1..]);
      var bs := ParseBranches(result.rest);
      hide ParseBranches, RenderBranches;
      RunIsText(ts[1..]);
      RunIsText(cond.rest[1..]);
      BranchesAreText(result.rest);
      BranchIsText(ts, cond.value, cond.rest, result.value, result.rest);
      MoreBranches(Branch(cond.value, result.value), bs.value);
      assert ParseBranches(ts) == Ok([Branch(cond.value, result.value)] + bs.value, bs.rest);
    }
  }

  lemma BranchIsText(ts: seq<Token>, cond: Run, ts1: seq<Token>, result: Run, ts2: seq<Token>)
    requires ts != [] && ts[0] == TWhen && RenderRun(cond) + ts1 == ts[1..]
    requires ts1 != [] && ts1[0] == TThen && RenderRun(result) + ts2 == ts1[1..]
    ensures RenderBranch(Branch(cond, result)) + ts2 == ts
  {
    hide RenderRun;
    assert ts == [TWhen] + ts[1..] && ts1 == [TThen] + ts1[1..];
  }

  lemma MoreBranches(b: Branch, bs: seq<Branch>)
    ensures RenderBranches([b] + bs) == RenderBranch(b) + RenderBranches(bs)
  {
    hide RenderBranch;
  }

  /** A text has the structure of a run exactly when it is the run's text. */
  lemma TextIsStructure(ts: seq<Token>, c: Run)
    ensures ParseRun(ts) == Ok(c, []) <==> ts == RenderRun(c)
  {
    hide ParseRun, RenderRun;
    RunRoundTrip(c, []);
    assert RenderRun(c) + [] == RenderRun(c);
    if ParseRun(ts) == Ok(c, []) {
      RunIsText(ts);
    }
  }
}
