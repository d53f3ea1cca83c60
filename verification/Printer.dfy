/** The formatter: precedence contexts decide where parentheses go. */
module Printer {
  import opened Expressions
  import opened Chains
  import opened Engine
  import opened Syntax

  /** Contexts, in half steps: the formatter's default of 100 and the precedence of FROM, 32. */
  const MAX_CONTEXT := 200
  const FROM_CONTEXT := 64

  /** Whether an infix text stands without parentheses in a context. */
  predicate Bare(g: Grammar, op: Op, context: int) {
    context > g.prec(op) || (context == g.prec(op) && !g.ordered(op))
  }

  /** The context given to operand `i` of `n`; a test for NULL has one, and its own precedence for a context. */
  function OperandContext(g: Grammar, op: Op, n: nat, i: nat): int {
    if g.ordered(op) && n == 2 then (if i == 0 then g.prec(op) + 1 else g.prec(op) - 1) else g.prec(op)
  }

  function Print(g: Grammar, e: Expr, context: int): seq<Token>
    requires WellFormed(e)
    decreases e, 0
  {
    match e
    case Null => [TNull]
    case Name(id) => [TName(id)]
    case Call(fn, args) => [TName(fn), TOpen] + PrintArgs(g, args) + [TClose]
    case Case(whens, els) =>
      [TCase] + PrintWhens(g, whens)
        + (if els.Some? then [TElse] + Print(g, els.value, MAX_CONTEXT) else []) + [TEnd]
    case Infix(op, operands) =>
      var joined := PrintJoined(g, op, operands, |operands|);
      if Bare(g, op, context) then joined else [TOpen] + joined + [TClose]
    case Missing(arg) => PrintTest(Is, Print(g, arg, OperandContext(g, Is, 1, 0)))
    case Exists(arg) => PrintTest(IsNot, Print(g, arg, OperandContext(g, IsNot, 1, 0)))
  }

  /** A test for NULL never has parentheses around it. */
  function PrintTest(op: Op, text: seq<Token>): seq<Token> {
    text + [TOp(op), TNull]
  }

  function PrintJoined(g: Grammar, op: Op, es: seq<Expr>, n: nat): seq<Token>
    requires es != [] && forall e <- es :: WellFormed(e)
    decreases es
  {
    var k := |es| - 1;
    if k == 0 then Print(g, es[0], OperandContext(g, op, n, 0))
    else PrintJoined(g, op, es[..k], n) + [TOp(op)] + Print(g, es[k], OperandContext(g, op, n, k))
  }

  function PrintArgs(g: Grammar, args: seq<Expr>): seq<Token>
    requires forall e <- args :: WellFormed(e)
    decreases args
  {
    if args == [] then []
    else if |args| == 1 then Print(g, args[0], FROM_CONTEXT)
    else Print(g, args[0], FROM_CONTEXT) + [TComma] + PrintArgs(g, args[1..])
  }

  function PrintWhens(g: Grammar, ws: seq<When>): seq<Token>
    requires forall w <- ws :: WellFormed(w.cond) && WellFormed(w.result)
    decreases ws
  {
    if ws == [] then [] else PrintWhen(g, ws[0]) + PrintWhens(g, ws[1..])
  }

  function PrintWhen(g: Grammar, w: When): seq<Token>
    requires WellFormed(w.cond) && WellFormed(w.result)
    decreases w, 0
  {
    [TWhen] + Print(g, w.cond, MAX_CONTEXT) + [TThen] + Print(g, w.result, MAX_CONTEXT)
  }

  /* ---------- the bracket structure of the printed text ---------- */

  function Lay(g: Grammar, e: Expr, context: int): Run
    requires WellFormed(e)
    decreases e, 0
  {
    match e
    case Null => Chain(NullTerm, [])
    case Name(id) => Chain(NameTerm(id), [])
    case Call(fn, args) => Chain(CallTerm(fn, LayArgs(g, args)), [])
    case Case(whens, els) =>
      Chain(CaseTerm(LayWhens(g, whens), if els.Some? then Some(Lay(g, els.value, MAX_CONTEXT)) else None), [])
    case Infix(op, operands) =>
      var joined := LayJoined(g, op, operands, |operands|);
      if Bare(g, op, context) then joined else Chain(Paren(joined), [])
    case Missing(arg) => Glue(Lay(g, arg, OperandContext(g, Is, 1, 0)), Is, NULL_TERM)
    case Exists(arg) => Glue(Lay(g, arg, OperandContext(g, IsNot, 1, 0)), IsNot, NULL_TERM)
  }

  const NULL_TERM: Run := Chain(NullTerm, [])

  function LayJoined(g: Grammar, op: Op, es: seq<Expr>, n: nat): Run
    requires es != [] && forall e <- es :: WellFormed(e)
    decreases es
  {
    var k := |es| - 1;
    if k == 0 then Lay(g, es[0], OperandContext(g, op, n, 0))
    else Glue(LayJoined(g, op, es[..k], n), op, Lay(g, es[k], OperandContext(g, op, n, k)))
  }

  function LayArgs(g: Grammar, args: seq<Expr>): (r: seq<Run>)
    requires forall e <- args :: WellFormed(e)
    ensures |r| == |args|
    decreases args
  {
    if args == [] then [] else [Lay(g, args[0], FROM_CONTEXT)] + LayArgs(g, args[1..])
  }

  function LayWhens(g: Grammar, ws: seq<When>): (r: seq<Branch>)
    requires forall w <- ws :: WellFormed(w.cond) && WellFormed(w.result)
    ensures |r| == |ws|
    decreases ws
  {
    if ws == [] then [] else [LayWhen(g, ws[0])] + LayWhens(g, ws[1..])
  }

  function LayWhen(g: Grammar, w: When): Branch
    requires WellFormed(w.cond) && WellFormed(w.result)
    decreases w, 0
  {
    Branch(Lay(g, w.cond, MAX_CONTEXT), Lay(g, w.result, MAX_CONTEXT))
  }

  function Word(op: Op): Token {
    TOp(op)
  }

  lemma {:induction false} LinksAreText(links: seq<Link<Op, Operand>>)
    ensures RenderLinks(links) == LinksText(links, Word, RenderOperand)
  {
    hide RenderOperand;
    if links != [] {
      LinksAreText(links[1..]);
    }
  }

  lemma RenderGlue(a: Run, op: Op, b: Run)
    ensures RenderRun(Glue(a, op, b)) == RenderRun(a) + [TOp(op)] + RenderRun(b)
  {
    hide RenderOperand, RenderLinks, Glue;
    LinksAreText(a.rest);
    LinksAreText(b.rest);
    LinksAreText(Glue(a, op, b).rest);
    TextGlue(a, op, b, Word, RenderOperand);
  }

  lemma {:induction false} PrintIsRender(g: Grammar, e: Expr, context: int)
    requires WellFormed(e)
    ensures Print(g, e, context) == RenderRun(Lay(g, e, context))
    decreases e, 1
  {
    match e
    case Null => assert RenderLinks([]) == [];
    case Name(_) => assert RenderLinks([]) == [];
    case Call(_, args) =>
      PrintArgsIsRender(g, args);
      assert RenderLinks([]) == [];
    case Case(whens, els) =>
      PrintWhensIsRender(g, whens);
      if els.Some? {
        PrintIsRender(g, els.value, MAX_CONTEXT);
      }
      assert RenderLinks([]) == [];
    case Infix(op, operands) =>
      PrintJoinedIsRender(g, op, operands, |operands|);
      assert RenderLinks([]) == [];
    case Missing(arg) =>
      PrintIsRender(g, arg, OperandContext(g, Is, 1, 0));
      RenderTest(Is, Lay(g, arg, OperandContext(g, Is, 1, 0)));
    case Exists(arg) =>
      PrintIsRender(g, arg, OperandContext(g, IsNot, 1, 0));
      RenderTest(IsNot, Lay(g, arg, OperandContext(g, IsNot, 1, 0)));
  }

  lemma RenderTest(op: Op, c: Run)
    ensures RenderRun(Glue(c, op, NULL_TERM)) == PrintTest(op, RenderRun(c))
  {
    RenderGlue(c, op, NULL_TERM);
    assert RenderLinks([]) == [];
  }

  lemma {:induction false} PrintJoinedIsRender(g: Grammar, op: Op, es: seq<Expr>, n: nat)
    requires es != [] && forall e <- es :: WellFormed(e)
    ensures PrintJoined(g, op, es, n) == RenderRun(LayJoined(g, op, es, n))
    decreases es
  {
    var k := |es| - 1;
    PrintIsRender(g, es[k], OperandContext(g, op, n, k));
    if k > 0 {
      PrintJoinedIsRender(g, op, es[..k], n);
      RenderGlue(LayJoined(g, op, es[..k], n), op, Lay(g, es[k], OperandContext(g, op, n, k)));
    }
  }

  lemma {:induction false} PrintArgsIsRender(g: Grammar, args: seq<Expr>)
    requires forall e <- args :: WellFormed(e)
    ensures PrintArgs(g, args) == RenderArgs(LayArgs(g, args))
    decreases args
  {
    if args != [] {
      PrintIsRender(g, args[0], FROM_CONTEXT);
      PrintArgsIsRender(g, args[1..]);
    }
  }

  lemma {:induction false} PrintWhensIsRender(g: Grammar, ws: seq<When>)
    requires forall w <- ws :: WellFormed(w.cond) && WellFormed(w.result)
    ensures PrintWhens(g, ws) == RenderBranches(LayWhens(g, ws))
    decreases ws
  {
    if ws != [] {
      PrintWhenIsRender(g, ws[0]);
      PrintWhensIsRender(g, ws[1..]);
    }
  }

  lemma {:induction false} PrintWhenIsRender(g: Grammar, w: When)
    requires WellFormed(w.cond) && WellFormed(w.result)
    ensures PrintWhen(g, w) == RenderBranch(LayWhen(g, w))
    decreases w, 1
  {
    PrintIsRender(g, w.cond, MAX_CONTEXT);
    PrintIsRender(g, w.result, MAX_CONTEXT);
  }
}
