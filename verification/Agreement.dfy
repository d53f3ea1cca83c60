/**
  When a precedence table and a level list agree: exactly the tables for which every tree survives
  printing and parsing, and the simple shape of table that is enough.
 */
module Agreement {
  import opened Expressions
  import opened Syntax
  import opened Printer
  import opened RoundTrip
  import opened Uniqueness

  /**
    Which trees are considered: with tests for NULL or without, and with ordered operators of more than
    two operands or with binary ones only, as the parser builds them.
   */
  datatype Scope = Scope(tests: bool, long: bool)

  predicate InScope(g: Grammar, s: Scope, e: Expr) {
    match e
    case Call(_, args) => forall a <- args :: InScope(g, s, a)
    case Case(whens, els) =>
      && (forall w <- whens :: InScope(g, s, w.cond) && InScope(g, s, w.result))
      && (els.Some? ==> InScope(g, s, els.value))
    case Infix(op, operands) =>
      && (forall a <- operands :: InScope(g, s, a))
      && (g.ordered(op) && !s.long ==> |operands| == 2)
    case Missing(arg) => s.tests && InScope(g, s, arg)
    case Exists(arg) => s.tests && InScope(g, s, arg)
    case _ => true
  }

  /* ---------- the condition on the tables ---------- */

  predicate Allowed(s: Scope, op: Op) {
    OfTrees(op) || s.tests
  }

  /** How many operands a node of `op` can have. */
  predicate Arity(g: Grammar, s: Scope, op: Op, n: nat) {
    if !OfTrees(op) then n == 1 else n == 2 || (n > 2 && (s.long || !g.ordered(op)))
  }

  /** `inner` is printed without parentheses as operand `i` of `n` of `outer`; a test for NULL always is. */
  predicate BareUnder(g: Grammar, outer: Op, n: nat, i: nat, inner: Op) {
    !OfTrees(inner) || Bare(g, inner, OperandContext(g, outer, n, i))
  }

  predicate PairAgrees(g: Grammar, op: Op, n: nat, c: Op) {
    && (BareUnder(g, op, n, 0, c) ==> g.level(c) <= g.level(op))
    && (n > 1 && BareUnder(g, op, n, 1, c) ==> g.level(c) < g.level(op) || (c == op && g.assoc(op)))
    && (n > 1 && !g.ordered(op) && BareUnder(g, op, n, 0, c) ==> g.level(c) < g.level(op) || c == op)
  }

  /** The pairwise condition on the two tables; three operands are like any larger number. */
  ghost predicate Agrees(g: Grammar, s: Scope) {
    forall op, n, c | Allowed(s, op) && Allowed(s, c) && n <= 3 && Arity(g, s, op, n) :: PairAgrees(g, op, n, c)
  }

  /** Three operands stand for any larger number, and the second for any later one. */
  function Few(n: nat): nat {
    if n > 3 then 3 else n
  }

  lemma SameContext(g: Grammar, op: Op, n: nat, i: nat)
    ensures OperandContext(g, op, n, i) == OperandContext(g, op, Few(n), if i == 0 then 0 else 1)
    ensures !g.ordered(op) ==> OperandContext(g, op, n, i) == OperandContext(g, op, Few(n), 0)
  {
  }

  lemma FewAgree(g: Grammar, s: Scope, op: Op, n: nat, c: Op)
    requires Agrees(g, s) && Allowed(s, op) && Allowed(s, c) && Arity(g, s, op, n)
    ensures PairAgrees(g, op, Few(n), c)
  {
    hide PairAgrees, Allowed, OfTrees;
    assert Arity(g, s, op, Few(n));
  }

  /** Only an unordered operator stands bare as a later operand of itself. */
  lemma BareUnderItself(g: Grammar, op: Op, n: nat, i: nat)
    requires OfTrees(op) && i > 0
    ensures BareUnder(g, op, n, i, op) <==> !g.ordered(op)
  {
  }

  lemma OneOperand(g: Grammar, s: Scope, op: Op, n: nat)
    requires Arity(g, s, op, n)
    ensures n > 0 && (n > 1 <==> OfTrees(op))
  {
  }

  lemma OperandAgrees(g: Grammar, s: Scope, op: Op, n: nat, i: nat, c: Op)
    requires Agrees(g, s) && Allowed(s, op) && Allowed(s, c) && Arity(g, s, op, n) && i < n
    requires BareUnder(g, op, n, i, c)
    ensures if i == 0 then g.level(c) <= g.level(op) else g.level(c) < g.level(op) || (c == op && g.assoc(op))
    ensures OfTrees(op) && !g.ordered(op) ==> g.level(c) < g.level(op) || c == op
    ensures i > 0 && c == op ==> !g.ordered(op)
  {
    hide Bare, OperandContext, OfTrees, Arity, Agrees, Allowed;
    SameContext(g, op, n, i);
    FewAgree(g, s, op, n, c);
    OneOperand(g, s, op, n);
    if i > 0 {
      BareUnderItself(g, op, n, i);
    }
  }

  /* ---------- the condition is enough ---------- */

  /** What a tree exposes: nothing looser than its root, and under an unordered root nothing else on its level. */
  ghost predicate Bounded(g: Grammar, op: Op, ops: set<Op>) {
    && (forall o <- ops :: g.level(o) <= g.level(op))
    && (OfTrees(op) && !g.ordered(op) ==> forall o <- ops :: g.level(o) < g.level(op) || o == op)
  }

  lemma {:induction false} ExposedIsBounded(g: Grammar, s: Scope, e: Expr, context: int)
    requires Agrees(g, s) && WellFormed(e) && InScope(g, s, e) && RootOp(e).Some?
    ensures Bounded(g, RootOp(e).value, Exposed(g, e, context))
    decreases e, 1
  {
    hide Agrees, OperandContext, Bare;
    match e
    case Infix(op, operands) => ExposedJoinedIsBounded(g, s, op, operands, |operands|);
    case Missing(arg) => OperandIsBounded(g, s, Is, arg, 1, 0);
    case Exists(arg) => OperandIsBounded(g, s, IsNot, arg, 1, 0);
  }

  lemma {:induction false} ExposedJoinedIsBounded(g: Grammar, s: Scope, op: Op, es: seq<Expr>, n: nat)
    requires Agrees(g, s) && OfTrees(op) && Arity(g, s, op, n)
    requires 0 < |es| <= n && forall e <- es :: WellFormed(e) && InScope(g, s, e)
    ensures Bounded(g, op, ExposedJoined(g, op, es, n))
    decreases es
  {
    hide Agrees, OperandContext, WellFormed, InScope, Exposed, Fits;
    var k := |es| - 1;
    OperandIsBounded(g, s, op, es[k], n, k);
    if k > 0 {
      ExposedJoinedIsBounded(g, s, op, es[..k], n);
    }
  }

  lemma RootAllowed(g: Grammar, s: Scope, e: Expr)
    requires WellFormed(e) && InScope(g, s, e) && RootOp(e).Some?
    ensures Allowed(s, RootOp(e).value)
  {
  }

  lemma InParentheses(g: Grammar, e: Expr, context: int)
    requires var root := RootOp(e); root.Some? ==> OfTrees(root.value) && !Bare(g, root.value, context)
    ensures Exposed(g, e, context) == {}
  {
    hide Bare, OperandContext, ExposedJoined;
  }

  lemma NothingExposed(g: Grammar, op: Op, e: Expr, n: nat, i: nat)
    requires var root := RootOp(e); root.Some? ==> !BareUnder(g, op, n, i, root.value)
    ensures Bounded(g, op, Exposed(g, e, OperandContext(g, op, n, i))) && Fits(g, op, n, i, e)
  {
    hide Bare, OperandContext, OfTrees, RootOp, Exposed;
    InParentheses(g, e, OperandContext(g, op, n, i));
  }

  /** What is bounded by an operand's root is bounded by the operator above it. */
  lemma BoundedBelow(g: Grammar, op: Op, e: Expr, n: nat, i: nat, root: Op)
    requires Bounded(g, root, Exposed(g, e, OperandContext(g, op, n, i)))
    requires if i == 0 then g.level(root) <= g.level(op)
      else g.level(root) < g.level(op) || (root == op && g.assoc(op) && OfTrees(op) && !g.ordered(op))
    requires OfTrees(op) && !g.ordered(op) ==> g.level(root) < g.level(op) || root == op
    ensures Bounded(g, op, Exposed(g, e, OperandContext(g, op, n, i))) && Fits(g, op, n, i, e)
  {
    hide OfTrees, Exposed, OperandContext;
  }

  lemma {:induction false} OperandIsBounded(g: Grammar, s: Scope, op: Op, e: Expr, n: nat, i: nat)
    requires Agrees(g, s) && Allowed(s, op) && Arity(g, s, op, n) && i < n
    requires WellFormed(e) && InScope(g, s, e)
    ensures Bounded(g, op, Exposed(g, e, OperandContext(g, op, n, i)))
    ensures Fits(g, op, n, i, e)
    decreases e, 2
  {
    hide *;
    var root := RootOp(e);
    if root.Some? && BareUnder(g, op, n, i, root.value) {
      OneOperand(g, s, op, n);
      RootAllowed(g, s, e);
      OperandAgrees(g, s, op, n, i, root.value);
      ExposedIsBounded(g, s, e, OperandContext(g, op, n, i));
      BoundedBelow(g, op, e, n, i, root.value);
    } else {
      NothingExposed(g, op, e, n, i);
    }
  }

  lemma {:induction false} AgreeingTablesAreSafe(g: Grammar, s: Scope, e: Expr)
    requires Agrees(g, s) && WellFormed(e) && InScope(g, s, e)
    ensures Safe(g, e)
  {
    hide Agrees, Fits;
    match e
    case Call(_, args) =>
      forall a | a in args ensures Safe(g, a) {
        AgreeingTablesAreSafe(g, s, a);
      }
    case Case(whens, els) =>
      forall w | w in whens ensures Safe(g, w.cond) && Safe(g, w.result) {
        AgreeingTablesAreSafe(g, s, w.cond);
        AgreeingTablesAreSafe(g, s, w.result);
      }
      if els.Some? {
        AgreeingTablesAreSafe(g, s, els.value);
      }
    case Infix(op, operands) =>
      forall i | 0 <= i < |operands| ensures Safe(g, operands[i]) && Fits(g, op, |operands|, i, operands[i]) {
        AgreeingTablesAreSafe(g, s, operands[i]);
        OperandIsBounded(g, s, op, operands[i], |operands|, i);
      }
    case Missing(arg) =>
      AgreeingTablesAreSafe(g, s, arg);
      OperandIsBounded(g, s, Is, arg, 1, 0);
    case Exists(arg) =>
      AgreeingTablesAreSafe(g, s, arg);
      OperandIsBounded(g, s, IsNot, arg, 1, 0);
    case _ =>
  }

  /* ---------- and it is necessary ---------- */

  /** Every tree is read back as its flattening, but for those that compare NULL by `=` or `<>`, of which none is. */
  ghost predicate EveryTreeSurvives(g: Grammar, s: Scope) {
    forall e: Expr, context: int | WellFormed(e) && InScope(g, s, e) ::
      Parse(g, Print(g, e, context)) == Some(Norm(g, e)) <==> NullSafe(e)
  }

  const X := Name("x")

  /** A node of `op` with `e` as operand `i` of `n`, a name for the others. */
  function With(op: Op, n: nat, i: nat, e: Expr): Expr {
    if !OfTrees(op) then Tested(op, e)
    else Infix(op, seq(n, k => if k == i then e else X))
  }

  ghost predicate Fine(g: Grammar, s: Scope, e: Expr) {
    WellFormed(e) && InScope(g, s, e) && NullSafe(e) && e != Null && !LooksLikeQuery(e)
  }

  lemma NameIsFine(g: Grammar, s: Scope)
    ensures Fine(g, s, X)
  {
    assert X.id[1..] == "";
  }

  lemma NodeIsFine(g: Grammar, s: Scope, op: Op, es: seq<Expr>)
    requires OfTrees(op) && Arity(g, s, op, |es|) && forall e <- es :: Fine(g, s, e)
    ensures Fine(g, s, Infix(op, es))
  {
  }

  lemma TestIsFine(g: Grammar, s: Scope, op: Op, e: Expr)
    requires s.tests && Fine(g, s, e)
    ensures Fine(g, s, Tested(op, e))
  {
  }

  lemma WithIsFine(g: Grammar, s: Scope, op: Op, n: nat, i: nat, e: Expr)
    requires Allowed(s, op) && Arity(g, s, op, n) && i < n && Fine(g, s, e)
    ensures Fine(g, s, With(op, n, i, e))
  {
    hide Arity, Fine, OfTrees;
    if OfTrees(op) {
      NameIsFine(g, s);
      NodeIsFine(g, s, op, With(op, n, i, e).operands);
    } else {
      TestIsFine(g, s, op, e);
    }
  }

  /** What stands bare as an operand is exposed by the node. */
  lemma {:induction false} ExposesOperand(g: Grammar, op: Op, es: seq<Expr>, n: nat, i: nat)
    requires i < |es|
    ensures Exposed(g, es[i], OperandContext(g, op, n, i)) <= ExposedJoined(g, op, es, n)
    ensures |es| > 1 ==> op in ExposedJoined(g, op, es, n)
    decreases |es|
  {
    hide OperandContext, Exposed;
    var k := |es| - 1;
    if i < k {
      ExposesOperand(g, op, es[..k], n, i);
    }
  }

  /** A node exposes its own operator and what its operand does, if it stands bare. */
  lemma WithExposes(g: Grammar, s: Scope, op: Op, n: nat, i: nat, e: Expr, context: int)
    requires Arity(g, s, op, n) && i < n && (OfTrees(op) ==> Bare(g, op, context))
    ensures op in Exposed(g, With(op, n, i, e), context)
    ensures Exposed(g, e, OperandContext(g, op, n, i)) <= Exposed(g, With(op, n, i, e), context)
  {
    hide OperandContext, Bare;
    if OfTrees(op) {
      ExposesOperand(g, op, With(op, n, i, e).operands, n, i);
    }
  }

  lemma OperandFits(g: Grammar, s: Scope, op: Op, n: nat, i: nat, e: Expr)
    requires g.Valid() && EveryTreeSurvives(g, s) && Allowed(s, op) && Arity(g, s, op, n) && i < n
    requires Fine(g, s, e)
    ensures Fits(g, op, n, i, e)
  {
    hide Fits, Parse, Print, Norm, WellFormed, InScope;
    var t := With(op, n, i, e);
    WithIsFine(g, s, op, n, i, e);
    assert Parse(g, Print(g, t, 0)) == Some(Norm(g, t));
    PrintThenParse(g, t, 0);
    if OfTrees(op) {
      assert t.operands[i] == e;
    }
  }

  function Inner(c: Op): Expr {
    With(c, if OfTrees(c) then 2 else 1, 0, X)
  }

  lemma InnerIsFine(g: Grammar, s: Scope, c: Op)
    requires Allowed(s, c)
    ensures Fine(g, s, Inner(c))
  {
    hide Fine, With, Allowed, OfTrees;
    var m := if OfTrees(c) then 2 else 1;
    NameIsFine(g, s);
    WithIsFine(g, s, c, m, 0, X);
  }

  lemma InnerExposes(g: Grammar, op: Op, n: nat, i: nat, c: Op)
    requires BareUnder(g, op, n, i, c)
    ensures c in Exposed(g, Inner(c), OperandContext(g, op, n, i))
  {
    hide Exposed, OperandContext, Bare, With, OfTrees;
    WithExposes(g, Scope(true, true), c, if OfTrees(c) then 2 else 1, 0, X, OperandContext(g, op, n, i));
  }

  /** Each part of the condition, if violated, gives a tree that does not survive. */
  lemma FirstTriple(g: Grammar, s: Scope, op: Op, n: nat, c: Op)
    requires g.Valid() && EveryTreeSurvives(g, s)
    requires Allowed(s, op) && Allowed(s, c) && Arity(g, s, op, n) && BareUnder(g, op, n, 0, c)
    ensures g.level(c) <= g.level(op)
  {
    hide EveryTreeSurvives, Exposed, OperandContext, Inner, Fine, OfTrees, BareUnder;
    InnerIsFine(g, s, c);
    OperandFits(g, s, op, n, 0, Inner(c));
    InnerExposes(g, op, n, 0, c);
  }

  lemma LaterTriple(g: Grammar, s: Scope, op: Op, n: nat, c: Op)
    requires g.Valid() && EveryTreeSurvives(g, s)
    requires Allowed(s, op) && Allowed(s, c) && Arity(g, s, op, n) && n > 1 && BareUnder(g, op, n, 1, c)
    ensures g.level(c) < g.level(op) || (c == op && g.assoc(op))
  {
    hide EveryTreeSurvives, Exposed, OperandContext, Inner, Fine, OfTrees, BareUnder;
    InnerIsFine(g, s, c);
    OperandFits(g, s, op, n, 1, Inner(c));
    InnerExposes(g, op, n, 1, c);
  }

  lemma NestedTriple(g: Grammar, s: Scope, op: Op, n: nat, c: Op)
    requires g.Valid() && EveryTreeSurvives(g, s)
    requires Allowed(s, op) && Allowed(s, c) && Arity(g, s, op, n) && n > 1
    requires !g.ordered(op) && BareUnder(g, op, n, 0, c)
    ensures g.level(c) < g.level(op) || c == op
  {
    hide EveryTreeSurvives, Exposed, OperandContext, Inner, Fine, OfTrees, Bare, With, Arity;
    InnerIsFine(g, s, c);
    WithIsFine(g, s, op, n, 0, Inner(c));
    OperandFits(g, s, op, n, 1, With(op, n, 0, Inner(c)));
    InnerExposes(g, op, n, 0, c);
    OneOperand(g, s, op, n);
    BareUnderItself(g, op, n, 1);
    WithExposes(g, s, op, n, 0, Inner(c), OperandContext(g, op, n, 1));
  }

  lemma TripleAgrees(g: Grammar, s: Scope, op: Op, n: nat, c: Op)
    requires g.Valid() && EveryTreeSurvives(g, s)
    requires Allowed(s, op) && Allowed(s, c) && Arity(g, s, op, n)
    ensures BareUnder(g, op, n, 0, c) ==> g.level(c) <= g.level(op)
    ensures n > 1 && BareUnder(g, op, n, 1, c) ==> g.level(c) < g.level(op) || (c == op && g.assoc(op))
    ensures n > 1 && !g.ordered(op) && BareUnder(g, op, n, 0, c) ==> g.level(c) < g.level(op) || c == op
  {
    hide *;
    if BareUnder(g, op, n, 0, c) {
      FirstTriple(g, s, op, n, c);
      if n > 1 && !g.ordered(op) {
        NestedTriple(g, s, op, n, c);
      }
    }
    if n > 1 && BareUnder(g, op, n, 1, c) {
      LaterTriple(g, s, op, n, c);
    }
  }

  /** The tables agree exactly when every tree survives, in every context. */
  lemma AgreementIsSurvival(g: Grammar, s: Scope)
    requires g.Valid()
    ensures Agrees(g, s) <==> EveryTreeSurvives(g, s)
  {
    hide BareUnder, Parse, Print, Norm, WellFormed, InScope, Safe, NullSafe, OfTrees;
    if Agrees(g, s) {
      forall e: Expr, context: int | WellFormed(e) && InScope(g, s, e)
        ensures Parse(g, Print(g, e, context)) == Some(Norm(g, e)) <==> NullSafe(e)
      {
        AgreeingTablesAreSafe(g, s, e);
        PrintThenParse(g, e, context);
      }
    }
    if EveryTreeSurvives(g, s) {
      forall op, n, c | Allowed(s, op) && Allowed(s, c) && n <= 3 && Arity(g, s, op, n)
        ensures PairAgrees(g, op, n, c)
      {
        TripleAgrees(g, s, op, n, c);
      }
    }
  }

  /* ---------- tests for NULL ---------- */

  /** Both tests are on one level, tighter than all others, and leave no operator without parentheses. */
  ghost predicate TestsBindTightest(g: Grammar) {
    && g.level(Is) == g.level(IsNot)
    && forall op | OfTrees(op) ::
         && g.level(Is) < g.level(op)
         && !Bare(g, op, OperandContext(g, Is, 1, 0)) && !Bare(g, op, OperandContext(g, IsNot, 1, 0))
  }

  /** Since they are never parenthesised, tests for NULL ask for just that. */
  lemma TestsAgree(g: Grammar, long: bool)
    ensures Agrees(g, Scope(true, long)) <==> Agrees(g, Scope(false, long)) && TestsBindTightest(g)
  {
    hide Bare, OperandContext;
    var with_, without := Scope(true, long), Scope(false, long);
    if Agrees(g, with_) {
      forall op, n, c | Allowed(without, op) && Allowed(without, c) && n <= 3 && Arity(g, without, op, n)
        ensures PairAgrees(g, op, n, c)
      {
        assert Arity(g, with_, op, n);
      }
      assert PairAgrees(g, Is, 1, IsNot) && PairAgrees(g, IsNot, 1, Is);
      forall op | OfTrees(op)
        ensures g.level(Is) < g.level(op)
        ensures !Bare(g, op, OperandContext(g, Is, 1, 0)) && !Bare(g, op, OperandContext(g, IsNot, 1, 0))
      {
        assert PairAgrees(g, op, 2, Is);
        assert PairAgrees(g, Is, 1, op) && PairAgrees(g, IsNot, 1, op);
      }
    }
    if Agrees(g, without) && TestsBindTightest(g) {
      forall op, n, c | Allowed(with_, op) && Allowed(with_, c) && n <= 3 && Arity(g, with_, op, n)
        ensures PairAgrees(g, op, n, c)
      {
        if OfTrees(op) && OfTrees(c) {
          assert Arity(g, without, op, n);
        }
      }
    }
  }

  /* ---------- a simple shape of table that is enough ---------- */

  /**
    Whole-number precedences in the order of the levels, unordered operators flatten, and at most one of
    them on each level. With ordered nodes of more than two operands it has its level to itself.
   */
  ghost predicate Disciplined(g: Grammar, long: bool) {
    forall a, b :: OfTrees(a) && OfTrees(b) ==> PairIsDisciplined(g, long, a, b)
  }

  predicate PairIsDisciplined(g: Grammar, long: bool, a: Op, b: Op) {
    && g.prec(a) % 2 == 0
    && (g.prec(a) < g.prec(b) <==> g.level(a) < g.level(b))
    && (!g.ordered(a) ==> g.assoc(a))
    && (!g.ordered(a) && (long || !g.ordered(b)) && g.level(a) == g.level(b) ==> a == b)
  }

  lemma DisciplineMeans(g: Grammar, long: bool, op: Op, c: Op)
    requires PairIsDisciplined(g, long, op, c) && PairIsDisciplined(g, long, c, op)
    ensures g.prec(c) < g.prec(op) ==> g.level(c) < g.level(op)
    ensures g.prec(c) == g.prec(op) ==> g.level(c) == g.level(op)
    ensures !g.ordered(op) ==> g.assoc(op)
    ensures !g.ordered(op) && (long || !g.ordered(c)) && g.level(op) == g.level(c) ==> op == c
    ensures !g.ordered(c) && (long || !g.ordered(op)) && g.level(op) == g.level(c) ==> op == c
    ensures g.prec(c) != g.prec(op) + 1 && g.prec(c) != g.prec(op) - 1
  {
  }

  lemma FirstAgrees(g: Grammar, s: Scope, op: Op, n: nat, c: Op)
    requires PairIsDisciplined(g, s.long, op, c) && PairIsDisciplined(g, s.long, c, op)
    requires OfTrees(op) && OfTrees(c) && Arity(g, s, op, n) && BareUnder(g, op, n, 0, c)
    ensures g.level(c) <= g.level(op) && (!g.ordered(op) ==> g.level(c) < g.level(op) || c == op)
  {
    hide PairIsDisciplined;
    DisciplineMeans(g, s.long, op, c);
  }

  lemma LaterAgrees(g: Grammar, s: Scope, op: Op, n: nat, c: Op)
    requires PairIsDisciplined(g, s.long, op, c) && PairIsDisciplined(g, s.long, c, op)
    requires OfTrees(op) && OfTrees(c) && Arity(g, s, op, n) && BareUnder(g, op, n, 1, c)
    ensures g.level(c) < g.level(op) || (c == op && g.assoc(op))
  {
    hide PairIsDisciplined;
    DisciplineMeans(g, s.long, op, c);
  }

  lemma DisciplineSuffices(g: Grammar, long: bool)
    requires Disciplined(g, long)
    ensures Agrees(g, Scope(false, long))
  {
    hide BareUnder, PairIsDisciplined, Arity;
    var s := Scope(false, long);
    forall op, n, c | Allowed(s, op) && Allowed(s, c) && n <= 3 && Arity(g, s, op, n)
      ensures PairAgrees(g, op, n, c)
    {
      if BareUnder(g, op, n, 0, c) {
        FirstAgrees(g, s, op, n, c);
      }
      if BareUnder(g, op, n, 1, c) {
        LaterAgrees(g, s, op, n, c);
      }
    }
  }
}
