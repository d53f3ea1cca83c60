/** The two tables as the repository has them, and exactly where they disagree. */
module Tables {
  import opened Expressions
  import opened Chains
  import opened Engine
  import opened Syntax
  import opened Printer
  import opened RoundTrip
  import opened Meaning
  import Agreement

  /** The formatter's precedence numbers, in half steps; tests for NULL are printed as `is` and `exists`. */
  function Precedence(op: Op): int {
    match op
    case Mul | Div | Mod => 4
    case Add | Sub => 6
    case BinaryAnd | BinaryOr => 8
    case Gte | Lte | Lt => 10
    case Gt => 12
    case Eq | Neq => 14
    case Like | NotLike | RLike | NotRLike | ILike | NotILike => 16
    case And => 20
    case Or => 22
    case Is => 16
    case IsNot => 14
  }

  /** The position of an operator in KNOWN_OPS. */
  function Level(op: Op): nat {
    match op
    case Mul | Div | Mod => 5
    case Add | Sub => 6
    case BinaryAnd => 8
    case BinaryOr => 9
    case Gte | Lte | Lt | Gt => 10
    case Eq | Neq => 11
    case Like => 19
    case ILike => 20
    case NotLike => 21
    case NotILike => 22
    case RLike => 23
    case NotRLike => 24
    case And => 28
    case Or => 29
    case Is => 18
    case IsNot => 17
  }

  predicate Ordered(op: Op) {
    op !in {Mul, Add, Or, And, BinaryAnd, BinaryOr}
  }

  predicate Associative_(op: Op) {
    op in {Add, Mul, And, Or, BinaryAnd, BinaryOr}
  }

  const LEVELS := 32

  function Sql(): (g: Grammar)
    ensures g.Valid()
  {
    Grammar(Precedence, Level, LEVELS, Ordered, Associative_)
  }

  predicate IsLike(op: Op) {
    op in {Like, NotLike, RLike, NotRLike, ILike, NotILike}
  }

  /** A test for NULL, never in parentheses, is an operand of something that binds tighter. */
  predicate TestClash(op: Op, c: Op) {
    || (c == Is && !IsLike(op) && op !in {And, Or, Is})
    || (c == IsNot && !IsLike(op) && op !in {And, Or, Is, IsNot})
  }

  /**
    Operand `i` of `n` of `op` is a `c` node printed without the parentheses it needs: a comparison
    to the right of `>`, `|` under `&`, a LIKE of a later level to the left of another, a flattening
    operator inside a run of three or more of an ordered one on its level, and a test for NULL under
    anything but the LIKE family, AND, OR and other tests.
   */
  predicate Clash(op: Op, n: nat, i: nat, c: Op) {
    if OfTrees(c) then NodeClash(op, n, i, c) else TestClash(op, c)
  }

  predicate NodeClash(op: Op, n: nat, i: nat, c: Op) {
    || (op == Gt && i > 0 && c in {Gte, Lte, Lt})
    || (op == BinaryAnd && c == BinaryOr)
    || (IsLike(op) && IsLike(c) && n == 2 && i == 0 && Level(c) > Level(op))
    || (n > 2 && i > 0 && ((op in {Div, Mod} && c == Mul) || (op == Sub && c == Add)))
  }

  /** Operand `i` of `n` of `op` is not such a node. */
  predicate Stands(op: Op, n: nat, i: nat, e: Expr) {
    RootOp(e).Some? ==> !Clash(op, n, i, RootOp(e).value)
  }

  predicate NoClash(e: Expr) {
    match e
    case Call(_, args) => forall a <- args :: NoClash(a)
    case Case(whens, els) =>
      && (forall w <- whens :: NoClash(w.cond) && NoClash(w.result))
      && (els.Some? ==> NoClash(els.value))
    case Infix(op, operands) =>
      && (forall a <- operands :: NoClash(a))
      && (forall i :: 0 <= i < |operands| ==> Stands(op, |operands|, i, operands[i]))
    case Missing(arg) => NoClash(arg) && Stands(Is, 1, 0, arg)
    case Exists(arg) => NoClash(arg) && Stands(IsNot, 1, 0, arg)
    case _ => true
  }

  /** What lower and equal numbers say about levels. */
  lemma LowerPrecedence(op: Op, c: Op)
    requires OfTrees(op) && OfTrees(c)
    ensures Precedence(op) % 2 == Precedence(c) % 2 == 0
    ensures Precedence(c) < Precedence(op) ==> Level(c) < Level(op) || (op == Gt && c in {Gte, Lte, Lt})
    ensures op == Gt && c in {Gte, Lte, Lt} ==> Precedence(c) < Precedence(op) && Level(c) == Level(op)
  {
  }

  lemma ClashPrecedence(op: Op, c: Op)
    ensures op == BinaryAnd && c == BinaryOr ==> Precedence(c) == Precedence(op)
    ensures IsLike(op) && IsLike(c) ==> Precedence(c) == Precedence(op)
    ensures (op in {Div, Mod} && c == Mul) || (op == Sub && c == Add) ==>
      Precedence(c) == Precedence(op) && Level(c) == Level(op)
  {
  }

  lemma EqualPrecedence(op: Op, c: Op)
    requires OfTrees(op) && OfTrees(c) && Precedence(c) == Precedence(op)
    ensures op != c && !Ordered(op) && !Ordered(c) ==>
      (op == BinaryAnd && c == BinaryOr) || (op == BinaryOr && c == BinaryAnd)
    ensures Level(c) != Level(op) ==>
      (op == BinaryAnd && c == BinaryOr) || (op == BinaryOr && c == BinaryAnd) || (IsLike(op) && IsLike(c))
    ensures !Ordered(c) && Ordered(op) ==> (op in {Div, Mod} && c == Mul) || (op == Sub && c == Add)
  {
  }

  lemma Flags(op: Op)
    ensures Ordered(op) <==> op !in {Mul, Add, BinaryAnd, BinaryOr, And, Or}
    ensures Associative_(op) <==> !Ordered(op)
    ensures IsLike(op) ==> Ordered(op) && OfTrees(op)
    ensures Level(BinaryAnd) < Level(BinaryOr)
  {
  }

  lemma BarePair(op: Op, n: nat, i: nat, c: Op)
    requires OfTrees(op) && OfTrees(c) && n >= 2 && Bare(Sql(), c, OperandContext(Sql(), op, n, i))
    ensures NodeClash(op, n, i, c) <==>
      !(if i == 0 then Level(c) <= Level(op) else Level(c) < Level(op) || (c == op && Associative_(op)))
    ensures i == 0 && Associative_(op) && !NodeClash(op, n, i, c) ==> Level(c) < Level(op) || c == op
  {
    hide Precedence, Level, Ordered, Associative_, IsLike, Bare, OperandContext, Sql, NodeClash;
    BareMeans(op, n, i, c);
    Flags(op);
    if Precedence(c) == Precedence(op) {
      EqualPair(op, n, i, c);
    } else {
      LowerPair(op, n, i, c);
    }
  }

  lemma LowerPair(op: Op, n: nat, i: nat, c: Op)
    requires OfTrees(op) && OfTrees(c) && Precedence(c) < Precedence(op)
    ensures NodeClash(op, n, i, c) <==> op == Gt && i > 0 && c in {Gte, Lte, Lt}
    ensures if op == Gt && c in {Gte, Lte, Lt} then Level(c) == Level(op) else Level(c) < Level(op)
  {
    hide Precedence, Level, IsLike;
    LowerPrecedence(op, c);
    ClashPrecedence(op, c);
  }

  lemma EqualPair(op: Op, n: nat, i: nat, c: Op)
    requires OfTrees(op) && OfTrees(c) && n >= 2 && Precedence(c) == Precedence(op)
    requires if Ordered(op) && n == 2 then i == 0 else !Ordered(c)
    ensures NodeClash(op, n, i, c) <==>
      !(if i == 0 then Level(c) <= Level(op) else Level(c) < Level(op) || (c == op && Associative_(op)))
    ensures Associative_(op) && !NodeClash(op, n, i, c) ==> Level(c) < Level(op) || c == op
  {
    hide Precedence, Level, Ordered, Associative_, IsLike;
    EqualPrecedence(op, c);
    LowerPrecedence(op, c);
    ClashPrecedence(op, c);
    Flags(op);
    Flags(c);
  }

  lemma BareMeans(op: Op, n: nat, i: nat, c: Op)
    requires OfTrees(op) && OfTrees(c) && n >= 2 && Bare(Sql(), c, OperandContext(Sql(), op, n, i))
    ensures Precedence(c) <= Precedence(op)
    ensures Precedence(c) == Precedence(op) ==>
      if Ordered(op) && n == 2 then i == 0 else !Ordered(c)
  {
    hide Precedence, Level, Ordered, Associative_;
    LowerPrecedence(op, c);
  }

  lemma ClashIsBare(op: Op, n: nat, i: nat, c: Op)
    requires OfTrees(op) && OfTrees(c) && n >= 2 && NodeClash(op, n, i, c)
    ensures Bare(Sql(), c, OperandContext(Sql(), op, n, i))
  {
  }

  /** What is left bare inside a test binds tighter than the test. */
  lemma BareInTest(op: Op, c: Op)
    requires !OfTrees(op) && OfTrees(c)
    ensures Bare(Sql(), c, OperandContext(Sql(), op, 1, 0)) ==> Level(c) < Level(op)
    ensures !Clash(op, 1, 0, c)
  {
  }

  /** A test inside anything. */
  lemma TestInside(op: Op, c: Op)
    requires !OfTrees(c)
    ensures TestClash(op, c) <==> !(Level(c) < Level(op) || c == op)
    ensures TestClash(op, c) ==> Level(c) > Level(op)
  {
  }

  ghost predicate Bounded(op: Op, ops: set<Op>) {
    forall o <- ops :: Level(o) < Level(op) || o == op || (Level(o) == Level(op) && !Associative_(op))
  }

  /** `op` has operands, as many as it can have. */
  predicate Arity(op: Op, n: nat, i: nat) {
    if OfTrees(op) then n >= 2 else n == 1 && i == 0
  }

  lemma {:induction false} ExposedIsBounded(e: Expr, context: int)
    requires WellFormed(e) && NoClash(e) && RootOp(e).Some?
    ensures Bounded(RootOp(e).value, Exposed(Sql(), e, context))
    decreases e, 1
  {
    match e
    case Infix(op, operands) =>
      forall i | 0 <= i < |operands|
        ensures Bounded(op, Exposed(Sql(), operands[i], OperandContext(Sql(), op, |operands|, i)))
      {
        OperandIsBounded(op, operands[i], |operands|, i);
      }
      JoinedIsBounded(op, operands, |operands|);
    case Missing(arg) => OperandIsBounded(Is, arg, 1, 0);
    case Exists(arg) => OperandIsBounded(IsNot, arg, 1, 0);
  }

  lemma {:induction false} JoinedIsBounded(op: Op, es: seq<Expr>, n: nat)
    requires es != []
    requires forall i :: 0 <= i < |es| ==> Bounded(op, Exposed(Sql(), es[i], OperandContext(Sql(), op, n, i)))
    ensures Bounded(op, ExposedJoined(Sql(), op, es, n))
    decreases es
  {
    var k := |es| - 1;
    if k > 0 {
      JoinedIsBounded(op, es[..k], n);
    }
  }

  lemma {:induction false} OperandIsBounded(op: Op, e: Expr, n: nat, i: nat)
    requires Arity(op, n, i) && WellFormed(e) && NoClash(e) && Stands(op, n, i, e)
    ensures Bounded(op, Exposed(Sql(), e, OperandContext(Sql(), op, n, i)))
    ensures Fits(Sql(), op, n, i, e)
    decreases e, 2
  {
    hide NoClash, Level, Precedence, Clash, Ordered, Associative_, Exposed, Fits, Bounded, Bare, OperandContext;
    var context := OperandContext(Sql(), op, n, i);
    var root := RootOp(e);
    if root.Some? && (OfTrees(root.value) ==> Bare(Sql(), root.value, context)) {
      RootFits(op, n, i, root.value);
      ExposedIsBounded(e, context);
      BoundedFits(op, e, n, i, root.value);
    } else {
      NothingExposed(op, e, n, i);
    }
  }

  lemma NothingExposed(op: Op, e: Expr, n: nat, i: nat)
    requires WellFormed(e)
    requires var c := RootOp(e); c.Some? ==> OfTrees(c.value) && !Bare(Sql(), c.value, OperandContext(Sql(), op, n, i))
    ensures Bounded(op, Exposed(Sql(), e, OperandContext(Sql(), op, n, i))) && Fits(Sql(), op, n, i, e)
  {
    hide Bare, OperandContext;
  }

  lemma BoundedFits(op: Op, e: Expr, n: nat, i: nat, c: Op)
    requires Bounded(c, Exposed(Sql(), e, OperandContext(Sql(), op, n, i)))
    requires if i == 0 then Level(c) <= Level(op) else Level(c) < Level(op) || (c == op && Associative_(op))
    requires i == 0 && Associative_(op) ==> Level(c) < Level(op) || c == op
    ensures Bounded(op, Exposed(Sql(), e, OperandContext(Sql(), op, n, i))) && Fits(Sql(), op, n, i, e)
  {
    hide Exposed, OperandContext, Level, Associative_;
  }

  /** A root that does not clash, and is not in parentheses, fits. */
  lemma RootFits(op: Op, n: nat, i: nat, c: Op)
    requires Arity(op, n, i) && !Clash(op, n, i, c)
    requires OfTrees(c) ==> Bare(Sql(), c, OperandContext(Sql(), op, n, i))
    ensures if i == 0 then Level(c) <= Level(op) else Level(c) < Level(op) || (c == op && Associative_(op))
    ensures i == 0 && Associative_(op) ==> Level(c) < Level(op) || c == op
  {
    hide Level, Precedence, Ordered, Associative_;
    if OfTrees(c) {
      if OfTrees(op) {
        BarePair(op, n, i, c);
      } else {
        BareInTest(op, c);
      }
    } else {
      TestInside(op, c);
    }
  }

  lemma {:induction false} SafeIsNoClash(e: Expr)
    requires WellFormed(e)
    ensures Safe(Sql(), e) <==> NoClash(e)
  {
    match e
    case Call(_, args) =>
      forall a | a in args ensures Safe(Sql(), a) <==> NoClash(a) {
        SafeIsNoClash(a);
      }
    case Case(whens, els) =>
      forall w | w in whens
        ensures Safe(Sql(), w.cond) && Safe(Sql(), w.result) <==> NoClash(w.cond) && NoClash(w.result)
      {
        SafeIsNoClash(w.cond);
        SafeIsNoClash(w.result);
      }
      if els.Some? {
        SafeIsNoClash(els.value);
      }
    case Infix(op, operands) =>
      forall i | 0 <= i < |operands|
        ensures Safe(Sql(), operands[i]) <==> NoClash(operands[i])
        ensures NoClash(operands[i]) ==>
          (Fits(Sql(), op, |operands|, i, operands[i]) <==> Stands(op, |operands|, i, operands[i]))
      {
        SafeIsNoClash(operands[i]);
        if NoClash(operands[i]) {
          FitsIsNoClash(op, operands[i], |operands|, i);
        }
      }
    case Missing(arg) =>
      SafeIsNoClash(arg);
      if NoClash(arg) {
        FitsIsNoClash(Is, arg, 1, 0);
      }
    case Exists(arg) =>
      SafeIsNoClash(arg);
      if NoClash(arg) {
        FitsIsNoClash(IsNot, arg, 1, 0);
      }
    case _ =>
  }

  lemma FitsIsNoClash(op: Op, e: Expr, n: nat, i: nat)
    requires Arity(op, n, i) && WellFormed(e) && NoClash(e)
    ensures Fits(Sql(), op, n, i, e) <==> Stands(op, n, i, e)
  {
    hide NoClash, Level, Precedence, Clash, Ordered, Associative_;
    if Stands(op, n, i, e) {
      OperandIsBounded(op, e, n, i);
    } else {
      ClashingRoot(op, n, i, RootOp(e).value);
      RootIsExposed(e, OperandContext(Sql(), op, n, i));
    }
  }

  /** A root that clashes is not in parentheses, and does not fit. */
  lemma ClashingRoot(op: Op, n: nat, i: nat, c: Op)
    requires Arity(op, n, i) && Clash(op, n, i, c)
    ensures OfTrees(c) ==> Bare(Sql(), c, OperandContext(Sql(), op, n, i))
    ensures !(if i == 0 then Level(c) <= Level(op) else Level(c) < Level(op) || (c == op && Associative_(op)))
  {
    hide Level, Precedence, Ordered, Associative_;
    if OfTrees(c) {
      if OfTrees(op) {
        ClashIsBare(op, n, i, c);
        BarePair(op, n, i, c);
      } else {
        BareInTest(op, c);
      }
    } else {
      NoOtherClash(op, n, i, c);
      TestInside(op, c);
    }
  }

  lemma NoOtherClash(op: Op, n: nat, i: nat, c: Op)
    requires !OfTrees(c)
    ensures Clash(op, n, i, c) <==> TestClash(op, c)
  {
  }

  lemma RootIsExposed(e: Expr, context: int)
    requires WellFormed(e) && RootOp(e).Some? && (OfTrees(RootOp(e).value) ==> Bare(Sql(), RootOp(e).value, context))
    ensures RootOp(e).value in Exposed(Sql(), e, context)
  {
  }

  /** For the repository's own tables: the round trip holds exactly when no pair clashes and NULL is not compared. */
  lemma SqlRoundTrip(e: Expr, context: int)
    requires WellFormed(e)
    ensures Parse(Sql(), Print(Sql(), e, context)) == Some(Norm(Sql(), e)) <==> NoClash(e) && NullSafe(e)
  {
    PrintThenParse(Sql(), e, context);
    SafeIsNoClash(e);
  }

  /** Text to tree to text to tree, for every text the parser accepts. */
  lemma SqlTextRoundTrip(ts: seq<Token>, context: int)
    requires Parse(Sql(), ts).Some?
    ensures var e := Parse(Sql(), ts).value;
      && (WellFormed(e) <==> Printable(e))
      && (WellFormed(e) ==> (Parse(Sql(), Print(Sql(), e, context)) == Some(e) <==> NoClash(e) && NullSafe(e)))
  {
    hide Parse, Print, WellFormed, Printable, Safe, NullSafe, NoClash;
    TextRoundTrip(Sql(), ts, context);
    if WellFormed(Parse(Sql(), ts).value) {
      SafeIsNoClash(Parse(Sql(), ts).value);
    }
  }

  /** Trees over the operators on which both tables agree, with tests for NULL under AND and OR and on top. */
  predicate OverAgreeingOperators(e: Expr) {
    match e
    case Null => true
    case Call(_, args) => forall a <- args :: OverAgreeingOperators(a)
    case Case(whens, els) =>
      && (forall w <- whens :: OverAgreeingOperators(w.cond) && OverAgreeingOperators(w.result))
      && (els.Some? ==> OverAgreeingOperators(els.value))
    case Infix(op, operands) =>
      && op in AGREEING
      && (Ordered(op) ==> |operands| == 2)
      && (forall a <- operands :: OverAgreeingOperators(a))
      && (op != And && op != Or ==> forall a <- operands :: !a.Missing? && !a.Exists?)
    case Missing(arg) => OverAgreeingOperators(arg)
    case Exists(arg) => OverAgreeingOperators(arg) && !arg.Missing?
    case _ => true
  }

  const AGREEING := {Mul, Div, Mod, Add, Sub, Lt, Lte, Gte, Eq, Neq, And, Or}

  lemma AgreeingPair(op: Op, n: nat, i: nat, a: Expr)
    requires op in AGREEING && (Ordered(op) ==> n == 2) && OverAgreeingOperators(a)
    requires op != And && op != Or ==> !a.Missing? && !a.Exists?
    ensures Stands(op, n, i, a)
  {
    hide Level, Precedence;
  }

  lemma {:induction false} AgreeingOperatorsDoNotClash(e: Expr)
    requires OverAgreeingOperators(e)
    ensures NoClash(e)
  {
    hide Stands;
    match e
    case Call(_, args) =>
      forall a | a in args ensures NoClash(a) {
        AgreeingOperatorsDoNotClash(a);
      }
    case Case(whens, els) =>
      forall w | w in whens ensures NoClash(w.cond) && NoClash(w.result) {
        AgreeingOperatorsDoNotClash(w.cond);
        AgreeingOperatorsDoNotClash(w.result);
      }
      if els.Some? {
        AgreeingOperatorsDoNotClash(els.value);
      }
    case Infix(op, operands) =>
      forall i | 0 <= i < |operands|
        ensures NoClash(operands[i]) && Stands(op, |operands|, i, operands[i])
      {
        assert operands[i] in operands;
        AgreeingOperatorsDoNotClash(operands[i]);
        AgreeingPair(op, |operands|, i, operands[i]);
      }
    case Missing(arg) =>
      AgreeingOperatorsDoNotClash(arg);
      AgreeingInTest(Is, arg);
    case Exists(arg) =>
      AgreeingOperatorsDoNotClash(arg);
      AgreeingInTest(IsNot, arg);
    case _ =>
  }

  lemma AgreeingInTest(op: Op, arg: Expr)
    requires !OfTrees(op) && OverAgreeingOperators(arg) && (op == IsNot ==> !arg.Missing?)
    ensures Stands(op, 1, 0, arg)
  {
  }

  /** They come back flattened, and unchanged if they are in parser form. */
  lemma AgreeingFragmentRoundTrip(e: Expr, context: int)
    requires WellFormed(e) && OverAgreeingOperators(e) && NullSafe(e)
    ensures Parse(Sql(), Print(Sql(), e, context)) == Some(Norm(Sql(), e))
    ensures ParserForm(Sql(), e) ==> Parse(Sql(), Print(Sql(), e, context)) == Some(e)
  {
    AgreeingOperatorsDoNotClash(e);
    SqlRoundTrip(e, context);
    if ParserForm(Sql(), e) {
      NormKeepsParserForm(Sql(), e);
    }
  }

  /* ---------- trees that do not survive ---------- */

  const A := Name("a")
  const B := Name("b")
  const C := Name("c")

  /** The flat text `a op1 b op2 c`. */
  function Flat2(op1: Op, op2: Op): seq<Token> {
    [TName("a"), TOp(op1), TName("b"), TOp(op2), TName("c")]
  }

  function Atom(id: string): Run {
    Chain(NameTerm(id), [])
  }

  function FlatRun(op1: Op, op2: Op): Run {
    Glue(Glue(Atom("a"), op1, Atom("b")), op2, Atom("c"))
  }

  lemma RenderAtom(id: string)
    ensures RenderRun(Atom(id)) == [TName(id)]
  {
    assert RenderLinks([]) == [];
  }

  lemma ParseFlat2(g: Grammar, op1: Op, op2: Op)
    ensures Parse(g, Flat2(op1, op2)) == Some(Strip(Eval(g, FlatRun(op1, op2))))
  {
    hide Eval, Glue, ParseRun, RenderLinks;
    RenderGlue(Atom("a"), op1, Atom("b"));
    RenderGlue(Glue(Atom("a"), op1, Atom("b")), op2, Atom("c"));
    RenderAtom("a");
    RenderAtom("b");
    RenderAtom("c");
    assert RenderRun(FlatRun(op1, op2)) + [] == Flat2(op1, op2);
    RunRoundTrip(FlatRun(op1, op2), []);
  }

  lemma AtomReads(g: Grammar, id: string)
    requires g.Valid()
    ensures Eval(g, Atom(id)) == Plain(Name(id))
  {
    EvalIsTree(g, Atom(id));
  }

  /** Two operands and an operator that is not compared with NULL. */
  lemma PairReads(g: Grammar, op: Op, l: Run, r: Run)
    requires g.Valid() && OfTrees(op) && AtMost(g, l, g.level(op)) && FitsRight(g, r, op)
    requires Strip(Eval(g, l)) != Null && Strip(Eval(g, r)) != Null
    ensures AtMost(g, Glue(l, op, r), g.level(op))
    ensures Eval(g, Glue(l, op, r)) == Plain(Join(g, op, Strip(Eval(g, l)), Strip(Eval(g, r))))
  {
    hide Eval, Glue, AtMost, FitsRight;
    GlueReads(g, l, op, r);
    CombineIsJoin(g, op, Eval(g, l), Eval(g, r));
  }

  /** How the level list reads `a op1 b op2 c`. */
  lemma ReadFlat2(g: Grammar, op1: Op, op2: Op)
    requires g.Valid() && OfTrees(op1) && OfTrees(op2)
    ensures g.level(op1) <= g.level(op2) ==>
      Parse(g, Flat2(op1, op2)) == Some(Join(g, op2, Join(g, op1, A, B), C))
    ensures g.level(op1) > g.level(op2) ==>
      Parse(g, Flat2(op1, op2)) == Some(Join(g, op1, A, Join(g, op2, B, C)))
  {
    hide Eval, Parse, Glue;
    var a, b, c := Atom("a"), Atom("b"), Atom("c");
    ParseFlat2(g, op1, op2);
    AtomReads(g, "a");
    AtomReads(g, "b");
    AtomReads(g, "c");
    if g.level(op1) <= g.level(op2) {
      PairReads(g, op1, a, b);
      PairReads(g, op2, Glue(a, op1, b), c);
    } else {
      GlueAssoc(a, op1, b, op2, c);
      PairReads(g, op2, b, c);
      LooserRight(g, op1, op2, b, c);
      PairReads(g, op1, a, Glue(b, op2, c));
    }
  }

  lemma LooserRight(g: Grammar, op1: Op, op2: Op, b: Run, c: Run)
    requires g.level(op2) < g.level(op1) && AtMost(g, Glue(b, op2, c), g.level(op2))
    ensures FitsRight(g, Glue(b, op2, c), op1)
  {
  }

  lemma PrintTwo(g: Grammar, op: Op, x: Expr, y: Expr, context: int)
    requires OfTrees(op) && WellFormed(x) && WellFormed(y) && Bare(g, op, context)
    ensures WellFormed(Binary(op, x, y))
    ensures Print(g, Binary(op, x, y), context) ==
      Print(g, x, OperandContext(g, op, 2, 0)) + [TOp(op)] + Print(g, y, OperandContext(g, op, 2, 1))
  {
    assert [x, y][..1] == [x];
    assert PrintJoined(g, op, [x], 2) == Print(g, x, OperandContext(g, op, 2, 0));
    assert PrintJoined(g, op, [x, y], 2) ==
      PrintJoined(g, op, [x], 2) + [TOp(op)] + Print(g, y, OperandContext(g, op, 2, 1));
  }

  /** A pair nested to the right without parentheses. */
  lemma RightPair(g: Grammar, op1: Op, op2: Op)
    requires g.Valid() && OfTrees(op1) && OfTrees(op2)
    requires Bare(g, op1, MAX_CONTEXT) && Bare(g, op2, OperandContext(g, op1, 2, 1))
    requires g.level(op1) <= g.level(op2)
    ensures WellFormed(Binary(op1, A, Binary(op2, B, C)))
    ensures Parse(g, Print(g, Binary(op1, A, Binary(op2, B, C)), MAX_CONTEXT))
         == Some(Join(g, op2, Join(g, op1, A, B), C))
  {
    PrintTwo(g, op2, B, C, OperandContext(g, op1, 2, 1));
    PrintTwo(g, op1, A, Binary(op2, B, C), MAX_CONTEXT);
    assert Print(g, Binary(op1, A, Binary(op2, B, C)), MAX_CONTEXT) == Flat2(op1, op2);
    ReadFlat2(g, op1, op2);
  }

  /** A pair nested to the left without parentheses. */
  lemma LeftPair(g: Grammar, op1: Op, op2: Op)
    requires g.Valid() && OfTrees(op1) && OfTrees(op2)
    requires Bare(g, op2, MAX_CONTEXT) && Bare(g, op1, OperandContext(g, op2, 2, 0))
    requires g.level(op1) > g.level(op2)
    ensures WellFormed(Binary(op2, Binary(op1, A, B), C))
    ensures Parse(g, Print(g, Binary(op2, Binary(op1, A, B), C), MAX_CONTEXT))
         == Some(Join(g, op1, A, Join(g, op2, B, C)))
  {
    PrintTwo(g, op1, A, B, OperandContext(g, op2, 2, 0));
    PrintTwo(g, op2, Binary(op1, A, B), C, MAX_CONTEXT);
    assert Print(g, Binary(op2, Binary(op1, A, B), C), MAX_CONTEXT) == Flat2(op1, op2);
    ReadFlat2(g, op1, op2);
  }

  /** `a > (b < c)` prints as `a > b < c`, which reads as `(a > b) < c`. */
  lemma GreaterOverLess()
    ensures Parse(Sql(), Print(Sql(), Binary(Gt, A, Binary(Lt, B, C)), MAX_CONTEXT))
         == Some(Binary(Lt, Binary(Gt, A, B), C))
  {
    RightPair(Sql(), Gt, Lt);
  }

  /** `a & (b | c)` prints as `a & b | c`, which reads as `(a & b) | c`. */
  lemma BinaryAndOverOr()
    ensures Parse(Sql(), Print(Sql(), Binary(BinaryAnd, A, Binary(BinaryOr, B, C)), MAX_CONTEXT)) ==
      Some(Binary(BinaryOr, Binary(BinaryAnd, A, B), C))
  {
    RightPair(Sql(), BinaryAnd, BinaryOr);
    assert Kids(BinaryAnd, A) + Kids(BinaryAnd, B) == [A, B];
    assert Kids(BinaryOr, Infix(BinaryAnd, [A, B])) + Kids(BinaryOr, C) == [Infix(BinaryAnd, [A, B]), C];
  }

  /** `(a RLIKE b) LIKE c` prints as `a RLIKE b LIKE c`, which reads as `a RLIKE (b LIKE c)`. */
  lemma LikeOverRLike()
    ensures Parse(Sql(), Print(Sql(), Binary(Like, Binary(RLike, A, B), C), MAX_CONTEXT)) ==
      Some(Binary(RLike, A, Binary(Like, B, C)))
  {
    LeftPair(Sql(), RLike, Like);
  }

  /** `(a IS NULL) = b` prints as `a IS NULL = b`, which reads as `a = (b IS NULL)`. */
  lemma TestUnderEquals(context: int)
    requires Bare(Sql(), Eq, context)
    ensures Parse(Sql(), Print(Sql(), Binary(Eq, Missing(A), B), context)) == Some(Binary(Eq, A, Missing(B)))
  {
    hide Eval, Glue, Parse, Print, Lay, Values;
    var g, a, b := Sql(), Atom("a"), Atom("b");
    LayTestUnderEquals(context);
    GlueAssoc(a, Is, NULL_TERM, Eq, b);
    var e := Binary(Eq, Missing(A), B);
    PrintedTextReads(g, e, context);
    AtomReads(g, "a");
    AtomReads(g, "b");
    NullReads(g);
    GlueReads(g, NULL_TERM, Eq, b);
    LooserRight(g, Is, Eq, NULL_TERM, b);
    GlueReads(g, a, Is, Glue(NULL_TERM, Eq, b));
  }

  lemma LayTestUnderEquals(context: int)
    requires Bare(Sql(), Eq, context)
    ensures Lay(Sql(), Binary(Eq, Missing(A), B), context) == Glue(Glue(Atom("a"), Is, NULL_TERM), Eq, Atom("b"))
  {
    assert [Missing(A), B][..1] == [Missing(A)];
  }

  /** In parentheses NULL is compared, not tested: `(NULL) = b` parses to a comparison, whose own text is a test. */
  lemma ParenthesisedNull(ts: seq<Token>, e: Expr, context: int)
    requires ts == [TOpen, TNull, TClose, TOp(Eq), TName("b")] && e == Binary(Eq, Null, B)
    requires Bare(Sql(), Eq, context)
    ensures Parse(Sql(), ts) == Some(e)
    ensures Parse(Sql(), Print(Sql(), e, context)) == Some(Missing(B))
  {
    hide Eval, Parse, Print, Lay, Glue;
    var g, b := Sql(), Atom("b");
    var group := Chain(Paren(NULL_TERM), []);
    AtomReads(g, "b");
    GroupReads(g);
    GroupText();
    ParsesAs(ts, Glue(group, Eq, b));
    GlueReads(g, group, Eq, b);
    NullEqualsText(context);
  }

  lemma NullEqualsText(context: int)
    requires Bare(Sql(), Eq, context)
    ensures Parse(Sql(), Print(Sql(), Binary(Eq, Null, B), context)) == Some(Missing(B))
  {
    hide Eval, Parse, Print, Lay, Glue;
    var g, b := Sql(), Atom("b");
    NullReads(g);
    AtomReads(g, "b");
    PrintedTextReads(g, Binary(Eq, Null, B), context);
    LayNullEquals(context);
    GlueReads(g, NULL_TERM, Eq, b);
  }

  lemma GroupReads(g: Grammar)
    requires g.Valid()
    ensures Eval(g, Chain(Paren(NULL_TERM), [])) == Group(Plain(Null))
  {
    NullReads(g);
    EvalSingle(g, Paren(NULL_TERM));
  }

  lemma GroupText()
    ensures RenderRun(Glue(Chain(Paren(NULL_TERM), []), Eq, Atom("b"))) == [TOpen, TNull, TClose, TOp(Eq), TName("b")]
  {
    var group := Chain(Paren(NULL_TERM), []);
    RenderGlue(group, Eq, Atom("b"));
    RenderAtom("b");
    assert RenderRun(NULL_TERM) == [TNull];
    assert RenderOperand(Paren(NULL_TERM)) == [TOpen, TNull, TClose];
    assert RenderRun(group) == [TOpen, TNull, TClose];
  }

  lemma ParsesAs(ts: seq<Token>, c: Run)
    requires ts == RenderRun(c)
    ensures Parse(Sql(), ts) == Some(Strip(Eval(Sql(), c)))
  {
    TextIsStructure(ts, c);
  }

  lemma LayNullEquals(context: int)
    requires Bare(Sql(), Eq, context)
    ensures Lay(Sql(), Binary(Eq, Null, B), context) == Glue(NULL_TERM, Eq, Atom("b"))
  {
    assert [Null, B][..1] == [Null];
  }

  /** Both tables disagree, so some tree does not survive, even among binary ones without tests for NULL. */
  lemma SqlTablesDisagree(s: Agreement.Scope)
    ensures !Agreement.Agrees(Sql(), s)
  {
    assert !Agreement.PairAgrees(Sql(), BinaryAnd, 2, BinaryOr);
  }
}
