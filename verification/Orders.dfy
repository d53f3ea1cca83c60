/** The two tables of the repository as ranks of operators, and the short texts these give. */
module Orders {
  import opened Expressions
  import opened Chains
  import opened Engine
  import opened Syntax
  import opened Printer
  import opened RoundTrip
  import opened Tables

  /** Where the parser takes an operator to stand among the others, from the tightest to the loosest. */
  function Binding(op: Op): nat {
    match op
    case Mul | Div | Mod => 1
    case Add | Sub => 2
    case BinaryAnd => 3
    case BinaryOr => 4
    case Gte | Lte | Lt | Gt => 5
    case Eq | Neq => 6
    case IsNot => 7
    case Is => 8
    case Like => 9
    case ILike => 10
    case NotLike => 11
    case NotILike => 12
    case RLike => 13
    case NotRLike => 14
    case And => 15
    case Or => 16
  }

  /** Where the formatter takes it to stand. */
  function Printing(op: Op): nat {
    match op
    case Mul | Div | Mod => 1
    case Add | Sub => 2
    case BinaryAnd | BinaryOr => 3
    case Gte | Lte | Lt => 4
    case Gt => 5
    case Eq | Neq | IsNot => 6
    case Like | ILike | NotLike | NotILike | RLike | NotRLike | Is => 7
    case And => 8
    case Or => 9
  }

  /** Operators that take over the operands of their own kind, and need no parentheses around it. */
  predicate Merges(op: Op) {
    op == Mul || op == Add || op == BinaryAnd || op == BinaryOr || op == And || op == Or
  }

  /* ---------- the numbers of the tables give these ranks ---------- */

  const LEVELS_OF: seq<nat> := [0, 5, 6, 8, 9, 10, 11, 17, 18, 19, 20, 21, 22, 23, 24, 28, 29]

  lemma LevelOf(op: Op)
    ensures 0 < Binding(op) < |LEVELS_OF| && Level(op) == LEVELS_OF[Binding(op)]
    ensures Merges(op) <==> !Ordered(op)
    ensures Merges(op) <==> Associative_(op)
  {
  }

  lemma LevelsIncrease(i: nat, j: nat)
    requires i < |LEVELS_OF| && j < |LEVELS_OF|
    ensures i < j <==> LEVELS_OF[i] < LEVELS_OF[j]
  {
  }

  lemma LevelsAreBinding(a: Op, b: Op)
    ensures Binding(a) < Binding(b) <==> Level(a) < Level(b)
  {
    hide Binding, Level;
    LevelOf(a);
    LevelOf(b);
    LevelsIncrease(Binding(a), Binding(b));
  }

  const PRECEDENCE_OF: seq<int> := [0, 4, 6, 8, 10, 12, 14, 16, 20, 22]

  lemma PrecedenceOf(op: Op)
    ensures 0 < Printing(op) < |PRECEDENCE_OF| && Precedence(op) == PRECEDENCE_OF[Printing(op)]
  {
  }

  lemma PrecedencesIncrease(i: nat, j: nat)
    requires i < |PRECEDENCE_OF| && j < |PRECEDENCE_OF|
    ensures i < j <==> PRECEDENCE_OF[i] < PRECEDENCE_OF[j]
    ensures i < j ==> PRECEDENCE_OF[i] + 1 < PRECEDENCE_OF[j]
    ensures PRECEDENCE_OF[i] < FROM_CONTEXT
  {
  }

  /* ---------- three operands in a row ---------- */

  /** `a op1 b op2 c`: the tighter operator is taken first, the left one if neither is tighter. */
  lemma ThreeOperands(op1: Op, op2: Op)
    requires OfTrees(op1) && OfTrees(op2)
    ensures Parse(Sql(), [TName("a"), TOp(op1), TName("b"), TOp(op2), TName("c")])
      == Some(if Binding(op2) < Binding(op1) then Binary(op1, A, Binary(op2, B, C))
              else if op1 == op2 && Merges(op1) then Infix(op1, [A, B, C])
              else Binary(op2, Binary(op1, A, B), C))
  {
    hide Parse, Binding, Level, Merges, Associative_, Ordered;
    ReadFlat2(Sql(), op1, op2);
    LevelsAreBinding(op2, op1);
    LevelOf(op1);
    LevelOf(op2);
    if Level(op2) < Level(op1) {
      JoinApart(op2, B, C);
      JoinApart(op1, A, Binary(op2, B, C));
      assert op1 != op2;
    } else {
      JoinApart(op1, A, B);
      JoinApart(op2, Binary(op1, A, B), C);
      assert [A, B] + [C] == [A, B, C];
    }
  }

  lemma JoinApart(op: Op, a: Expr, b: Expr)
    ensures !(a.Infix? && a.op == op) && !(b.Infix? && b.op == op) ==> Join(Sql(), op, a, b) == Binary(op, a, b)
    ensures a.Infix? && a.op == op && !(b.Infix? && b.op == op) && Associative_(op) ==>
      Join(Sql(), op, a, b) == Infix(op, a.operands + [b])
    ensures !Associative_(op) ==> Join(Sql(), op, a, b) == Binary(op, a, b)
  {
    hide Associative_;
    assert [a] + [b] == [a, b];
  }

  /* ---------- a comparison with NULL ---------- */

  /** NULL on either side of any of the four comparisons. */
  lemma ComparedNull(op: Op, ts: seq<Token>)
    requires op == Eq || op == Neq || op == Is || op == IsNot
    requires ts == [TNull, TOp(op), TName("b")] || ts == [TName("b"), TOp(op), TNull]
    ensures Parse(Sql(), ts) == Some(if op == Eq || op == Is then Missing(B) else Exists(B))
  {
    hide Eval, Parse, Glue;
    var g, b := Sql(), Atom("b");
    NullReads(g);
    AtomReads(g, "b");
    NullPairText(op);
    if ts == [TNull, TOp(op), TName("b")] {
      ParsesAs(ts, Glue(NULL_TERM, op, b));
      GlueReads(g, NULL_TERM, op, b);
    } else {
      ParsesAs(ts, Glue(b, op, NULL_TERM));
      GlueReads(g, b, op, NULL_TERM);
    }
  }

  lemma NullPairText(op: Op)
    ensures RenderRun(Glue(NULL_TERM, op, Atom("b"))) == [TNull, TOp(op), TName("b")]
    ensures RenderRun(Glue(Atom("b"), op, NULL_TERM)) == [TName("b"), TOp(op), TNull]
  {
    hide Glue;
    RenderAtom("b");
    assert RenderRun(NULL_TERM) == [TNull];
    RenderGlue(NULL_TERM, op, Atom("b"));
    RenderGlue(Atom("b"), op, NULL_TERM);
  }

  /* ---------- where the formatter puts parentheses ---------- */

  lemma BareLeft(op: Op, c: Op)
    requires OfTrees(op) && OfTrees(c)
    ensures Bare(Sql(), c, OperandContext(Sql(), op, 2, 0))
      <==> Printing(c) < Printing(op) || (Printing(c) == Printing(op) && (!Merges(op) || Merges(c)))
  {
    hide Precedence, Printing, Merges, Ordered;
    PrecedenceOf(op);
    PrecedenceOf(c);
    PrecedencesIncrease(Printing(c), Printing(op));
    PrecedencesIncrease(Printing(op), Printing(c));
    LevelOf(op);
    LevelOf(c);
  }

  lemma BareRight(op: Op, c: Op)
    requires OfTrees(op) && OfTrees(c)
    ensures Bare(Sql(), c, OperandContext(Sql(), op, 2, 1))
      <==> Printing(c) < Printing(op) || (Printing(c) == Printing(op) && Merges(op) && Merges(c))
  {
    hide Precedence, Printing, Merges, Ordered;
    PrecedenceOf(op);
    PrecedenceOf(c);
    PrecedencesIncrease(Printing(c), Printing(op));
    PrecedencesIncrease(Printing(op), Printing(c));
    LevelOf(op);
    LevelOf(c);
  }

  lemma BareOutside(op: Op)
    requires OfTrees(op)
    ensures Bare(Sql(), op, FROM_CONTEXT) && Bare(Sql(), op, MAX_CONTEXT)
  {
    hide Precedence, Printing;
    PrecedenceOf(op);
    PrecedencesIncrease(Printing(op), Printing(op));
  }

  /** A first operand stands in parentheses unless the formatter takes its operator to bind as tight or tighter. */
  lemma FirstOperandText(op: Op, c: Op)
    requires OfTrees(op) && OfTrees(c)
    ensures WellFormed(Binary(op, Binary(c, A, B), C))
    ensures Print(Sql(), Binary(op, Binary(c, A, B), C), MAX_CONTEXT)
      == if Printing(c) < Printing(op) || (Printing(c) == Printing(op) && (!Merges(op) || Merges(c)))
         then [TName("a"), TOp(c), TName("b"), TOp(op), TName("c")]
         else [TOpen, TName("a"), TOp(c), TName("b"), TClose, TOp(op), TName("c")]
  {
    hide Bare, OperandContext, Printing, Merges;
    BareLeft(op, c);
    BareOutside(op);
    PairText(c, A, B, OperandContext(Sql(), op, 2, 0));
    PrintTwo(Sql(), op, Binary(c, A, B), C, MAX_CONTEXT);
  }

  /** A later one only stands without if its operator binds tighter, or both merge and bind alike. */
  lemma LaterOperandText(op: Op, c: Op)
    requires OfTrees(op) && OfTrees(c)
    ensures WellFormed(Binary(op, A, Binary(c, B, C)))
    ensures Print(Sql(), Binary(op, A, Binary(c, B, C)), MAX_CONTEXT)
      == if Printing(c) < Printing(op) || (Printing(c) == Printing(op) && Merges(op) && Merges(c))
         then [TName("a"), TOp(op), TName("b"), TOp(c), TName("c")]
         else [TName("a"), TOp(op), TOpen, TName("b"), TOp(c), TName("c"), TClose]
  {
    hide Bare, OperandContext, Printing, Merges;
    BareRight(op, c);
    BareOutside(op);
    PairText(c, B, C, OperandContext(Sql(), op, 2, 1));
    PrintTwo(Sql(), op, A, Binary(c, B, C), MAX_CONTEXT);
  }

  /** Two names and an operator, in any context. */
  lemma PairText(op: Op, x: Expr, y: Expr, context: int)
    requires OfTrees(op) && x.Name? && y.Name?
    ensures WellFormed(Binary(op, x, y))
    ensures Print(Sql(), Binary(op, x, y), context)
      == if Bare(Sql(), op, context) then [TName(x.id), TOp(op), TName(y.id)]
         else [TOpen, TName(x.id), TOp(op), TName(y.id), TClose]
  {
    hide Bare, OperandContext;
    var g := Sql();
    assert [x, y][..1] == [x];
    assert PrintJoined(g, op, [x], 2) == [TName(x.id)];
    assert PrintJoined(g, op, [x, y], 2) == [TName(x.id)] + [TOp(op)] + [TName(y.id)];
  }

  /** A test for NULL has no parentheses around it anywhere, and its operand unless that binds tighter. */
  lemma TestText(op: Op, c: Op, context: int)
    requires (op == Is || op == IsNot) && OfTrees(c)
    ensures var t := if op == Is then Missing(Binary(c, A, B)) else Exists(Binary(c, A, B));
      && WellFormed(t)
      && Print(Sql(), t, context)
         == (if Printing(c) < Printing(op) then [TName("a"), TOp(c), TName("b")]
             else [TOpen, TName("a"), TOp(c), TName("b"), TClose]) + [TOp(op), TNull]
  {
    hide Bare, OperandContext, Printing;
    BareTested(op, c);
    PairText(c, A, B, OperandContext(Sql(), op, 1, 0));
  }

  lemma BareTested(op: Op, c: Op)
    requires (op == Is || op == IsNot) && OfTrees(c)
    ensures Bare(Sql(), c, OperandContext(Sql(), op, 1, 0)) <==> Printing(c) < Printing(op)
  {
  }

  /** No parentheses are added around a whole expression, an argument, or a part of CASE. */
  lemma PlacesWithoutParentheses(op: Op, fn: string, context: int)
    requires OfTrees(op)
    ensures var e := Binary(op, A, B);
      var text := [TName("a"), TOp(op), TName("b")];
      && WellFormed(e)
      && Print(Sql(), e, MAX_CONTEXT) == text
      && Print(Sql(), Call(fn, [e, e]), context) == [TName(fn), TOpen] + text + [TComma] + text + [TClose]
      && Print(Sql(), Case([When(e, e)], Some(e)), context)
         == [TCase, TWhen] + text + [TThen] + text + [TElse] + text + [TEnd]
  {
    hide Bare, OperandContext;
    BareOutside(op);
    PairText(op, A, B, MAX_CONTEXT);
    PairText(op, A, B, FROM_CONTEXT);
    var e := Binary(op, A, B);
    ArgumentsText(fn, e, context);
    CaseText(e, context);
  }

  lemma ArgumentsText(fn: string, e: Expr, context: int)
    requires WellFormed(e)
    ensures Print(Sql(), Call(fn, [e, e]), context)
      == [TName(fn), TOpen] + Print(Sql(), e, FROM_CONTEXT) + [TComma] + Print(Sql(), e, FROM_CONTEXT) + [TClose]
  {
    assert [e, e][1..] == [e];
    assert PrintArgs(Sql(), [e]) == Print(Sql(), e, FROM_CONTEXT);
  }

  lemma CaseText(e: Expr, context: int)
    requires WellFormed(e)
    ensures var text := Print(Sql(), e, MAX_CONTEXT);
      Print(Sql(), Case([When(e, e)], Some(e)), context)
      == [TCase, TWhen] + text + [TThen] + text + [TElse] + text + [TEnd]
  {
    hide Bare, OperandContext, PrintJoined, Sql;
    WhenText(e);
    assert Print(Sql(), Case([When(e, e)], Some(e)), context)
        == [TCase] + PrintWhens(Sql(), [When(e, e)]) + ([TElse] + Print(Sql(), e, MAX_CONTEXT)) + [TEnd];
  }

  lemma WhenText(e: Expr)
    requires WellFormed(e)
    ensures var text := Print(Sql(), e, MAX_CONTEXT);
      PrintWhens(Sql(), [When(e, e)]) == [TWhen] + text + [TThen] + text
  {
    hide Print;
    assert [When(e, e)][1..] == [];
    assert PrintWhens(Sql(), []) == [];
    assert PrintWhens(Sql(), [When(e, e)]) == PrintWhen(Sql(), When(e, e)) + [];
  }
}
