/** The expression trees of mo_sql_parsing, and the operators the formatter prints as infix text. */
module Expressions {

  /**
    One constructor for each infix `Operator` attribute of the Formatter class (set operators apart),
    and the two that only occur in text: IS and IS NOT, which the parser takes for `=` and `<>` on
    levels of their own.
   */
  datatype Op =
    | Mul | Div | Mod | Add | Sub
    | BinaryAnd | BinaryOr
    | Gte | Lte | Lt | Gt
    | Eq | Neq
    | Like | ILike | NotLike | NotILike | RLike | NotRLike
    | And | Or
    | Is | IsNot

  /** The operator of the node built for an operator of the text. */
  function TreeOp(op: Op): Op {
    match op
    case Is => Eq
    case IsNot => Neq
    case _ => op
  }

  /** The operators that nodes are made of. */
  predicate OfTrees(op: Op) {
    op != Is && op != IsNot
  }

  datatype Option<+T> = None | Some(value: T)

  /**
    A parse tree after simplification. Name stands for any atom that prints as itself and is not
    NULL. Missing and Exists are the tests for NULL, built from a comparison with NULL.
   */
  datatype Expr =
    | Null
    | Name(id: string)
    | Call(fn: string, args: seq<Expr>)
    | Case(whens: seq<When>, els: Option<Expr>)
    | Infix(op: Op, operands: seq<Expr>)
    | Missing(arg: Expr)
    | Exists(arg: Expr)

  datatype When = When(cond: Expr, result: Expr)

  /**
    The two independent encodings of precedence. `prec` is the formatter's numeric table, in
    half steps (twice the number written there), so that its plus and minus 0.5 are plus and minus 1.
    `level` is the position in the parser's ordered level list, of length `depth`; an earlier level
    binds tighter. `ordered` is the flag given to Operator, `assoc` the set the parser flattens.
   */
  datatype Grammar = Grammar(
    prec: Op -> int,
    level: Op -> nat,
    depth: nat,
    ordered: Op -> bool,
    assoc: Op -> bool)
  {
    ghost predicate Valid() {
      && (forall op: Op :: level(op) < depth)
      && !assoc(Eq) && !assoc(Neq) && !assoc(Is) && !assoc(IsNot)
    }
  }

  /** The formatter takes a name with `from` in it for a query, and prints EXISTS before it. */
  predicate LooksLikeQuery(e: Expr) {
    e.Name? && Mentions(e.id, "from")
  }

  predicate Mentions(s: string, word: string) {
    word <= s || (s != "" && Mentions(s[1..], word))
  }

  lemma {:induction false} SubstringIsMentioned(a: string, word: string, b: string)
    ensures Mentions(a + word + b, word)
  {
    if a == "" {
      assert word <= a + word + b;
    } else {
      SubstringIsMentioned(a[1..], word, b);
      assert (a + word + b)[1..] == a[1..] + word + b;
    }
  }

  lemma {:induction false} MentionedSubstring(s: string, word: string) returns (a: string, b: string)
    requires Mentions(s, word)
    ensures s == a + word + b
  {
    a, b := "", "";
    if word <= s {
      b := s[|word|..];
    } else {
      a, b := MentionedSubstring(s[1..], word);
      a := [s[0]] + a;
    }
  }

  /** Exactly the names with those four letters in a row somewhere. */
  lemma QueriesMentionFrom(e: Expr)
    ensures LooksLikeQuery(e) <==> exists a, b :: e == Name(a + "from" + b)
  {
    if LooksLikeQuery(e) {
      var a, b := MentionedSubstring(e.id, "from");
      assert e == Name(a + "from" + b);
    }
    if a, b :| e == Name(a + "from" + b) {
      SubstringIsMentioned(a, "from", b);
    }
  }

  /** What the formatter prints as infix text: every operator has at least two operands. */
  predicate WellFormed(e: Expr) {
    match e
    case Null => true
    case Name(_) => true
    case Call(_, args) => forall a <- args :: WellFormed(a)
    case Case(whens, els) =>
      && (whens != [] || els.Some?)
      && (forall w <- whens :: WellFormed(w.cond) && WellFormed(w.result))
      && (els.Some? ==> WellFormed(els.value))
    case Infix(op, operands) =>
      OfTrees(op) && |operands| >= 2 && forall a <- operands :: WellFormed(a)
    case Missing(arg) => WellFormed(arg)
    case Exists(arg) => WellFormed(arg) && !LooksLikeQuery(arg)
  }

  /** The operator at the root of the text of a tree, if there is one outside parentheses or brackets. */
  function RootOp(e: Expr): Option<Op> {
    match e
    case Infix(op, _) => Some(op)
    case Missing(_) => Some(Is)
    case Exists(_) => Some(IsNot)
    case _ => None
  }

  function Binary(op: Op, a: Expr, b: Expr): Expr {
    Infix(op, [a, b])
  }

  /** The operands that `e` contributes to an enclosing node for `op`. */
  function Kids(op: Op, e: Expr): (r: seq<Expr>) {
    if e.Infix? && e.op == op then e.operands else [e]
  }

  /** The node for `op` over two operands, flattened when the parser treats `op` as associative. */
  function Join(g: Grammar, op: Op, left: Expr, right: Expr): Expr {
    if g.assoc(op) then Infix(op, Kids(op, left) + Kids(op, right)) else Infix(op, [left, right])
  }

  /**
    The tree with same-operator nests of the associative operators flattened, longer runs of the
    others nested to the left.
   */
  function Norm(g: Grammar, e: Expr): Expr
    decreases e, 0
  {
    match e
    case Null => e
    case Name(_) => e
    case Call(fn, args) => Call(fn, NormAll(g, args))
    case Case(whens, els) => Case(NormWhens(g, whens), if els.Some? then Some(Norm(g, els.value)) else None)
    case Infix(op, operands) => if operands == [] then e else NormRun(g, op, operands)
    case Missing(arg) => Missing(Norm(g, arg))
    case Exists(arg) => Exists(Norm(g, arg))
  }

  function NormAll(g: Grammar, es: seq<Expr>): (r: seq<Expr>)
    ensures |r| == |es|
    ensures forall i :: 0 <= i < |es| ==> r[i] == Norm(g, es[i])
    decreases es
  {
    if es == [] then [] else [Norm(g, es[0])] + NormAll(g, es[1..])
  }

  function NormWhen(g: Grammar, w: When): When
    decreases w, 0
  {
    When(Norm(g, w.cond), Norm(g, w.result))
  }

  function NormWhens(g: Grammar, ws: seq<When>): (r: seq<When>)
    ensures |r| == |ws|
    ensures forall i :: 0 <= i < |ws| ==> r[i] == NormWhen(g, ws[i])
    decreases ws
  {
    if ws == [] then [] else [NormWhen(g, ws[0])] + NormWhens(g, ws[1..])
  }

  function NormRun(g: Grammar, op: Op, es: seq<Expr>): Expr
    requires es != []
    decreases es
  {
    var n := |es| - 1;
    if n == 0 then Norm(g, es[0]) else Join(g, op, NormRun(g, op, es[..n]), Norm(g, es[n]))
  }
}
