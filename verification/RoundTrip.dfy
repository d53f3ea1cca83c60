/**
  The infix printer against the infix parser, for every precedence table, level list, set of
  ordered operators and set of flattening operators: printing and parsing a tree gives its flat form
  exactly when the parentheses of the printed text suffice.
 */
module RoundTrip {
  import opened Expressions
  import opened Chains
  import opened Engine
  import opened Syntax
  import opened Printer
  import opened Uniqueness

  /* ---------- the parser ---------- */

  /** The tree of a run: operators are reduced level by level, and comparisons with NULL become tests. */
  function Eval(g: Grammar, c: Run): Value
    decreases c, 1
  {
    Reduce(g, 0, Values(g, c))
  }

  function Values(g: Grammar, c: Run): Chain<Op, Value>
    decreases c, 0
  {
    Chain(EvalOperand(g, c.first), EvalLinks(g, c.rest))
  }

  function EvalLinks(g: Grammar, links: seq<Link<Op, Operand>>): (r: seq<Link<Op, Value>>)
    ensures |r| == |links|
    ensures forall i :: 0 <= i < |links| ==> r[i] == EvalLink(g, links[i])
    decreases links
  {
    if links == [] then [] else [EvalLink(g, links[0])] + EvalLinks(g, links[1..])
  }

  function EvalLink(g: Grammar, l: Link<Op, Operand>): Link<Op, Value>
    decreases l, 0
  {
    Link(l.op, EvalOperand(g, l.item))
  }

  function EvalOperand(g: Grammar, o: Operand): Value
    decreases o, 0
  {
    match o
    case NullTerm => Plain(Null)
    case NameTerm(id) => Plain(Name(id))
    case CallTerm(fn, args) => Plain(Call(fn, EvalArgs(g, args)))
    case CaseTerm(whens, els) =>
      Plain(Case(EvalWhens(g, whens),
        if els.Some? then Some(Strip(Eval(g, els.value))) else None))
    case Paren(inner) => Group(Eval(g, inner))
  }

  function EvalArgs(g: Grammar, args: seq<Run>): (r: seq<Expr>)
    ensures |r| == |args|
    decreases args
  {
    if args == [] then [] else [Strip(Eval(g, args[0]))] + EvalArgs(g, args[1..])
  }

  function EvalWhens(g: Grammar, bs: seq<Branch>): (r: seq<When>)
    ensures |r| == |bs|
    decreases bs
  {
    if bs == [] then [] else [EvalWhen(g, bs[0])] + EvalWhens(g, bs[1..])
  }

  function EvalWhen(g: Grammar, b: Branch): When
    decreases b, 0
  {
    When(Strip(Eval(g, b.cond)), Strip(Eval(g, b.result)))
  }

  function Parse(g: Grammar, ts: seq<Token>): Option<Expr> {
    var r := ParseRun(ts);
    if r.Ok? && r.rest == [] then Some(Strip(Eval(g, r.value))) else None
  }

  /* ---------- the condition ---------- */

  /** The operators left outside all parentheses in the text of `e`. */
  ghost function Exposed(g: Grammar, e: Expr, context: int): set<Op>
    decreases e, 0
  {
    match e
    case Infix(op, operands) =>
      if operands != [] && Bare(g, op, context) then ExposedJoined(g, op, operands, |operands|) else {}
    case Missing(arg) => Exposed(g, arg, OperandContext(g, Is, 1, 0)) + {Is}
    case Exists(arg) => Exposed(g, arg, OperandContext(g, IsNot, 1, 0)) + {IsNot}
    case _ => {}
  }

  ghost function ExposedJoined(g: Grammar, op: Op, es: seq<Expr>, n: nat): set<Op>
    requires es != []
    decreases es
  {
    var k := |es| - 1;
    Exposed(g, es[k], OperandContext(g, op, n, k))
      + if k == 0 then {} else ExposedJoined(g, op, es[..k], n) + {op}
  }

  /** Operand `i` of `n` of `op`, as printed, is read back as that operand. */
  ghost predicate Fits(g: Grammar, op: Op, n: nat, i: nat, e: Expr) {
    forall o <- Exposed(g, e, OperandContext(g, op, n, i)) ::
      if i == 0 then g.level(o) <= g.level(op)
      else g.level(o) < g.level(op) || (o == op && g.assoc(op))
  }

  ghost predicate Safe(g: Grammar, e: Expr) {
    match e
    case Call(_, args) => forall a <- args :: Safe(g, a)
    case Case(whens, els) =>
      && (forall w <- whens :: Safe(g, w.cond) && Safe(g, w.result))
      && (els.Some? ==> Safe(g, els.value))
    case Infix(op, operands) =>
      && (forall a <- operands :: Safe(g, a))
      && forall i :: 0 <= i < |operands| ==> Fits(g, op, |operands|, i, operands[i])
    case Missing(arg) => Safe(g, arg) && Fits(g, Is, 1, 0, arg)
    case Exists(arg) => Safe(g, arg) && Fits(g, IsNot, 1, 0, arg)
    case _ => true
  }

  /** No comparison by `=` or `<>` has NULL itself as an operand. */
  ghost predicate NullSafe(e: Expr) {
    match e
    case Call(_, args) => forall a <- args :: NullSafe(a)
    case Case(whens, els) =>
      && (forall w <- whens :: NullSafe(w.cond) && NullSafe(w.result))
      && (els.Some? ==> NullSafe(els.value))
    case Infix(op, operands) =>
      && (forall a <- operands :: NullSafe(a))
      && (op == Eq || op == Neq ==> Null !in operands)
    case Missing(arg) => NullSafe(arg)
    case Exists(arg) => NullSafe(arg)
    case _ => true
  }

  /* ---------- the text of a safe tree is read back ---------- */

  lemma EvalLinksAppend(g: Grammar, a: seq<Link<Op, Operand>>, b: seq<Link<Op, Operand>>)
    ensures EvalLinks(g, a + b) == EvalLinks(g, a) + EvalLinks(g, b)
  {
  }

  lemma ValuesGlue(g: Grammar, a: Run, op: Op, b: Run)
    ensures Values(g, Glue(a, op, b)) == Glue(Values(g, a), op, Values(g, b))
  {
    var l := Link(op, b.first);
    EvalLinksAppend(g, a.rest + [l], b.rest);
    EvalLinksAppend(g, a.rest, [l]);
    assert [l][1..] == [];
  }

  lemma EvalIsTree(g: Grammar, c: Run)
    requires g.Valid()
    ensures Eval(g, c) == Tree(g, Values(g, c))
  {
    ReduceIsTree(g, Values(g, c));
  }

  lemma EvalSingle(g: Grammar, o: Operand)
    requires g.Valid()
    ensures Eval(g, Chain(o, [])) == EvalOperand(g, o)
  {
    EvalIsTree(g, Chain(o, []));
  }

  lemma ValuesKeepLevels(g: Grammar, c: Run, op: Op)
    ensures AtMost(g, c, g.level(op)) == AtMost(g, Values(g, c), g.level(op))
    ensures Below(g, c, g.level(op)) == Below(g, Values(g, c), g.level(op))
    ensures FitsRight(g, c, op) == FitsRight(g, Values(g, c), op)
  {
  }

  ghost function OpsOf<V>(c: Chain<Op, V>): set<Op> {
    set i | 0 <= i < |c.rest| :: c.rest[i].op
  }

  lemma OpsOfGlue<V>(a: Chain<Op, V>, op: Op, b: Chain<Op, V>)
    ensures OpsOf(Glue(a, op, b)) == OpsOf(a) + {op} + OpsOf(b)
  {
    var c := Glue(a, op, b);
    assert forall i :: 0 <= i < |a.rest| ==> c.rest[i] == a.rest[i];
    assert c.rest[|a.rest|].op == op;
    assert forall i :: 0 <= i < |b.rest| ==> c.rest[|a.rest| + 1 + i] == b.rest[i];
  }

  /** The links of a printed run carry exactly the exposed operators. */
  lemma {:induction false} LinksAreExposed(g: Grammar, e: Expr, context: int)
    requires WellFormed(e)
    ensures OpsOf(Lay(g, e, context)) == Exposed(g, e, context)
    decreases e, 1
  {
    match e
    case Infix(op, operands) =>
      if Bare(g, op, context) {
        JoinedLinksAreExposed(g, op, operands, |operands|);
      }
    case Missing(arg) =>
      LinksAreExposed(g, arg, OperandContext(g, Is, 1, 0));
      OpsOfGlue(Lay(g, arg, OperandContext(g, Is, 1, 0)), Is, NULL_TERM);
    case Exists(arg) =>
      LinksAreExposed(g, arg, OperandContext(g, IsNot, 1, 0));
      OpsOfGlue(Lay(g, arg, OperandContext(g, IsNot, 1, 0)), IsNot, NULL_TERM);
    case _ =>
  }

  lemma {:induction false} JoinedLinksAreExposed(g: Grammar, op: Op, es: seq<Expr>, n: nat)
    requires es != [] && forall e <- es :: WellFormed(e)
    ensures OpsOf(LayJoined(g, op, es, n)) == ExposedJoined(g, op, es, n)
    decreases es
  {
    hide Lay, Exposed, OpsOf, Glue, Bare, WellFormed;
    var k := |es| - 1;
    LinksAreExposed(g, es[k], OperandContext(g, op, n, k));
    if k > 0 {
      JoinedLinksAreExposed(g, op, es[..k], n);
      OpsOfGlue(LayJoined(g, op, es[..k], n), op, Lay(g, es[k], OperandContext(g, op, n, k)));
    }
  }

  lemma FitsIsFitting(g: Grammar, op: Op, n: nat, i: nat, e: Expr)
    requires WellFormed(e)
    ensures var c := Lay(g, e, OperandContext(g, op, n, i));
      Fits(g, op, n, i, e) <==> if i == 0 then AtMost(g, c, g.level(op)) else FitsRight(g, c, op)
  {
    hide Lay, Exposed, WellFormed, OperandContext;
    var c := Lay(g, e, OperandContext(g, op, n, i));
    LinksAreExposed(g, e, OperandContext(g, op, n, i));
    assert forall j :: 0 <= j < |c.rest| ==> c.rest[j].op in OpsOf(c);
  }

  lemma {:induction false} ReadBack(g: Grammar, e: Expr, context: int)
    requires g.Valid() && WellFormed(e) && Safe(g, e) && NullSafe(e)
    ensures Strip(Eval(g, Lay(g, e, context))) == Norm(g, e)
    decreases e, 1
  {
    hide Eval, Fits, Tree;
    EvalSingle(g, Lay(g, e, context).first);
    match e
    case Null =>
    case Name(_) =>
    case Call(_, args) => ReadBackArgs(g, args);
    case Case(whens, els) =>
      ReadBackWhens(g, whens);
      if els.Some? {
        ReadBack(g, els.value, MAX_CONTEXT);
      }
    case Infix(op, operands) =>
      ReadBackJoined(g, op, operands, |operands|);
    case Missing(arg) =>
      ReadBack(g, arg, OperandContext(g, Is, 1, 0));
      TestReads(g, Is, arg);
    case Exists(arg) =>
      ReadBack(g, arg, OperandContext(g, IsNot, 1, 0));
      TestReads(g, IsNot, arg);
  }

  /** The text of a test on something that fits and reads as `arg`. */
  lemma TestReads(g: Grammar, op: Op, arg: Expr)
    requires g.Valid() && !OfTrees(op) && WellFormed(arg) && Fits(g, op, 1, 0, arg)
    ensures var c := Lay(g, arg, OperandContext(g, op, 1, 0));
      Strip(Eval(g, Glue(c, op, NULL_TERM))) == Tested(op, Strip(Eval(g, c)))
  {
    hide Eval, Lay, Fits;
    FitsIsFitting(g, op, 1, 0, arg);
    GlueReads(g, Lay(g, arg, OperandContext(g, op, 1, 0)), op, NULL_TERM);
    NullReads(g);
  }

  lemma NullReads(g: Grammar)
    requires g.Valid()
    ensures Values(g, NULL_TERM) == NULL_RUN && Eval(g, NULL_TERM) == Plain(Null)
  {
    EvalSingle(g, NullTerm);
  }

  lemma {:induction false} ReadBackArgs(g: Grammar, args: seq<Expr>)
    requires g.Valid() && forall a <- args :: WellFormed(a) && Safe(g, a) && NullSafe(a)
    ensures EvalArgs(g, LayArgs(g, args)) == NormAll(g, args)
    decreases args
  {
    if args != [] {
      ReadBack(g, args[0], FROM_CONTEXT);
      ReadBackArgs(g, args[1..]);
    }
  }

  ghost predicate WhenSafe(g: Grammar, w: When) {
    && Safe(g, w.cond) && NullSafe(w.cond)
    && Safe(g, w.result) && NullSafe(w.result)
  }

  lemma {:induction false} ReadBackWhens(g: Grammar, ws: seq<When>)
    requires g.Valid() && forall w <- ws :: WellFormed(w.cond) && WellFormed(w.result) && WhenSafe(g, w)
    ensures EvalWhens(g, LayWhens(g, ws)) == NormWhens(g, ws)
    decreases ws
  {
    if ws != [] {
      ReadBackWhen(g, ws[0]);
      ReadBackWhens(g, ws[1..]);
    }
  }

  lemma {:induction false} ReadBackWhen(g: Grammar, w: When)
    requires g.Valid() && WellFormed(w.cond) && WellFormed(w.result) && WhenSafe(g, w)
    ensures EvalWhen(g, LayWhen(g, w)) == NormWhen(g, w)
    decreases w, 1
  {
    ReadBack(g, w.cond, MAX_CONTEXT);
    ReadBack(g, w.result, MAX_CONTEXT);
  }

  lemma {:induction false} ReadBackJoined(g: Grammar, op: Op, es: seq<Expr>, n: nat)
    requires g.Valid() && es != [] && OfTrees(op)
    requires forall e <- es :: WellFormed(e) && Safe(g, e) && NullSafe(e)
    requires forall i :: 0 <= i < |es| ==> Fits(g, op, n, i, es[i])
    requires op == Eq || op == Neq ==> Null !in es
    ensures AtMost(g, LayJoined(g, op, es, n), g.level(op))
    ensures Strip(Eval(g, LayJoined(g, op, es, n))) == NormRun(g, op, es)
    decreases es
  {
    hide Eval, Fits, Lay, Norm, Safe, NullSafe, AtMost, FitsRight, Glue, Combine, Join;
    var k := |es| - 1;
    var r := Lay(g, es[k], OperandContext(g, op, n, k));
    ReadBack(g, es[k], OperandContext(g, op, n, k));
    FitsIsFitting(g, op, n, k, es[k]);
    if k > 0 {
      var l := LayJoined(g, op, es[..k], n);
      ReadBackJoined(g, op, es[..k], n);
      GlueReads(g, l, op, r);
      RunNotNull(g, op, es[..k]);
      NotNull(g, es[k]);
      CombineIsJoin(g, op, Eval(g, l), Eval(g, r));
    }
  }

  lemma CombineIsJoin(g: Grammar, op: Op, left: Value, right: Value)
    requires OfTrees(op) && (op == Eq || op == Neq ==> Strip(left) != Null && Strip(right) != Null)
    ensures Combine(g, op, left, right) == Join(g, op, Strip(left), Strip(right))
  {
  }

  lemma RunNotNull(g: Grammar, op: Op, es: seq<Expr>)
    requires es != [] && forall e <- es :: WellFormed(e)
    ensures NormRun(g, op, es) == Null ==> Null in es
  {
    if |es| == 1 {
      NotNull(g, es[0]);
      assert es[0] in es;
    }
  }

  /** A fitting pair of runs reads as the node over what the two parts read as, NULL comparisons apart. */
  lemma GlueReads(g: Grammar, l: Run, op: Op, r: Run)
    requires g.Valid() && AtMost(g, l, g.level(op)) && FitsRight(g, r, op)
    ensures AtMost(g, Glue(l, op, r), g.level(op))
    ensures Eval(g, Glue(l, op, r)) == Plain(Combine(g, op, Eval(g, l), Eval(g, r)))
  {
    EvalIsTree(g, l);
    EvalIsTree(g, r);
    EvalIsTree(g, Glue(l, op, r));
    ValuesGlue(g, l, op, r);
    ValuesKeepLevels(g, l, op);
    ValuesKeepLevels(g, r, op);
    SplitFits(g, Values(g, l), op, Values(g, r));
    GlueAtMostFits(g, l, op, r);
  }

  lemma NotNull(g: Grammar, e: Expr)
    requires WellFormed(e)
    ensures Norm(g, e) == Null <==> e == Null
  {
  }

  /* ---------- a tree whose text is read back is safe ---------- */

  lemma {:induction false} RunFlat(g: Grammar, c: Run)
    requires g.Valid()
    ensures ItemsFlat(g, Values(g, c))
    ensures Flat(g, Strip(Eval(g, c)))
    decreases c, 1
  {
    OperandFlat(g, c.first);
    LinksFlat(g, c.rest);
    EvalIsTree(g, c);
    TreeWidth(g, Values(g, c));
  }

  lemma {:induction false} LinksFlat(g: Grammar, links: seq<Link<Op, Operand>>)
    requires g.Valid()
    ensures forall i :: 0 <= i < |links| ==> Flat(g, Strip(EvalLink(g, links[i]).item))
    decreases links
  {
    if links != [] {
      LinkFlat(g, links[0]);
      LinksFlat(g, links[1..]);
    }
  }

  lemma {:induction false} LinkFlat(g: Grammar, l: Link<Op, Operand>)
    requires g.Valid()
    ensures Flat(g, Strip(EvalLink(g, l).item))
    decreases l, 2
  {
    OperandFlat(g, l.item);
  }

  lemma {:induction false} OperandFlat(g: Grammar, o: Operand)
    requires g.Valid()
    ensures Flat(g, Strip(EvalOperand(g, o)))
    decreases o, 1
  {
    if o.Paren? {
      RunFlat(g, o.inner);
    }
  }

  lemma {:induction false} NormFlat(g: Grammar, e: Expr)
    requires WellFormed(e)
    ensures Flat(g, Norm(g, e))
    decreases e, 1
  {
    match e
    case Infix(op, operands) => NormRunFlat(g, op, operands);
    case Missing(arg) => NormFlat(g, arg);
    case Exists(arg) => NormFlat(g, arg);
    case _ =>
  }

  lemma {:induction false} NormRunFlat(g: Grammar, op: Op, es: seq<Expr>)
    requires es != [] && forall e <- es :: WellFormed(e)
    ensures Flat(g, NormRun(g, op, es))
    decreases es
  {
    var k := |es| - 1;
    NormFlat(g, es[k]);
    if k > 0 {
      NormRunFlat(g, op, es[..k]);
      JoinFlat(g, op, NormRun(g, op, es[..k]), Norm(g, es[k]));
    }
  }

  /** Printing never changes the number of operands. */
  lemma {:induction false} PrintKeepsWidth(g: Grammar, e: Expr, context: int)
    requires g.Valid() && WellFormed(e)
    ensures Width(Values(g, Lay(g, e, context))) == Leaves(Norm(g, e))
    decreases e, 1
  {
    hide Tree, Eval, ItemsFlat, Flat, Width;
    match e
    case Infix(op, operands) =>
      var c := LayJoined(g, op, operands, |operands|);
      EvalIsTree(g, c);
      PrintJoinedKeepsWidth(g, op, operands, |operands|);
      RunFlat(g, c);
      TreeWidth(g, Values(g, c));
      SingleWidth(g, Lay(g, e, context));
    case Missing(arg) =>
      PrintKeepsWidth(g, arg, OperandContext(g, Is, 1, 0));
      TestWidth(g, Lay(g, arg, OperandContext(g, Is, 1, 0)), Is);
    case Exists(arg) =>
      PrintKeepsWidth(g, arg, OperandContext(g, IsNot, 1, 0));
      TestWidth(g, Lay(g, arg, OperandContext(g, IsNot, 1, 0)), IsNot);
    case _ => SingleWidth(g, Lay(g, e, context));
  }

  lemma SingleWidth(g: Grammar, c: Run)
    ensures c.rest == [] ==> Width(Values(g, c)) == Leaves(Strip(EvalOperand(g, c.first)))
  {
  }

  lemma TestWidth(g: Grammar, c: Run, op: Op)
    ensures Width(Values(g, Glue(c, op, NULL_TERM))) == Width(Values(g, c)) + 1
  {
    hide Width;
    ValuesGlue(g, c, op, NULL_TERM);
    WidthGlue(Values(g, c), op, Values(g, NULL_TERM));
    SingleWidth(g, NULL_TERM);
  }

  lemma {:induction false} PrintJoinedKeepsWidth(g: Grammar, op: Op, es: seq<Expr>, n: nat)
    requires g.Valid() && es != [] && forall e <- es :: WellFormed(e)
    ensures Width(Values(g, LayJoined(g, op, es, n))) == Leaves(NormRun(g, op, es))
    decreases es
  {
    var k := |es| - 1;
    var r := Lay(g, es[k], OperandContext(g, op, n, k));
    PrintKeepsWidth(g, es[k], OperandContext(g, op, n, k));
    if k > 0 {
      var l := LayJoined(g, op, es[..k], n);
      PrintJoinedKeepsWidth(g, op, es[..k], n);
      ValuesGlue(g, l, op, r);
      WidthGlue(Values(g, l), op, Values(g, r));
      NormRunFlat(g, op, es[..k]);
      NormFlat(g, es[k]);
      JoinFlat(g, op, NormRun(g, op, es[..k]), Norm(g, es[k]));
    }
  }

  /* ---------- no parsed tree starts with NULL compared ---------- */

  /** The leftmost operand outside calls and CASE is NULL, compared by `=` or `<>`. */
  predicate StartsCompared(e: Expr) {
    match e
    case Infix(op, operands) =>
      operands != [] && if operands[0] == Null then op == Eq || op == Neq else StartsCompared(operands[0])
    case Missing(arg) => StartsCompared(arg)
    case Exists(arg) => StartsCompared(arg)
    case _ => false
  }

  predicate Sound(v: Value) {
    !StartsCompared(Strip(v)) && (Strip(v) == Null ==> v == Plain(Null))
  }

  ghost predicate ItemsSound(c: Chain<Op, Value>) {
    Sound(c.first) && forall i :: 0 <= i < |c.rest| ==> Sound(c.rest[i].item)
  }

  lemma StartsJoined(g: Grammar, op: Op, a: Expr, b: Expr)
    requires g.Valid() && a != Null && Kids(op, a) != []
    ensures StartsCompared(Join(g, op, a, b)) <==> StartsCompared(a)
  {
    assert (Kids(op, a) + Kids(op, b))[0] == Kids(op, a)[0];
  }

  lemma CombineSound(g: Grammar, op: Op, left: Value, right: Value)
    requires g.Valid() && Sound(left) && Sound(right)
    ensures !StartsCompared(Combine(g, op, left, right)) && Combine(g, op, left, right) != Null
  {
  }

  lemma {:induction false} TreeSound(g: Grammar, c: Chain<Op, Value>)
    requires g.Valid() && ItemsSound(c)
    ensures Sound(Tree(g, c)) && (c.rest != [] ==> Strip(Tree(g, c)) != Null)
    decreases |c.rest|
  {
    hide Sound, Combine;
    if c.rest != [] {
      var i := Loosest(g, c.rest);
      TreeSound(g, LeftOf(c, i));
      TreeSound(g, RightOf(c, i));
      CombineSound(g, c.rest[i].op, Tree(g, LeftOf(c, i)), Tree(g, RightOf(c, i)));
      PlainSound(Combine(g, c.rest[i].op, Tree(g, LeftOf(c, i)), Tree(g, RightOf(c, i))));
      TreeUnfolds(g, c, i);
    }
  }

  lemma PlainSound(e: Expr)
    requires !StartsCompared(e)
    ensures Sound(Plain(e))
  {
  }

  /** Parentheses stand only around operators. */
  predicate Needed(o: Operand) {
    o.Paren? ==> o.inner.rest != [] && AllNeeded(o.inner)
  }

  predicate AllNeeded(c: Run)
    decreases c
  {
    Needed(c.first) && forall l <- c.rest :: Needed(l.item)
  }

  lemma {:induction false} RunSound(g: Grammar, c: Run)
    requires g.Valid() && AllNeeded(c)
    ensures ItemsSound(Values(g, c))
    ensures Sound(Eval(g, c)) && (c.rest != [] ==> Strip(Eval(g, c)) != Null)
    decreases c
  {
    hide Sound, Eval, EvalOperand, Tree;
    OperandSound(g, c.first);
    forall i | 0 <= i < |c.rest| ensures Sound(EvalLinks(g, c.rest)[i].item) {
      assert c.rest[i] in c.rest;
      OperandSound(g, c.rest[i].item);
    }
    EvalIsTree(g, c);
    TreeSound(g, Values(g, c));
  }

  lemma {:induction false} OperandSound(g: Grammar, o: Operand)
    requires g.Valid() && Needed(o)
    ensures Sound(EvalOperand(g, o))
    decreases o
  {
    if o.Paren? {
      RunSound(g, o.inner);
    }
  }

  lemma NeededGlue(a: Run, op: Op, b: Run)
    requires AllNeeded(a) && AllNeeded(b)
    ensures AllNeeded(Glue(a, op, b))
  {
    hide Needed;
  }

  lemma {:induction false} PrintedNeeded(g: Grammar, e: Expr, context: int)
    requires WellFormed(e)
    ensures AllNeeded(Lay(g, e, context))
    decreases e, 1
  {
    match e
    case Infix(op, operands) => JoinedNeeded(g, op, operands, |operands|);
    case Missing(arg) =>
      PrintedNeeded(g, arg, OperandContext(g, Is, 1, 0));
      NeededGlue(Lay(g, arg, OperandContext(g, Is, 1, 0)), Is, NULL_TERM);
    case Exists(arg) =>
      PrintedNeeded(g, arg, OperandContext(g, IsNot, 1, 0));
      NeededGlue(Lay(g, arg, OperandContext(g, IsNot, 1, 0)), IsNot, NULL_TERM);
    case _ =>
  }

  lemma {:induction false} JoinedNeeded(g: Grammar, op: Op, es: seq<Expr>, n: nat)
    requires es != [] && forall e <- es :: WellFormed(e)
    ensures AllNeeded(LayJoined(g, op, es, n)) && (|es| > 1 ==> LayJoined(g, op, es, n).rest != [])
    decreases es
  {
    hide AllNeeded, Needed;
    var k := |es| - 1;
    PrintedNeeded(g, es[k], OperandContext(g, op, n, k));
    if k > 0 {
      JoinedNeeded(g, op, es[..k], n);
      NeededGlue(LayJoined(g, op, es[..k], n), op, Lay(g, es[k], OperandContext(g, op, n, k)));
    }
  }

  /** The text starts with `NULL =` or `NULL <>`. */
  predicate TextCompared(c: Run) {
    c.rest != [] && c.first == NullTerm && (c.rest[0].op == Eq || c.rest[0].op == Neq)
  }

  /** Then the tree does. */
  lemma {:induction false} PrintedStart(g: Grammar, e: Expr, context: int)
    requires g.Valid() && WellFormed(e) && TextCompared(Lay(g, e, context))
    ensures StartsCompared(Norm(g, e))
    decreases e, 1
  {
    match e
    case Infix(op, operands) => JoinedStart(g, op, operands, |operands|);
    case Missing(arg) => PrintedStart(g, arg, OperandContext(g, Is, 1, 0));
    case Exists(arg) => PrintedStart(g, arg, OperandContext(g, IsNot, 1, 0));
  }

  lemma {:induction false} JoinedStart(g: Grammar, op: Op, es: seq<Expr>, n: nat)
    requires g.Valid() && es != [] && forall e <- es :: WellFormed(e)
    requires TextCompared(LayJoined(g, op, es, n))
    ensures StartsCompared(NormRun(g, op, es))
    decreases es
  {
    hide Norm, StartsCompared;
    var k := |es| - 1;
    if k == 0 {
      PrintedStart(g, es[0], OperandContext(g, op, n, 0));
    } else {
      var l := LayJoined(g, op, es[..k], n);
      NormRunFlat(g, op, es[..k]);
      if l.rest == [] {
        JoinedNeeded(g, op, es[..k], n);
        assert k == 1 && es[..k] == [es[0]];
        NullAlone(g, es[0], OperandContext(g, op, n, 0));
        NullCompared(g, op, Norm(g, es[1]));
      } else {
        JoinedStart(g, op, es[..k], n);
        NotNullStart(NormRun(g, op, es[..k]));
        KidsNotEmpty(g, op, NormRun(g, op, es[..k]));
        StartsJoined(g, op, NormRun(g, op, es[..k]), Norm(g, es[k]));
      }
    }
  }

  lemma NullAlone(g: Grammar, e: Expr, context: int)
    requires WellFormed(e) && Lay(g, e, context).rest == [] && Lay(g, e, context).first == NullTerm
    ensures e == Null && Norm(g, e) == Null
  {
    if e.Infix? {
      JoinedNeeded(g, e.op, e.operands, |e.operands|);
    }
  }

  lemma NullCompared(g: Grammar, op: Op, b: Expr)
    requires g.Valid() && (op == Eq || op == Neq)
    ensures StartsCompared(Join(g, op, Null, b))
  {
  }

  lemma NotNullStart(e: Expr)
    requires StartsCompared(e)
    ensures e != Null
  {
  }

  lemma KidsNotEmpty(g: Grammar, op: Op, e: Expr)
    requires Flat(g, e)
    ensures Kids(op, e) != []
  {
  }

  /** What the text of `e` is read as does not start with NULL compared, whatever `e` is. */
  lemma ReadSound(g: Grammar, e: Expr, context: int)
    requires g.Valid() && WellFormed(e)
    ensures !StartsCompared(Strip(Eval(g, Lay(g, e, context))))
  {
    PrintedNeeded(g, e, context);
    RunSound(g, Lay(g, e, context));
  }

  /* ---------- a tree whose text is read back is safe ---------- */

  lemma {:induction false} SafeIfReadBack(g: Grammar, e: Expr, context: int)
    requires g.Valid() && WellFormed(e)
    requires Strip(Eval(g, Lay(g, e, context))) == Norm(g, e)
    ensures Safe(g, e) && NullSafe(e)
    decreases e, 1
  {
    hide Eval, Tree, Fits;
    EvalSingle(g, Lay(g, e, context).first);
    match e
    case Null =>
    case Name(_) =>
    case Call(_, args) => SafeArgs(g, args);
    case Case(whens, els) =>
      SafeWhens(g, whens);
      if els.Some? {
        SafeIfReadBack(g, els.value, MAX_CONTEXT);
      }
    case Infix(op, operands) => SafeJoined(g, op, operands, |operands|);
    case Missing(arg) =>
      TestSafe(g, e, Is, arg, context);
      SafeIfReadBack(g, arg, OperandContext(g, Is, 1, 0));
    case Exists(arg) =>
      TestSafe(g, e, IsNot, arg, context);
      SafeIfReadBack(g, arg, OperandContext(g, IsNot, 1, 0));
  }

  /** A test that is read back is on something that fits and is read back. */
  lemma TestLaid(g: Grammar, e: Expr, op: Op, arg: Expr, context: int)
    requires WellFormed(e) && WellFormed(arg) && !OfTrees(op) && e == Tested(op, arg)
    ensures Norm(g, e) == Tested(op, Norm(g, arg))
    ensures Lay(g, e, context) == Glue(Lay(g, arg, OperandContext(g, op, 1, 0)), op, NULL_TERM)
  {
    hide OperandContext, Glue;
  }

  lemma TestStart(g: Grammar, e: Expr, op: Op, arg: Expr, context: int)
    requires g.Valid() && WellFormed(e) && WellFormed(arg) && !OfTrees(op) && e == Tested(op, arg)
    requires Strip(Eval(g, Lay(g, e, context))) == Norm(g, e)
    ensures !StartsLikeTest(Values(g, Lay(g, arg, OperandContext(g, op, 1, 0))), op)
  {
    hide Eval, Norm, Values, OperandContext, StartsLikeTest;
    var c := Lay(g, arg, OperandContext(g, op, 1, 0));
    TestLaid(g, e, op, arg, context);
    hide Lay;
    ReadSound(g, e, context);
    if TextCompared(c) {
      PrintedStart(g, arg, OperandContext(g, op, 1, 0));
    }
    StartOfValues(g, c, op);
  }

  lemma TestSafe(g: Grammar, e: Expr, op: Op, arg: Expr, context: int)
    requires g.Valid() && WellFormed(e) && WellFormed(arg) && !OfTrees(op) && e == Tested(op, arg)
    requires Strip(Eval(g, Lay(g, e, context))) == Norm(g, e)
    ensures Fits(g, op, 1, 0, arg)
    ensures Strip(Eval(g, Lay(g, arg, OperandContext(g, op, 1, 0)))) == Norm(g, arg)
  {
    hide Eval, Fits, Width, Flat, Leaves, StartsLikeTest, Values, Tree, OperandContext, ItemsFlat, AtMost, OfTrees;
    var c := Lay(g, arg, OperandContext(g, op, 1, 0));
    var v := Values(g, c);
    TestLaid(g, e, op, arg, context);
    TestStart(g, e, op, arg, context);
    hide Lay, Norm, Tested, WellFormed;
    EvalIsTree(g, Glue(c, op, NULL_TERM));
    EvalIsTree(g, c);
    ValuesGlue(g, c, op, NULL_TERM);
    NullReads(g);
    RunFlat(g, c);
    PrintKeepsWidth(g, arg, OperandContext(g, op, 1, 0));
    CutTest(g, v, op, Norm(g, arg));
    ValuesKeepLevels(g, c, op);
    FitsIsFitting(g, op, 1, 0, arg);
  }

  lemma StartOfValues(g: Grammar, c: Run, op: Op)
    requires !OfTrees(op)
    ensures StartsLikeTest(Values(g, c), op) ==> TextCompared(c)
  {
    assert Values(g, c).first == EvalOperand(g, c.first);
    assert EvalOperand(g, c.first) == Plain(Null) ==> c.first == NullTerm;
  }

  lemma {:induction false} SafeArgs(g: Grammar, args: seq<Expr>)
    requires g.Valid() && forall a <- args :: WellFormed(a)
    requires EvalArgs(g, LayArgs(g, args)) == NormAll(g, args)
    ensures forall a <- args :: Safe(g, a) && NullSafe(a)
    decreases args
  {
    if args != [] {
      SafeIfReadBack(g, args[0], FROM_CONTEXT);
      SafeArgs(g, args[1..]);
    }
  }

  lemma {:induction false} SafeWhens(g: Grammar, ws: seq<When>)
    requires g.Valid() && forall w <- ws :: WellFormed(w.cond) && WellFormed(w.result)
    requires EvalWhens(g, LayWhens(g, ws)) == NormWhens(g, ws)
    ensures forall w <- ws :: WhenSafe(g, w)
    decreases ws
  {
    hide EvalWhen, LayWhen, NormWhen, WhenSafe;
    if ws != [] {
      assert EvalWhens(g, LayWhens(g, ws))[0] == NormWhens(g, ws)[0];
      SafeWhen(g, ws[0]);
      assert EvalWhens(g, LayWhens(g, ws))[1..] == NormWhens(g, ws)[1..];
      SafeWhens(g, ws[1..]);
    }
  }

  lemma {:induction false} SafeWhen(g: Grammar, w: When)
    requires g.Valid() && WellFormed(w.cond) && WellFormed(w.result)
    requires EvalWhen(g, LayWhen(g, w)) == NormWhen(g, w)
    ensures WhenSafe(g, w)
    decreases w, 1
  {
    SafeIfReadBack(g, w.cond, MAX_CONTEXT);
    SafeIfReadBack(g, w.result, MAX_CONTEXT);
  }

  /** Cut, for runs of printed operands. */
  lemma CutRun(g: Grammar, l: Run, op: Op, r: Run, a: Expr, b: Expr)
    requires g.Valid() && Flat(g, a) && Flat(g, b) && OfTrees(op)
    requires Leaves(a) == Width(Values(g, l)) && Leaves(b) == Width(Values(g, r))
    requires Strip(Eval(g, Glue(l, op, r))) == Join(g, op, a, b)
    ensures AtMost(g, l, g.level(op)) && FitsRight(g, r, op)
    ensures Strip(Eval(g, l)) == a && Strip(Eval(g, r)) == b
    ensures op == Eq || op == Neq ==> Eval(g, l) != Plain(Null) && Eval(g, r) != Plain(Null)
  {
    hide Eval, Tree, Width, Flat, Leaves, Join;
    EvalIsTree(g, l);
    EvalIsTree(g, r);
    EvalIsTree(g, Glue(l, op, r));
    ValuesGlue(g, l, op, r);
    RunFlat(g, l);
    RunFlat(g, r);
    Cut(g, Values(g, l), op, Values(g, r), a, b);
    ValuesKeepLevels(g, l, op);
    ValuesKeepLevels(g, r, op);
  }

  /** The last operand of a printed run is cut off. */
  lemma CutLast(g: Grammar, op: Op, es: seq<Expr>, n: nat, k: nat)
    requires g.Valid() && OfTrees(op) && forall e <- es :: WellFormed(e)
    requires 0 < k == |es| - 1
    requires Strip(Eval(g, LayJoined(g, op, es, n))) == NormRun(g, op, es)
    ensures Strip(Eval(g, LayJoined(g, op, es[..k], n))) == NormRun(g, op, es[..k])
    ensures Strip(Eval(g, Lay(g, es[k], OperandContext(g, op, n, k)))) == Norm(g, es[k])
    ensures AtMost(g, LayJoined(g, op, es[..k], n), g.level(op))
    ensures Fits(g, op, n, k, es[k])
    ensures op == Eq || op == Neq ==> es[k] != Null && (k == 1 ==> es[0] != Null)
  {
    hide Eval, Lay, Norm, Fits, Flat, Width, Leaves, AtMost, FitsRight, Join, Glue;
    var l, r := LayJoined(g, op, es[..k], n), Lay(g, es[k], OperandContext(g, op, n, k));
    NormRunFlat(g, op, es[..k]);
    NormFlat(g, es[k]);
    PrintJoinedKeepsWidth(g, op, es[..k], n);
    PrintKeepsWidth(g, es[k], OperandContext(g, op, n, k));
    CutRun(g, l, op, r, NormRun(g, op, es[..k]), Norm(g, es[k]));
    FitsIsFitting(g, op, n, k, es[k]);
    NullIsRead(g, es[k], OperandContext(g, op, n, k));
    NullIsRead(g, es[0], OperandContext(g, op, n, 0));
  }

  lemma NullIsRead(g: Grammar, e: Expr, context: int)
    requires g.Valid() && WellFormed(e)
    ensures e == Null ==> Eval(g, Lay(g, e, context)) == Plain(Null)
  {
    hide Eval;
    NullReads(g);
  }

  lemma {:induction false} SafeJoined(g: Grammar, op: Op, es: seq<Expr>, n: nat)
    requires g.Valid() && es != [] && OfTrees(op) && forall e <- es :: WellFormed(e)
    requires Strip(Eval(g, LayJoined(g, op, es, n))) == NormRun(g, op, es)
    ensures forall i :: 0 <= i < |es| ==> Safe(g, es[i]) && NullSafe(es[i])
    ensures forall i :: 0 <= i < |es| && |es| > 1 ==> Fits(g, op, n, i, es[i])
    ensures (op == Eq || op == Neq) && |es| > 1 ==> Null !in es
    decreases es
  {
    hide Eval, Safe, NullSafe, Fits, Norm, Lay, Glue, Join;
    var k := |es| - 1;
    if k == 0 {
      SafeIfReadBack(g, es[0], OperandContext(g, op, n, 0));
    } else {
      CutLast(g, op, es, n, k);
      SafeIfReadBack(g, es[k], OperandContext(g, op, n, k));
      SafeJoined(g, op, es[..k], n);
      if k == 1 {
        FitsIsFitting(g, op, n, 0, es[0]);
      }
      forall i | 0 <= i < |es|
        ensures Safe(g, es[i]) && NullSafe(es[i]) && Fits(g, op, n, i, es[i])
      {
        if i < k {
          assert es[i] == es[..k][i];
        }
      }
      assert es == es[..k] + [es[k]];
    }
  }

  /* ---------- main results ---------- */

  /**
    Printing in any context and parsing gives the flat form of the tree exactly when every operand
    fits where it was printed and no comparison by `=` or `<>` has NULL itself as an operand.
   */
  lemma PrintThenParse(g: Grammar, e: Expr, context: int)
    requires g.Valid() && WellFormed(e)
    ensures Parse(g, Print(g, e, context)) == Some(Norm(g, e)) <==> Safe(g, e) && NullSafe(e)
  {
    PrintedTextReads(g, e, context);
    if Safe(g, e) && NullSafe(e) {
      ReadBack(g, e, context);
    }
    if Strip(Eval(g, Lay(g, e, context))) == Norm(g, e) {
      SafeIfReadBack(g, e, context);
    }
  }

  lemma PrintedTextReads(g: Grammar, e: Expr, context: int)
    requires WellFormed(e)
    ensures Parse(g, Print(g, e, context)) == Some(Strip(Eval(g, Lay(g, e, context))))
  {
    PrintIsRender(g, e, context);
    RunRoundTrip(Lay(g, e, context), []);
    assert Print(g, e, context) + [] == Print(g, e, context);
  }

  /** Parsing the printed text never fails, whatever the tables say. */
  lemma PrintedTextParses(g: Grammar, e: Expr, context: int)
    requires WellFormed(e)
    ensures Parse(g, Print(g, e, context)).Some?
  {
    PrintedTextReads(g, e, context);
  }
}
