/** What flattening keeps: the shape the parser builds, and the value under every interpretation. */
module Meaning {
  import opened Expressions
  import opened Chains
  import opened Engine
  import opened Syntax
  import opened Printer
  import opened Uniqueness
  import opened RoundTrip

  /** The trees the parser builds: flattening operators never nest directly, the others are binary. */
  predicate ParserForm(g: Grammar, e: Expr) {
    match e
    case Call(_, args) => forall a <- args :: ParserForm(g, a)
    case Case(whens, els) =>
      && (forall w <- whens :: ParserForm(g, w.cond) && ParserForm(g, w.result))
      && (els.Some? ==> ParserForm(g, els.value))
    case Infix(op, operands) =>
      && OfTrees(op) && (forall a <- operands :: ParserForm(g, a))
      && (if g.assoc(op) then |operands| >= 2 && forall a <- operands :: !(a.Infix? && a.op == op)
          else |operands| == 2)
    case Missing(arg) => ParserForm(g, arg)
    case Exists(arg) => ParserForm(g, arg)
    case _ => true
  }

  lemma JoinForm(g: Grammar, op: Op, a: Expr, b: Expr)
    requires ParserForm(g, a) && ParserForm(g, b) && OfTrees(op)
    ensures ParserForm(g, Join(g, op, a, b))
  {
    var e := Join(g, op, a, b);
    forall x | x in e.operands ensures ParserForm(g, x) && (g.assoc(op) ==> !(x.Infix? && x.op == op)) {
      if g.assoc(op) {
        assert x in Kids(op, a) || x in Kids(op, b);
      }
    }
  }

  /** Everything the parser returns is in parser form, printed text or not. */
  lemma ParsesToParserForm(g: Grammar, ts: seq<Token>)
    requires g.Valid() && Parse(g, ts).Some?
    ensures ParserForm(g, Parse(g, ts).value)
  {
    RunForm(g, ParseRun(ts).value);
  }

  predicate ItemsInForm(g: Grammar, c: Chain<Op, Value>) {
    && ParserForm(g, Strip(c.first))
    && forall i :: 0 <= i < |c.rest| ==> ParserForm(g, Strip(c.rest[i].item))
  }

  lemma CombineForm(g: Grammar, op: Op, left: Value, right: Value)
    requires ParserForm(g, Strip(left)) && ParserForm(g, Strip(right))
    ensures ParserForm(g, Combine(g, op, left, right))
  {
    JoinForm(g, TreeOp(op), Strip(left), Strip(right));
  }

  lemma {:induction false} TreeForm(g: Grammar, c: Chain<Op, Value>)
    requires ItemsInForm(g, c)
    ensures ParserForm(g, Strip(Tree(g, c)))
    decreases |c.rest|
  {
    if c.rest != [] {
      var i := Loosest(g, c.rest);
      var l, r := LeftOf(c, i), RightOf(c, i);
      assert ItemsInForm(g, l) && ItemsInForm(g, r);
      TreeForm(g, l);
      TreeForm(g, r);
      CombineForm(g, c.rest[i].op, Tree(g, l), Tree(g, r));
    }
  }

  lemma {:induction false} RunForm(g: Grammar, c: Run)
    requires g.Valid()
    ensures ParserForm(g, Strip(Eval(g, c)))
    decreases c, 1
  {
    EvalIsTree(g, c);
    OperandForm(g, c.first);
    LinksForm(g, c.rest);
    TreeForm(g, Values(g, c));
  }

  lemma {:induction false} LinksForm(g: Grammar, links: seq<Link<Op, Operand>>)
    requires g.Valid()
    ensures forall i :: 0 <= i < |links| ==> ParserForm(g, Strip(EvalLink(g, links[i]).item))
    decreases links
  {
    if links != [] {
      LinkForm(g, links[0]);
      LinksForm(g, links[1..]);
    }
  }

  lemma {:induction false} LinkForm(g: Grammar, l: Link<Op, Operand>)
    requires g.Valid()
    ensures ParserForm(g, Strip(EvalLink(g, l).item))
    decreases l, 2
  {
    OperandForm(g, l.item);
  }

  lemma {:induction false} OperandForm(g: Grammar, o: Operand)
    requires g.Valid()
    ensures ParserForm(g, Strip(EvalOperand(g, o)))
    decreases o, 1
  {
    match o
    case CallTerm(_, args) => ArgsForm(g, args);
    case CaseTerm(whens, els) =>
      WhensForm(g, whens);
      if els.Some? {
        RunForm(g, els.value);
      }
    case Paren(inner) => RunForm(g, inner);
    case _ =>
  }

  lemma {:induction false} ArgsForm(g: Grammar, args: seq<Run>)
    requires g.Valid()
    ensures forall e <- EvalArgs(g, args) :: ParserForm(g, e)
    decreases args
  {
    if args != [] {
      RunForm(g, args[0]);
      ArgsForm(g, args[1..]);
    }
  }

  lemma {:induction false} WhensForm(g: Grammar, bs: seq<Branch>)
    requires g.Valid()
    ensures forall w <- EvalWhens(g, bs) :: ParserForm(g, w.cond) && ParserForm(g, w.result)
    decreases bs
  {
    if bs != [] {
      WhenForm(g, bs[0]);
      WhensForm(g, bs[1..]);
    }
  }

  lemma {:induction false} WhenForm(g: Grammar, b: Branch)
    requires g.Valid()
    ensures ParserForm(g, EvalWhen(g, b).cond) && ParserForm(g, EvalWhen(g, b).result)
    decreases b, 1
  {
    RunForm(g, b.cond);
    RunForm(g, b.result);
  }

  /** Normal form changes nothing in parser form. */
  lemma {:induction false} NormKeepsParserForm(g: Grammar, e: Expr)
    requires WellFormed(e) && ParserForm(g, e)
    ensures Norm(g, e) == e
    decreases e, 1
  {
    match e
    case Call(_, args) =>
      forall i | 0 <= i < |args| ensures NormAll(g, args)[i] == args[i] {
        NormKeepsParserForm(g, args[i]);
      }
    case Case(whens, els) =>
      forall i | 0 <= i < |whens| ensures NormWhens(g, whens)[i] == whens[i] {
        NormKeepsWhen(g, whens[i]);
      }
      if els.Some? {
        NormKeepsParserForm(g, els.value);
      }
    case Infix(op, operands) =>
      forall i | 0 <= i < |operands| ensures Norm(g, operands[i]) == operands[i] {
        NormKeepsParserForm(g, operands[i]);
      }
      NormRunKeeps(g, op, operands);
    case Missing(arg) => NormKeepsParserForm(g, arg);
    case Exists(arg) => NormKeepsParserForm(g, arg);
    case _ =>
  }

  lemma {:induction false} NormKeepsWhen(g: Grammar, w: When)
    requires WellFormed(w.cond) && WellFormed(w.result) && ParserForm(g, w.cond) && ParserForm(g, w.result)
    ensures NormWhen(g, w) == w
    decreases w, 1
  {
    NormKeepsParserForm(g, w.cond);
    NormKeepsParserForm(g, w.result);
  }

  lemma {:induction false} NormRunKeeps(g: Grammar, op: Op, es: seq<Expr>)
    requires |es| >= 2 && forall i :: 0 <= i < |es| ==> Norm(g, es[i]) == es[i]
    requires if g.assoc(op) then forall a <- es :: !(a.Infix? && a.op == op) else |es| == 2
    ensures NormRun(g, op, es) == Infix(op, es)
    decreases es
  {
    var k := |es| - 1;
    assert es == es[..k] + [es[k]];
    if k == 1 {
      assert es == [es[0]] + [es[1]];
      assert NormRun(g, op, es[..1]) == es[0];
      assert NormRun(g, op, es) == Join(g, op, es[0], es[1]);
    } else {
      assert forall i :: 0 <= i < k ==> es[..k][i] == es[i];
      NormRunKeeps(g, op, es[..k]);
      assert NormRun(g, op, es) == Join(g, op, Infix(op, es[..k]), es[k]);
    }
  }

  /** A tree in parser form comes back unchanged, exactly when its text suffices. */
  lemma ParserFormRoundTrip(g: Grammar, e: Expr, context: int)
    requires g.Valid() && WellFormed(e) && ParserForm(g, e)
    ensures Parse(g, Print(g, e, context)) == Some(e) <==> Safe(g, e) && NullSafe(e)
  {
    PrintThenParse(g, e, context);
    NormKeepsParserForm(g, e);
  }

  /* ---------- from text to text ---------- */

  /** What the printer needs of a parsed tree: no CASE is empty, and no EXISTS is printed for IS NOT NULL. */
  predicate Printable(e: Expr) {
    match e
    case Call(_, args) => forall a <- args :: Printable(a)
    case Case(whens, els) =>
      && (whens != [] || els.Some?)
      && (forall w <- whens :: Printable(w.cond) && Printable(w.result))
      && (els.Some? ==> Printable(els.value))
    case Infix(_, operands) => forall a <- operands :: Printable(a)
    case Missing(arg) => Printable(arg)
    case Exists(arg) => Printable(arg) && !LooksLikeQuery(arg)
    case _ => true
  }

  /** The parser sees to the rest of what is well-formed. */
  lemma {:induction false} FormIsWellFormed(g: Grammar, e: Expr)
    requires ParserForm(g, e)
    ensures WellFormed(e) <==> Printable(e)
  {
    hide LooksLikeQuery;
    match e
    case Call(_, args) =>
      forall a | a in args ensures WellFormed(a) <==> Printable(a) {
        FormIsWellFormed(g, a);
      }
    case Case(whens, els) =>
      forall w | w in whens
        ensures WellFormed(w.cond) <==> Printable(w.cond)
        ensures WellFormed(w.result) <==> Printable(w.result)
      {
        FormIsWellFormed(g, w.cond);
        FormIsWellFormed(g, w.result);
      }
      if els.Some? {
        FormIsWellFormed(g, els.value);
      }
    case Infix(_, operands) =>
      forall a | a in operands ensures WellFormed(a) <==> Printable(a) {
        FormIsWellFormed(g, a);
      }
    case Missing(arg) => FormIsWellFormed(g, arg);
    case Exists(arg) => FormIsWellFormed(g, arg);
    case _ =>
  }

  /** For any text that parses: printing the tree and parsing that gives the tree again in just these cases. */
  lemma TextRoundTrip(g: Grammar, ts: seq<Token>, context: int)
    requires g.Valid() && Parse(g, ts).Some?
    ensures var e := Parse(g, ts).value;
      && (WellFormed(e) <==> Printable(e))
      && (WellFormed(e) ==> (Parse(g, Print(g, e, context)) == Some(e) <==> Safe(g, e) && NullSafe(e)))
  {
    hide Parse, Print, WellFormed, Printable, ParserForm, Safe, NullSafe;
    var e := Parse(g, ts).value;
    ParsesToParserForm(g, ts);
    FormIsWellFormed(g, e);
    if WellFormed(e) {
      ParserFormRoundTrip(g, e, context);
    }
  }

  /* ---------- values ---------- */

  datatype Interp<!V> = Interp(
    nil: V,
    name: string -> V,
    call: (string, seq<V>) -> V,
    branches: (seq<(V, V)>, Option<V>) -> V,
    infix: (Op, V, V) -> V,
    missing: V -> V,
    exists_: V -> V)

  function Denote<V>(m: Interp<V>, e: Expr): V
    decreases e, 0
  {
    match e
    case Null => m.nil
    case Name(id) => m.name(id)
    case Call(fn, args) => m.call(fn, DenoteAll(m, args))
    case Case(whens, els) =>
      m.branches(DenoteWhens(m, whens), if els.Some? then Some(Denote(m, els.value)) else None)
    case Infix(op, operands) => if operands == [] then m.nil else DenoteRun(m, op, operands)
    case Missing(arg) => m.missing(Denote(m, arg))
    case Exists(arg) => m.exists_(Denote(m, arg))
  }

  function DenoteAll<V>(m: Interp<V>, es: seq<Expr>): (r: seq<V>)
    ensures |r| == |es|
    ensures forall i :: 0 <= i < |es| ==> r[i] == Denote(m, es[i])
    decreases es
  {
    if es == [] then [] else [Denote(m, es[0])] + DenoteAll(m, es[1..])
  }

  function DenoteWhen<V>(m: Interp<V>, w: When): (V, V)
    decreases w, 0
  {
    (Denote(m, w.cond), Denote(m, w.result))
  }

  function DenoteWhens<V>(m: Interp<V>, ws: seq<When>): (r: seq<(V, V)>)
    ensures |r| == |ws|
    ensures forall i :: 0 <= i < |ws| ==> r[i] == DenoteWhen(m, ws[i])
    decreases ws
  {
    if ws == [] then [] else [DenoteWhen(m, ws[0])] + DenoteWhens(m, ws[1..])
  }

  /** An n-ary node is the left-to-right application of its operator. */
  function DenoteRun<V>(m: Interp<V>, op: Op, es: seq<Expr>): V
    requires es != []
    decreases es
  {
    var k := |es| - 1;
    if k == 0 then Denote(m, es[0]) else m.infix(op, DenoteRun(m, op, es[..k]), Denote(m, es[k]))
  }

  ghost predicate Associative<V(!new)>(g: Grammar, m: Interp<V>) {
    forall op, x, y, z :: g.assoc(op) ==> m.infix(op, m.infix(op, x, y), z) == m.infix(op, x, m.infix(op, y, z))
  }

  lemma {:induction false} RunAppend<V(!new)>(g: Grammar, m: Interp<V>, op: Op, a: seq<Expr>, b: seq<Expr>)
    requires Associative(g, m) && g.assoc(op) && a != [] && b != []
    ensures DenoteRun(m, op, a + b) == m.infix(op, DenoteRun(m, op, a), DenoteRun(m, op, b))
    decreases b
  {
    hide Denote;
    var c := a + b;
    var k := |b| - 1;
    assert c[|c| - 1] == b[k] && c[..|c| - 1] == a + b[..k];
    if k == 0 {
      assert a + b[..0] == a;
    } else {
      RunAppend(g, m, op, a, b[..k]);
    }
  }

  lemma KidsDenote<V>(g: Grammar, m: Interp<V>, op: Op, e: Expr)
    requires Flat(g, e) && g.assoc(op)
    ensures Kids(op, e) != [] && DenoteRun(m, op, Kids(op, e)) == Denote(m, e)
  {
  }

  lemma JoinDenotes<V(!new)>(g: Grammar, m: Interp<V>, op: Op, a: Expr, b: Expr)
    requires Associative(g, m) && Flat(g, a) && Flat(g, b)
    ensures Denote(m, Join(g, op, a, b)) == m.infix(op, Denote(m, a), Denote(m, b))
  {
    hide Flat, Kids, Denote, DenoteRun;
    if g.assoc(op) {
      KidsDenote(g, m, op, a);
      KidsDenote(g, m, op, b);
      RunAppend(g, m, op, Kids(op, a), Kids(op, b));
      InfixDenotes(m, op, Kids(op, a) + Kids(op, b));
    } else {
      PairDenotes(m, op, a, b);
    }
  }

  lemma InfixDenotes<V>(m: Interp<V>, op: Op, es: seq<Expr>)
    requires es != []
    ensures Denote(m, Infix(op, es)) == DenoteRun(m, op, es)
  {
  }

  lemma PairDenotes<V>(m: Interp<V>, op: Op, a: Expr, b: Expr)
    ensures Denote(m, Infix(op, [a, b])) == m.infix(op, Denote(m, a), Denote(m, b))
  {
    assert [a, b][..1] == [a];
    assert DenoteRun(m, op, [a]) == Denote(m, a);
    assert DenoteRun(m, op, [a, b]) == m.infix(op, DenoteRun(m, op, [a]), Denote(m, b));
  }

  /** Flattening keeps the value when the flattening operators are associative; commutativity is not needed. */
  lemma {:induction false} NormKeepsValue<V(!new)>(g: Grammar, m: Interp<V>, e: Expr)
    requires Associative(g, m) && WellFormed(e)
    ensures Denote(m, Norm(g, e)) == Denote(m, e)
    decreases e, 1
  {
    match e
    case Call(_, args) =>
      forall i | 0 <= i < |args| ensures DenoteAll(m, NormAll(g, args))[i] == DenoteAll(m, args)[i] {
        NormKeepsValue(g, m, args[i]);
      }
      assert DenoteAll(m, NormAll(g, args)) == DenoteAll(m, args);
    case Case(whens, els) =>
      forall i | 0 <= i < |whens| ensures DenoteWhens(m, NormWhens(g, whens))[i] == DenoteWhens(m, whens)[i] {
        NormWhenKeepsValue(g, m, whens[i]);
      }
      assert DenoteWhens(m, NormWhens(g, whens)) == DenoteWhens(m, whens);
      if els.Some? {
        NormKeepsValue(g, m, els.value);
      }
    case Infix(op, operands) =>
      NormRunKeepsValue(g, m, op, operands);
    case Missing(arg) => NormKeepsValue(g, m, arg);
    case Exists(arg) => NormKeepsValue(g, m, arg);
    case _ =>
  }

  lemma {:induction false} NormWhenKeepsValue<V(!new)>(g: Grammar, m: Interp<V>, w: When)
    requires Associative(g, m) && WellFormed(w.cond) && WellFormed(w.result)
    ensures DenoteWhen(m, NormWhen(g, w)) == DenoteWhen(m, w)
    decreases w, 1
  {
    NormKeepsValue(g, m, w.cond);
    NormKeepsValue(g, m, w.result);
  }

  lemma {:induction false} NormRunKeepsValue<V(!new)>(g: Grammar, m: Interp<V>, op: Op, es: seq<Expr>)
    requires Associative(g, m) && es != [] && forall e <- es :: WellFormed(e)
    ensures Denote(m, NormRun(g, op, es)) == DenoteRun(m, op, es)
    decreases es
  {
    var k := |es| - 1;
    NormKeepsValue(g, m, es[k]);
    if k > 0 {
      NormRunKeepsValue(g, m, op, es[..k]);
      NormRunFlat(g, op, es[..k]);
      NormFlat(g, es[k]);
      JoinDenotes(g, m, op, NormRun(g, op, es[..k]), Norm(g, es[k]));
    }
  }

  /** A safe tree keeps its value through text and back. */
  lemma RoundTripKeepsValue<V(!new)>(g: Grammar, m: Interp<V>, e: Expr, context: int)
    requires g.Valid() && Associative(g, m) && WellFormed(e) && Safe(g, e) && NullSafe(e)
    ensures Parse(g, Print(g, e, context)).Some?
    ensures Denote(m, Parse(g, Print(g, e, context)).value) == Denote(m, e)
  {
    PrintThenParse(g, e, context);
    NormKeepsValue(g, m, e);
  }

  /* ---------- flattening while parsing ---------- */

  /** The same parser, building a binary node for every operator. */
  function Unflattened(g: Grammar): Grammar {
    g.(assoc := (op: Op) => false)
  }

  ghost predicate Same<V>(g: Grammar, m: Interp<V>, x: Value, y: Value) {
    (x == Plain(Null) <==> y == Plain(Null)) && Denote(m, Strip(x)) == Denote(m, Strip(y)) && Flat(g, Strip(x))
  }

  lemma SameCombine<V(!new)>(g: Grammar, m: Interp<V>, op: Op, x1: Value, y1: Value, x2: Value, y2: Value)
    requires Associative(g, m) && Same(g, m, x1, x2) && Same(g, m, y1, y2)
    ensures Same(g, m, Plain(Combine(g, op, x1, y1)), Plain(Combine(Unflattened(g), op, x2, y2)))
  {
    var treeOp := TreeOp(op);
    CombineFlat(g, op, x1, y1);
    JoinDenotes(g, m, treeOp, Strip(x1), Strip(y1));
    PairDenotes(m, treeOp, Strip(x2), Strip(y2));
  }

  ghost predicate SameChain<V>(g: Grammar, m: Interp<V>, c: Chain<Op, Value>, d: Chain<Op, Value>) {
    && Same(g, m, c.first, d.first)
    && |c.rest| == |d.rest|
    && forall i :: 0 <= i < |c.rest| ==> c.rest[i].op == d.rest[i].op && Same(g, m, c.rest[i].item, d.rest[i].item)
  }

  lemma SameLoosest<V>(g: Grammar, m: Interp<V>, c: Chain<Op, Value>, d: Chain<Op, Value>)
    requires SameChain(g, m, c, d) && c.rest != []
    ensures Loosest(Unflattened(g), d.rest) == Loosest(g, c.rest)
  {
    LoosestIsUnique(Unflattened(g), d.rest, Loosest(g, c.rest));
  }

  lemma {:induction false} SameTree<V(!new)>(g: Grammar, m: Interp<V>, c: Chain<Op, Value>, d: Chain<Op, Value>)
    requires Associative(g, m) && SameChain(g, m, c, d)
    ensures Same(g, m, Tree(g, c), Tree(Unflattened(g), d))
    decreases |c.rest|
  {
    hide Same, Combine, Denote, DenoteRun;
    if c.rest != [] {
      var i := Loosest(g, c.rest);
      SameLoosest(g, m, c, d);
      SameParts(g, m, c, d, i);
      SameTree(g, m, LeftOf(c, i), LeftOf(d, i));
      SameTree(g, m, RightOf(c, i), RightOf(d, i));
      SameRoot(g, m, c, d, i);
    }
  }

  lemma SameParts<V>(g: Grammar, m: Interp<V>, c: Chain<Op, Value>, d: Chain<Op, Value>, i: nat)
    requires SameChain(g, m, c, d) && i < |c.rest|
    ensures SameChain(g, m, LeftOf(c, i), LeftOf(d, i)) && SameChain(g, m, RightOf(c, i), RightOf(d, i))
  {
    hide Same;
  }

  lemma SameRoot<V(!new)>(g: Grammar, m: Interp<V>, c: Chain<Op, Value>, d: Chain<Op, Value>, i: nat)
    requires Associative(g, m) && c.rest != [] && d.rest != []
    requires i == Loosest(g, c.rest) == Loosest(Unflattened(g), d.rest) && c.rest[i].op == d.rest[i].op
    requires Same(g, m, Tree(g, LeftOf(c, i)), Tree(Unflattened(g), LeftOf(d, i)))
    requires Same(g, m, Tree(g, RightOf(c, i)), Tree(Unflattened(g), RightOf(d, i)))
    ensures Same(g, m, Tree(g, c), Tree(Unflattened(g), d))
  {
    hide Tree, Same, Combine, Loosest;
    TreeUnfolds(g, c, i);
    TreeUnfolds(Unflattened(g), d, i);
    SameCombine(g, m, c.rest[i].op,
      Tree(g, LeftOf(c, i)), Tree(g, RightOf(c, i)),
      Tree(Unflattened(g), LeftOf(d, i)), Tree(Unflattened(g), RightOf(d, i)));
  }

  lemma {:induction false} SameRun<V(!new)>(g: Grammar, m: Interp<V>, c: Run)
    requires g.Valid() && Associative(g, m)
    ensures Same(g, m, Eval(g, c), Eval(Unflattened(g), c))
    ensures Denote(m, Strip(Eval(g, c))) == Denote(m, Strip(Eval(Unflattened(g), c)))
    decreases c, 1
  {
    hide Tree, Eval, EvalOperand, Denote, DenoteRun, Flat;
    EvalIsTree(g, c);
    EvalIsTree(Unflattened(g), c);
    SameOperand(g, m, c.first);
    SameLinks(g, m, c.rest);
    SameTree(g, m, Values(g, c), Values(Unflattened(g), c));
  }

  lemma {:induction false} SameLinks<V(!new)>(g: Grammar, m: Interp<V>, links: seq<Link<Op, Operand>>)
    requires g.Valid() && Associative(g, m)
    ensures forall i :: 0 <= i < |links| ==>
      Same(g, m, EvalLink(g, links[i]).item, EvalLink(Unflattened(g), links[i]).item)
    decreases links
  {
    if links != [] {
      SameLink(g, m, links[0]);
      SameLinks(g, m, links[1..]);
    }
  }

  lemma {:induction false} SameLink<V(!new)>(g: Grammar, m: Interp<V>, l: Link<Op, Operand>)
    requires g.Valid() && Associative(g, m)
    ensures Same(g, m, EvalLink(g, l).item, EvalLink(Unflattened(g), l).item)
    decreases l, 2
  {
    SameOperand(g, m, l.item);
  }

  lemma {:induction false} SameOperand<V(!new)>(g: Grammar, m: Interp<V>, o: Operand)
    requires g.Valid() && Associative(g, m)
    ensures Same(g, m, EvalOperand(g, o), EvalOperand(Unflattened(g), o))
    decreases o, 1
  {
    match o
    case CallTerm(_, args) =>
      SameArgs(g, m, args);
    case CaseTerm(whens, els) =>
      SameWhens(g, m, whens);
      if els.Some? {
        SameRun(g, m, els.value);
      }
    case Paren(inner) => SameRun(g, m, inner);
    case _ =>
  }

  lemma {:induction false} SameArgs<V(!new)>(g: Grammar, m: Interp<V>, args: seq<Run>)
    requires g.Valid() && Associative(g, m)
    ensures DenoteAll(m, EvalArgs(g, args)) == DenoteAll(m, EvalArgs(Unflattened(g), args))
    decreases args
  {
    if args != [] {
      SameRun(g, m, args[0]);
      SameArgs(g, m, args[1..]);
    }
  }

  lemma {:induction false} SameWhens<V(!new)>(g: Grammar, m: Interp<V>, bs: seq<Branch>)
    requires g.Valid() && Associative(g, m)
    ensures DenoteWhens(m, EvalWhens(g, bs)) == DenoteWhens(m, EvalWhens(Unflattened(g), bs))
    decreases bs
  {
    if bs != [] {
      SameWhen(g, m, bs[0]);
      SameWhens(g, m, bs[1..]);
    }
  }

  lemma {:induction false} SameWhen<V(!new)>(g: Grammar, m: Interp<V>, b: Branch)
    requires g.Valid() && Associative(g, m)
    ensures DenoteWhen(m, EvalWhen(g, b)) == DenoteWhen(m, EvalWhen(Unflattened(g), b))
    decreases b, 1
  {
    SameRun(g, m, b.cond);
    SameRun(g, m, b.result);
  }

  /** For every text, the flattened tree has the value of the plain binary tree. */
  lemma FlatteningKeepsValue<V(!new)>(g: Grammar, m: Interp<V>, ts: seq<Token>)
    requires g.Valid() && Associative(g, m)
    ensures Parse(g, ts).Some? <==> Parse(Unflattened(g), ts).Some?
    ensures Parse(g, ts).Some? ==>
      Denote(m, Parse(g, ts).value) == Denote(m, Parse(Unflattened(g), ts).value)
  {
    if ParseRun(ts).Ok? {
      SameRun(g, m, ParseRun(ts).value);
    }
  }
}
