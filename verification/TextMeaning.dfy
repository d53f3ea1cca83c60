/**
  What a text means, said from its operands alone: parentheses do not count, a run is split at its last
  loosest operator, and a comparison with NULL is a test. The trees the parser builds mean just that.
 */
module TextMeaning {
  import opened Expressions
  import opened Chains
  import opened Engine
  import opened Syntax
  import opened Uniqueness
  import opened RoundTrip
  import opened Meaning

  /** The value of an operand; `bare` for NULL written without parentheses. */
  datatype Meant<V> = Meant(bare: bool, value: V)

  /** One operator between two values; the four comparisons test for a NULL that is written out. */
  function Applied<V>(m: Interp<V>, op: Op, x: Meant<V>, y: Meant<V>): V {
    match op
    case Eq | Is =>
      if y.bare then m.missing(x.value) else if x.bare then m.missing(y.value) else m.infix(Eq, x.value, y.value)
    case Neq | IsNot =>
      if y.bare then m.exists_(x.value) else if x.bare then m.exists_(y.value) else m.infix(Neq, x.value, y.value)
    case _ => m.infix(op, x.value, y.value)
  }

  function Grouped<V>(g: Grammar, m: Interp<V>, c: Chain<Op, Meant<V>>): Meant<V>
    decreases |c.rest|
  {
    if c.rest == [] then c.first
    else
      var i := Loosest(g, c.rest);
      Meant(false, Applied(m, c.rest[i].op,
        Grouped(g, m, Chain(c.first, c.rest[..i])),
        Grouped(g, m, Chain(c.rest[i].item, c.rest[i + 1..]))))
  }

  function RunMeans<V>(g: Grammar, m: Interp<V>, c: Run): Meant<V>
    decreases c, 1
  {
    Grouped(g, m, Operands(g, m, c))
  }

  function Operands<V>(g: Grammar, m: Interp<V>, c: Run): Chain<Op, Meant<V>>
    decreases c, 0
  {
    Chain(OperandMeans(g, m, c.first), LinksMean(g, m, c.rest))
  }

  function LinksMean<V>(g: Grammar, m: Interp<V>, links: seq<Link<Op, Operand>>): (r: seq<Link<Op, Meant<V>>>)
    ensures |r| == |links|
    ensures forall i :: 0 <= i < |links| ==> r[i] == LinkMeans(g, m, links[i])
    decreases links
  {
    if links == [] then [] else [LinkMeans(g, m, links[0])] + LinksMean(g, m, links[1..])
  }

  function LinkMeans<V>(g: Grammar, m: Interp<V>, l: Link<Op, Operand>): Link<Op, Meant<V>>
    decreases l, 0
  {
    Link(l.op, OperandMeans(g, m, l.item))
  }

  function OperandMeans<V>(g: Grammar, m: Interp<V>, o: Operand): Meant<V>
    decreases o, 0
  {
    match o
    case NullTerm => Meant(true, m.nil)
    case NameTerm(id) => Meant(false, m.name(id))
    case CallTerm(fn, args) => Meant(false, m.call(fn, ArgsMean(g, m, args)))
    case CaseTerm(whens, els) =>
      Meant(false, m.branches(BranchesMean(g, m, whens),
        if els.Some? then Some(RunMeans(g, m, els.value).value) else None))
    case Paren(inner) => Meant(false, RunMeans(g, m, inner).value)
  }

  function ArgsMean<V>(g: Grammar, m: Interp<V>, args: seq<Run>): seq<V>
    decreases args
  {
    if args == [] then [] else [RunMeans(g, m, args[0]).value] + ArgsMean(g, m, args[1..])
  }

  function BranchesMean<V>(g: Grammar, m: Interp<V>, bs: seq<Branch>): seq<(V, V)>
    decreases bs
  {
    if bs == [] then [] else [BranchMeans(g, m, bs[0])] + BranchesMean(g, m, bs[1..])
  }

  function BranchMeans<V>(g: Grammar, m: Interp<V>, b: Branch): (V, V)
    decreases b, 0
  {
    (RunMeans(g, m, b.cond).value, RunMeans(g, m, b.result).value)
  }

  /* ---------- the parser's trees mean that ---------- */

  ghost predicate Agree<V>(g: Grammar, m: Interp<V>, x: Value, y: Meant<V>) {
    (x == Plain(Null) <==> y.bare) && Denote(m, Strip(x)) == y.value && Flat(g, Strip(x))
  }

  lemma CombineAgrees<V(!new)>(g: Grammar, m: Interp<V>, op: Op, x1: Value, y1: Value, x2: Meant<V>, y2: Meant<V>)
    requires Associative(g, m) && Agree(g, m, x1, x2) && Agree(g, m, y1, y2)
    ensures Agree(g, m, Plain(Combine(g, op, x1, y1)), Meant(false, Applied(m, op, x2, y2)))
  {
    hide Flat, Denote, DenoteRun, Associative, Join;
    CombineFlat(g, op, x1, y1);
    JoinDenotes(g, m, TreeOp(op), Strip(x1), Strip(y1));
    JoinIsInfix(g, TreeOp(op), Strip(x1), Strip(y1));
    TestsDenote(m, Strip(x1));
    TestsDenote(m, Strip(y1));
  }

  lemma JoinIsInfix(g: Grammar, op: Op, a: Expr, b: Expr)
    ensures Join(g, op, a, b).Infix?
  {
  }

  lemma TestsDenote<V>(m: Interp<V>, e: Expr)
    ensures Denote(m, Missing(e)) == m.missing(Denote(m, e)) && Denote(m, Exists(e)) == m.exists_(Denote(m, e))
  {
  }

  ghost predicate ChainsAgree<V>(g: Grammar, m: Interp<V>, c: Chain<Op, Value>, d: Chain<Op, Meant<V>>) {
    && Agree(g, m, c.first, d.first)
    && |c.rest| == |d.rest|
    && forall i :: 0 <= i < |c.rest| ==> c.rest[i].op == d.rest[i].op && Agree(g, m, c.rest[i].item, d.rest[i].item)
  }

  lemma SplitAgrees<V>(g: Grammar, m: Interp<V>, c: Chain<Op, Value>, d: Chain<Op, Meant<V>>)
    requires ChainsAgree(g, m, c, d) && c.rest != []
    ensures var i := Loosest(g, d.rest);
      && Loosest(g, c.rest) == i
      && ChainsAgree(g, m, LeftOf(c, i), LeftOf(d, i)) && ChainsAgree(g, m, RightOf(c, i), RightOf(d, i))
  {
    hide Agree;
    LoosestIsUnique(g, c.rest, Loosest(g, d.rest));
  }

  lemma GroupedUnfolds<V>(g: Grammar, m: Interp<V>, c: Chain<Op, Meant<V>>, i: nat)
    requires c.rest != [] && i == Loosest(g, c.rest)
    ensures Grouped(g, m, c)
      == Meant(false, Applied(m, c.rest[i].op, Grouped(g, m, LeftOf(c, i)), Grouped(g, m, RightOf(c, i))))
  {
    hide Applied, Loosest;
  }

  lemma {:induction false} TreeMeans<V(!new)>(g: Grammar, m: Interp<V>, c: Chain<Op, Value>, d: Chain<Op, Meant<V>>)
    requires Associative(g, m) && ChainsAgree(g, m, c, d)
    ensures Agree(g, m, Tree(g, c), Grouped(g, m, d))
    decreases |c.rest|
  {
    hide Agree, Applied, Combine, Tree, Grouped, Associative, Loosest;
    if c.rest == [] {
      SingleChains(g, m, c, d);
    } else {
      var i := Loosest(g, d.rest);
      SplitAgrees(g, m, c, d);
      TreeMeans(g, m, LeftOf(c, i), LeftOf(d, i));
      TreeMeans(g, m, RightOf(c, i), RightOf(d, i));
      TreeUnfolds(g, c, i);
      GroupedUnfolds(g, m, d, i);
      CombineAgrees(g, m, c.rest[i].op, Tree(g, LeftOf(c, i)), Tree(g, RightOf(c, i)),
        Grouped(g, m, LeftOf(d, i)), Grouped(g, m, RightOf(d, i)));
    }
  }

  lemma SingleChains<V>(g: Grammar, m: Interp<V>, c: Chain<Op, Value>, d: Chain<Op, Meant<V>>)
    requires ChainsAgree(g, m, c, d) && c.rest == []
    ensures Tree(g, c) == c.first && Grouped(g, m, d) == d.first
  {
  }

  lemma {:induction false} EvalMeans<V(!new)>(g: Grammar, m: Interp<V>, c: Run)
    requires g.Valid() && Associative(g, m)
    ensures Agree(g, m, Eval(g, c), RunMeans(g, m, c))
    ensures Denote(m, Strip(Eval(g, c))) == RunMeans(g, m, c).value
    ensures Flat(g, Strip(Eval(g, c)))
    decreases c, 1
  {
    hide Tree, Eval, EvalOperand, OperandMeans, Denote, Flat, Associative, Grouped;
    EvalIsTree(g, c);
    OperandAgrees(g, m, c.first);
    LinksAgree(g, m, c.rest);
    TreeMeans(g, m, Values(g, c), Operands(g, m, c));
  }

  lemma {:induction false} LinksAgree<V(!new)>(g: Grammar, m: Interp<V>, links: seq<Link<Op, Operand>>)
    requires g.Valid() && Associative(g, m)
    ensures forall i :: 0 <= i < |links| ==> Agree(g, m, EvalLink(g, links[i]).item, LinkMeans(g, m, links[i]).item)
    decreases links
  {
    hide Agree, EvalLink, LinkMeans, Associative;
    if links != [] {
      LinkAgrees(g, m, links[0]);
      LinksAgree(g, m, links[1..]);
    }
  }

  lemma {:induction false} LinkAgrees<V(!new)>(g: Grammar, m: Interp<V>, l: Link<Op, Operand>)
    requires g.Valid() && Associative(g, m)
    ensures Agree(g, m, EvalLink(g, l).item, LinkMeans(g, m, l).item)
    decreases l, 2
  {
    hide Agree, Associative;
    OperandAgrees(g, m, l.item);
  }

  lemma {:induction false} OperandAgrees<V(!new)>(g: Grammar, m: Interp<V>, o: Operand)
    requires g.Valid() && Associative(g, m)
    ensures Agree(g, m, EvalOperand(g, o), OperandMeans(g, m, o))
    decreases o, 1
  {
    hide Eval, RunMeans, Associative;
    match o
    case CallTerm(_, args) => ArgsAgree(g, m, args);
    case CaseTerm(whens, els) =>
      BranchesAgree(g, m, whens);
      if els.Some? {
        EvalMeans(g, m, els.value);
      }
    case Paren(inner) => EvalMeans(g, m, inner);
    case _ =>
  }

  lemma {:induction false} ArgsAgree<V(!new)>(g: Grammar, m: Interp<V>, args: seq<Run>)
    requires g.Valid() && Associative(g, m)
    ensures DenoteAll(m, EvalArgs(g, args)) == ArgsMean(g, m, args)
    decreases args
  {
    hide Eval, RunMeans, Denote, Associative;
    if args != [] {
      EvalMeans(g, m, args[0]);
      ArgsAgree(g, m, args[1..]);
    }
  }

  lemma {:induction false} BranchesAgree<V(!new)>(g: Grammar, m: Interp<V>, bs: seq<Branch>)
    requires g.Valid() && Associative(g, m)
    ensures DenoteWhens(m, EvalWhens(g, bs)) == BranchesMean(g, m, bs)
    decreases bs
  {
    hide EvalWhen, BranchMeans, DenoteWhen, Associative;
    if bs != [] {
      BranchAgrees(g, m, bs[0]);
      BranchesAgree(g, m, bs[1..]);
    }
  }

  lemma {:induction false} BranchAgrees<V(!new)>(g: Grammar, m: Interp<V>, b: Branch)
    requires g.Valid() && Associative(g, m)
    ensures DenoteWhen(m, EvalWhen(g, b)) == BranchMeans(g, m, b)
    decreases b, 1
  {
    hide Eval, RunMeans, Denote, Associative;
    EvalMeans(g, m, b.cond);
    EvalMeans(g, m, b.result);
  }

  /**
    For every structure of operands and brackets, its text parses, and the tree has the value of the
    structure. Every text that parses is the text of one.
   */
  lemma ParsedMeansText<V(!new)>(g: Grammar, m: Interp<V>, ts: seq<Token>, c: Run)
    requires g.Valid() && Associative(g, m)
    ensures ts == RenderRun(c) ==>
      Parse(g, ts).Some? && Denote(m, Parse(g, ts).value) == RunMeans(g, m, c).value
    ensures Parse(g, ts).Some? ==> ParseRun(ts).Ok? && ts == RenderRun(ParseRun(ts).value)
  {
    hide Eval, RunMeans, Denote, RenderRun, ParseRun, Associative;
    TextIsStructure(ts, c);
    if ts == RenderRun(c) {
      EvalMeans(g, m, c);
    }
    if Parse(g, ts).Some? {
      TextIsStructure(ts, ParseRun(ts).value);
    }
  }
}
