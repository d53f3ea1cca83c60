/** Set-operator trees as text: the two printing routes, the parser, and when one undoes the other. */
module SetText {
  import opened Expressions
  import opened Chains
  import opened Parsing
  import opened SetOperators

  datatype Token = TSelect(id: string) | TSet(op: SetOp) | TOpen | TClose

  /** A source of a chain as written: a simple query, or a chain in parentheses. */
  datatype Source = Leaf(id: string) | Paren(inner: Chain<SetOp, Source>)

  /* ---------- parsing ---------- */

  type Parsed<T> = Reading<T, Token>

  function ParseChain(ts: seq<Token>): (r: Parsed<Chain<SetOp, Source>>)
    ensures r.Ok? ==> |r.rest| < |ts|
    decreases |ts|, 1
  {
    var (x, ts1) :- ParseSource(ts);
    if ts1 != [] && ts1[0].TSet? then
      var (c, ts2) :- ParseChain(ts1[1..]);
      Ok(Glue(Chain(x, []), ts1[0].op, c), ts2)
    else Ok(Chain(x, []), ts1)
  }

  function ParseSource(ts: seq<Token>): (r: Parsed<Source>)
    ensures r.Ok? ==> |r.rest| < |ts|
    decreases |ts|, 0
  {
    if ts == [] then Fail
    else
      match ts[0]
      case TSelect(id) => Ok(Leaf(id), ts[1..])
      case TOpen =>
        var (c, ts1) :- ParseChain(ts[1..]);
        if ts1 != [] && ts1[0] == TClose then Ok(Paren(c), ts1[1..]) else Fail
      case _ => Fail
  }

  /** The tree built for a chain: parentheses leave no trace but the tree inside them. */
  function TreeOf(c: Chain<SetOp, Source>): SetTree
    decreases c, 1
  {
    Fold(Chain(SourceTree(c.first), LinkTrees(c.rest)))
  }

  function SourceTree(s: Source): SetTree
    decreases s, 0
  {
    match s
    case Leaf(id) => Select(id)
    case Paren(inner) => TreeOf(inner)
  }

  function LinkTrees(links: seq<Link<SetOp, Source>>): (r: seq<Link<SetOp, SetTree>>)
    ensures |r| == |links|
    decreases links
  {
    if links == [] then []
    else LinkTrees(links[..|links| - 1]) + [LinkTree(links[|links| - 1])]
  }

  function LinkTree(l: Link<SetOp, Source>): Link<SetOp, SetTree>
    decreases l, 0
  {
    Link(l.op, SourceTree(l.item))
  }

  function Parse(ts: seq<Token>): Option<SetTree> {
    match ParseChain(ts)
    case Ok(c, rest) => if rest == [] then Some(TreeOf(c)) else None
    case Fail => None
  }

  /* ---------- printing ---------- */

  /** The set operators the formatter has a case for. */
  predicate Printable(op: SetOp) {
    match op.kind
    case Union => op.quantifier != Distinct
    case _ => op.quantifier == Plain
  }

  predicate WellFormed(t: SetTree) {
    match t
    case Select(_) => true
    case Node(op, ts) => Printable(op) && |ts| >= 2 && forall x <- ts :: WellFormed(x)
  }

  const FROM := 64
  const SET := 80

  /**
    Precedences in half steps. A simple query and both unions go through `unordered_query`, which
    compares with the precedence of FROM; the rest go through `Operator`.
   */
  predicate Bare(t: SetTree, ctx: int) {
    if t.Select? || t.op.kind == Union then ctx > FROM
    else if t.op.kind == Intersect then ctx >= SET
    else ctx > SET
  }

  /** The context in which operand i of n is printed; `dispatch` without one means 100. */
  function OperandContext(op: SetOp, n: nat, i: nat): int {
    match op.kind
    case Union => 200
    case Intersect => SET
    case _ => if n != 2 then SET else if i == 0 then SET + 1 else SET - 1
  }

  function Print(t: SetTree, ctx: int): seq<Token>
    requires WellFormed(t)
    decreases t, 0
  {
    var text := match t
      case Select(id) => [TSelect(id)]
      case Node(op, ts) => PrintAll(op, |ts|, ts);
    if Bare(t, ctx) then text else [TOpen] + text + [TClose]
  }

  function PrintAll(op: SetOp, n: nat, ts: seq<SetTree>): seq<Token>
    requires ts != [] && forall x <- ts :: WellFormed(x)
    decreases ts
  {
    var k := |ts| - 1;
    var last := Print(ts[k], OperandContext(op, n, k));
    if k == 0 then last else PrintAll(op, n, ts[..k]) + [TSet(op)] + last
  }

  /* ---------- the printed text as a chain of sources ---------- */

  function Lay(t: SetTree, ctx: int): (c: Chain<SetOp, Source>)
    requires WellFormed(t)
    decreases t, 0
  {
    var c := match t
      case Select(id) => Chain(Leaf(id), [])
      case Node(op, ts) => LayAll(op, |ts|, ts);
    if Bare(t, ctx) then c else Chain(Paren(c), [])
  }

  function LayAll(op: SetOp, n: nat, ts: seq<SetTree>): Chain<SetOp, Source>
    requires ts != [] && forall x <- ts :: WellFormed(x)
    decreases ts
  {
    var k := |ts| - 1;
    var last := Lay(ts[k], OperandContext(op, n, k));
    if k == 0 then last else Glue(LayAll(op, n, ts[..k]), op, last)
  }

  function Render(c: Chain<SetOp, Source>): seq<Token>
    decreases c, 1
  {
    RenderSource(c.first) + RenderLinks(c.rest)
  }

  function RenderSource(s: Source): (r: seq<Token>)
    decreases s, 0
  {
    match s
    case Leaf(id) => [TSelect(id)]
    case Paren(inner) => [TOpen] + Render(inner) + [TClose]
  }

  function RenderLinks(links: seq<Link<SetOp, Source>>): seq<Token>
    decreases links
  {
    if links == [] then [] else RenderLink(links[0]) + RenderLinks(links[1..])
  }

  function RenderLink(l: Link<SetOp, Source>): seq<Token>
    decreases l, 0
  {
    [TSet(l.op)] + RenderSource(l.item)
  }

  function Word(op: SetOp): Token {
    TSet(op)
  }

  lemma {:induction false} LinksAreText(links: seq<Link<SetOp, Source>>)
    ensures RenderLinks(links) == LinksText(links, Word, RenderSource)
  {
    hide RenderSource;
    if links != [] {
      LinksAreText(links[1..]);
    }
  }

  lemma RenderSingle(s: Source)
    ensures Render(Chain(s, [])) == RenderSource(s)
  {
  }

  lemma RenderGlue(c: Chain<SetOp, Source>, op: SetOp, d: Chain<SetOp, Source>)
    ensures Render(Glue(c, op, d)) == Render(c) + [TSet(op)] + Render(d)
  {
    hide RenderSource, RenderLinks, Glue;
    LinksAreText(c.rest);
    LinksAreText(d.rest);
    LinksAreText(Glue(c, op, d).rest);
    TextGlue(c, op, d, Word, RenderSource);
  }

  lemma {:induction false} PrintIsRender(t: SetTree, ctx: int)
    requires WellFormed(t)
    ensures Print(t, ctx) == Render(Lay(t, ctx))
    decreases t, 0
  {
    match t {
      case Select(id) =>
        RenderSingle(Leaf(id));
        RenderSingle(Paren(Chain(Leaf(id), [])));
      case Node(op, ts) =>
        PrintAllIsRender(op, |ts|, ts);
        RenderSingle(Paren(LayAll(op, |ts|, ts)));
    }
  }

  lemma {:induction false} PrintAllIsRender(op: SetOp, n: nat, ts: seq<SetTree>)
    requires ts != [] && forall x <- ts :: WellFormed(x)
    ensures PrintAll(op, n, ts) == Render(LayAll(op, n, ts))
    decreases ts
  {
    var k := |ts| - 1;
    PrintIsRender(ts[k], OperandContext(op, n, k));
    if k > 0 {
      PrintAllIsRender(op, n, ts[..k]);
      RenderGlue(LayAll(op, n, ts[..k]), op, Lay(ts[k], OperandContext(op, n, k)));
    }
  }

  /* ---------- text determines its chain ---------- */

  predicate Stops(rest: seq<Token>) {
    rest != [] ==> !rest[0].TSet?
  }

  lemma {:induction false} ChainRoundTrip(c: Chain<SetOp, Source>, rest: seq<Token>)
    requires Stops(rest)
    ensures ParseChain(Render(c) + rest) == Ok(c, rest)
    decreases |Render(c)|, 2
  {
    ChainRoundTripFrom(c.first, c.rest, rest);
  }

  lemma {:induction false} ChainRoundTripFrom(s: Source, links: seq<Link<SetOp, Source>>, rest: seq<Token>)
    requires Stops(rest)
    ensures ParseChain(RenderSource(s) + RenderLinks(links) + rest) == Ok(Chain(s, links), rest)
    decreases |RenderSource(s)| + |RenderLinks(links)|, 1
  {
    hide RenderSource, RenderLinks, ParseSource;
    var tail := RenderLinks(links) + rest;
    assert RenderSource(s) + RenderLinks(links) + rest == RenderSource(s) + tail;
    SourceRoundTrip(s, tail);
    RenderLinksStep(links, rest);
    if links != [] {
      ChainRoundTripFrom(links[0].item, links[1..], rest);
      assert Glue(Chain(s, []), links[0].op, Chain(links[0].item, links[1..])) == Chain(s, links);
    }
  }

  lemma RenderLinksStep(links: seq<Link<SetOp, Source>>, rest: seq<Token>)
    ensures links == [] ==> RenderLinks(links) + rest == rest
    ensures links != [] ==>
      var l, next := links[0], RenderLinks(links[1..]);
      && RenderLinks(links) == [TSet(l.op)] + RenderSource(l.item) + next
      && RenderLinks(links) + rest == [TSet(l.op)] + (RenderSource(l.item) + next + rest)
  {
  }

  lemma {:induction false} SourceRoundTrip(s: Source, rest: seq<Token>)
    ensures ParseSource(RenderSource(s) + rest) == Ok(s, rest)
    decreases |RenderSource(s)|, 0
  {
    if s.Paren? {
      ChainRoundTrip(s.inner, [TClose] + rest);
      assert (RenderSource(s) + rest)[1..] == Render(s.inner) + ([TClose] + rest);
    }
  }

  /* ---------- the trees of a printed chain ---------- */

  function Trees(c: Chain<SetOp, Source>): Chain<SetOp, SetTree> {
    Chain(SourceTree(c.first), LinkTrees(c.rest))
  }

  lemma {:induction false} LinkTreesConcat(a: seq<Link<SetOp, Source>>, b: seq<Link<SetOp, Source>>)
    ensures LinkTrees(a + b) == LinkTrees(a) + LinkTrees(b)
    decreases |b|
  {
    if b == [] {
      assert a + b == a;
    } else {
      LinkTreesConcat(a, b[..|b| - 1]);
      assert (a + b)[..|a + b| - 1] == a + b[..|b| - 1];
    }
  }

  lemma TreesGlue(c: Chain<SetOp, Source>, op: SetOp, d: Chain<SetOp, Source>)
    ensures Trees(Glue(c, op, d)) == Glue(Trees(c), op, Trees(d))
  {
    LinkTreesConcat(c.rest + [Link(op, d.first)], d.rest);
    LinkTreesConcat(c.rest, [Link(op, d.first)]);
    assert LinkTrees([Link(op, d.first)]) == [Link(op, SourceTree(d.first))];
  }

  lemma FoldGlueOne(c: Chain<SetOp, SetTree>, op: SetOp, d: Chain<SetOp, SetTree>)
    requires d.rest == []
    ensures Fold(Glue(c, op, d))
      == if Joins(c, op) then Node(op, Fold(c).operands + [d.first]) else Node(op, [Fold(c), d.first])
  {
    assert Init(Glue(c, op, d)) == c;
  }

  lemma {:induction false} ChainLeavesGlue(c: Chain<SetOp, SetTree>, op: SetOp, d: Chain<SetOp, SetTree>)
    ensures ChainLeaves(Glue(c, op, d)) == ChainLeaves(c) + ChainLeaves(d)
    decreases |d.rest|
  {
    var g := Glue(c, op, d);
    if d.rest == [] {
      assert Init(g) == c;
    } else {
      ChainLeavesGlue(c, op, Init(d));
      assert Init(g) == Glue(c, op, Init(d)) && Last(g) == Last(d);
    }
  }

  lemma {:induction false} SourceHasLeaves(s: Source)
    ensures Leaves(SourceTree(s)) != []
    decreases s
  {
    if s.Paren? {
      ChainHasLeaves(s.inner);
      FoldKeepsLeaves(Trees(s.inner));
    }
  }

  lemma {:induction false} ChainHasLeaves(c: Chain<SetOp, Source>)
    ensures ChainLeaves(Trees(c)) != []
    decreases c
  {
    SourceHasLeaves(c.first);
    FirstLeaves(Trees(c));
  }

  lemma {:induction false} FirstLeaves(c: Chain<SetOp, SetTree>)
    requires Leaves(c.first) != []
    ensures ChainLeaves(c) != []
    decreases |c.rest|
  {
    if c.rest != [] {
      FirstLeaves(Init(c));
    }
  }

  lemma ParenIsTransparent(c: Chain<SetOp, Source>)
    ensures TreeOf(Chain(Paren(c), [])) == TreeOf(c)
  {
  }

  /** Reading back printed text never loses, repeats or moves a simple query, whatever happens to the nesting. */
  lemma {:induction false} PrintingKeepsLeaves(t: SetTree, ctx: int)
    requires WellFormed(t)
    ensures Leaves(TreeOf(Lay(t, ctx))) == Leaves(t)
    decreases t, 0
  {
    LayShape(t, ctx);
    if t.Node? {
      LayAllKeepsLeaves(t.op, |t.operands|, t.operands);
      var c := LayAll(t.op, |t.operands|, t.operands);
      FoldKeepsLeaves(Trees(c));
      TreeIsFold(c);
    }
  }

  lemma {:induction false} LayAllKeepsLeaves(op: SetOp, n: nat, ts: seq<SetTree>)
    requires ts != [] && forall x <- ts :: WellFormed(x)
    ensures ChainLeaves(Trees(LayAll(op, n, ts))) == LeavesOfAll(ts)
    decreases ts
  {
    hide Lay, Trees, TreeOf, Fold;
    var k := |ts| - 1;
    var last := Lay(ts[k], OperandContext(op, n, k));
    PrintingKeepsLeaves(ts[k], OperandContext(op, n, k));
    TreeIsFold(last);
    FoldKeepsLeaves(Trees(last));
    if k > 0 {
      var c := LayAll(op, n, ts[..k]);
      LayAllKeepsLeaves(op, n, ts[..k]);
      TreesGlue(c, op, last);
      ChainLeavesGlue(Trees(c), op, Trees(last));
    } else {
      assert LeavesOfAll(ts[..k]) == [];
    }
  }

  lemma TreeIsFold(c: Chain<SetOp, Source>)
    ensures TreeOf(c) == Fold(Trees(c))
    ensures c.rest == [] ==> TreeOf(c) == SourceTree(c.first)
    ensures |Trees(c).rest| == |c.rest| && Trees(c).first == SourceTree(c.first)
  {
  }

  /* ---------- when reading back gives the same tree ---------- */

  /** Printed as a chain with no parentheses of its own. */
  predicate Exposed(t: SetTree, ctx: int) {
    t.Node? && Bare(t, ctx)
  }

  /**
    What a tree needs for its text to be read back: two operands unless it is a union, parentheses
    around every operand but the first, and a bare first operand that is not the same union.
   */
  predicate Survives(t: SetTree) {
    match t
    case Select(_) => true
    case Node(op, ts) =>
      && (op.kind == Union || |ts| <= 2)
      && (forall i :: 0 <= i < |ts| ==> Survives(ts[i]))
      && (forall i :: 0 < i < |ts| ==> !Exposed(ts[i], OperandContext(op, |ts|, i)))
      && (ts != [] && Exposed(ts[0], OperandContext(op, |ts|, 0)) && op.kind == Union ==> ts[0].op != op)
  }

  lemma LayShape(t: SetTree, ctx: int)
    requires WellFormed(t)
    ensures Lay(t, ctx).rest != [] <==> Exposed(t, ctx)
    ensures t.Node? ==> TreeOf(Lay(t, ctx)) == TreeOf(LayAll(t.op, |t.operands|, t.operands))
    ensures t.Select? ==> TreeOf(Lay(t, ctx)) == t
  {
    if t.Node? {
      ParenIsTransparent(LayAll(t.op, |t.operands|, t.operands));
    } else {
      ParenIsTransparent(Chain(Leaf(t.id), []));
    }
  }

  lemma {:induction false} SurvivorReadsBack(t: SetTree, ctx: int)
    requires WellFormed(t) && Survives(t)
    ensures TreeOf(Lay(t, ctx)) == t
    decreases t, 1
  {
    hide Fold, Trees, LinkTrees, SourceTree, TreeOf, Exposed, Survives;
    LayShape(t, ctx);
    if t.Node? {
      OperandsReadBack(t, |t.operands|);
      assert t.operands[..|t.operands|] == t.operands;
      TreeIsFold(LayAll(t.op, |t.operands|, t.operands));
    }
  }

  /** The first k operands of a surviving node, read back. */
  lemma {:induction false} OperandsReadBack(t: SetTree, k: nat)
    requires WellFormed(t) && Survives(t) && t.Node? && 1 <= k <= |t.operands|
    ensures var c := Trees(LayAll(t.op, |t.operands|, t.operands[..k]));
      if k == 1 then Fold(c) == t.operands[0] && !Joins(c, t.op)
      else Fold(c) == Node(t.op, t.operands[..k])
    decreases t, 0, k
  {
    hide Fold, Lay, TreeOf, Trees, LinkTrees, SourceTree;
    var op, n, ts := t.op, |t.operands|, t.operands;
    var ctx := OperandContext(op, n, k - 1);
    var last := Lay(ts[k - 1], ctx);
    LayShape(ts[k - 1], ctx);
    SurvivorReadsBack(ts[k - 1], ctx);
    TreeIsFold(last);
    if k > 1 {
      assert ts[..k][..k - 1] == ts[..k - 1];
      var c := LayAll(op, n, ts[..k - 1]);
      OperandsReadBack(t, k - 1);
      TreesGlue(c, op, last);
      FoldGlueOne(Trees(c), op, Trees(last));
      assert ts[..k] == ts[..k - 1] + [ts[k - 1]];
      if k > 2 {
        TreeIsFold(c);
        assert c.rest != [] by { LayAllHasLinks(op, n, ts[..k - 1]); }
        RunJoins(op, Trees(c), ts[..k - 1]);
      }
    }
  }

  lemma LayAllHasLinks(op: SetOp, n: nat, ts: seq<SetTree>)
    requires |ts| >= 2 && forall x <- ts :: WellFormed(x)
    ensures LayAll(op, n, ts).rest != []
  {
  }

  /** Folding to a union node means the chain ends in that union. */
  lemma RunJoins(op: SetOp, c: Chain<SetOp, SetTree>, ts: seq<SetTree>)
    requires op.kind == Union && c.rest != [] && Fold(c) == Node(op, ts)
    ensures Joins(c, op)
  {
  }

  lemma {:induction false} ReadBackSurvives(t: SetTree, ctx: int)
    requires WellFormed(t) && TreeOf(Lay(t, ctx)) == t
    ensures Survives(t)
    decreases t, 1
  {
    LayShape(t, ctx);
    if t.Node? {
      TreeIsFold(LayAll(t.op, |t.operands|, t.operands));
      OperandsSurvive(t.op, |t.operands|, t.operands);
    }
  }

  /** The last source of the chain is the last operand; the rest of the chain is the operands before it. */
  lemma {:induction false} OperandsSurvive(op: SetOp, n: nat, ts: seq<SetTree>)
    requires 2 <= |ts| && forall x <- ts :: WellFormed(x)
    requires |ts| == n || op.kind == Union
    requires Fold(Trees(LayAll(op, n, ts))) == Node(op, ts)
    ensures Survives(Node(op, ts))
    decreases ts
  {
    hide Fold, Lay, TreeOf, Trees, LinkTrees, SourceTree, Leaves, LeavesOfAll, ChainLeaves, Survives;
    var k := |ts| - 1;
    var ctx := OperandContext(op, n, k);
    var last, c := Lay(ts[k], ctx), LayAll(op, n, ts[..k]);
    TreesGlue(c, op, last);
    LastOperandAlone(op, c, ts[k], ctx, Node(op, ts));
    TreeIsFold(last);
    LayShape(ts[k], ctx);
    FoldGlueOne(Trees(c), op, Trees(last));
    ReadBackSurvives(ts[k], ctx);
    FoldOperands(Trees(c), op);
    if k == 1 {
      assert ts[..1] == [ts[0]];
      var ctx0 := OperandContext(op, n, 0);
      assert c == Lay(ts[0], ctx0);
      TreeIsFold(c);
      ReadBackSurvives(ts[0], ctx0);
      LayShape(ts[0], ctx0);
      FoldJoins(op, Trees(c));
      PairSurvives(op, ts);
    } else {
      assert (Fold(Trees(c)).operands + [ts[k]])[..k] == Fold(Trees(c)).operands;
      OperandsSurvive(op, n, ts[..k]);
      MoreSurvive(op, ts);
    }
  }

  lemma FoldOperands(c: Chain<SetOp, SetTree>, op: SetOp)
    ensures Joins(c, op) ==> Fold(c).Node? && Fold(c).op == op && |Fold(c).operands| >= 2
  {
  }

  lemma FoldJoins(op: SetOp, c: Chain<SetOp, SetTree>)
    requires !Joins(c, op)
    ensures c.rest != [] && op.kind == Union ==> Fold(c).Node? && Fold(c).op != op
  {
  }

  lemma PairSurvives(op: SetOp, ts: seq<SetTree>)
    requires |ts| == 2 && Survives(ts[0]) && Survives(ts[1])
    requires !Exposed(ts[1], OperandContext(op, 2, 1))
    requires Exposed(ts[0], OperandContext(op, 2, 0)) && op.kind == Union ==> ts[0].op != op
    ensures Survives(Node(op, ts))
  {
  }

  lemma MoreSurvive(op: SetOp, ts: seq<SetTree>)
    requires |ts| > 2 && op.kind == Union && Survives(Node(op, ts[..|ts| - 1])) && Survives(ts[|ts| - 1])
    requires !Exposed(ts[|ts| - 1], OperandContext(op, |ts|, |ts| - 1))
    ensures Survives(Node(op, ts))
  {
    forall i | 0 <= i < |ts| ensures Survives(ts[i]) && (i > 0 ==> !Exposed(ts[i], OperandContext(op, |ts|, i))) {
      if i < |ts| - 1 {
        assert ts[i] == ts[..|ts| - 1][i];
      }
    }
    assert ts[0] == ts[..|ts| - 1][0];
  }

  /** A last operand printed without parentheses would be more than the last source can hold. */
  lemma LastOperandAlone(op: SetOp, c: Chain<SetOp, Source>, x: SetTree, ctx: int, t: SetTree)
    requires WellFormed(x) && t.Node? && t.operands != [] && t.operands[|t.operands| - 1] == x
    requires Fold(Glue(Trees(c), op, Trees(Lay(x, ctx)))) == t
    ensures Lay(x, ctx).rest == []
  {
    hide Fold, Lay, TreeOf, Trees, LinkTrees, SourceTree, Leaves, LeavesOfAll;
    var d := Lay(x, ctx);
    var whole := Glue(Trees(c), op, Trees(d));
    TreeIsFold(d);
    if d.rest != [] {
      assert Last(whole) == Last(Trees(d));
      LastOfFold(whole);
      assert Last(Trees(d)).item == x;
      PrintingKeepsLeaves(x, ctx);
      FoldKeepsLeaves(Trees(d));
      InitHasLeaves(d);
    }
  }

  lemma LastOfFold(c: Chain<SetOp, SetTree>)
    requires c.rest != []
    ensures Fold(c).Node? && Fold(c).operands != []
    ensures Fold(c).operands[|Fold(c).operands| - 1] == Last(c).item
  {
  }

  lemma InitHasLeaves(c: Chain<SetOp, Source>)
    requires c.rest != []
    ensures |Trees(c).rest| > 0 && |ChainLeaves(Trees(c))| > |Leaves(Last(Trees(c)).item)|
  {
    SourceHasLeaves(c.first);
    FirstLeaves(Init(Trees(c)));
  }

  /** The text of a tree in any context is read back as that tree exactly when the tree survives. */
  lemma PrintThenParse(t: SetTree, ctx: int)
    requires WellFormed(t)
    ensures Parse(Print(t, ctx)) == Some(t) <==> Survives(t)
  {
    var c := Lay(t, ctx);
    PrintIsRender(t, ctx);
    ChainRoundTrip(c, []);
    assert Render(c) + [] == Render(c);
    if Survives(t) {
      SurvivorReadsBack(t, ctx);
    }
    if TreeOf(c) == t {
      ReadBackSurvives(t, ctx);
    }
  }

  /** A chain of simple queries, without parentheses. */
  predicate Unparenthesised(c: Chain<SetOp, SetTree>) {
    c.first.Select? && forall l <- c.rest :: l.item.Select? && Printable(l.op)
  }

  /** Every tree built from an unparenthesised chain prints to text that is read back as that tree. */
  lemma {:induction false} ChainsSurvive(c: Chain<SetOp, SetTree>)
    requires Unparenthesised(c)
    ensures WellFormed(Fold(c)) && Survives(Fold(c))
    decreases |c.rest|
  {
    if c.rest != [] {
      ChainsSurvive(Init(c));
      var before, l := Fold(Init(c)), Last(c);
      if Joins(Init(c), l.op) {
        MoreSurvive(l.op, before.operands + [l.item]);
        assert (before.operands + [l.item])[..|before.operands|] == before.operands;
      } else {
        PairSurvives(l.op, [before, l.item]);
      }
    }
  }

  lemma ChainRoundTrips(c: Chain<SetOp, SetTree>, ctx: int)
    requires Unparenthesised(c)
    ensures WellFormed(Fold(c)) && Parse(Print(Fold(c), ctx)) == Some(Fold(c))
  {
    ChainsSurvive(c);
    PrintThenParse(Fold(c), ctx);
  }

  /**
    A union prints its operands without parentheses, so a right-nested tree is read back as another
    one: the code folds `a UNION b EXCEPT c` strictly from the left.
   */
  lemma RightNestingIsLost(a: string, b: string, c: string, ctx: int)
    ensures var union, except := SetOp(Union, Plain), SetOp(Except, Plain);
      var t := Node(union, [Select(a), Node(except, [Select(b), Select(c)])]);
      && WellFormed(t) && ctx > FROM
      ==> Parse(Print(t, ctx)) == Some(Node(except, [Node(union, [Select(a), Select(b)]), Select(c)]))
  {
    var union, except := SetOp(Union, Plain), SetOp(Except, Plain);
    var inner := Node(except, [Select(b), Select(c)]);
    var t := Node(union, [Select(a), inner]);
    if ctx > FROM {
      var text := Chain(Leaf(a), [Link(union, Leaf(b)), Link(except, Leaf(c))]);
      PrintIsRender(t, ctx);
      NestedLay(a, b, c, ctx);
      hide Print, Lay, ParseChain, Render;
      ChainRoundTrip(text, []);
      assert Render(text) + [] == Render(text);
      assert text == Glue(Glue(Chain(Leaf(a), []), union, Chain(Leaf(b), [])), except, Chain(Leaf(c), []));
      TreesGlue(Chain(Leaf(a), []), union, Chain(Leaf(b), []));
      TreesGlue(Glue(Chain(Leaf(a), []), union, Chain(Leaf(b), [])), except, Chain(Leaf(c), []));
      FoldGlueOne(Chain(Select(a), []), union, Chain(Select(b), []));
      FoldGlueOne(Glue(Chain(Select(a), []), union, Chain(Select(b), [])), except, Chain(Select(c), []));
    }
  }

  lemma NestedLay(a: string, b: string, c: string, ctx: int)
    requires ctx > FROM
    ensures var union, except := SetOp(Union, Plain), SetOp(Except, Plain);
      var t := Node(union, [Select(a), Node(except, [Select(b), Select(c)])]);
      WellFormed(t) && Lay(t, ctx) == Chain(Leaf(a), [Link(union, Leaf(b)), Link(except, Leaf(c))])
  {
    var union, except := SetOp(Union, Plain), SetOp(Except, Plain);
    LayPair(except, Select(b), Select(c));
    LayPair(union, Select(a), Node(except, [Select(b), Select(c)]));
  }

  lemma LayPair(op: SetOp, x: SetTree, y: SetTree)
    requires WellFormed(x) && WellFormed(y)
    ensures LayAll(op, 2, [x, y]) == Glue(Lay(x, OperandContext(op, 2, 0)), op, Lay(y, OperandContext(op, 2, 1)))
  {
    assert [x, y][..1] == [x];
  }

  /* ---------- where parentheses go ---------- */

  /** An operand that is a set operation stands in parentheses in these cases only; unions print every operand bare. */
  predicate Parenthesised(op: Kind, later: bool, c: Kind) {
    match c
    case Union => false
    case Intersect => later && (op == Except || op == Minus)
    case _ => op == Intersect || (later && op != Union)
  }

  lemma PairText(op: SetOp, a: string, b: string, ctx: int)
    requires Printable(op) && ctx > FROM
    ensures WellFormed(Node(op, [Select(a), Select(b)]))
    ensures Print(Node(op, [Select(a), Select(b)]), ctx)
      == var text := [TSelect(a), TSet(op), TSelect(b)];
         if Bare(Node(op, [Select(a), Select(b)]), ctx) then text else [TOpen] + text + [TClose]
  {
    OperandsText(op, Select(a), Select(b), ctx);
  }

  lemma OperandsText(op: SetOp, x: SetTree, y: SetTree, ctx: int)
    requires Printable(op) && WellFormed(x) && WellFormed(y)
    ensures WellFormed(Node(op, [x, y]))
    ensures Print(Node(op, [x, y]), ctx)
      == var text := Print(x, OperandContext(op, 2, 0)) + [TSet(op)] + Print(y, OperandContext(op, 2, 1));
         if Bare(Node(op, [x, y]), ctx) then text else [TOpen] + text + [TClose]
  {
    assert [x, y][..1] == [x];
    assert PrintAll(op, 2, [x]) == Print(x, OperandContext(op, 2, 0));
    assert PrintAll(op, 2, [x, y])
        == PrintAll(op, 2, [x]) + [TSet(op)] + Print(y, OperandContext(op, 2, 1));
  }

  /** A set operation as the first operand of another, with no context around it. */
  lemma FirstOperandText(op: SetOp, inner: SetOp, a: string, b: string, c: string)
    requires Printable(op) && Printable(inner)
    ensures var t := Node(op, [Node(inner, [Select(a), Select(b)]), Select(c)]);
      && WellFormed(t)
      && Print(t, 200)
         == if Parenthesised(op.kind, false, inner.kind)
            then [TOpen, TSelect(a), TSet(inner), TSelect(b), TClose, TSet(op), TSelect(c)]
            else [TSelect(a), TSet(inner), TSelect(b), TSet(op), TSelect(c)]
  {
    hide Print, WellFormed;
    PairText(inner, a, b, OperandContext(op, 2, 0));
    SimpleText(c, OperandContext(op, 2, 1));
    OperandsText(op, Node(inner, [Select(a), Select(b)]), Select(c), 200);
  }

  /** And as a later one. */
  lemma LaterOperandText(op: SetOp, inner: SetOp, a: string, b: string, c: string)
    requires Printable(op) && Printable(inner)
    ensures var t := Node(op, [Select(a), Node(inner, [Select(b), Select(c)])]);
      && WellFormed(t)
      && Print(t, 200)
         == if Parenthesised(op.kind, true, inner.kind)
            then [TSelect(a), TSet(op), TOpen, TSelect(b), TSet(inner), TSelect(c), TClose]
            else [TSelect(a), TSet(op), TSelect(b), TSet(inner), TSelect(c)]
  {
    hide Print, WellFormed;
    PairText(inner, b, c, OperandContext(op, 2, 1));
    SimpleText(a, OperandContext(op, 2, 0));
    OperandsText(op, Select(a), Node(inner, [Select(b), Select(c)]), 200);
  }

  lemma SimpleText(id: string, ctx: int)
    requires ctx > FROM
    ensures WellFormed(Select(id)) && Print(Select(id), ctx) == [TSelect(id)]
  {
  }

  /* ---------- what a text means ---------- */

  /** The value of a text from its sources: operators from left to right, parentheses only for grouping. */
  function TextValue<V>(apply: (SetOp, V, V) -> V, leaf: string -> V, c: Chain<SetOp, Source>): V
    decreases c, 1
  {
    ValueFrom(apply, leaf, SourceValue(apply, leaf, c.first), c.rest)
  }

  function ValueFrom<V>(apply: (SetOp, V, V) -> V, leaf: string -> V, acc: V, links: seq<Link<SetOp, Source>>): V
    decreases links
  {
    if links == [] then acc else ValueFrom(apply, leaf, Step(apply, leaf, acc, links[0]), links[1..])
  }

  function Step<V>(apply: (SetOp, V, V) -> V, leaf: string -> V, acc: V, l: Link<SetOp, Source>): V
    decreases l, 0
  {
    apply(l.op, acc, SourceValue(apply, leaf, l.item))
  }

  function SourceValue<V>(apply: (SetOp, V, V) -> V, leaf: string -> V, s: Source): V
    decreases s, 0
  {
    match s
    case Leaf(id) => leaf(id)
    case Paren(inner) => TextValue(apply, leaf, inner)
  }

  lemma {:induction false} ValueFromLast<V>(
    apply: (SetOp, V, V) -> V, leaf: string -> V, acc: V, links: seq<Link<SetOp, Source>>, l: Link<SetOp, Source>)
    ensures ValueFrom(apply, leaf, acc, links + [l]) == Step(apply, leaf, ValueFrom(apply, leaf, acc, links), l)
    decreases |links|
  {
    hide Step;
    if links == [] {
      assert [] + [l] == [l] && [l][1..] == [];
    } else {
      ValueFromLast(apply, leaf, Step(apply, leaf, acc, links[0]), links[1..], l);
      assert (links + [l])[0] == links[0] && (links + [l])[1..] == links[1..] + [l];
    }
  }

  lemma {:induction false} ChainMeansText<V>(
    apply: (SetOp, V, V) -> V, leaf: string -> V, empty: V, c: Chain<SetOp, Source>)
    ensures Value(apply, leaf, empty, TreeOf(c)) == TextValue(apply, leaf, c)
    decreases c, 1
  {
    hide Value, Fold, SourceTree, SourceValue;
    FoldMeansLeftFold(apply, leaf, empty, Trees(c));
    SourceMeansText(apply, leaf, empty, c.first);
    LinksMeanText(apply, leaf, empty, c.first, c.rest);
  }

  lemma {:induction false} LinksMeanText<V>(
    apply: (SetOp, V, V) -> V, leaf: string -> V, empty: V, first: Source, links: seq<Link<SetOp, Source>>)
    requires Value(apply, leaf, empty, SourceTree(first)) == SourceValue(apply, leaf, first)
    ensures LeftFold(apply, leaf, empty, Chain(SourceTree(first), LinkTrees(links)))
      == ValueFrom(apply, leaf, SourceValue(apply, leaf, first), links)
    decreases links
  {
    hide Value, SourceTree, SourceValue;
    if links != [] {
      var k := |links| - 1;
      LinksMeanText(apply, leaf, empty, first, links[..k]);
      LinkMeansText(apply, leaf, empty, links[k]);
      assert links == links[..k] + [links[k]];
      ValueFromLast(apply, leaf, SourceValue(apply, leaf, first), links[..k], links[k]);
      var c := Chain(SourceTree(first), LinkTrees(links));
      assert Last(c) == LinkTree(links[k]) && Init(c) == Chain(SourceTree(first), LinkTrees(links[..k]));
    }
  }

  lemma {:induction false} LinkMeansText<V>(
    apply: (SetOp, V, V) -> V, leaf: string -> V, empty: V, l: Link<SetOp, Source>)
    ensures Value(apply, leaf, empty, SourceTree(l.item)) == SourceValue(apply, leaf, l.item)
    decreases l, 2
  {
    SourceMeansText(apply, leaf, empty, l.item);
  }

  lemma {:induction false} SourceMeansText<V>(
    apply: (SetOp, V, V) -> V, leaf: string -> V, empty: V, s: Source)
    ensures Value(apply, leaf, empty, SourceTree(s)) == SourceValue(apply, leaf, s)
    decreases s, 1
  {
    if s.Paren? {
      ChainMeansText(apply, leaf, empty, s.inner);
    }
  }

  lemma {:induction false} ChainIsText(ts: seq<Token>)
    requires ParseChain(ts).Ok?
    ensures Render(ParseChain(ts).value) + ParseChain(ts).rest == ts
    decreases |ts|, 1
  {
    hide ParseSource, Render, RenderSource, Glue;
    SourceIsText(ts);
    var x := ParseSource(ts);
    RenderSingle(x.value);
    if x.rest != [] && x.rest[0].TSet? {
      ChainIsText(x.rest[1..]);
      var c := ParseChain(x.rest[1..]);
      RenderGlue(Chain(x.value, []), x.rest[0].op, c.value);
      assert x.rest == [x.rest[0]] + x.rest[1..];
    }
  }

  lemma {:induction false} SourceIsText(ts: seq<Token>)
    requires ParseSource(ts).Ok?
    ensures RenderSource(ParseSource(ts).value) + ParseSource(ts).rest == ts
    decreases |ts|, 0
  {
    hide ParseChain, Render;
    if ts[0] == TOpen {
      ChainIsText(ts[1..]);
      var c := ParseChain(ts[1..]);
      assert ts == [TOpen] + ts[1..] && c.rest == [TClose] + c.rest[1..];
    }
  }

  /** Whatever sources and parentheses are written, the text parses and the tree has the value of the text. */
  lemma ParsedMeansText<V>(
    apply: (SetOp, V, V) -> V, leaf: string -> V, empty: V, ts: seq<Token>, c: Chain<SetOp, Source>)
    ensures ts == Render(c) ==>
      Parse(ts).Some? && Value(apply, leaf, empty, Parse(ts).value) == TextValue(apply, leaf, c)
    ensures Parse(ts).Some? ==> ParseChain(ts).Ok? && ts == Render(ParseChain(ts).value)
  {
    hide ParseChain, Render, TreeOf, TextValue, Value;
    ChainRoundTrip(c, []);
    assert Render(c) + [] == Render(c);
    ChainMeansText(apply, leaf, empty, c);
    if Parse(ts).Some? {
      ChainIsText(ts);
    }
  }
}
