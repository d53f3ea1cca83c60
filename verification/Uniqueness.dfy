/**
  A run determines where its tree was cut: if the tree of `left op right` is the node for `op` over
  two trees as wide as `left` and `right`, then the level list really does put `op` at the root
  there. This is what makes a missing parenthesis always change the tree.
 */
module Uniqueness {
  import opened Expressions
  import opened Chains
  import opened Engine

  /** The number of operands outside any call or CASE; a test for NULL has NULL for one. */
  function Leaves(e: Expr): (n: nat)
    ensures n >= 1
    decreases e, 0
  {
    match e
    case Infix(_, operands) => if operands != [] then LeavesAll(operands) else 1
    case Missing(arg) => Leaves(arg) + 1
    case Exists(arg) => Leaves(arg) + 1
    case _ => 1
  }

  function LeavesAll(es: seq<Expr>): (n: nat)
    ensures n >= |es|
    decreases es
  {
    if es == [] then 0 else Leaves(es[0]) + LeavesAll(es[1..])
  }

  lemma {:induction false} LeavesAppend(a: seq<Expr>, b: seq<Expr>)
    ensures LeavesAll(a + b) == LeavesAll(a) + LeavesAll(b)
  {
    if a == [] {
      assert a + b == b;
    } else {
      LeavesAppend(a[1..], b);
      assert (a + b)[1..] == a[1..] + b;
    }
  }

  /** Every infix node has at least two operands and, if flattening, no operand with its own operator. */
  predicate Flat(g: Grammar, e: Expr) {
    match e
    case Infix(op, operands) =>
      && |operands| >= 2
      && (g.assoc(op) ==> forall k <- operands :: !(k.Infix? && k.op == op))
      && forall k <- operands :: Flat(g, k)
    case Missing(arg) => Flat(g, arg)
    case Exists(arg) => Flat(g, arg)
    case _ => true
  }

  ghost predicate ItemsFlat(g: Grammar, c: Chain<Op, Value>) {
    && Flat(g, Strip(c.first))
    && forall i :: 0 <= i < |c.rest| ==> Flat(g, Strip(c.rest[i].item))
  }

  lemma KidsFlat(g: Grammar, op: Op, e: Expr)
    requires Flat(g, e) && g.assoc(op)
    ensures Kids(op, e) != []
    ensures forall k <- Kids(op, e) :: !(k.Infix? && k.op == op)
    ensures LeavesAll(Kids(op, e)) == Leaves(e)
  {
    assert [e][1..] == [];
  }

  lemma LeavesOfPair(a: Expr, b: Expr)
    ensures LeavesAll([b]) == Leaves(b)
    ensures LeavesAll([a, b]) == Leaves(a) + Leaves(b)
  {
    assert [b][1..] == [];
    assert [a, b][1..] == [b];
  }

  lemma JoinFlat(g: Grammar, op: Op, a: Expr, b: Expr)
    requires Flat(g, a) && Flat(g, b)
    ensures Flat(g, Join(g, op, a, b))
    ensures Leaves(Join(g, op, a, b)) == Leaves(a) + Leaves(b)
  {
    if g.assoc(op) {
      KidsFlat(g, op, a);
      KidsFlat(g, op, b);
      LeavesAppend(Kids(op, a), Kids(op, b));
    } else {
      LeavesOfPair(a, b);
    }
  }

  ghost function Width(c: Chain<Op, Value>): (n: nat)
    ensures n >= 1
  {
    Leaves(Strip(c.first)) + WidthOfLinks(c.rest)
  }

  ghost function WidthOfLinks(links: seq<Link<Op, Value>>): nat {
    if links == [] then 0 else Leaves(Strip(links[0].item)) + WidthOfLinks(links[1..])
  }

  lemma {:induction false} WidthAppend(a: seq<Link<Op, Value>>, b: seq<Link<Op, Value>>)
    ensures WidthOfLinks(a + b) == WidthOfLinks(a) + WidthOfLinks(b)
  {
    if a == [] {
      assert a + b == b;
    } else {
      WidthAppend(a[1..], b);
      assert (a + b)[1..] == a[1..] + b;
    }
  }

  lemma WidthGlue(a: Chain<Op, Value>, op: Op, b: Chain<Op, Value>)
    ensures Width(Glue(a, op, b)) == Width(a) + Width(b)
  {
    WidthAppend(a.rest + [Link(op, b.first)], b.rest);
    WidthAppend(a.rest, [Link(op, b.first)]);
    assert [Link(op, b.first)][1..] == [];
  }

  lemma CombineFlat(g: Grammar, op: Op, left: Value, right: Value)
    requires Flat(g, Strip(left)) && Flat(g, Strip(right))
    ensures Flat(g, Combine(g, op, left, right))
    ensures Leaves(Combine(g, op, left, right)) == Leaves(Strip(left)) + Leaves(Strip(right))
  {
    JoinFlat(g, TreeOp(op), Strip(left), Strip(right));
  }

  lemma {:induction false} TreeWidth(g: Grammar, c: Chain<Op, Value>)
    requires ItemsFlat(g, c)
    ensures Flat(g, Strip(Tree(g, c)))
    ensures Leaves(Strip(Tree(g, c))) == Width(c)
    decreases |c.rest|
  {
    if c.rest != [] {
      var i := Loosest(g, c.rest);
      var l, r := LeftOf(c, i), RightOf(c, i);
      RootSplit(g, c, i);
      TreeWidth(g, l);
      TreeWidth(g, r);
      CombineFlat(g, c.rest[i].op, Tree(g, l), Tree(g, r));
      WidthGlue(l, c.rest[i].op, r);
    }
  }

  lemma Overlap<T>(a: seq<T>, b: seq<T>, c: seq<T>, d: seq<T>)
    requires a + b == c + d && |c| <= |a|
    ensures a == c + a[|c|..] && d == a[|c|..] + b
  {
    assert a == (a + b)[..|a|] && b == (a + b)[|a|..];
    assert c == (c + d)[..|c|] && d == (c + d)[|c|..];
  }

  lemma SamePrefix(a: seq<Expr>, b: seq<Expr>, c: seq<Expr>, d: seq<Expr>)
    requires a + b == c + d && LeavesAll(a) >= LeavesAll(c)
    ensures |a| >= |c| && a == c + a[|c|..] && d == a[|c|..] + b
    ensures LeavesAll(a[|c|..]) == LeavesAll(a) - LeavesAll(c)
  {
    if |a| < |c| {
      Overlap(c, d, a, b);
      LeavesAppend(a, c[|a|..]);
      assert false;
    }
    Overlap(a, b, c, d);
    LeavesAppend(c, a[|c|..]);
  }

  /** The flat node over the operands `ks`. */
  function Gather(op: Op, ks: seq<Expr>): Expr
    requires ks != []
  {
    if |ks| == 1 then ks[0] else Infix(op, ks)
  }

  lemma KidsInjective(g: Grammar, op: Op, x: Expr, y: Expr)
    requires Flat(g, x) && Flat(g, y) && Kids(op, x) == Kids(op, y)
    ensures x == y
  {
    assert Kids(op, x)[0] == Kids(op, y)[0];
  }

  /** The parser builds an infix node only where it did not find a test for NULL. */
  lemma RootNode(g: Grammar, c: Chain<Op, Value>, op: Op, a: Expr, b: Expr, i: nat)
    requires c.rest != [] && i == Loosest(g, c.rest)
    requires Strip(Tree(g, c)) == Join(g, op, a, b)
    ensures TreeOp(c.rest[i].op) == op
    ensures NullTest(op, Tree(g, LeftOf(c, i)), Tree(g, RightOf(c, i))).None?
    ensures Join(g, op, Strip(Tree(g, LeftOf(c, i))), Strip(Tree(g, RightOf(c, i)))) == Join(g, op, a, b)
  {
    hide Tree, Loosest;
    TreeUnfolds(g, c, i);
  }

  lemma ItemsFlatGlue(g: Grammar, left: Chain<Op, Value>, op: Op, right: Chain<Op, Value>)
    requires ItemsFlat(g, left) && ItemsFlat(g, right)
    ensures ItemsFlat(g, Glue(left, op, right))
  {
  }

  lemma {:induction false} LinksHaveWidth(links: seq<Link<Op, Value>>)
    ensures WidthOfLinks(links) >= |links|
  {
    if links != [] {
      LinksHaveWidth(links[1..]);
    }
  }

  /** The further right a run is cut, the wider is its left part. */
  lemma WidthOfLeft(c: Chain<Op, Value>, i: nat, j: nat)
    requires i < j < |c.rest|
    ensures Width(LeftOf(c, i)) < Width(LeftOf(c, j))
  {
    hide Leaves;
    assert c.rest[..j] == c.rest[..i] + c.rest[i..j];
    WidthAppend(c.rest[..i], c.rest[i..j]);
    LinksHaveWidth(c.rest[i..j]);
  }

  /** So its width says where the cut is. */
  lemma CutByWidth(left: Chain<Op, Value>, op: Op, right: Chain<Op, Value>, i: nat)
    requires i < |Glue(left, op, right).rest| && Width(LeftOf(Glue(left, op, right), i)) == Width(left)
    ensures i == |left.rest|
  {
    hide Width, Glue;
    var c, k := Glue(left, op, right), |left.rest|;
    GlueHere(left, op, right);
    if i < k {
      WidthOfLeft(c, i, k);
    } else if i > k {
      WidthOfLeft(c, k, i);
    }
  }

  lemma {:induction false} Cut(g: Grammar, left: Chain<Op, Value>, op: Op, right: Chain<Op, Value>, a: Expr, b: Expr)
    requires g.Valid() && ItemsFlat(g, left) && ItemsFlat(g, right) && Flat(g, a) && Flat(g, b)
    requires OfTrees(op) && Leaves(a) == Width(left) && Leaves(b) == Width(right)
    requires Strip(Tree(g, Glue(left, op, right))) == Join(g, op, a, b)
    ensures AtMost(g, left, g.level(op)) && FitsRight(g, right, op)
    ensures Strip(Tree(g, left)) == a && Strip(Tree(g, right)) == b
    ensures NullTest(op, Tree(g, left), Tree(g, right)).None?
    decreases |right.rest|, 1
  {
    hide Tree, Flat, Leaves, Width, Loosest, Glue, NullTest, Join;
    var c := Glue(left, op, right);
    GlueHere(left, op, right);
    var i := Loosest(g, c.rest);
    ItemsFlatGlue(g, left, op, right);
    RootNode(g, c, op, a, b, i);
    RootAfter(g, left, op, right, a, b, i);
    if i == |left.rest| {
      RootSplit(g, c, i);
      TreeWidth(g, left);
      TreeWidth(g, right);
      CutHere(g, op, Strip(Tree(g, left)), Strip(Tree(g, right)), a, b);
      BelowFits(g, right, op);
    } else {
      var j := i - |left.rest| - 1;
      LaterParts(g, left, op, right, j);
      GlueParts(left, op, right, j);
      CutLater(g, left, op, LeftOf(right, j), RightOf(right, j), a, b);
      NotAComparison(g, op, Tree(g, left), Tree(g, right));
    }
  }

  /** The root is at the glue, or if `op` flattens, possibly at another `op` after it. */
  lemma RootAfter(g: Grammar, left: Chain<Op, Value>, op: Op, right: Chain<Op, Value>, a: Expr, b: Expr, i: nat)
    requires g.Valid() && ItemsFlat(g, Glue(left, op, right)) && Leaves(a) == Width(left)
    requires OfTrees(op)
    requires i == Loosest(g, Glue(left, op, right).rest) && TreeOp(Glue(left, op, right).rest[i].op) == op
    requires var c := Glue(left, op, right);
      Join(g, op, Strip(Tree(g, LeftOf(c, i))), Strip(Tree(g, RightOf(c, i)))) == Join(g, op, a, b)
    ensures i == |left.rest|
      || (g.assoc(op) && i > |left.rest| && right.rest[i - |left.rest| - 1].op == op)
  {
    hide Tree, Flat, Leaves, Width, Loosest, Glue;
    var c := Glue(left, op, right);
    GlueHere(left, op, right);
    if !g.assoc(op) {
      PartsFlat(g, c, i);
      TreeWidth(g, LeftOf(c, i));
      assert [a, b][0] == a;
      CutByWidth(left, op, right, i);
    } else {
      NotBefore(g, left, op, right, i);
    }
  }

  lemma PartsFlat(g: Grammar, c: Chain<Op, Value>, i: nat)
    requires ItemsFlat(g, c) && i < |c.rest|
    ensures ItemsFlat(g, LeftOf(c, i)) && ItemsFlat(g, RightOf(c, i))
  {
    hide Flat;
  }

  lemma BelowFits<V>(g: Grammar, c: Chain<Op, V>, op: Op)
    requires Below(g, c, g.level(op))
    ensures FitsRight(g, c, op)
  {
  }

  lemma NotAComparison(g: Grammar, op: Op, left: Value, right: Value)
    requires g.Valid() && g.assoc(op)
    ensures NullTest(op, left, right).None?
  {
  }

  /* ---------- tests for NULL ---------- */

  const NULL_RUN := Chain(Plain(Null), [])

  /** The test for NULL that IS or IS NOT stands for. */
  function Tested(op: Op, a: Expr): Expr {
    if op == Is then Missing(a) else Exists(a)
  }

  /** The run starts with `NULL =`, or with `NULL <>` for IS NOT. */
  predicate StartsLikeTest(c: Chain<Op, Value>, op: Op) {
    c.rest != [] && c.first == Plain(Null) && c.rest[0].op == TreeOp(op)
  }

  /** What can have become a test: NULL on the right, or on the left with something else on the right. */
  lemma RootTest(g: Grammar, c: Chain<Op, Value>, op: Op, a: Expr, i: nat)
    requires !OfTrees(op)
    requires c.rest != [] && i == Loosest(g, c.rest)
    requires Strip(Tree(g, c)) == Tested(op, a)
    ensures TreeOp(c.rest[i].op) == TreeOp(op)
    ensures var l, r := Tree(g, LeftOf(c, i)), Tree(g, RightOf(c, i));
      if r == Plain(Null) then Strip(l) == a else l == Plain(Null) && Strip(r) == a
  {
    hide Tree, Loosest;
    TreeUnfolds(g, c, i);
  }

  lemma CutTest(g: Grammar, left: Chain<Op, Value>, op: Op, a: Expr)
    requires g.Valid() && !OfTrees(op)
    requires ItemsFlat(g, left) && Leaves(a) == Width(left) && !StartsLikeTest(left, op)
    requires Strip(Tree(g, Glue(left, op, NULL_RUN))) == Tested(op, a)
    ensures AtMost(g, left, g.level(op)) && Strip(Tree(g, left)) == a
  {
    hide Tree, Flat, Leaves, Width, Loosest, NullTest;
    var c := Glue(left, op, NULL_RUN);
    var i := Loosest(g, c.rest);
    GlueHere(left, op, NULL_RUN);
    NullRunFlat(g);
    ItemsFlatGlue(g, left, op, NULL_RUN);
    RootTest(g, c, op, a, i);
    RootSplit(g, c, i);
    PartsFlat(g, c, i);
    TreeWidth(g, LeftOf(c, i));
    if Tree(g, RightOf(c, i)) == Plain(Null) {
      CutByWidth(left, op, NULL_RUN, i);
    } else {
      FirstByWidth(g, c, i);
      OnlyLink(g, left, op);
    }
  }

  /** A root at the first link, behind NULL, can only be the test itself. */
  lemma OnlyLink(g: Grammar, left: Chain<Op, Value>, op: Op)
    requires !OfTrees(op) && !StartsLikeTest(left, op) && left.first == Plain(Null)
    requires var c := Glue(left, op, NULL_RUN); Loosest(g, c.rest) == 0 && TreeOp(c.rest[0].op) == TreeOp(op)
    ensures left.rest == []
  {
    var c := Glue(left, op, NULL_RUN);
    assert c.rest == left.rest + [Link(op, Plain(Null))];
    assert c.rest[|left.rest|].op == op;
  }

  lemma NullRunFlat(g: Grammar)
    ensures ItemsFlat(g, NULL_RUN) && Tree(g, NULL_RUN) == Plain(Null) && Width(NULL_RUN) == 1
  {
  }

  /** NULL alone comes from the first operand alone. */
  lemma FirstByWidth(g: Grammar, c: Chain<Op, Value>, i: nat)
    requires i < |c.rest| && Tree(g, LeftOf(c, i)) == Plain(Null)
    requires Leaves(Strip(Tree(g, LeftOf(c, i)))) == Width(LeftOf(c, i))
    ensures i == 0 && c.first == Plain(Null)
  {
    LinksHaveWidth(c.rest[..i]);
  }

  lemma GlueHere<V>(left: Chain<Op, V>, op: Op, right: Chain<Op, V>)
    ensures var c, k := Glue(left, op, right), |left.rest|;
      |c.rest| == k + 1 + |right.rest| && c.rest[k].op == op && c.first == left.first
    ensures LeftOf(Glue(left, op, right), |left.rest|) == left
    ensures RightOf(Glue(left, op, right), |left.rest|) == right
  {
  }

  lemma NotBefore<V>(g: Grammar, left: Chain<Op, V>, op: Op, right: Chain<Op, V>, i: nat)
    requires i == Loosest(g, Glue(left, op, right).rest) && Glue(left, op, right).rest[i].op == op
    ensures i >= |left.rest|
    ensures i > |left.rest| ==> right.rest[i - |left.rest| - 1].op == op
  {
    assert Glue(left, op, right).rest[|left.rest|].op == op;
  }

  lemma CutHere(g: Grammar, op: Op, tl: Expr, tr: Expr, a: Expr, b: Expr)
    requires Flat(g, a) && Flat(g, b) && Flat(g, tl) && Flat(g, tr)
    requires Leaves(a) == Leaves(tl) && Join(g, op, tl, tr) == Join(g, op, a, b)
    ensures tl == a && tr == b
  {
    if g.assoc(op) {
      KidsFlat(g, op, tl);
      KidsFlat(g, op, a);
      SamePrefix(Kids(op, tl), Kids(op, tr), Kids(op, a), Kids(op, b));
      assert Kids(op, tl)[|Kids(op, a)|..] == [];
      KidsInjective(g, op, tl, a);
      KidsInjective(g, op, tr, b);
    } else {
      assert tl == [a, b][0] && tr == [a, b][1];
    }
  }

  /** The root was found inside the right-hand run: `op` flattens, and the rest of the cut is in `left op g1`. */
  lemma {:induction false} CutLater(
    g: Grammar, left: Chain<Op, Value>, op: Op, g1: Chain<Op, Value>, g2: Chain<Op, Value>, a: Expr, b: Expr)
    requires g.Valid() && ItemsFlat(g, left) && ItemsFlat(g, g1) && ItemsFlat(g, g2) && Flat(g, a) && Flat(g, b)
    requires OfTrees(op)
    requires AtMost(g, g1, g.level(op)) && Below(g, g2, g.level(op))
    requires Leaves(a) == Width(left)
    requires Join(g, op, Strip(Tree(g, Glue(left, op, g1))), Strip(Tree(g, g2))) == Join(g, op, a, b)
    ensures AtMost(g, left, g.level(op)) && FitsRight(g, Glue(g1, op, g2), op)
    ensures Strip(Tree(g, left)) == a && Strip(Tree(g, Glue(g1, op, g2))) == b
    decreases |g1.rest|, 2
  {
    ItemsFlatGlue(g, left, op, g1);
    TreeWidth(g, Glue(left, op, g1));
    TreeWidth(g, g2);
    WidthGlue(left, op, g1);
    var b1 := MiddleTree(g, Glue(left, op, g1), g2, op, a, b);
    Cut(g, left, op, g1, a, b1);
    SplitAtGlue(g, g1, op, g2);
    CombineAssociative(g, op, Tree(g, g1), Tree(g, g2));
    FitsGlue(g, g1, op, g2);
  }

  lemma MiddleTree(g: Grammar, l: Chain<Op, Value>, r: Chain<Op, Value>, op: Op, a: Expr, b: Expr) returns (b1: Expr)
    requires Flat(g, a) && Flat(g, b) && Width(l) > Leaves(a)
    requires Flat(g, Strip(Tree(g, l))) && Leaves(Strip(Tree(g, l))) == Width(l)
    requires Flat(g, Strip(Tree(g, r)))
    requires Join(g, op, Strip(Tree(g, l)), Strip(Tree(g, r))) == Join(g, op, a, b)
    ensures g.assoc(op) && Flat(g, b1) && Leaves(b1) == Width(l) - Leaves(a)
    ensures Strip(Tree(g, l)) == Join(g, op, a, b1)
    ensures b == Join(g, op, b1, Strip(Tree(g, r)))
  {
    var ks := Middle(g, op, Strip(Tree(g, l)), Strip(Tree(g, r)), a, b);
    b1 := Gather(op, ks);
  }

  lemma FitsGlue<V>(g: Grammar, left: Chain<Op, V>, op: Op, right: Chain<Op, V>)
    requires g.assoc(op) && FitsRight(g, left, op) && Below(g, right, g.level(op))
    ensures FitsRight(g, Glue(left, op, right), op)
  {
  }

  lemma GlueParts<V>(left: Chain<Op, V>, op: Op, right: Chain<Op, V>, j: nat)
    requires j < |right.rest|
    ensures LeftOf(Glue(left, op, right), |left.rest| + 1 + j) == Glue(left, op, LeftOf(right, j))
    ensures RightOf(Glue(left, op, right), |left.rest| + 1 + j) == RightOf(right, j)
    ensures Glue(left, op, right).rest[|left.rest| + 1 + j] == right.rest[j]
  {
    var c := Glue(left, op, right);
    var m := |left.rest|;
    assert c.rest[..m + 1 + j] == left.rest + [Link(op, right.first)] + right.rest[..j];
    assert c.rest[m + 1 + j + 1..] == right.rest[j + 1..];
  }

  lemma LoosestInRight<V>(g: Grammar, left: Chain<Op, V>, op: Op, right: Chain<Op, V>, j: nat)
    requires j < |right.rest|
    requires Loosest(g, Glue(left, op, right).rest) == |left.rest| + 1 + j
    ensures Loosest(g, right.rest) == j
  {
    var c := Glue(left, op, right);
    var m := |left.rest|;
    forall k | 0 <= k < |right.rest|
      ensures k < j ==> g.level(right.rest[k].op) <= g.level(right.rest[j].op)
      ensures k > j ==> g.level(right.rest[k].op) < g.level(right.rest[j].op)
    {
      assert right.rest[k] == c.rest[m + 1 + k] && right.rest[j] == c.rest[m + 1 + j];
    }
    LoosestIsUnique(g, right.rest, j);
  }

  lemma LaterParts<V>(g: Grammar, left: Chain<Op, V>, op: Op, right: Chain<Op, V>, j: nat)
    requires j < |right.rest| && right.rest[j].op == op
    requires Loosest(g, Glue(left, op, right).rest) == |left.rest| + 1 + j
    ensures LeftOf(Glue(left, op, right), |left.rest| + 1 + j) == Glue(left, op, LeftOf(right, j))
    ensures RightOf(Glue(left, op, right), |left.rest| + 1 + j) == RightOf(right, j)
    ensures right == Glue(LeftOf(right, j), op, RightOf(right, j))
    ensures AtMost(g, LeftOf(right, j), g.level(op)) && Below(g, RightOf(right, j), g.level(op))
  {
    GlueParts(left, op, right, j);
    LoosestInRight(g, left, op, right, j);
    RootSplit(g, right, j);
  }

  /**
    When the node over `tl` and `tr` is the node over `a` and `b` and `tl` is wider than `a`, the
    operands between them form a tree of their own.
   */
  lemma Middle(g: Grammar, op: Op, tl: Expr, tr: Expr, a: Expr, b: Expr) returns (ks: seq<Expr>)
    requires Flat(g, a) && Flat(g, b) && Flat(g, tl) && Flat(g, tr)
    requires Leaves(tl) > Leaves(a) && Join(g, op, tl, tr) == Join(g, op, a, b)
    ensures g.assoc(op) && ks != [] && Flat(g, Gather(op, ks))
    ensures Leaves(Gather(op, ks)) == Leaves(tl) - Leaves(a)
    ensures tl == Join(g, op, a, Gather(op, ks)) && b == Join(g, op, Gather(op, ks), tr)
  {
    hide Leaves, LeavesAll;
    if !g.assoc(op) {
      SamePair(tl, tr, a, b);
    }
    KidsFlat(g, op, tl);
    KidsFlat(g, op, a);
    SamePrefix(Kids(op, tl), Kids(op, tr), Kids(op, a), Kids(op, b));
    ks := Kids(op, tl)[|Kids(op, a)|..];
    SomeLeft(ks);
    KidsLonger(op, tl, Kids(op, a), ks);
    KidsLonger(op, b, ks, Kids(op, tr));
    GatherFlat(g, op, ks, tl);
    GatherKids(op, ks);
  }

  lemma SamePair(x: Expr, y: Expr, a: Expr, b: Expr)
    requires [x, y] == [a, b]
    ensures x == a && y == b
  {
    assert [x, y][0] == [a, b][0] && [x, y][1] == [a, b][1];
  }

  lemma SomeLeft(ks: seq<Expr>)
    requires LeavesAll(ks) > 0
    ensures ks != []
  {
  }

  lemma KidsLonger(op: Op, e: Expr, a: seq<Expr>, b: seq<Expr>)
    requires Kids(op, e) == a + b && a != [] && b != []
    ensures e.Infix? && e.op == op && e.operands == a + b
  {
    assert |a + b| >= 2;
  }

  lemma GatherFlat(g: Grammar, op: Op, ks: seq<Expr>, e: Expr)
    requires ks != [] && Flat(g, e) && g.assoc(op) && e.Infix? && e.op == op && forall k <- ks :: k in e.operands
    ensures Flat(g, Gather(op, ks)) && Kids(op, Gather(op, ks)) == ks
  {
    assert ks[0] in ks;
    assert |ks| == 1 ==> ks == [ks[0]];
  }

  lemma GatherKids(op: Op, ks: seq<Expr>)
    requires ks != []
    ensures Leaves(Gather(op, ks)) == LeavesAll(ks)
  {
    LeavesOfPair(ks[0], ks[0]);
    assert |ks| == 1 ==> ks == [ks[0]];
  }
}
