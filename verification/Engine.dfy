/**
  How a flat run `x0 op1 x1 op2 x2 ...` becomes a tree: the level-by-level reduction the parser is
  configured for, the declarative reading of the level list, and the proof that they agree.
 */
module Engine {
  import opened Expressions
  import opened Chains

  /** An operand as the parse action sees it: parentheses leave Group layers around it. */
  datatype Value = Plain(e: Expr) | Group(inner: Value)

  function Strip(v: Value): Expr {
    match v
    case Plain(e) => e
    case Group(inner) => Strip(inner)
  }

  /** The parser's own reading of a comparison with NULL; a parenthesised NULL does not qualify. */
  function NullTest(op: Op, left: Value, right: Value): Option<Expr> {
    match op
    case Eq =>
      if right == Plain(Null) then Some(Missing(Strip(left)))
      else if left == Plain(Null) then Some(Missing(Strip(right)))
      else None
    case Neq =>
      if right == Plain(Null) then Some(Exists(Strip(left)))
      else if left == Plain(Null) then Some(Exists(Strip(right)))
      else None
    case _ => None
  }

  /** The node built for one operator. */
  function Combine(g: Grammar, op: Op, left: Value, right: Value): Expr {
    var treeOp := TreeOp(op);
    var test := NullTest(treeOp, left, right);
    if test.Some? then test.value else Join(g, treeOp, Strip(left), Strip(right))
  }

  /**
    The parse action for a binary operator, with its loops: parentheses are unwrapped layer by
    layer, and the operands of a nested node of the same associative operator are taken over.
   */
  method ToJsonOperator(g: Grammar, op: Op, left: Value, right: Value) returns (call: Expr)
    ensures call == Combine(g, op, left, right)
  {
    var treeOp := TreeOp(op);
    var test := NullTest(treeOp, left, right);
    if test.Some? {
      return test.value;
    }
    if !g.assoc(treeOp) {
      return Infix(treeOp, [Strip(left), Strip(right)]);
    }
    var operands := [left, right];
    var acc: seq<Expr> := [];
    for i := 0 to 2
      invariant i == 0 ==> acc == []
      invariant i == 1 ==> acc == Kids(treeOp, Strip(left))
      invariant i == 2 ==> acc == Kids(treeOp, Strip(left)) + Kids(treeOp, Strip(right))
    {
      hide NullTest, Combine, TreeOp;
      ghost var before := acc;
      var operand := operands[i];
      while operand.Group?
        invariant Strip(operand) == Strip(operands[i])
        decreases operand
      {
        operand := operand.inner;
      }
      if operand.e.Infix? && operand.e.op == treeOp {
        acc := acc + operand.e.operands;
      } else {
        acc := acc + [operand.e];
      }
      assert operand.e == Strip(operands[i]) && acc == before + Kids(treeOp, operand.e);
    }
    call := Infix(treeOp, acc);
  }

  /* ---------- declarative reading: the loosest operator, rightmost among equals, is the root ---------- */

  function Loosest<V>(g: Grammar, links: seq<Link<Op, V>>): (i: nat)
    requires links != []
    ensures i < |links|
    ensures forall j :: 0 <= j < i ==> g.level(links[j].op) <= g.level(links[i].op)
    ensures forall j :: i < j < |links| ==> g.level(links[j].op) < g.level(links[i].op)
  {
    var n := |links| - 1;
    if n == 0 then 0
    else
      var i := Loosest(g, links[..n]);
      assert forall j :: 0 <= j < n ==> links[..n][j] == links[j];
      if g.level(links[n].op) >= g.level(links[i].op) then n else i
  }

  function Tree(g: Grammar, c: Chain<Op, Value>): Value
    decreases |c.rest|
  {
    if c.rest == [] then c.first
    else
      var i := Loosest(g, c.rest);
      Plain(Combine(g, c.rest[i].op,
        Tree(g, Chain(c.first, c.rest[..i])),
        Tree(g, Chain(c.rest[i].item, c.rest[i + 1..]))))
  }

  lemma TreeUnfolds(g: Grammar, c: Chain<Op, Value>, i: nat)
    requires c.rest != [] && i == Loosest(g, c.rest)
    ensures Tree(g, c) ==
      Plain(Combine(g, c.rest[i].op, Tree(g, LeftOf(c, i)), Tree(g, RightOf(c, i))))
  {
    hide Combine, Loosest;
  }

  ghost predicate AtMost<V>(g: Grammar, c: Chain<Op, V>, k: nat) {
    forall i :: 0 <= i < |c.rest| ==> g.level(c.rest[i].op) <= k
  }

  ghost predicate Below<V>(g: Grammar, c: Chain<Op, V>, k: nat) {
    forall i :: 0 <= i < |c.rest| ==> g.level(c.rest[i].op) < k
  }

  /** May stand to the right of `op`, because it binds tighter or is the same flattening operator. */
  ghost predicate FitsRight<V>(g: Grammar, c: Chain<Op, V>, op: Op) {
    forall i :: 0 <= i < |c.rest| ==>
      g.level(c.rest[i].op) < g.level(op) || (c.rest[i].op == op && g.assoc(op))
  }

  lemma LoosestIsUnique<V>(g: Grammar, links: seq<Link<Op, V>>, i: nat)
    requires i < |links|
    requires forall j :: 0 <= j < i ==> g.level(links[j].op) <= g.level(links[i].op)
    requires forall j :: i < j < |links| ==> g.level(links[j].op) < g.level(links[i].op)
    ensures Loosest(g, links) == i
  {
    var k := Loosest(g, links);
  }

  /** A glued run splits at the glue when nothing looser or equal is to the right of it. */
  lemma SplitAtGlue(g: Grammar, left: Chain<Op, Value>, op: Op, right: Chain<Op, Value>)
    requires AtMost(g, left, g.level(op)) && Below(g, right, g.level(op))
    ensures Tree(g, Glue(left, op, right)) ==
      Plain(Combine(g, op, Tree(g, left), Tree(g, right)))
  {
    var c := Glue(left, op, right);
    var i := |left.rest|;
    assert c.rest[..i] == left.rest && c.rest[i + 1..] == right.rest;
    LoosestIsUnique(g, c.rest, i);
  }

  /** Taking a run apart at its root. */
  function LeftOf<V>(c: Chain<Op, V>, i: nat): Chain<Op, V>
    requires i < |c.rest|
  {
    Chain(c.first, c.rest[..i])
  }

  function RightOf<V>(c: Chain<Op, V>, i: nat): Chain<Op, V>
    requires i < |c.rest|
  {
    Chain(c.rest[i].item, c.rest[i + 1..])
  }

  lemma RootSplit<V>(g: Grammar, c: Chain<Op, V>, i: nat)
    requires c.rest != [] && i == Loosest(g, c.rest)
    ensures c == Glue(LeftOf(c, i), c.rest[i].op, RightOf(c, i))
    ensures AtMost(g, LeftOf(c, i), g.level(c.rest[i].op)) && Below(g, RightOf(c, i), g.level(c.rest[i].op))
  {
  }

  lemma GlueAssoc<V>(a: Chain<Op, V>, op1: Op, b: Chain<Op, V>, op2: Op, c: Chain<Op, V>)
    ensures Glue(Glue(a, op1, b), op2, c) == Glue(a, op1, Glue(b, op2, c))
  {
    assert a.rest + [Link(op1, b.first)] + b.rest + [Link(op2, c.first)] + c.rest
        == a.rest + [Link(op1, b.first)] + (b.rest + [Link(op2, c.first)] + c.rest);
  }

  lemma GlueAtMost<V>(g: Grammar, a: Chain<Op, V>, op: Op, b: Chain<Op, V>, k: nat)
    requires AtMost(g, a, k) && AtMost(g, b, k) && g.level(op) <= k
    ensures AtMost(g, Glue(a, op, b), k)
  {
  }

  /** A flattening operator is never a comparison with NULL. */
  lemma CombineAssociative(g: Grammar, op: Op, left: Value, right: Value)
    requires g.Valid() && g.assoc(op)
    ensures Combine(g, op, left, right) == Join(g, op, Strip(left), Strip(right))
  {
  }

  lemma JoinAssoc(g: Grammar, op: Op, a: Expr, b: Expr, c: Expr)
    requires g.assoc(op)
    ensures Join(g, op, Join(g, op, a, b), c) == Join(g, op, a, Join(g, op, b, c))
  {
    assert Kids(op, a) + Kids(op, b) + Kids(op, c) == Kids(op, a) + (Kids(op, b) + Kids(op, c));
  }

  /** The same when the right-hand run uses the flattening operator `op` itself. */
  lemma {:induction false} SplitAssoc(g: Grammar, left: Chain<Op, Value>, op: Op, right: Chain<Op, Value>)
    requires g.Valid() && g.assoc(op)
    requires AtMost(g, left, g.level(op)) && FitsRight(g, right, op)
    ensures Tree(g, Glue(left, op, right)) ==
      Plain(Join(g, op, Strip(Tree(g, left)), Strip(Tree(g, right))))
    decreases |right.rest|
  {
    if Below(g, right, g.level(op)) {
      SplitAtGlue(g, left, op, right);
    } else {
      hide Tree, Loosest, Glue, Join;
      var i := Loosest(g, right.rest);
      LoosestInRun(g, right, op);
      var r1, r2 := LeftOf(right, i), RightOf(right, i);
      RootSplit(g, right, i);
      GlueAssoc(left, op, r1, op, r2);
      SplitAssoc(g, left, op, r1);
      GlueAtMost(g, left, op, r1, g.level(op));
      SplitAtGlue(g, Glue(left, op, r1), op, r2);
      SplitAtGlue(g, r1, op, r2);
      CombineAssociative(g, op, Tree(g, Glue(left, op, r1)), Tree(g, r2));
      CombineAssociative(g, op, Tree(g, r1), Tree(g, r2));
      JoinAssoc(g, op, Strip(Tree(g, left)), Strip(Tree(g, r1)), Strip(Tree(g, r2)));
    }
  }

  lemma SplitFits(g: Grammar, left: Chain<Op, Value>, op: Op, right: Chain<Op, Value>)
    requires g.Valid() && AtMost(g, left, g.level(op)) && FitsRight(g, right, op)
    ensures Tree(g, Glue(left, op, right)) ==
      Plain(Combine(g, op, Tree(g, left), Tree(g, right)))
  {
    if g.assoc(op) {
      SplitAssoc(g, left, op, right);
    } else {
      SplitAtGlue(g, left, op, right);
    }
  }

  lemma GlueAtMostFits<V>(g: Grammar, left: Chain<Op, V>, op: Op, right: Chain<Op, V>)
    requires AtMost(g, left, g.level(op)) && FitsRight(g, right, op)
    ensures AtMost(g, Glue(left, op, right), g.level(op))
  {
  }

  lemma LoosestInRun<V>(g: Grammar, c: Chain<Op, V>, op: Op)
    requires FitsRight(g, c, op) && !Below(g, c, g.level(op))
    ensures c.rest != [] && c.rest[Loosest(g, c.rest)].op == op
  {
    var j :| 0 <= j < |c.rest| && g.level(c.rest[j].op) >= g.level(op);
    var i := Loosest(g, c.rest);
  }

  /* ---------- operational reading: one pass for each level, tightest first, left to right ---------- */

  function Pass(g: Grammar, k: nat, c: Chain<Op, Value>): Chain<Op, Value>
    decreases |c.rest|
  {
    if c.rest == [] then c
    else if g.level(c.rest[0].op) == k then
      Pass(g, k, Chain(Plain(Combine(g, c.rest[0].op, c.first, c.rest[0].item)), c.rest[1..]))
    else
      var t := Pass(g, k, Chain(c.rest[0].item, c.rest[1..]));
      Chain(c.first, [Link(c.rest[0].op, t.first)] + t.rest)
  }

  function Reduce(g: Grammar, k: nat, c: Chain<Op, Value>): Value
    decreases g.depth - k
  {
    if k >= g.depth then c.first else Reduce(g, k + 1, Pass(g, k, c))
  }

  ghost predicate Within<V>(g: Grammar, c: Chain<Op, V>, low: nat, high: nat) {
    forall i :: 0 <= i < |c.rest| ==> low <= g.level(c.rest[i].op) < high
  }

  lemma WithinNone<V>(g: Grammar, c: Chain<Op, V>, k: nat)
    ensures Within(g, c, k, k) <==> c.rest == []
  {
    if c.rest != [] {
      assert !(k <= g.level(c.rest[0].op) < k);
    }
  }

  lemma {:induction false} PassRaises(g: Grammar, k: nat, c: Chain<Op, Value>, high: nat)
    requires Within(g, c, k, high)
    ensures Within(g, Pass(g, k, c), k + 1, high)
    decreases |c.rest|
  {
    if c.rest == [] {
    } else if g.level(c.rest[0].op) == k {
      PassRaises(g, k, Chain(Plain(Combine(g, c.rest[0].op, c.first, c.rest[0].item)), c.rest[1..]), high);
    } else {
      PassRaises(g, k, Chain(c.rest[0].item, c.rest[1..]), high);
    }
  }

  lemma {:induction false} PassGlue(g: Grammar, k: nat, left: Chain<Op, Value>, op: Op, right: Chain<Op, Value>)
    ensures g.level(op) != k ==>
      Pass(g, k, Glue(left, op, right)) == Glue(Pass(g, k, left), op, Pass(g, k, right))
    ensures g.level(op) == k && Within(g, left, k, k + 1) && right.rest == [] ==>
      Pass(g, k, Glue(left, op, right)) ==
      Chain(Plain(Combine(g, op, Pass(g, k, left).first, right.first)), [])
    decreases |left.rest|
  {
    var c := Glue(left, op, right);
    if left.rest == [] {
      assert c.rest[1..] == right.rest;
    } else {
      var l := left.rest[0];
      var rest := left.rest[1..];
      assert c.rest[0] == l && c.rest[1..] == rest + [Link(op, right.first)] + right.rest;
      var x := if g.level(l.op) == k then Plain(Combine(g, l.op, left.first, l.item)) else l.item;
      PassGlue(g, k, Chain(x, rest), op, right);
      assert Glue(Chain(x, rest), op, right) == Chain(x, c.rest[1..]);
    }
  }

  lemma {:induction false} ReduceSingle(g: Grammar, k: nat, c: Chain<Op, Value>)
    requires c.rest == []
    ensures Reduce(g, k, c) == c.first
    decreases g.depth - k
  {
    if k < g.depth {
      ReduceSingle(g, k + 1, c);
    }
  }

  lemma {:induction false} ReduceGlue(g: Grammar, k: nat, left: Chain<Op, Value>, op: Op, right: Chain<Op, Value>)
    requires k <= g.level(op) < g.depth
    requires Within(g, left, k, g.level(op) + 1) && Within(g, right, k, g.level(op))
    ensures Reduce(g, k, Glue(left, op, right)) ==
      Plain(Combine(g, op, Reduce(g, k, left), Reduce(g, k, right)))
    decreases g.depth - k
  {
    hide Within, Pass;
    PassRaises(g, k, left, g.level(op) + 1);
    PassRaises(g, k, right, g.level(op));
    if k == g.level(op) {
      hide Combine, Glue;
      WithinNone(g, right, k);
      WithinNone(g, Pass(g, k, left), k + 1);
      PassGlue(g, k, left, op, right);
      ReduceSingle(g, k, right);
      ReduceSingle(g, k + 1, Pass(g, k, left));
      ReduceSingle(g, k + 1, Pass(g, k, Glue(left, op, right)));
    } else {
      PassGlue(g, k, left, op, right);
      ReduceGlue(g, k + 1, Pass(g, k, left), op, Pass(g, k, right));
    }
  }

  /** Both readings of the level list build the same tree from every run. */
  lemma {:induction false} ReduceIsTree(g: Grammar, c: Chain<Op, Value>)
    requires g.Valid()
    ensures Reduce(g, 0, c) == Tree(g, c)
    decreases |c.rest|
  {
    if c.rest == [] {
      ReduceSingle(g, 0, c);
    } else {
      var i := Loosest(g, c.rest);
      RootSplit(g, c, i);
      ReduceGlue(g, 0, LeftOf(c, i), c.rest[i].op, RightOf(c, i));
      ReduceIsTree(g, LeftOf(c, i));
      ReduceIsTree(g, RightOf(c, i));
    }
  }
}
