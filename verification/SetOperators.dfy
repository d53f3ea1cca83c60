/** Chains of UNION, INTERSECT, EXCEPT and MINUS: the fold that builds the tree, and the printer. */
module SetOperators {
  import opened Expressions
  import opened Chains

  datatype Kind = Union | Intersect | Except | Minus

  datatype Quantifier = Plain | All | Distinct

  /** A set operator as written; its key in the tree is the words joined by underscores. */
  datatype SetOp = SetOp(kind: Kind, quantifier: Quantifier)

  /** A simple query, or `{op: operands}`. */
  datatype SetTree = Select(id: string) | Node(op: SetOp, operands: seq<SetTree>)

  function Append<V>(c: Chain<SetOp, V>, op: SetOp, item: V): Chain<SetOp, V> {
    Chain(c.first, c.rest + [Link(op, item)])
  }

  function Init<V>(c: Chain<SetOp, V>): Chain<SetOp, V>
    requires c.rest != []
  {
    Chain(c.first, c.rest[..|c.rest| - 1])
  }

  function Last<V>(c: Chain<SetOp, V>): Link<SetOp, V>
    requires c.rest != []
  {
    c.rest[|c.rest| - 1]
  }

  /** The operator joins a run of itself: the tree built so far ends in the same kind of union. */
  predicate Joins<V>(c: Chain<SetOp, V>, op: SetOp) {
    op.kind == Union && c.rest != [] && Last(c).op == op
  }

  /** The tree of a chain, operators taken from left to right. */
  function Fold(c: Chain<SetOp, SetTree>): (t: SetTree)
    ensures c.rest != [] ==> t.Node? && t.op == Last(c).op && |t.operands| >= 2
    ensures c.rest != [] ==> t.operands[|t.operands| - 1] == Last(c).item
    decreases |c.rest|
  {
    if c.rest == [] then c.first
    else
      var before := Fold(Init(c));
      var l := Last(c);
      if Joins(Init(c), l.op) then Node(l.op, before.operands + [l.item]) else Node(l.op, [before, l.item])
  }

  /* ---------- the fold with its lists extended in place ---------- */

  /** A Python dict with one key, holding the list of operands. */
  class QueryDict {
    const op: SetOp
    var operands: seq<Query>

    constructor (op: SetOp, operands: seq<Query>)
      ensures this.op == op && this.operands == operands
    {
      this.op := op;
      this.operands := operands;
    }

    /** One more source at the end of the operand list, in place. */
    method Extend(so: Query, ghost t: SetTree, ghost item: SetTree, ghost inner: set<QueryDict>)
      requires Growing(this, t, inner) && Unfolds(so, item, inner)
      modifies this
      ensures operands == old(operands) + [so]
      ensures Growing(this, Node(t.op, t.operands + [item]), inner)
    {
      ghost var was := operands;
      operands := operands + [so];
      forall i | 0 <= i < |operands| ensures Unfolds(operands[i], (t.operands + [item])[i], inner) {
        if i < |was| {
          assert Unfolds(was[i], t.operands[i], inner);
        }
      }
    }
  }

  /** A new dict that holds what was folded so far and the next source. */
  method Pair(op: SetOp, acc: Query, so: Query, ghost ta: SetTree, ghost ts: SetTree, ghost inner: set<QueryDict>)
    returns (dict: QueryDict)
    requires Unfolds(acc, ta, inner) && Unfolds(so, ts, inner)
    ensures fresh(dict) && Growing(dict, Node(op, [ta, ts]), inner)
  {
    dict := new QueryDict(op, [acc, so]);
  }

  datatype Query = Simple(id: string) | Compound(dict: QueryDict)

  /** `q` unfolds to `t` through the dicts in `fp`. */
  ghost predicate Unfolds(q: Query, t: SetTree, fp: set<QueryDict>)
    reads fp
    decreases t
  {
    match t
    case Select(id) => q == Simple(id)
    case Node(op, ts) =>
      && q.Compound? && q.dict in fp && q.dict.op == op && |q.dict.operands| == |ts|
      && forall i :: 0 <= i < |ts| ==> Unfolds(q.dict.operands[i], ts[i], fp)
  }

  lemma {:induction false} UnfoldsInMore(q: Query, t: SetTree, fp: set<QueryDict>, fp': set<QueryDict>)
    requires Unfolds(q, t, fp) && fp <= fp'
    ensures Unfolds(q, t, fp')
    decreases t
  {
    if t.Node? {
      forall i | 0 <= i < |t.operands| ensures Unfolds(q.dict.operands[i], t.operands[i], fp') {
        UnfoldsInMore(q.dict.operands[i], t.operands[i], fp, fp');
      }
    }
  }

  function ChainOf(trees: seq<SetTree>, operators: seq<SetOp>): Chain<SetOp, SetTree>
    requires |trees| == |operators| + 1
  {
    Chain(trees[0], seq(|operators|, i requires 0 <= i < |operators| => Link(operators[i], trees[i + 1])))
  }

  /** The dict being extended: everything below it lies in `inner`, and it is not among that. */
  ghost predicate Growing(d: QueryDict, t: SetTree, inner: set<QueryDict>)
    reads d, inner
  {
    && d !in inner && t.Node? && d.op == t.op && |d.operands| == |t.operands|
    && forall i :: 0 <= i < |t.operands| ==> Unfolds(d.operands[i], t.operands[i], inner)
  }

  lemma GrowingUnfolds(d: QueryDict, t: SetTree, inner: set<QueryDict>)
    requires Growing(d, t, inner)
    ensures Unfolds(Compound(d), t, inner + {d})
  {
    forall i | 0 <= i < |t.operands| ensures Unfolds(d.operands[i], t.operands[i], inner + {d}) {
      UnfoldsInMore(d.operands[i], t.operands[i], inner, inner + {d});
    }
  }

  /** The tree after n operators. */
  ghost function SoFar(trees: seq<SetTree>, operators: seq<SetOp>, n: nat): SetTree
    requires |trees| == |operators| + 1 && n <= |operators|
  {
    Fold(ChainOf(trees[..n + 1], operators[..n]))
  }

  /**
    The fold over the sources of a chain. Only dicts made here are written to, so no source changes,
    even when the first one is itself a union with the same operator.
   */
  method ToUnionCall(
    sources: seq<Query>, operators: seq<SetOp>, ghost trees: seq<SetTree>, ghost fp: set<QueryDict>)
    returns (acc: Query, ghost made: set<QueryDict>)
    requires |sources| == |trees| == |operators| + 1
    requires forall i :: 0 <= i < |sources| ==> Unfolds(sources[i], trees[i], fp)
    ensures fresh(made) && Unfolds(acc, Fold(ChainOf(trees, operators)), fp + made)
  {
    hide Fold, Unfolds, SoFar, Growing, ChainOf;
    acc := sources[0];
    made := {};
    var lastUnion: Option<SetOp> := None;
    ghost var inner := fp;
    SoFarStart(trees, operators);
    for n := 0 to |operators|
      invariant fresh(made) && forall i :: 0 <= i < |sources| ==> Unfolds(sources[i], trees[i], fp)
      invariant lastUnion == if n == 0 then None else Some(operators[n - 1])
      invariant n == 0 ==> inner == fp && made == {} && Unfolds(acc, SoFar(trees, operators, n), fp)
      invariant n > 0 ==> acc.Compound? && acc.dict in made && fp <= inner && fp + made == inner + {acc.dict}
      invariant n > 0 ==> Growing(acc.dict, SoFar(trees, operators, n), inner)
    {
      ghost var before := SoFar(trees, operators, n);
      SoFarMore(trees, operators, n);
      var op, so := operators[n], sources[n + 1];
      if lastUnion == Some(op) && op.kind == Union {
        UnfoldsInMore(so, trees[n + 1], fp, inner);
        acc.dict.Extend(so, before, trees[n + 1], inner);
      } else {
        if n > 0 {
          GrowingUnfolds(acc.dict, before, inner);
          assert acc == Compound(acc.dict) && inner + {acc.dict} == fp + made;
        } else {
          assert fp + made == fp;
        }
        inner := fp + made;
        UnfoldsInMore(so, trees[n + 1], fp, inner);
        var dict := Pair(op, acc, so, before, trees[n + 1], inner);
        made := made + {dict};
        acc := Compound(dict);
      }
      lastUnion := Some(op);
    }
    SoFarEnd(trees, operators);
    if |operators| > 0 {
      GrowingUnfolds(acc.dict, SoFar(trees, operators, |operators|), inner);
      assert acc == Compound(acc.dict) && inner + {acc.dict} == fp + made;
    } else {
      assert fp + made == fp;
    }
  }

  lemma SoFarStart(trees: seq<SetTree>, operators: seq<SetOp>)
    requires |trees| == |operators| + 1
    ensures SoFar(trees, operators, 0) == trees[0]
  {
  }

  lemma SoFarEnd(trees: seq<SetTree>, operators: seq<SetOp>)
    requires |trees| == |operators| + 1
    ensures SoFar(trees, operators, |operators|) == Fold(ChainOf(trees, operators))
  {
    assert trees[..|trees|] == trees && operators[..|operators|] == operators;
  }

  lemma SoFarMore(trees: seq<SetTree>, operators: seq<SetOp>, n: nat)
    requires |trees| == |operators| + 1 && n < |operators|
    ensures var before := SoFar(trees, operators, n);
      SoFar(trees, operators, n + 1)
      == if n > 0 && operators[n - 1] == operators[n] && operators[n].kind == Union
         then Node(before.op, before.operands + [trees[n + 1]])
         else Node(operators[n], [before, trees[n + 1]])
  {
    ChainOfMore(trees, operators, n);
  }

  lemma ChainOfMore(trees: seq<SetTree>, operators: seq<SetOp>, n: nat)
    requires |trees| == |operators| + 1 && n < |operators|
    ensures ChainOf(trees[..n + 2], operators[..n + 1])
      == Append(ChainOf(trees[..n + 1], operators[..n]), operators[n], trees[n + 1])
    ensures Init(ChainOf(trees[..n + 2], operators[..n + 1])) == ChainOf(trees[..n + 1], operators[..n])
    ensures n > 0 ==> Last(ChainOf(trees[..n + 1], operators[..n])).op == operators[n - 1]
  {
  }

  /* ---------- what the fold means ---------- */

  function Leaves(t: SetTree): (r: seq<string>)
    decreases t, 0
  {
    match t
    case Select(id) => [id]
    case Node(_, ts) => LeavesOfAll(ts)
  }

  function LeavesOfAll(ts: seq<SetTree>): seq<string>
    decreases ts
  {
    if ts == [] then [] else LeavesOfAll(ts[..|ts| - 1]) + Leaves(ts[|ts| - 1])
  }

  function ChainLeaves(c: Chain<SetOp, SetTree>): seq<string>
    decreases |c.rest|
  {
    if c.rest == [] then Leaves(c.first) else ChainLeaves(Init(c)) + Leaves(Last(c).item)
  }

  lemma LeavesOfMore(ts: seq<SetTree>, t: SetTree)
    ensures LeavesOfAll(ts + [t]) == LeavesOfAll(ts) + Leaves(t)
    ensures LeavesOfAll([t]) == Leaves(t)
  {
    hide Leaves;
    assert (ts + [t])[..|ts|] == ts;
    assert [t][..0] == [];
    assert LeavesOfAll([]) + Leaves(t) == Leaves(t);
  }

  /** No source is lost, repeated or moved. */
  lemma {:induction false} FoldKeepsLeaves(c: Chain<SetOp, SetTree>)
    ensures Leaves(Fold(c)) == ChainLeaves(c)
    decreases |c.rest|
  {
    hide LeavesOfAll;
    if c.rest != [] {
      FoldKeepsLeaves(Init(c));
      var before, l := Fold(Init(c)), Last(c);
      if Joins(Init(c), l.op) {
        LeavesOfMore(before.operands, l.item);
      } else {
        LeavesOfMore([before], l.item);
        LeavesOfMore([], before);
        assert [before] + [l.item] == [before, l.item];
      }
    }
  }

  /** A run of one and the same union is one node, its operands the sources in order. */
  lemma {:induction false} SameUnionIsFlat(c: Chain<SetOp, SetTree>, op: SetOp)
    requires op.kind == Union && c.rest != [] && forall l <- c.rest :: l.op == op
    ensures Fold(c) == Node(op, [c.first] + seq(|c.rest|, i requires 0 <= i < |c.rest| => c.rest[i].item))
    decreases |c.rest|
  {
    var init, l := Init(c), Last(c);
    assert l in c.rest && forall x <- init.rest :: x in c.rest;
    if init.rest != [] {
      SameUnionIsFlat(init, op);
      assert Last(init) in c.rest;
    }
  }

  predicate BinaryUnlessUnion(t: SetTree) {
    t.Node? ==>
      && (t.op.kind == Union || |t.operands| == 2)
      && forall x <- t.operands :: BinaryUnlessUnion(x)
  }

  /** Every other operator has two operands, however long the chain. */
  lemma {:induction false} OthersAreBinary(c: Chain<SetOp, SetTree>)
    requires BinaryUnlessUnion(c.first) && forall l <- c.rest :: BinaryUnlessUnion(l.item)
    ensures BinaryUnlessUnion(Fold(c))
    decreases |c.rest|
  {
    if c.rest != [] {
      assert Last(c) in c.rest && forall x <- Init(c).rest :: x in c.rest;
      OthersAreBinary(Init(c));
    }
  }

  /** The value of a tree: a node applies its operator over its operands from the left. */
  function Value<V>(apply: (SetOp, V, V) -> V, leaf: string -> V, empty: V, t: SetTree): V
    decreases t, 0
  {
    match t
    case Select(id) => leaf(id)
    case Node(op, ts) => ValueOfAll(apply, leaf, empty, op, ts)
  }

  function ValueOfAll<V>(apply: (SetOp, V, V) -> V, leaf: string -> V, empty: V, op: SetOp, ts: seq<SetTree>): V
    decreases ts
  {
    if ts == [] then empty
    else if |ts| == 1 then Value(apply, leaf, empty, ts[0])
    else
      apply(op, ValueOfAll(apply, leaf, empty, op, ts[..|ts| - 1]), Value(apply, leaf, empty, ts[|ts| - 1]))
  }

  /** `((s0 op1 s1) op2 s2) ...` */
  function LeftFold<V>(apply: (SetOp, V, V) -> V, leaf: string -> V, empty: V, c: Chain<SetOp, SetTree>): V
    decreases |c.rest|
  {
    if c.rest == [] then Value(apply, leaf, empty, c.first)
    else
      apply(Last(c).op, LeftFold(apply, leaf, empty, Init(c)), Value(apply, leaf, empty, Last(c).item))
  }

  lemma LeftFoldEnd<V>(apply: (SetOp, V, V) -> V, leaf: string -> V, empty: V, c: Chain<SetOp, SetTree>)
    requires c.rest != []
    ensures LeftFold(apply, leaf, empty, c)
      == apply(Last(c).op, LeftFold(apply, leaf, empty, Init(c)), Value(apply, leaf, empty, Last(c).item))
  {
  }

  /** The n-ary tree means the plain left fold, whatever the operators mean: no law of theirs is used. */
  lemma {:induction false} FoldMeansLeftFold<V>(
    apply: (SetOp, V, V) -> V, leaf: string -> V, empty: V, c: Chain<SetOp, SetTree>)
    ensures Value(apply, leaf, empty, Fold(c)) == LeftFold(apply, leaf, empty, c)
    decreases |c.rest|
  {
    if c.rest != [] {
      FoldMeansLeftFold(apply, leaf, empty, Init(c));
      var before, l := Fold(Init(c)), Last(c);
      if Joins(Init(c), l.op) {
        assert (before.operands + [l.item])[..|before.operands|] == before.operands;
      } else {
        assert [before, l.item][..1] == [before];
        assert ValueOfAll(apply, leaf, empty, l.op, [before]) == Value(apply, leaf, empty, before);
      }
    }
  }

  /* ---------- standard SQL, where INTERSECT binds tighter ---------- */

  predicate AllIntersect(links: seq<Link<SetOp, SetTree>>) {
    forall l <- links :: l.op.kind == Intersect
  }

  lemma AllButLast(links: seq<Link<SetOp, SetTree>>)
    requires links != [] && links[|links| - 1].op.kind == Intersect
    ensures forall i :: 0 <= i < |links| && AllIntersect(links[..|links| - 1][i..]) ==> AllIntersect(links[i..])
  {
    var init := links[..|links| - 1];
    forall i | 0 <= i < |links| && AllIntersect(init[i..]) ensures AllIntersect(links[i..]) {
      assert links[i..] == init[i..] + [links[|links| - 1]];
    }
  }

  /** The last operator that is not INTERSECT. */
  function LastLoose(links: seq<Link<SetOp, SetTree>>): (i: nat)
    requires !AllIntersect(links)
    ensures i < |links| && links[i].op.kind != Intersect && AllIntersect(links[i + 1..])
  {
    var k := |links| - 1;
    if links[k].op.kind != Intersect then k
    else
      AllButLast(links);
      LastLoose(links[..k])
  }

  /**
    The value of a chain by the grammar of section 7.10 of ISO/IEC 9075:1992: a query expression joins
    query terms by UNION and EXCEPT, a query term joins queries by INTERSECT, both from the left.
   */
  function Standard<V>(apply: (SetOp, V, V) -> V, leaf: string -> V, empty: V, c: Chain<SetOp, SetTree>): V
    decreases |c.rest|
  {
    if AllIntersect(c.rest) then LeftFold(apply, leaf, empty, c)
    else
      var i := LastLoose(c.rest);
      var term := Chain(c.rest[i].item, c.rest[i + 1..]);
      apply(c.rest[i].op,
            Standard(apply, leaf, empty, Chain(c.first, c.rest[..i])),
            LeftFold(apply, leaf, empty, term))
  }

  /** No INTERSECT comes after another kind of operator. */
  predicate IntersectsFirst(c: Chain<SetOp, SetTree>) {
    forall i, j :: 0 <= i < j < |c.rest| && c.rest[j].op.kind == Intersect ==> c.rest[i].op.kind == Intersect
  }

  /** Then the tree means what standard SQL says, whatever the operators mean. */
  lemma {:induction false} FoldIsStandard<V>(
    apply: (SetOp, V, V) -> V, leaf: string -> V, empty: V, c: Chain<SetOp, SetTree>)
    requires IntersectsFirst(c)
    ensures Value(apply, leaf, empty, Fold(c)) == Standard(apply, leaf, empty, c)
  {
    FoldMeansLeftFold(apply, leaf, empty, c);
    LeftFoldIsStandard(apply, leaf, empty, c);
  }

  lemma {:induction false} LeftFoldIsStandard<V>(
    apply: (SetOp, V, V) -> V, leaf: string -> V, empty: V, c: Chain<SetOp, SetTree>)
    requires IntersectsFirst(c)
    ensures LeftFold(apply, leaf, empty, c) == Standard(apply, leaf, empty, c)
    decreases |c.rest|
  {
    if !AllIntersect(c.rest) {
      var i := LastLoose(c.rest);
      assert i == |c.rest| - 1;
      StandardEnd(apply, leaf, empty, c);
      LeftFoldIsStandard(apply, leaf, empty, Init(c));
    }
  }

  /** Operators applied to simple queries with nothing computed: equal only if built alike. */
  datatype Term = Nothing | Single(id: string) | Apply(op: SetOp, left: Term, right: Term)

  function Applied(op: SetOp, left: Term, right: Term): Term { Apply(op, left, right) }

  function Queried(id: string): Term { Single(id) }

  /** After another operator a final INTERSECT is the root of one reading and not of the other. */
  lemma LateIntersectTells(c: Chain<SetOp, SetTree>)
    requires !AllIntersect(c.rest) && Last(c).op.kind == Intersect
    ensures LeftFold(Applied, Queried, Nothing, c) != Standard(Applied, Queried, Nothing, c)
  {
    var i := LastLoose(c.rest);
    assert LeftFold(Applied, Queried, Nothing, c).op == Last(c).op;
    assert Standard(Applied, Queried, Nothing, c).op == c.rest[i].op;
  }

  lemma LooseEnd(c: Chain<SetOp, SetTree>)
    requires c.rest != [] && Last(c).op.kind != Intersect
    ensures !AllIntersect(c.rest) && LastLoose(c.rest) == |c.rest| - 1
  {
    assert c.rest[|c.rest| - 1] in c.rest;
  }

  /** A final operator that is no INTERSECT is the root of the standard reading too. */
  lemma StandardEnd<V>(apply: (SetOp, V, V) -> V, leaf: string -> V, empty: V, c: Chain<SetOp, SetTree>)
    requires c.rest != [] && Last(c).op.kind != Intersect
    ensures Standard(apply, leaf, empty, c)
      == apply(Last(c).op, Standard(apply, leaf, empty, Init(c)), Value(apply, leaf, empty, Last(c).item))
  {
    hide Value;
    LooseEnd(c);
    var k := |c.rest| - 1;
    assert Chain(c.first, c.rest[..k]) == Init(c) && c.rest[k + 1..] == [];
  }

  lemma IntersectsInit(c: Chain<SetOp, SetTree>)
    requires c.rest != [] && Last(c).op.kind != Intersect
    ensures IntersectsFirst(c) <==> IntersectsFirst(Init(c))
  {
  }

  lemma SomeLoose(c: Chain<SetOp, SetTree>)
    requires !IntersectsFirst(c)
    ensures c.rest != [] && !AllIntersect(c.rest)
  {
  }

  lemma {:induction false} ReadingsTold(c: Chain<SetOp, SetTree>)
    requires !IntersectsFirst(c)
    ensures LeftFold(Applied, Queried, Nothing, c) != Standard(Applied, Queried, Nothing, c)
    decreases |c.rest|
  {
    hide Standard, LeftFold, IntersectsFirst;
    SomeLoose(c);
    if Last(c).op.kind == Intersect {
      LateIntersectTells(c);
    } else {
      StandardEnd(Applied, Queried, Nothing, c);
      IntersectsInit(c);
      ReadingsTold(Init(c));
      LeftFoldEnd(Applied, Queried, Nothing, c);
    }
  }

  /** As terms the two readings agree in no other case. */
  lemma TermsTellReadings(c: Chain<SetOp, SetTree>)
    ensures Value(Applied, Queried, Nothing, Fold(c)) == Standard(Applied, Queried, Nothing, c)
      <==> IntersectsFirst(c)
  {
    hide Standard, LeftFold, Fold, Value, IntersectsFirst;
    FoldMeansLeftFold(Applied, Queried, Nothing, c);
    if IntersectsFirst(c) {
      LeftFoldIsStandard(Applied, Queried, Nothing, c);
    } else {
      ReadingsTold(c);
    }
  }

  /** Set queries as sets: `a UNION b INTERSECT c` with 1 in a alone. */
  function SetsOf(op: SetOp, left: set<int>, right: set<int>): set<int> {
    match op.kind
    case Union => left + right
    case Intersect => left * right
    case _ => left - right
  }

  function OneInA(id: string): set<int> {
    if id == "a" then {1} else {}
  }

  lemma UnionBeforeIntersect()
    ensures var union, intersect := SetOp(Union, Plain), SetOp(Intersect, Plain);
      var c := Chain(Select("a"), [Link(union, Select("b")), Link(intersect, Select("c"))]);
      && Value(SetsOf, OneInA, {}, Fold(c)) == {}
      && Standard(SetsOf, OneInA, {}, c) == {1}
  {
    var union, intersect := SetOp(Union, Plain), SetOp(Intersect, Plain);
    var c := Chain(Select("a"), [Link(union, Select("b")), Link(intersect, Select("c"))]);
    FoldMeansLeftFold(SetsOf, OneInA, {}, c);
    assert Init(c) == Chain(Select("a"), [Link(union, Select("b"))]);
    assert Init(Init(c)) == Chain(Select("a"), []);
    assert !AllIntersect(c.rest) by {
      assert c.rest[0] in c.rest;
    }
    assert LastLoose(c.rest) == 0;
    assert Standard(SetsOf, OneInA, {}, Chain(Select("a"), c.rest[..0])) == {1};
    var term := Chain(Select("b"), c.rest[1..]);
    assert Init(term) == Chain(Select("b"), []);
  }
}
