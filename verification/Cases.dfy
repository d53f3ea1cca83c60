/** Simple CASE turned into searched CASE, under three-valued logic. */
module Cases {
  import opened Expressions
  import opened Chains
  import opened Engine
  import opened Syntax
  import opened Printer
  import opened RoundTrip
  import opened Meaning
  import opened Tables

  /** `CASE operand WHEN cond THEN result ... ELSE els END` as the parser builds it, from `eq` directly. */
  function Desugar(operand: Expr, whens: seq<When>, els: Option<Expr>): Expr {
    Case(Equated(operand, whens), els)
  }

  function Equated(operand: Expr, whens: seq<When>): (r: seq<When>)
    ensures |r| == |whens|
  {
    seq(|whens|, i requires 0 <= i < |whens| => When(Infix(Eq, [operand, whens[i].cond]), whens[i].result))
  }

  /* ---------- SQL values ---------- */

  /** Values with NULL among them, their equality, and which of them are true, false or (None) unknown. */
  datatype Logic<!V> = Logic(values: Interp<V>, same: (V, V) -> bool, truth: V -> Option<bool>)

  /** Searched CASE: the first branch whose condition is true, not merely unknown. */
  function FirstTrue<V>(truth: V -> Option<bool>, whens: seq<(V, V)>, els: V): V {
    if whens == [] then els
    else if truth(whens[0].0) == Some(true) then whens[0].1
    else FirstTrue(truth, whens[1..], els)
  }

  /** Equality is unknown if either side is NULL, a NULL test never is, and CASE is searched in order. */
  ghost predicate ThreeValued<V(!new)>(l: Logic<V>) {
    && (forall x, y :: l.truth(l.values.infix(Eq, x, y))
         == if x == l.values.nil || y == l.values.nil then None else Some(l.same(x, y)))
    && (forall x :: l.truth(l.values.missing(x)) == Some(x == l.values.nil))
    && (forall ws, e: Option<V> :: l.values.branches(ws, e)
         == FirstTrue(l.truth, ws, if e.Some? then e.value else l.values.nil))
  }

  /** Equal values, neither of them NULL. */
  ghost predicate Equal<V>(l: Logic<V>, x: V, y: V) {
    x != l.values.nil && y != l.values.nil && l.same(x, y)
  }

  /** Simple CASE of standard SQL: the first branch whose value equals the operand; NULL equals nothing. */
  ghost function FirstEqual<V>(l: Logic<V>, x: V, whens: seq<(V, V)>, els: V): V {
    if whens == [] then els
    else if Equal(l, x, whens[0].0) then whens[0].1
    else FirstEqual(l, x, whens[1..], els)
  }

  /** The searched CASE means what the simple one does, for NULL operands and NULL branches too. */
  lemma DesugarKeepsMeaning<V(!new)>(l: Logic<V>, operand: Expr, whens: seq<When>, els: Option<Expr>)
    requires ThreeValued(l)
    ensures Denote(l.values, Desugar(operand, whens, els))
      == FirstEqual(l, Denote(l.values, operand), DenoteWhens(l.values, whens),
                    if els.Some? then Denote(l.values, els.value) else l.values.nil)
  {
    var m := l.values;
    BranchesAgree(l, operand, whens, if els.Some? then Denote(m, els.value) else m.nil);
  }

  lemma {:induction false} BranchesAgree<V(!new)>(l: Logic<V>, operand: Expr, whens: seq<When>, els: V)
    requires ThreeValued(l)
    ensures FirstTrue(l.truth, DenoteWhens(l.values, Equated(operand, whens)), els)
      == FirstEqual(l, Denote(l.values, operand), DenoteWhens(l.values, whens), els)
    decreases |whens|
  {
    if whens != [] {
      BranchesAgree(l, operand, whens[1..], els);
      assert Equated(operand, whens)[1..] == Equated(operand, whens[1..]);
      EquationDenotes(l.values, operand, whens[0].cond);
    }
  }

  lemma EquationDenotes<V>(m: Interp<V>, x: Expr, y: Expr)
    ensures Denote(m, Infix(Eq, [x, y])) == m.infix(Eq, Denote(m, x), Denote(m, y))
  {
    PairDenotes(m, Eq, x, y);
  }

  /* ---------- and as text ---------- */

  /** What the parser makes of `x = y` in text: a comparison with NULL becomes a test for NULL. */
  function TextTest(x: Expr, y: Expr): Expr {
    if y == Null then Missing(Norm(Sql(), x))
    else if x == Null then Missing(Norm(Sql(), y))
    else Infix(Eq, [Norm(Sql(), x), Norm(Sql(), y)])
  }

  function TextWhens(operand: Expr, whens: seq<When>): (r: seq<When>)
    ensures |r| == |whens|
  {
    seq(|whens|, i requires 0 <= i < |whens| => TextWhen(operand, whens[i]))
  }

  function TextWhen(operand: Expr, w: When): When {
    When(TextTest(operand, w.cond), Norm(Sql(), w.result))
  }

  lemma EquationText(x: Expr, y: Expr)
    requires WellFormed(x) && WellFormed(y) && Safe(Sql(), Infix(Eq, [x, y])) && NullSafe(x) && NullSafe(y)
    ensures Strip(Eval(Sql(), Lay(Sql(), Infix(Eq, [x, y]), MAX_CONTEXT))) == TextTest(x, y)
  {
    hide Eval, Fits, Norm, AtMost, FitsRight, Glue;
    var g := Sql();
    var es := [x, y];
    assert es[0] == x && es[1] == y && es[..1] == [x] && x in es && y in es;
    var l, r := Lay(g, x, OperandContext(g, Eq, 2, 0)), Lay(g, y, OperandContext(g, Eq, 2, 1));
    assert LayJoined(g, Eq, es[..1], 2) == l;
    assert Lay(g, Infix(Eq, es), MAX_CONTEXT) == Glue(l, Eq, r);
    FitsIsFitting(g, Eq, 2, 0, x);
    FitsIsFitting(g, Eq, 2, 1, y);
    GlueReads(g, l, Eq, r);
    AtomOrNot(x, OperandContext(g, Eq, 2, 0));
    AtomOrNot(y, OperandContext(g, Eq, 2, 1));
  }

  lemma AtomOrNot(e: Expr, context: int)
    requires WellFormed(e) && Safe(Sql(), e) && NullSafe(e)
    ensures var v := Eval(Sql(), Lay(Sql(), e, context));
      Strip(v) == Norm(Sql(), e) && (v == Plain(Null) <==> e == Null)
  {
    hide Eval, Safe, NullSafe;
    ReadBack(Sql(), e, context);
    NotNull(Sql(), e);
    EvalSingle(Sql(), NullTerm);
  }

  /** Each branch of the printed text is read as a comparison, or as a NULL test if NULL is written in it. */
  lemma DesugaredText(operand: Expr, whens: seq<When>, els: Option<Expr>, context: int)
    requires WellFormed(Desugar(operand, whens, els)) && NoClash(Desugar(operand, whens, els))
    requires NullSafe(operand) && (els.Some? ==> NullSafe(els.value))
    requires forall w <- whens :: NullSafe(w.cond) && NullSafe(w.result)
    ensures Parse(Sql(), Print(Sql(), Desugar(operand, whens, els), context))
      == Some(Case(TextWhens(operand, whens), if els.Some? then Some(Norm(Sql(), els.value)) else None))
  {
    hide Eval, Safe, NullSafe, Norm, NoClash, Print, TextTest;
    var g, t := Sql(), Desugar(operand, whens, els);
    SafeIsNoClash(t);
    SafeParts(operand, whens, els);
    PrintedTextReads(g, t, context);
    EvalSingle(g, Lay(g, t, context).first);
    WhensText(operand, whens);
    if els.Some? {
      ReadBack(g, els.value, MAX_CONTEXT);
    }
  }

  lemma SafeParts(operand: Expr, whens: seq<When>, els: Option<Expr>)
    requires Safe(Sql(), Desugar(operand, whens, els))
    ensures forall w <- whens :: Safe(Sql(), Infix(Eq, [operand, w.cond])) && Safe(Sql(), w.result)
    ensures els.Some? ==> Safe(Sql(), els.value)
  {
    hide Fits;
    forall w | w in whens ensures Safe(Sql(), Infix(Eq, [operand, w.cond])) && Safe(Sql(), w.result) {
      var i :| 0 <= i < |whens| && whens[i] == w;
      assert Equated(operand, whens)[i] in Equated(operand, whens);
    }
  }

  lemma {:induction false} WhensText(operand: Expr, whens: seq<When>)
    requires forall w <- Equated(operand, whens) :: WellFormed(w.cond) && WellFormed(w.result)
    requires NullSafe(operand) && forall w <- whens :: NullSafe(w.cond) && NullSafe(w.result)
    requires forall w <- whens :: Safe(Sql(), Infix(Eq, [operand, w.cond])) && Safe(Sql(), w.result)
    ensures EvalWhens(Sql(), LayWhens(Sql(), Equated(operand, whens))) == TextWhens(operand, whens)
    decreases |whens|
  {
    hide EvalWhen, LayWhen, Safe, NullSafe, WellFormed, TextWhen;
    if whens != [] {
      var all := Equated(operand, whens);
      assert all[0] in all && all[1..] == Equated(operand, whens[1..]);
      WhenText(operand, whens[0]);
      WhensText(operand, whens[1..]);
      assert LayWhens(Sql(), all)[1..] == LayWhens(Sql(), all[1..]);
      assert TextWhens(operand, whens) == [TextWhen(operand, whens[0])] + TextWhens(operand, whens[1..]);
    }
  }

  lemma WhenText(operand: Expr, w: When)
    requires WellFormed(Infix(Eq, [operand, w.cond])) && WellFormed(w.result)
    requires NullSafe(operand) && NullSafe(w.cond) && NullSafe(w.result)
    requires Safe(Sql(), Infix(Eq, [operand, w.cond])) && Safe(Sql(), w.result)
    ensures EvalWhen(Sql(), LayWhen(Sql(), When(Infix(Eq, [operand, w.cond]), w.result))) == TextWhen(operand, w)
  {
    hide Eval, Safe, NullSafe, Norm, Lay, TextTest;
    EquationParts(operand, w.cond);
    EquationText(operand, w.cond);
    ReadBack(Sql(), w.result, MAX_CONTEXT);
  }

  lemma EquationParts(x: Expr, y: Expr)
    requires WellFormed(Infix(Eq, [x, y]))
    ensures WellFormed(x) && WellFormed(y)
  {
    assert [x, y][0] == x && [x, y][1] == y;
  }

  /* ---------- what the text means ---------- */

  /** Whether a branch of the text is taken: a NULL test where NULL is written, and else as in the simple CASE. */
  ghost predicate TextTakes<V>(l: Logic<V>, operand: Expr, cond: Expr) {
    var x, y := Denote(l.values, operand), Denote(l.values, cond);
    if cond == Null then x == l.values.nil
    else if operand == Null then y == l.values.nil
    else Equal(l, x, y)
  }

  ghost function TextCase<V>(l: Logic<V>, operand: Expr, whens: seq<When>, els: V): V {
    if whens == [] then els
    else if TextTakes(l, operand, whens[0].cond) then Denote(l.values, whens[0].result)
    else TextCase(l, operand, whens[1..], els)
  }

  lemma TextTestIsTrue<V(!new)>(l: Logic<V>, x: Expr, y: Expr)
    requires ThreeValued(l) && Associative(Sql(), l.values) && WellFormed(x) && WellFormed(y)
    ensures l.truth(Denote(l.values, TextTest(x, y))) == Some(true) <==> TextTakes(l, x, y)
  {
    hide Norm, ThreeValued, Associative, Denote, WellFormed;
    var m := l.values;
    var a, b := Norm(Sql(), x), Norm(Sql(), y);
    NormKeepsValue(Sql(), m, x);
    NormKeepsValue(Sql(), m, y);
    if y == Null {
      TestIsTrue(l, a);
    } else if x == Null {
      TestIsTrue(l, b);
    } else {
      EquationIsTrue(l, a, b);
    }
  }

  lemma TestIsTrue<V(!new)>(l: Logic<V>, a: Expr)
    requires ThreeValued(l)
    ensures l.truth(Denote(l.values, Missing(a))) == Some(Denote(l.values, a) == l.values.nil)
  {
    assert Denote(l.values, Missing(a)) == l.values.missing(Denote(l.values, a));
  }

  lemma EquationIsTrue<V(!new)>(l: Logic<V>, a: Expr, b: Expr)
    requires ThreeValued(l)
    ensures l.truth(Denote(l.values, Infix(Eq, [a, b]))) == Some(true)
      <==> Equal(l, Denote(l.values, a), Denote(l.values, b))
  {
    EquationDenotes(l.values, a, b);
  }

  lemma {:induction false} TextBranches<V(!new)>(l: Logic<V>, operand: Expr, whens: seq<When>, els: V)
    requires ThreeValued(l) && Associative(Sql(), l.values) && WellFormed(operand)
    requires forall w <- whens :: WellFormed(w.cond) && WellFormed(w.result)
    ensures FirstTrue(l.truth, DenoteWhens(l.values, TextWhens(operand, whens)), els)
      == TextCase(l, operand, whens, els)
    decreases |whens|
  {
    hide ThreeValued, Associative, WellFormed, Denote, TextTakes, Norm, TextTest;
    if whens != [] {
      var w := whens[0];
      assert w in whens;
      TextTestIsTrue(l, operand, w.cond);
      NormKeepsValue(Sql(), l.values, w.result);
      TextBranches(l, operand, whens[1..], els);
      var ts := TextWhens(operand, whens);
      assert ts[1..] == TextWhens(operand, whens[1..]) && ts[0] == TextWhen(operand, w);
      assert DenoteWhens(l.values, ts) == [DenoteWhen(l.values, ts[0])] + DenoteWhens(l.values, ts[1..]);
    }
  }

  /** The value of the text of a desugared CASE, for any number of branches. */
  lemma TextMeans<V(!new)>(l: Logic<V>, operand: Expr, whens: seq<When>, els: Option<Expr>, context: int)
    requires ThreeValued(l) && Associative(Sql(), l.values)
    requires WellFormed(operand) && forall w <- whens :: WellFormed(w.cond) && WellFormed(w.result)
    requires WellFormed(Desugar(operand, whens, els)) && NoClash(Desugar(operand, whens, els))
    requires NullSafe(operand) && (els.Some? ==> NullSafe(els.value))
    requires forall w <- whens :: NullSafe(w.cond) && NullSafe(w.result)
    ensures var read := Parse(Sql(), Print(Sql(), Desugar(operand, whens, els), context));
      read.Some? && Denote(l.values, read.value)
      == TextCase(l, operand, whens, if els.Some? then Denote(l.values, els.value) else l.values.nil)
  {
    hide NoClash, Associative, NullSafe, Norm, TextCase, FirstTrue, Parse, Print, TextWhens, Equated;
    var m := l.values;
    var e := if els.Some? then Denote(m, els.value) else m.nil;
    DesugaredText(operand, whens, els, context);
    if els.Some? {
      NormKeepsValue(Sql(), m, els.value);
    }
    TextBranches(l, operand, whens, e);
    CaseDenotes(l, TextWhens(operand, whens), if els.Some? then Some(Norm(Sql(), els.value)) else None, e);
  }

  lemma CaseDenotes<V(!new)>(l: Logic<V>, whens: seq<When>, els: Option<Expr>, e: V)
    requires ThreeValued(l) && e == if els.Some? then Denote(l.values, els.value) else l.values.nil
    ensures Denote(l.values, Case(whens, els)) == FirstTrue(l.truth, DenoteWhens(l.values, whens), e)
  {
    var m := l.values;
    var o := if els.Some? then Some(Denote(m, els.value)) else None;
    assert Denote(m, Case(whens, els)) == m.branches(DenoteWhens(m, whens), o);
  }

  /* ---------- where the text and the tree part ---------- */

  /** In the text this branch is a test for NULL, and it succeeds. */
  ghost predicate NullTested<V>(l: Logic<V>, operand: Expr, cond: Expr) {
    var x, y := Denote(l.values, operand), Denote(l.values, cond);
    x == l.values.nil && (cond == Null || (operand == Null && y == l.values.nil))
  }

  ghost predicate FirstNullTested<V>(l: Logic<V>, operand: Expr, whens: seq<When>, k: nat) {
    && k < |whens| && NullTested(l, operand, whens[k].cond)
    && forall i :: 0 <= i < k ==> !NullTested(l, operand, whens[i].cond)
  }

  lemma TakesUnlessTested<V>(l: Logic<V>, operand: Expr, cond: Expr)
    ensures TextTakes(l, operand, cond)
      <==> NullTested(l, operand, cond) || Equal(l, Denote(l.values, operand), Denote(l.values, cond))
    ensures NullTested(l, operand, cond) ==> Denote(l.values, operand) == l.values.nil
  {
    NullIsNil(l.values);
  }

  lemma NullIsNil<V>(m: Interp<V>)
    ensures Denote(m, Null) == m.nil
  {
  }

  /** The first successful test for NULL decides the text, while the tree means its ELSE. */
  lemma {:induction false} NullBranchMatches<V>(l: Logic<V>, operand: Expr, whens: seq<When>, els: V, k: nat)
    requires FirstNullTested(l, operand, whens, k)
    ensures FirstEqual(l, Denote(l.values, operand), DenoteWhens(l.values, whens), els) == els
    ensures TextCase(l, operand, whens, els) == Denote(l.values, whens[k].result)
    decreases k
  {
    hide Denote, NullTested, TextTakes;
    TakesUnlessTested(l, operand, whens[k].cond);
    NullEqualsNothing(l, DenoteWhens(l.values, whens), els);
    TakesUnlessTested(l, operand, whens[0].cond);
    if k > 0 {
      NullBranchMatches(l, operand, whens[1..], els, k - 1);
    }
  }

  /** Without one the two agree, whatever is NULL. */
  lemma {:induction false} NoNullTest<V>(l: Logic<V>, operand: Expr, whens: seq<When>, els: V)
    requires forall w <- whens :: !NullTested(l, operand, w.cond)
    ensures TextCase(l, operand, whens, els)
      == FirstEqual(l, Denote(l.values, operand), DenoteWhens(l.values, whens), els)
    decreases |whens|
  {
    hide Denote, NullTested, TextTakes;
    if whens != [] {
      NoNullTest(l, operand, whens[1..], els);
      TakesUnlessTested(l, operand, whens[0].cond);
      assert DenoteWhens(l.values, whens)[1..] == DenoteWhens(l.values, whens[1..]);
    }
  }

  /** Either no branch is taken by a test for NULL, or one is, and gives what ELSE would. */
  ghost predicate NoHarm<V>(l: Logic<V>, operand: Expr, whens: seq<When>, els: V) {
    forall k: nat | FirstNullTested(l, operand, whens, k) :: Denote(l.values, whens[k].result) == els
  }

  /** For every operand, written NULL or not, the text means what the tree does in no other case. */
  lemma TextKeepsMeaning<V>(l: Logic<V>, operand: Expr, whens: seq<When>, els: V)
    ensures TextCase(l, operand, whens, els)
      == FirstEqual(l, Denote(l.values, operand), DenoteWhens(l.values, whens), els)
      <==> NoHarm(l, operand, whens, els)
  {
    hide Denote, NullTested, TextCase, FirstEqual;
    if k: nat :| FirstNullTested(l, operand, whens, k) {
      NullBranchMatches(l, operand, whens, els, k);
      assert forall j: nat :: FirstNullTested(l, operand, whens, j) ==> j == k;
    } else {
      SomeIsFirst(l, operand, whens);
      NoNullTest(l, operand, whens, els);
    }
  }

  lemma SomeIsFirst<V>(l: Logic<V>, operand: Expr, whens: seq<When>)
    requires forall k: nat :: !FirstNullTested(l, operand, whens, k)
    ensures forall w <- whens :: !NullTested(l, operand, w.cond)
  {
    hide NullTested;
    for n := 0 to |whens|
      invariant forall i :: 0 <= i < n ==> !NullTested(l, operand, whens[i].cond)
    {
      assert !FirstNullTested(l, operand, whens, n);
    }
  }

  /** Reading the printed CASE back, the value of the tree is kept exactly when no test for NULL does harm. */
  lemma TextKeepsValue<V(!new)>(l: Logic<V>, operand: Expr, whens: seq<When>, els: Option<Expr>, context: int)
    requires ThreeValued(l) && Associative(Sql(), l.values)
    requires WellFormed(operand) && forall w <- whens :: WellFormed(w.cond) && WellFormed(w.result)
    requires WellFormed(Desugar(operand, whens, els)) && NoClash(Desugar(operand, whens, els))
    requires NullSafe(operand) && (els.Some? ==> NullSafe(els.value))
    requires forall w <- whens :: NullSafe(w.cond) && NullSafe(w.result)
    ensures var tree := Desugar(operand, whens, els);
      var read := Parse(Sql(), Print(Sql(), tree, context));
      && read.Some?
      && (Denote(l.values, read.value) == Denote(l.values, tree)
          <==> NoHarm(l, operand, whens, if els.Some? then Denote(l.values, els.value) else l.values.nil))
  {
    hide NoClash, Associative, NullSafe, TextCase, Parse, Print, ThreeValued, Denote, NoHarm, Desugar, WellFormed;
    TextMeans(l, operand, whens, els, context);
    DesugarKeepsMeaning(l, operand, whens, els);
    TextKeepsMeaning(l, operand, whens, if els.Some? then Denote(l.values, els.value) else l.values.nil);
  }

  /** A NULL operand that is written so: `NULL = y` is read as a test of `y`. */
  lemma NullOperandTests<V>(l: Logic<V>, y: Expr, result: Expr, els: V)
    requires Denote(l.values, y) == l.values.nil
    ensures FirstEqual(l, Denote(l.values, Null), DenoteWhens(l.values, [When(y, result)]), els) == els
    ensures TextCase(l, Null, [When(y, result)], els) == Denote(l.values, result)
  {
    NullBranchMatches(l, Null, [When(y, result)], els, 0);
  }

  lemma {:induction false} NullEqualsNothing<V>(l: Logic<V>, whens: seq<(V, V)>, els: V)
    ensures FirstEqual(l, l.values.nil, whens, els) == els
    decreases |whens|
  {
    if whens != [] {
      NullEqualsNothing(l, whens[1..], els);
    }
  }
}
