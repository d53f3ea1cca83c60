/** `CASE x WHEN ...`: calls built around one operand that every branch shares, and what becomes of them. */
module Switch {
  import opened Trees
  import opened Nulls
  import opened Heap
  import opened Scrub

  /** A `when` of the parse result: its arguments, and its THEN part as keyword arguments. */
  datatype Branch = Branch(args: seq<Tree>, kwargs: map<string, Tree>)

  function WhenTree(operand: Tree, b: Branch): Tree {
    TCall("when", TList([TCall("eq", TList([operand] + b.args), map[])]), b.kwargs)
  }

  /** The searched CASE a simple CASE stands for; the operand is repeated in every branch. */
  function SwitchTree(operand: Tree, branches: seq<Branch>, els: seq<Tree>): Tree {
    TCall("case", TList(WhenTrees(operand, branches) + els), map[])
  }

  function WhenTrees(operand: Tree, branches: seq<Branch>): (r: seq<Tree>)
    ensures |r| == |branches| && forall i :: 0 <= i < |r| ==> r[i] == WhenTree(operand, branches[i])
  {
    seq(|branches|, i requires 0 <= i < |branches| => WhenTree(operand, branches[i]))
  }

  /* ---------- a parse result that grows ---------- */

  ghost predicate Parsed(h: seq<Obj>, own: map<Addr, Owner>) {
    forall a <- own :: a < |h| && h[a] == DictObj(map[])
  }

  ghost predicate Means(h: seq<Obj>, own: map<Addr, Owner>, v: Val, t: Tree) {
    Den(h, Readable(h, own), own, v, t)
  }

  ghost function Readable(h: seq<Obj>, own: map<Addr, Owner>): set<Addr> {
    set a | 0 <= a < |h| && a !in own
  }

  /** Only new objects, and new owned dicts, have been added. */
  ghost predicate Grown(h: seq<Obj>, own: map<Addr, Owner>, h': seq<Obj>, own': map<Addr, Owner>) {
    && h <= h' && Parsed(h, own) && Parsed(h', own')
    && (forall a <- own :: a in own' && own'[a] == own[a])
    && (forall a <- own' :: a in own || a >= |h|)
  }

  lemma {:induction false} DenOwnMore(
    h: seq<Obj>, s: set<Addr>, own: map<Addr, Owner>, own': map<Addr, Owner>, v: Val, t: Tree)
    requires Den(h, s, own, v, t) && forall a <- own :: a in own' && own'[a] == own[a]
    ensures Den(h, s, own', v, t)
    decreases t
  {
    match t
    case TList(ts) =>
      forall i | 0 <= i < |ts| ensures Den(h, s, own', h[v.at].items[i], ts[i]) {
        DenOwnMore(h, s, own, own', h[v.at].items[i], ts[i]);
      }
    case TDict(m) =>
      forall k | k in m ensures Den(h, s, own', h[v.at].pairs[k], m[k]) {
        DenOwnMore(h, s, own, own', h[v.at].pairs[k], m[k]);
      }
    case TCall(op, args, m) =>
      var call := h[v.at];
      DenOwnMore(h, s, own, own', call.args, args);
      if m != map[] {
        forall k | k in m ensures Den(h, s, own', h[call.kwargs].pairs[k], m[k]) {
          DenOwnMore(h, s, own, own', h[call.kwargs].pairs[k], m[k]);
        }
      }
    case TResults(m, ts) =>
      forall k | k in m ensures Den(h, s, own', h[v.at].named[k], m[k]) {
        DenOwnMore(h, s, own, own', h[v.at].named[k], m[k]);
      }
      forall i | 0 <= i < |ts| ensures Den(h, s, own', h[v.at].tokens[i], ts[i]) {
        DenOwnMore(h, s, own, own', h[v.at].tokens[i], ts[i]);
      }
    case _ =>
  }

  lemma MeansStill(
    h: seq<Obj>, own: map<Addr, Owner>, h': seq<Obj>, own': map<Addr, Owner>, v: Val, t: Tree)
    requires Grown(h, own, h', own') && Means(h, own, v, t)
    ensures Means(h', own', v, t)
  {
    DenFrame(h, Readable(h, own), own, h', Readable(h', own'), v, t);
    DenOwnMore(h', Readable(h', own'), own, own', v, t);
  }

  lemma GrownMore(
    h: seq<Obj>, own: map<Addr, Owner>, h1: seq<Obj>, own1: map<Addr, Owner>, h2: seq<Obj>, own2: map<Addr, Owner>)
    requires Grown(h, own, h1, own1) && Grown(h1, own1, h2, own2)
    ensures Grown(h, own, h2, own2)
  {
  }

  lemma MeansList(h: seq<Obj>, own: map<Addr, Owner>, a: Addr, vs: seq<Val>, ts: seq<Tree>)
    requires a < |h| && a !in own && h[a] == ListObj(vs) && |vs| == |ts|
    requires forall i :: 0 <= i < |ts| ==> Means(h, own, vs[i], ts[i])
    ensures Means(h, own, Ref(a), TList(ts))
  {
  }

  /** A call built with `{}` for its keyword arguments. */
  lemma MeansBareCall(h: seq<Obj>, own: map<Addr, Owner>, a: Addr, op: string, args: Addr, kwargs: Addr, t: Tree)
    requires a < |h| && a !in own && h[a] == CallObj(op, Ref(args), kwargs)
    requires Means(h, own, Ref(args), t) && Parsed(h, own)
    requires kwargs in own && own[kwargs] == Owner(op, t)
    ensures Means(h, own, Ref(a), TCall(op, t, map[]))
  {
  }

  /** A call that takes over the keyword arguments of another. */
  lemma MeansCallLike(
    h: seq<Obj>, own: map<Addr, Owner>, a: Addr, op: string, args: Addr, c: Addr, t: Tree, like: Tree)
    requires a < |h| && a !in own && Means(h, own, Ref(args), t)
    requires Means(h, own, Ref(c), like) && like.TCall? && like.kwargs != map[]
    requires c < |h| && h[c].CallObj? && h[a] == CallObj(op, Ref(args), h[c].kwargs)
    ensures Means(h, own, Ref(a), TCall(op, t, like.kwargs))
  {
  }

  lemma MeansCallArgs(
    h: seq<Obj>, own: map<Addr, Owner>, c: Addr, op: string, args: seq<Tree>, kwargs: map<string, Tree>)
    requires Means(h, own, Ref(c), TCall(op, TList(args), kwargs))
    ensures c < |h| && h[c].CallObj? && h[c].args.Ref? && h[c].args.at < |h| && h[h[c].args.at].ListObj?
    ensures var items := h[h[c].args.at].items;
      |items| == |args| && forall i :: 0 <= i < |args| ==> Means(h, own, items[i], args[i])
  {
    var r := Readable(h, own);
    DenOfCall(h, r, own, c, TCall(op, TList(args), kwargs));
    DenOfList(h, r, own, h[c].args, args);
  }

  lemma DenOfList(h: seq<Obj>, s: set<Addr>, own: map<Addr, Owner>, v: Val, ts: seq<Tree>)
    requires Den(h, s, own, v, TList(ts))
    ensures v.Ref? && v.at < |h| && h[v.at].ListObj? && |h[v.at].items| == |ts|
    ensures forall i :: 0 <= i < |ts| ==> Den(h, s, own, h[v.at].items[i], ts[i])
  {
  }

  /* ---------- building the calls ---------- */

  /** One branch: its call is rebuilt to compare the shared operand with what the branch was written with. */
  method BuildWhen(
    heap: seq<Obj>, ghost own: map<Addr, Owner>, value: Val, c: Addr, ghost operand: Tree, ghost b: Branch)
    returns (heap': seq<Obj>, ghost own': map<Addr, Owner>, when: Val)
    requires Parsed(heap, own) && Means(heap, own, value, operand)
    requires Means(heap, own, Ref(c), TCall("when", TList(b.args), b.kwargs)) && b.kwargs != map[]
    ensures Grown(heap, own, heap', own') && Means(heap', own', when, WhenTree(operand, b))
  {
    hide Den, Means;
    MeansCallArgs(heap, own, c, "when", b.args, b.kwargs);
    var n := |heap|;
    var items := [value] + heap[heap[c].args.at].items;
    ghost var eqArgs := TList([operand] + b.args);
    heap' := heap + [
      ListObj(items), DictObj(map[]), CallObj("eq", Ref(n), n + 1),
      ListObj([Ref(n + 2)]), CallObj("when", Ref(n + 3), heap[c].kwargs)];
    own' := own[n + 1 := Owner("eq", eqArgs)];
    when := Ref(n + 4);
    assert Grown(heap, own, heap', own');
    forall i | 0 <= i < |items| ensures Means(heap', own', items[i], ([operand] + b.args)[i]) {
      MeansStill(heap, own, heap', own', items[i], ([operand] + b.args)[i]);
    }
    MeansList(heap', own', n, items, [operand] + b.args);
    MeansBareCall(heap', own', n + 2, "eq", n, n + 1, eqArgs);
    MeansList(heap', own', n + 3, [Ref(n + 2)], [TCall("eq", eqArgs, map[])]);
    MeansStill(heap, own, heap', own', Ref(c), TCall("when", TList(b.args), b.kwargs));
    MeansCallLike(heap', own', n + 4, "when", n + 3, c, TList([TCall("eq", eqArgs, map[])]),
      TCall("when", TList(b.args), b.kwargs));
  }

  /** The simple CASE as a searched one. The heap grows; every `eq` refers to the same operand. */
  method ToSwitchCall(
    heap: seq<Obj>, ghost own: map<Addr, Owner>, value: Val, whens: seq<Addr>, elze: seq<Val>,
    ghost operand: Tree, ghost branches: seq<Branch>, ghost els: seq<Tree>)
    returns (heap': seq<Obj>, ghost own': map<Addr, Owner>, call: Val)
    requires Parsed(heap, own) && Means(heap, own, value, operand)
    requires |whens| == |branches| && |elze| == |els| <= 1
    requires forall i :: 0 <= i < |whens| ==>
      && branches[i].kwargs != map[]
      && Means(heap, own, Ref(whens[i]), TCall("when", TList(branches[i].args), branches[i].kwargs))
    requires forall i :: 0 <= i < |elze| ==> Means(heap, own, elze[i], els[i])
    ensures Grown(heap, own, heap', own')
    ensures Means(heap', own', call, SwitchTree(operand, branches, els))
  {
    hide Den, Means, Grown;
    heap', own' := heap, own;
    GrownSame(heap, own);
    var acc: seq<Val> := [];
    for n := 0 to |whens|
      invariant Grown(heap, own, heap', own') && Parsed(heap', own') && |acc| == n
      invariant forall i :: 0 <= i < n ==> Means(heap', own', acc[i], WhenTree(operand, branches[i]))
    {
      ghost var b := branches[n];
      MeansStill(heap, own, heap', own', value, operand);
      MeansStill(heap, own, heap', own', Ref(whens[n]), TCall("when", TList(b.args), b.kwargs));
      ghost var h, o := heap', own';
      var when;
      heap', own', when := BuildWhen(heap', own', value, whens[n], operand, b);
      forall i | 0 <= i < n ensures Means(heap', own', acc[i], WhenTree(operand, branches[i])) {
        MeansStill(h, o, heap', own', acc[i], WhenTree(operand, branches[i]));
      }
      GrownMore(heap, own, h, o, heap', own');
      GrownParsed(h, o, heap', own');
      acc := acc + [when];
    }
    ghost var trees := WhenTrees(operand, branches) + els;
    forall i | 0 <= i < |elze| ensures Means(heap', own', elze[i], els[i]) {
      MeansStill(heap, own, heap', own', elze[i], els[i]);
    }
    acc := acc + elze;
    ghost var h, o := heap', own';
    var n := |heap'|;
    heap' := heap' + [ListObj(acc), DictObj(map[]), CallObj("case", Ref(n), n + 1)];
    own' := own'[n + 1 := Owner("case", TList(trees))];
    GrownByCall(h, o, heap', own', n + 1);
    GrownMore(heap, own, h, o, heap', own');
    forall i | 0 <= i < |acc| ensures Means(heap', own', acc[i], trees[i]) {
      MeansStill(h, o, heap', own', acc[i], trees[i]);
    }
    MeansList(heap', own', n, acc, trees);
    MeansBareCall(heap', own', n + 2, "case", n, n + 1, TList(trees));
    call := Ref(n + 2);
  }

  lemma GrownSame(h: seq<Obj>, own: map<Addr, Owner>)
    requires Parsed(h, own)
    ensures Grown(h, own, h, own)
  {
  }

  lemma GrownParsed(h: seq<Obj>, own: map<Addr, Owner>, h': seq<Obj>, own': map<Addr, Owner>)
    requires Grown(h, own, h', own')
    ensures Parsed(h', own')
  {
  }

  lemma GrownByCall(h: seq<Obj>, own: map<Addr, Owner>, h': seq<Obj>, own': map<Addr, Owner>, k: Addr)
    requires Parsed(h, own) && h <= h' && |h| <= k < |h'| && h'[k] == DictObj(map[])
    requires k in own' && own' == own[k := own'[k]]
    ensures Grown(h, own, h', own') && Parsed(h', own')
    ensures forall a :: |h| <= a < |h'| && a != k ==> a !in own'
  {
  }

  /* ---------- and scrubbing them ---------- */

  lemma MeansFixed(c: Line, s: State, v: Val, t: Tree)
    requires Means(s.heap, c.own, v, t) && s.reused == {}
    ensures Den(s.heap, Fixed(c, s, {}), c.own, v, t)
  {
    assert Fixed(c, s, {}) == Readable(s.heap, c.own);
  }

  /** A call built with `{}` is clean unless its argument is NULL and it is renamed. */
  ghost predicate BareClean(fmap: Renaming, op: string, args: Tree) {
    Clean(fmap, args) && (ArgIsNull(fmap, args) ==> Renamed(fmap, op) == op)
  }

  ghost predicate BranchIsClean(fmap: Renaming, operand: Tree, b: Branch) {
    var name := Renamed(fmap, "when");
    && BareClean(fmap, "eq", TList([operand] + b.args))
    && !NullEntry(fmap, b.kwargs, name)
    && forall k | k in b.kwargs && k != name :: Clean(fmap, b.kwargs[k])
  }

  ghost predicate PartsAreClean(fmap: Renaming, operand: Tree, branches: seq<Branch>, els: seq<Tree>) {
    && (forall b <- branches :: BranchIsClean(fmap, operand, b))
    && (forall t <- els :: Clean(fmap, t))
    && (branches == [] && ArgIsNull(fmap, TList(els)) ==> Renamed(fmap, "case") == "case")
  }

  lemma BareCallIsClean(fmap: Renaming, op: string, args: Tree)
    ensures Clean(fmap, TCall(op, args, map[])) <==> BareClean(fmap, op, args)
  {
    hide Simplify, ArgIsNull;
    CleanCall(fmap, TCall(op, args, map[]));
  }

  /** A list that starts with a call is not NULL. */
  lemma CallIsNotNull(fmap: Renaming, call: Tree, more: seq<Tree>)
    requires call.TCall?
    ensures Simplify(fmap, call).TDict? && !ArgIsNull(fmap, TList([call] + more))
  {
    hide SimplifyItems;
    CallIsDict(fmap, call);
    var all := [call] + more;
    SimplifyCons(fmap, all);
    assert all[0] == call && all[1..] == more;
  }

  lemma WhenIsClean(fmap: Renaming, operand: Tree, b: Branch)
    ensures Clean(fmap, WhenTree(operand, b)) <==> BranchIsClean(fmap, operand, b)
  {
    hide Clean, ArgIsNull, NullEntry, Simplify, BareClean;
    var args := TList([operand] + b.args);
    var eq := TCall("eq", args, map[]);
    CallIsNotNull(fmap, eq, []);
    BareCallIsClean(fmap, "eq", args);
    AllClean(fmap, [eq], []);
    assert [eq] + [] == [eq] && [eq][0] == eq;
    CleanCall(fmap, TCall("when", TList([eq]), b.kwargs));
  }

  /** The searched CASE is clean exactly when the parts of the simple one are, under any renaming. */
  lemma SwitchIsClean(fmap: Renaming, operand: Tree, branches: seq<Branch>, els: seq<Tree>)
    ensures Clean(fmap, SwitchTree(operand, branches, els)) <==> PartsAreClean(fmap, operand, branches, els)
  {
    hide WhenTree, BranchIsClean, Clean, ArgIsNull, Simplify, WhenTrees;
    var whens := WhenTrees(operand, branches);
    BareCallIsClean(fmap, "case", TList(whens + els));
    forall i | 0 <= i < |branches|
      ensures Clean(fmap, whens[i]) <==> BranchIsClean(fmap, operand, branches[i])
    {
      WhenIsClean(fmap, operand, branches[i]);
    }
    AllClean(fmap, whens, els);
    if branches == [] {
      assert whens + els == els;
    } else {
      WhenIsCall(operand, branches[0]);
      CallIsNotNull(fmap, whens[0], whens[1..] + els);
      assert whens + els == [whens[0]] + (whens[1..] + els);
    }
    assert (forall b <- branches :: BranchIsClean(fmap, operand, b)) <==>
      forall i :: 0 <= i < |branches| ==> BranchIsClean(fmap, operand, branches[i]);
  }

  lemma WhenIsCall(operand: Tree, b: Branch)
    ensures WhenTree(operand, b).TCall?
  {
  }

  lemma AllClean(fmap: Renaming, whens: seq<Tree>, els: seq<Tree>)
    ensures Clean(fmap, TList(whens + els)) <==>
      (forall i :: 0 <= i < |whens| ==> Clean(fmap, whens[i])) && forall t <- els :: Clean(fmap, t)
  {
    var all := whens + els;
    if Clean(fmap, TList(all)) {
      forall i | 0 <= i < |whens| ensures Clean(fmap, whens[i]) {
        assert all[i] == whens[i];
      }
      forall t | t in els ensures Clean(fmap, t) {
        assert t in all;
      }
    }
  }

  /**
    A line that is one simple CASE, under any renaming. Every `eq` refers to the same operand, yet NULL
    is replaced in every copy of it, and nothing else is, exactly when the parts are clean.
   */
  method SwitchLine(
    heap: seq<Obj>, fmap: Renaming, ghost own: map<Addr, Owner>, value: Val, whens: seq<Addr>, elze: seq<Val>,
    ghost operand: Tree, ghost branches: seq<Branch>, ghost els: seq<Tree>)
    returns (line: Scrubber, out: Val, ghost x: Tree)
    requires Parsed(heap, own) && Means(heap, own, value, operand)
    requires |whens| == |branches| && |elze| == |els| <= 1
    requires forall i :: 0 <= i < |whens| ==>
      && branches[i].kwargs != map[]
      && Means(heap, own, Ref(whens[i]), TCall("when", TList(branches[i].args), branches[i].kwargs))
    requires forall i :: 0 <= i < |elze| ==> Means(heap, own, elze[i], els[i])
    requires NoGiven(SwitchTree(operand, branches, els))
    ensures Den(line.heap, Output(line.Here(), line.Now(), {}), line.own, out, x)
    ensures x == Fill(fmap, SwitchTree(operand, branches, els)) <==> PartsAreClean(fmap, operand, branches, els)
    ensures UnfoldsTo(line.heap, line.own, out, Fill(fmap, SwitchTree(operand, branches, els)))
      <==> PartsAreClean(fmap, operand, branches, els)
    ensures PartsAreClean(fmap, operand, branches, els) ==> NoSentinel(x)
  {
    hide Den, Means, Clean, NoGiven, PartsAreClean, SwitchTree, Simplify, UnfoldsTo;
    var parsed, all, call := ToSwitchCall(heap, own, value, whens, elze, operand, branches, els);
    line := new Scrubber(parsed, fmap, all);
    ghost var t := SwitchTree(operand, branches, els);
    MeansFixed(line.Here(), line.Now(), call, t);
    SwitchIsCall(operand, branches, els);
    CallIsDict(fmap, t);
    SwitchIsClean(fmap, operand, branches, els);
    out, x := line.ScrubLine(call, t);
  }

  lemma SwitchIsCall(operand: Tree, branches: seq<Branch>, els: seq<Tree>)
    ensures SwitchTree(operand, branches, els).TCall?
  {
  }
}
