/**
  Parse results as values: what `scrub` makes of them, what the caller of `parse` should get, and
  what the list of NULL locations really leaves behind.
 */
module Trees {

  /**
    The unfolding of a parse result. TSentinel is the SQL_NULL object, TGiven the value the caller
    wants for NULL, TCall a Call object, TResults a ParseResults with its named and its plain tokens.
   */
  datatype Tree =
    | TSentinel
    | TNone
    | TGiven
    | TText(text: string)
    | TNumber(number: int)
    | TList(items: seq<Tree>)
    | TDict(pairs: map<string, Tree>)
    | TCall(op: string, args: Tree, kwargs: map<string, Tree>)
    | TResults(named: map<string, Tree>, tokens: seq<Tree>)

  type Renaming = map<string, string>

  function Renamed(fmap: Renaming, op: string): string {
    if op in fmap then fmap[op] else op
  }

  function Collapse(items: seq<Tree>): Tree {
    if items == [] then TNone else if |items| == 1 then items[0] else TList(items)
  }

  /** The argument as `simple_op` stores it. */
  function Stored(args: Tree): Tree {
    if args == TNone then TDict(map[]) else args
  }

  /** The simplification, as a function on trees. */
  function Simplify(fmap: Renaming, t: Tree): Tree
    decreases t, 0
  {
    match t
    case TList(items) => Collapse(SimplifyItems(fmap, items))
    case TDict(m) => TDict(map k | k in m && Simplify(fmap, m[k]) != TNone :: Simplify(fmap, m[k]))
    case TCall(op, args, m) =>
      TDict((map k | k in m && Simplify(fmap, m[k]) != TNone :: Simplify(fmap, m[k]))
        [Renamed(fmap, op) := Stored(Simplify(fmap, args))])
    case TResults(m, tokens) =>
      var kept := map k | k in m && Simplify(fmap, m[k]) != TNone :: Simplify(fmap, m[k]);
      if kept != map[] then TDict(kept) else Collapse(SimplifyItems(fmap, tokens))
    case _ => t
  }

  function SimplifyItems(fmap: Renaming, ts: seq<Tree>): seq<Tree>
    decreases ts
  {
    if ts == [] then []
    else
      var x := Simplify(fmap, ts[0]);
      (if x == TNone then [] else [x]) + SimplifyItems(fmap, ts[1..])
  }

  /** The entries of a dict that survive. */
  function Kept(fmap: Renaming, m: map<string, Tree>): map<string, Tree> {
    map k | k in m && Simplify(fmap, m[k]) != TNone :: Simplify(fmap, m[k])
  }

  lemma SimplifyUnfolds(fmap: Renaming, t: Tree)
    ensures t.TDict? ==> Simplify(fmap, t) == TDict(Kept(fmap, t.pairs))
    ensures t.TCall? ==>
      Simplify(fmap, t) == TDict(Kept(fmap, t.kwargs)[Renamed(fmap, t.op) := Stored(Simplify(fmap, t.args))])
    ensures t.TResults? && Kept(fmap, t.named) != map[] ==> Simplify(fmap, t) == TDict(Kept(fmap, t.named))
    ensures t.TResults? && Kept(fmap, t.named) == map[] ==>
      Simplify(fmap, t) == Collapse(SimplifyItems(fmap, t.tokens))
  {
  }

  /* ---------- renaming ---------- */

  /** The parse result as if its calls had borne the new names from the start. */
  function RenameCalls(names: map<string, string>, t: Tree): Tree {
    match t
    case TList(items) => TList(seq(|items|, i requires 0 <= i < |items| => RenameCalls(names, items[i])))
    case TDict(m) => TDict(map k | k in m :: RenameCalls(names, m[k]))
    case TCall(op, args, m) =>
      TCall(if op in names then names[op] else op, RenameCalls(names, args), map k | k in m :: RenameCalls(names, m[k]))
    case TResults(m, tokens) =>
      TResults(map k | k in m :: RenameCalls(names, m[k]),
        seq(|tokens|, i requires 0 <= i < |tokens| => RenameCalls(names, tokens[i])))
    case _ => t
  }

  function RenameAll(names: map<string, string>, ts: seq<Tree>): seq<Tree> {
    seq(|ts|, i requires 0 <= i < |ts| => RenameCalls(names, ts[i]))
  }

  function RenameValues(names: map<string, string>, m: map<string, Tree>): map<string, Tree> {
    map k | k in m :: RenameCalls(names, m[k])
  }

  /** Simplifying under a renaming is renaming the calls and simplifying without one. */
  lemma {:induction false} RenamedFirst(fmap: Renaming, t: Tree)
    ensures Simplify(fmap, t) == Simplify(map[], RenameCalls(fmap, t))
    decreases t, 0
  {
    SimplifyUnfolds(fmap, t);
    SimplifyUnfolds(map[], RenameCalls(fmap, t));
    match t
    case TList(items) =>
      RenamedItems(fmap, items);
      assert RenameCalls(fmap, t) == TList(RenameAll(fmap, items));
    case TDict(m) => RenamedPairs(fmap, t, m);
    case TCall(_, args, m) =>
      RenamedFirst(fmap, args);
      RenamedPairs(fmap, t, m);
    case TResults(m, tokens) =>
      RenamedPairs(fmap, t, m);
      RenamedItems(fmap, tokens);
      assert RenameCalls(fmap, t) == TResults(RenameValues(fmap, m), RenameAll(fmap, tokens));
    case _ =>
  }

  lemma {:induction false} RenamedItems(fmap: Renaming, ts: seq<Tree>)
    ensures SimplifyItems(fmap, ts) == SimplifyItems(map[], RenameAll(fmap, ts))
    decreases ts
  {
    hide Simplify, RenameCalls;
    if ts != [] {
      RenamedFirst(fmap, ts[0]);
      RenamedItems(fmap, ts[1..]);
      assert RenameAll(fmap, ts)[1..] == RenameAll(fmap, ts[1..]);
    }
  }

  lemma {:induction false} RenamedPairs(fmap: Renaming, parent: Tree, m: map<string, Tree>)
    requires forall k <- m :: m[k] < parent
    ensures Kept(fmap, m) == Kept(map[], RenameValues(fmap, m))
    decreases parent, 0, 0
  {
    hide Simplify, RenameCalls;
    forall k | k in m ensures Simplify(fmap, m[k]) == Simplify(map[], RenameValues(fmap, m)[k]) {
      RenamedFirst(fmap, m[k]);
    }
  }

  /* ---------- normal form ---------- */

  /** No None inside, no empty or singleton list, no Call and no ParseResults. */
  predicate Normal(t: Tree) {
    match t
    case TList(items) => |items| >= 2 && forall x <- items :: x != TNone && Normal(x)
    case TDict(pairs) => forall k <- pairs :: pairs[k] != TNone && Normal(pairs[k])
    case TCall(_, _, _) => false
    case TResults(_, _) => false
    case _ => true
  }

  lemma {:induction false} SimplifyIsNormal(fmap: Renaming, t: Tree)
    ensures Normal(Simplify(fmap, t))
    decreases t, 0
  {
    match t
    case TList(items) => SimplifyItemsNormal(fmap, items);
    case TDict(m) =>
      forall k | k in m ensures Normal(Simplify(fmap, m[k])) {
        SimplifyIsNormal(fmap, m[k]);
      }
    case TCall(_, args, m) =>
      forall k | k in m ensures Normal(Simplify(fmap, m[k])) {
        SimplifyIsNormal(fmap, m[k]);
      }
      SimplifyIsNormal(fmap, args);
    case TResults(m, tokens) =>
      forall k | k in m ensures Normal(Simplify(fmap, m[k])) {
        SimplifyIsNormal(fmap, m[k]);
      }
      SimplifyItemsNormal(fmap, tokens);
    case _ =>
  }

  lemma {:induction false} SimplifyItemsNormal(fmap: Renaming, ts: seq<Tree>)
    ensures forall x <- SimplifyItems(fmap, ts) :: x != TNone && Normal(x)
    decreases ts
  {
    if ts != [] {
      SimplifyIsNormal(fmap, ts[0]);
      SimplifyItemsNormal(fmap, ts[1..]);
    }
  }

  lemma {:induction false} NormalIsFixed(fmap: Renaming, t: Tree)
    requires Normal(t)
    ensures Simplify(fmap, t) == t
    decreases t, 0
  {
    match t
    case TList(items) => NormalItemsFixed(fmap, items);
    case TDict(m) =>
      forall k | k in m ensures Simplify(fmap, m[k]) == m[k] {
        NormalIsFixed(fmap, m[k]);
      }
    case _ =>
  }

  lemma {:induction false} NormalItemsFixed(fmap: Renaming, ts: seq<Tree>)
    requires forall x <- ts :: x != TNone && Normal(x)
    ensures SimplifyItems(fmap, ts) == ts
    decreases ts
  {
    if ts != [] {
      NormalIsFixed(fmap, ts[0]);
      assert forall x <- ts[1..] :: x in ts;
      NormalItemsFixed(fmap, ts[1..]);
    }
  }

  /** Simplifying twice, even with another renaming, is simplifying once. */
  lemma SimplifyIsIdempotent(fmap: Renaming, fmap': Renaming, t: Tree)
    ensures Normal(Simplify(fmap, t))
    ensures Simplify(fmap', Simplify(fmap, t)) == Simplify(fmap, t)
  {
    SimplifyIsNormal(fmap, t);
    NormalIsFixed(fmap', Simplify(fmap, t));
  }

  /** The documented way back from the simplified form to a list. */
  function Listwrap(t: Tree): seq<Tree> {
    match t
    case TNone => []
    case TList(items) => items
    case _ => [t]
  }

  /** It recovers the surviving elements of a list, unless there is one and it is a list itself. */
  lemma ListwrapRecovers(fmap: Renaming, items: seq<Tree>)
    ensures var kept := SimplifyItems(fmap, items);
      Listwrap(Simplify(fmap, TList(items))) == kept <==> !(|kept| == 1 && kept[0].TList?)
  {
    SimplifyItemsNormal(fmap, items);
    var kept := SimplifyItems(fmap, items);
    if |kept| == 1 {
      assert kept == [kept[0]];
      assert kept[0] in kept;
    }
  }

  /* ---------- depth ---------- */

  ghost function Max(a: nat, b: nat): nat {
    if a > b then a else b
  }

  ghost function Depth(t: Tree): (d: nat)
    ensures d >= 1
    decreases t, 1, 0
  {
    match t
    case TList(items) => 1 + DepthOfItems(items)
    case TDict(m) => 1 + DepthOfPairs(t, m)
    case TCall(_, args, m) => 2 + Max(Depth(args), DepthOfPairs(t, m))
    case TResults(m, tokens) => 2 + Max(DepthOfPairs(t, m), DepthOfItems(tokens))
    case _ => 1
  }

  ghost function DepthOfItems(ts: seq<Tree>): nat
    decreases ts
  {
    if ts == [] then 0 else Max(Depth(ts[0]), DepthOfItems(ts[1..]))
  }

  ghost function DepthOfPairs(parent: Tree, m: map<string, Tree>): nat
    requires forall k <- m :: m[k] < parent
    decreases parent, 0, |m|
  {
    if m == map[] then 0
    else
      var k :| k in m;
      Max(Depth(m[k]), DepthOfPairs(parent, m - {k}))
  }

  lemma {:induction false} DepthOfItem(ts: seq<Tree>, i: nat)
    requires i < |ts|
    ensures Depth(ts[i]) <= DepthOfItems(ts)
  {
    if i > 0 {
      DepthOfItem(ts[1..], i - 1);
    }
  }

  lemma PickDeepest(parent: Tree, m: map<string, Tree>) returns (k: string)
    requires (forall k <- m :: m[k] < parent) && m != map[]
    ensures k in m && DepthOfPairs(parent, m) == Max(Depth(m[k]), DepthOfPairs(parent, m - {k}))
  {
    k :| k in m && DepthOfPairs(parent, m) == Max(Depth(m[k]), DepthOfPairs(parent, m - {k}));
  }

  lemma {:induction false} DepthOfPair(parent: Tree, m: map<string, Tree>, key: string)
    requires (forall k <- m :: m[k] < parent) && key in m
    ensures Depth(m[key]) <= DepthOfPairs(parent, m)
    decreases |m|
  {
    var k := PickDeepest(parent, m);
    if k != key {
      DepthOfPair(parent, m - {k}, key);
    }
  }

  lemma {:induction false} DepthOfPairsAtMost(parent: Tree, m: map<string, Tree>, d: nat)
    requires forall k <- m :: m[k] < parent && Depth(m[k]) <= d
    ensures DepthOfPairs(parent, m) <= d
    decreases |m|
  {
    if m != map[] {
      var k := PickDeepest(parent, m);
      DepthOfPairsAtMost(parent, m - {k}, d);
    }
  }

  lemma {:induction false} SimplifyKeepsDepth(fmap: Renaming, t: Tree)
    ensures Depth(Simplify(fmap, t)) <= Depth(t)
    decreases t, 0
  {
    SimplifyUnfolds(fmap, t);
    match t
    case TList(items) =>
      CollapseDepth(fmap, items);
    case TDict(m) =>
      KeptDepth(fmap, t, m);
      DepthOfPairsAtMost(TDict(Kept(fmap, m)), Kept(fmap, m), DepthOfPairs(t, m));
    case TCall(op, args, m) =>
      KeptDepth(fmap, t, m);
      SimplifyKeepsDepth(fmap, args);
      var s := Kept(fmap, m)[Renamed(fmap, op) := Stored(Simplify(fmap, args))];
      DepthOfPairsAtMost(TDict(s), s, 1 + Max(Depth(args), DepthOfPairs(t, m)));
    case TResults(m, tokens) =>
      KeptDepth(fmap, t, m);
      DepthOfPairsAtMost(TDict(Kept(fmap, m)), Kept(fmap, m), DepthOfPairs(t, m));
      CollapseDepth(fmap, tokens);
    case _ =>
  }

  lemma {:induction false} KeptDepth(fmap: Renaming, parent: Tree, m: map<string, Tree>)
    requires forall k <- m :: m[k] < parent
    ensures forall k <- Kept(fmap, m) :: Depth(Kept(fmap, m)[k]) <= DepthOfPairs(parent, m)
    decreases parent, 0, 0
  {
    forall k | k in Kept(fmap, m) ensures Depth(Kept(fmap, m)[k]) <= DepthOfPairs(parent, m) {
      SimplifyKeepsDepth(fmap, m[k]);
      DepthOfPair(parent, m, k);
    }
  }

  lemma {:induction false} CollapseDepth(fmap: Renaming, ts: seq<Tree>)
    ensures DepthOfItems(SimplifyItems(fmap, ts)) <= DepthOfItems(ts)
    ensures Depth(Collapse(SimplifyItems(fmap, ts))) <= 1 + DepthOfItems(ts)
    decreases ts
  {
    if ts != [] {
      SimplifyKeepsDepth(fmap, ts[0]);
      CollapseDepth(fmap, ts[1..]);
      var s := SimplifyItems(fmap, ts);
      if Simplify(fmap, ts[0]) == TNone {
        assert s == SimplifyItems(fmap, ts[1..]);
      } else {
        assert s[0] == Simplify(fmap, ts[0]) && s[1..] == SimplifyItems(fmap, ts[1..]);
      }
      if |s| == 1 {
        DepthOfItem(s, 0);
      }
    }
  }
}
