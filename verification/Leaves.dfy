/**
  Where the values of a parse result end up: every text, number and NULL is found in the simplified tree
  under the keys on the way to it, and those under the same keys are in the same order.
 */
module Leaves {
  import opened Trees
  import opened Nulls

  /** Nothing is left of it: None, or lists and results of nothing but that. */
  predicate Vanishes(t: Tree) {
    match t
    case TNone => true
    case TList(items) => forall x <- items :: Vanishes(x)
    case TResults(m, tokens) => (forall k <- m :: Vanishes(m[k])) && forall x <- tokens :: Vanishes(x)
    case _ => false
  }

  /** The values under a path of keys. A call has its arguments under its name, as `names` has it; lists have no key. */
  function LeavesAt(names: map<string, string>, t: Tree, path: seq<string>): seq<Tree>
    decreases t, 0
  {
    match t
    case TNone => []
    case TList(items) => LeavesOfAll(names, items, path)
    case TDict(m) => if path == [] || path[0] !in m then [] else LeavesAt(names, m[path[0]], path[1..])
    case TCall(op, args, m) =>
      if path == [] then []
      else if path[0] == (if op in names then names[op] else op) then LeavesAt(names, args, path[1..])
      else if path[0] in m then LeavesAt(names, m[path[0]], path[1..])
      else []
    case TResults(m, tokens) =>
      if forall k <- m :: Vanishes(m[k]) then LeavesOfAll(names, tokens, path)
      else if path == [] || path[0] !in m then []
      else LeavesAt(names, m[path[0]], path[1..])
    case _ => if path == [] then [t] else []
  }

  function LeavesOfAll(names: map<string, string>, ts: seq<Tree>, path: seq<string>): seq<Tree>
    decreases ts
  {
    if ts == [] then [] else LeavesAt(names, ts[0], path) + LeavesOfAll(names, ts[1..], path)
  }

  lemma {:induction false} VanishedIsNone(fmap: Renaming, t: Tree)
    ensures Vanishes(t) <==> Simplify(fmap, t) == TNone
    decreases t, 0
  {
    SimplifyUnfolds(fmap, t);
    match t
    case TList(items) => VanishedItems(fmap, items);
    case TResults(m, tokens) =>
      VanishedPairs(fmap, t, m);
      VanishedItems(fmap, tokens);
    case _ =>
  }

  lemma {:induction false} VanishedItems(fmap: Renaming, ts: seq<Tree>)
    ensures (forall x <- ts :: Vanishes(x)) <==> SimplifyItems(fmap, ts) == []
    ensures (forall x <- ts :: Vanishes(x)) <==> Collapse(SimplifyItems(fmap, ts)) == TNone
    decreases ts
  {
    hide Simplify, Vanishes;
    SimplifyItemsNormal(fmap, ts);
    if ts != [] {
      VanishedIsNone(fmap, ts[0]);
      VanishedItems(fmap, ts[1..]);
      assert ts == [ts[0]] + ts[1..];
    }
    var s := SimplifyItems(fmap, ts);
    assert |s| == 1 ==> s[0] in s;
  }

  lemma {:induction false} VanishedPairs(fmap: Renaming, parent: Tree, m: map<string, Tree>)
    requires forall k <- m :: m[k] < parent
    ensures (forall k <- m :: Vanishes(m[k])) <==> Kept(fmap, m) == map[]
    ensures forall k <- m :: k in Kept(fmap, m) <==> !Vanishes(m[k])
    decreases parent, 0, 0
  {
    hide Simplify, Vanishes;
    forall k | k in m ensures Vanishes(m[k]) <==> Simplify(fmap, m[k]) == TNone {
      VanishedIsNone(fmap, m[k]);
    }
    if Kept(fmap, m) == map[] {
      forall k | k in m ensures Vanishes(m[k]) {
        assert k !in Kept(fmap, m);
      }
    }
  }

  /* ---------- simplification moves nothing ---------- */

  lemma {:induction false} LeavesStay(fmap: Renaming, t: Tree, path: seq<string>)
    ensures LeavesAt(map[], Simplify(fmap, t), path) == LeavesAt(fmap, t, path)
    decreases t, 0
  {
    SimplifyUnfolds(fmap, t);
    match t
    case TList(items) => LeavesOfList(fmap, items, path);
    case TDict(m) => LeavesOfDict(fmap, t, m, path);
    case TCall(op, args, m) => LeavesOfCall(fmap, t, path);
    case TResults(m, tokens) =>
      VanishedPairs(fmap, t, m);
      if Kept(fmap, m) == map[] {
        LeavesOfList(fmap, tokens, path);
      } else {
        LeavesOfDict(fmap, t, m, path);
      }
    case _ =>
  }

  lemma {:induction false} LeavesOfItems(fmap: Renaming, ts: seq<Tree>, path: seq<string>)
    ensures LeavesOfAll(map[], SimplifyItems(fmap, ts), path) == LeavesOfAll(fmap, ts, path)
    decreases ts, 0
  {
    hide Simplify, LeavesAt;
    if ts != [] {
      LeavesStay(fmap, ts[0], path);
      LeavesOfItems(fmap, ts[1..], path);
      NoLeaves(path);
      SimplifyCons(fmap, ts);
      var x, rest := Simplify(fmap, ts[0]), SimplifyItems(fmap, ts[1..]);
      if x == TNone {
        assert LeavesAt(fmap, ts[0], path) + LeavesOfAll(fmap, ts[1..], path) == LeavesOfAll(fmap, ts[1..], path);
      } else {
        assert ([x] + rest)[1..] == rest;
      }
    }
  }

  lemma NoLeaves(path: seq<string>)
    ensures LeavesAt(map[], TNone, path) == []
  {
  }

  lemma {:induction false} LeavesOfList(fmap: Renaming, ts: seq<Tree>, path: seq<string>)
    ensures LeavesAt(map[], Collapse(SimplifyItems(fmap, ts)), path) == LeavesOfAll(fmap, ts, path)
    decreases ts, 1
  {
    hide Simplify;
    LeavesOfItems(fmap, ts, path);
    var s := SimplifyItems(fmap, ts);
    if |s| == 1 {
      assert s[1..] == [];
    }
  }

  lemma {:induction false} LeavesOfDict(fmap: Renaming, parent: Tree, m: map<string, Tree>, path: seq<string>)
    requires forall k <- m :: m[k] < parent
    ensures LeavesAt(map[], TDict(Kept(fmap, m)), path)
      == if path == [] || path[0] !in m then [] else LeavesAt(fmap, m[path[0]], path[1..])
    decreases parent, 0, 0
  {
    hide Simplify;
    if path != [] && path[0] in m {
      LeavesStay(fmap, m[path[0]], path[1..]);
      NoLeaves(path[1..]);
    }
  }

  lemma {:induction false} LeavesOfCall(fmap: Renaming, t: Tree, path: seq<string>)
    requires t.TCall?
    ensures LeavesAt(map[], Simplify(fmap, t), path) == LeavesAt(fmap, t, path)
    decreases t, 0, 1
  {
    SimplifyUnfolds(fmap, t);
    LeavesOfDict(fmap, t, t.kwargs, path);
    hide Simplify;
    if path != [] {
      LeavesStay(fmap, t.args, path[1..]);
      LeavesOfStored(Simplify(fmap, t.args), path[1..]);
    }
  }

  lemma LeavesOfStored(x: Tree, path: seq<string>)
    ensures LeavesAt(map[], Stored(x), path) == LeavesAt(map[], x, path)
  {
  }

  /* ---------- and replacing NULL changes only NULL ---------- */

  function NullsGiven(leaves: seq<Tree>): seq<Tree> {
    seq(|leaves|, i requires 0 <= i < |leaves| => if leaves[i] == TSentinel then TGiven else leaves[i])
  }

  lemma {:induction false} ReplaceLeaves(t: Tree, path: seq<string>)
    requires Normal(t)
    ensures LeavesAt(map[], Replace(t), path) == NullsGiven(LeavesAt(map[], t, path))
    decreases t, 0
  {
    match t
    case TList(items) =>
      ReplaceLeavesOfAll(items, path);
      assert Replace(t) == TList(ReplaceAll(items));
    case TDict(m) =>
      if path != [] && path[0] in m {
        ReplaceLeaves(m[path[0]], path[1..]);
      }
    case _ =>
  }

  lemma {:induction false} ReplaceLeavesOfAll(ts: seq<Tree>, path: seq<string>)
    requires forall x <- ts :: Normal(x)
    ensures LeavesOfAll(map[], ReplaceAll(ts), path) == NullsGiven(LeavesOfAll(map[], ts, path))
    decreases ts
  {
    hide Replace, LeavesAt, Normal;
    if ts != [] {
      ReplaceLeaves(ts[0], path);
      ReplaceLeavesOfAll(ts[1..], path);
      assert ReplaceAll(ts)[1..] == ReplaceAll(ts[1..]);
    }
  }

  /** What the caller should get has every value of the parse result in its place, and the given one for NULL. */
  lemma FillKeepsLeaves(fmap: Renaming, t: Tree, path: seq<string>)
    ensures LeavesAt(map[], Fill(fmap, t), path) == NullsGiven(LeavesAt(fmap, t, path))
  {
    LeavesStay(fmap, t, path);
    SimplifyIsNormal(fmap, t);
    ReplaceLeaves(Simplify(fmap, t), path);
  }
}
