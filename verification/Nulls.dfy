/**
  Replacing NULL after simplification: the intended result, the results the location list can lead
  to, and the exact condition under which they are the same.
 */
module Nulls {
  import opened Trees

  /** NULL replaced by the caller's value everywhere, nothing else changed. */
  function Replace(t: Tree): Tree {
    match t
    case TSentinel => TGiven
    case TList(items) => TList(seq(|items|, i requires 0 <= i < |items| => Replace(items[i])))
    case TDict(m) => TDict(map k | k in m :: Replace(m[k]))
    case _ => t
  }

  /** What the caller should get. */
  function Fill(fmap: Renaming, t: Tree): Tree {
    Replace(Simplify(fmap, t))
  }

  predicate NoSentinel(t: Tree) {
    match t
    case TSentinel => false
    case TList(items) => forall x <- items :: NoSentinel(x)
    case TDict(m) => forall k <- m :: NoSentinel(m[k])
    case _ => true
  }

  lemma {:induction false} FillHasNoSentinel(t: Tree)
    requires Normal(t)
    ensures NoSentinel(Replace(t))
  {
    match t
    case TList(items) =>
      forall i | 0 <= i < |items| ensures NoSentinel(Replace(items[i])) {
        FillHasNoSentinel(items[i]);
      }
    case TDict(m) =>
      forall k | k in m ensures NoSentinel(Replace(m[k])) {
        FillHasNoSentinel(m[k]);
      }
    case _ =>
  }

  /** The caller's value does not occur before the replacement. */
  predicate NoGiven(t: Tree) {
    match t
    case TGiven => false
    case TList(items) => forall x <- items :: NoGiven(x)
    case TDict(m) => forall k <- m :: NoGiven(m[k])
    case TCall(_, args, m) => NoGiven(args) && forall k <- m :: NoGiven(m[k])
    case TResults(m, tokens) => (forall x <- tokens :: NoGiven(x)) && forall k <- m :: NoGiven(m[k])
    case _ => true
  }

  /* ---------- results of the two phases ---------- */

  ghost predicate ArgIsNull(fmap: Renaming, args: Tree) {
    Simplify(fmap, args) == TSentinel
  }

  ghost predicate NullEntry(fmap: Renaming, m: map<string, Tree>, k: string) {
    k in m && Simplify(fmap, m[k]) == TSentinel
  }

  /**
    The entries of a call: its surviving keyword arguments, its argument, and what was recorded for a
    NULL argument.
   */
  ghost predicate CallKeys(fmap: Renaming, op: string, args: Tree, m: map<string, Tree>, xs: map<string, Tree>) {
    xs.Keys == Kept(fmap, m).Keys + {Renamed(fmap, op)} + (if ArgIsNull(fmap, args) then {op} else {})
  }

  /** Where a NULL argument, or a NULL keyword argument it is stored over, leaves the caller's value. */
  ghost predicate CallNulls(fmap: Renaming, op: string, args: Tree, m: map<string, Tree>, xs: map<string, Tree>)
    requires CallKeys(fmap, op, args, m, xs)
  {
    var name := Renamed(fmap, op);
    && (ArgIsNull(fmap, args) ==> op in xs && xs[op] == TGiven)
    && (NullEntry(fmap, m, name) ==> xs[name] == TGiven)
    && (ArgIsNull(fmap, args) ==> xs[name] == TGiven || (xs[name] == TSentinel && op != name))
    && (ArgIsNull(fmap, args) && op != name && !NullEntry(fmap, m, name) && m != map[] ==> xs[name] == TSentinel)
  }

  /**
    `x` is a value the location list can turn `t` into. Entries holding NULL were recorded and
    become TGiven. A call writes its argument over a keyword argument of the name it is stored
    under, and records a NULL argument under its own name, not the renamed one.
   */
  ghost predicate Yields(fmap: Renaming, t: Tree, x: Tree)
    decreases t, 0
  {
    match t
    case TList(items) => YieldsList(fmap, items, x)
    case TDict(m) =>
      && x.TDict? && x.pairs.Keys == Kept(fmap, m).Keys
      && forall k | k in m && k in x.pairs :: YieldsEntry(fmap, m[k], x.pairs[k])
    case TCall(op, args, m) =>
      var name := Renamed(fmap, op);
      && x.TDict? && CallKeys(fmap, op, args, m, x.pairs)
      && (forall k | k in m && k in x.pairs && k != name && !(ArgIsNull(fmap, args) && k == op) ::
           YieldsEntry(fmap, m[k], x.pairs[k]))
      && CallNulls(fmap, op, args, m, x.pairs)
      && (ArgIsNull(fmap, args) || NullEntry(fmap, m, name) ||
          if Simplify(fmap, args) == TNone then x.pairs[name] == TDict(map[]) else Yields(fmap, args, x.pairs[name]))
    case TResults(m, tokens) =>
      if Kept(fmap, m) != map[] then
        && x.TDict? && x.pairs.Keys == Kept(fmap, m).Keys
        && forall k | k in m && k in x.pairs :: YieldsEntry(fmap, m[k], x.pairs[k])
      else YieldsList(fmap, tokens, x)
    case _ => x == t
  }

  lemma CallYields(fmap: Renaming, t: Tree, x: Tree)
    requires t.TCall? && x.TDict? && CallKeys(fmap, t.op, t.args, t.kwargs, x.pairs)
    requires forall k | k in t.kwargs && k in x.pairs && k != Renamed(fmap, t.op)
      && !(ArgIsNull(fmap, t.args) && k == t.op) ::
      YieldsEntry(fmap, t.kwargs[k], x.pairs[k])
    requires CallNulls(fmap, t.op, t.args, t.kwargs, x.pairs)
    requires ArgIsNull(fmap, t.args) || NullEntry(fmap, t.kwargs, Renamed(fmap, t.op)) ||
      if Simplify(fmap, t.args) == TNone then x.pairs[Renamed(fmap, t.op)] == TDict(map[])
      else Yields(fmap, t.args, x.pairs[Renamed(fmap, t.op)])
    ensures Yields(fmap, t, x)
  {
  }

  ghost predicate YieldsEntry(fmap: Renaming, t: Tree, y: Tree)
    decreases t, 1
  {
    if Simplify(fmap, t) == TSentinel then y == TGiven else Yields(fmap, t, y)
  }

  ghost predicate YieldsList(fmap: Renaming, ts: seq<Tree>, x: Tree)
    decreases ts, 1
  {
    var n := |SimplifyItems(fmap, ts)|;
    if n == 0 then x == TNone
    else if n == 1 then forall i | 0 <= i < |ts| && Simplify(fmap, ts[i]) != TNone :: Yields(fmap, ts[i], x)
    else x.TList? && YieldsItems(fmap, ts, x.items)
  }

  ghost predicate YieldsItems(fmap: Renaming, ts: seq<Tree>, ys: seq<Tree>)
    decreases ts, 0
  {
    if ts == [] then ys == []
    else if Simplify(fmap, ts[0]) == TNone then YieldsItems(fmap, ts[1..], ys)
    else ys != [] && YieldsEntry(fmap, ts[0], ys[0]) && YieldsItems(fmap, ts[1..], ys[1..])
  }

  /* ---------- the condition ---------- */

  /**
    Every NULL was recorded where it ends up. A call whose sole argument is NULL is not renamed (or
    both names happen to be NULL keyword arguments), and no NULL keyword argument bears the name
    under which another argument is stored.
   */
  ghost predicate Clean(fmap: Renaming, t: Tree) {
    match t
    case TList(items) => forall x <- items :: Clean(fmap, x)
    case TDict(m) => forall k <- m :: Clean(fmap, m[k])
    case TCall(op, args, m) =>
      var name := Renamed(fmap, op);
      && (if ArgIsNull(fmap, args) then op == name || (NullEntry(fmap, m, name) && NullEntry(fmap, m, op))
          else !NullEntry(fmap, m, name))
      && Clean(fmap, args)
      && forall k | k in m && k != name :: Clean(fmap, m[k])
    case TResults(m, tokens) =>
      if Kept(fmap, m) != map[] then forall k <- m :: Clean(fmap, m[k]) else forall x <- tokens :: Clean(fmap, x)
    case _ => true
  }

  /** Values that simplify to nothing or to NULL itself hold no call. */
  lemma {:induction false} BareIsClean(fmap: Renaming, t: Tree)
    requires Simplify(fmap, t) == TNone || Simplify(fmap, t) == TSentinel
    ensures Clean(fmap, t)
    ensures forall x :: Yields(fmap, t, x) ==> x == Simplify(fmap, t)
    decreases t, 0
  {
    match t
    case TList(items) =>
      BareItems(fmap, items);
      BareItemsAreClean(fmap, items);
    case TResults(m, tokens) =>
      SimplifyUnfolds(fmap, t);
      BareItems(fmap, tokens);
      BareItemsAreClean(fmap, tokens);
    case _ =>
  }

  lemma BareItems(fmap: Renaming, ts: seq<Tree>)
    requires var x := Collapse(SimplifyItems(fmap, ts)); x == TNone || x == TSentinel
    ensures var s := SimplifyItems(fmap, ts); s == [] || s == [TSentinel]
  {
    SimplifyItemsNormal(fmap, ts);
    var s := SimplifyItems(fmap, ts);
    if |s| == 1 {
      assert s == [s[0]] && s[0] in s;
    }
  }

  lemma {:induction false} BareItemsAreClean(fmap: Renaming, ts: seq<Tree>)
    requires var s := SimplifyItems(fmap, ts); s == [] || s == [TSentinel]
    ensures forall x <- ts :: Clean(fmap, x)
    ensures forall x :: YieldsList(fmap, ts, x) ==> x == Collapse(SimplifyItems(fmap, ts))
    decreases ts
  {
    if ts != [] {
      var s := SimplifyItems(fmap, ts);
      var x := Simplify(fmap, ts[0]);
      if x != TNone {
        assert s[0] == x && s[1..] == SimplifyItems(fmap, ts[1..]);
        assert ts[0] in ts;
      } else {
        assert s == SimplifyItems(fmap, ts[1..]);
      }
      BareIsClean(fmap, ts[0]);
      BareItemsAreClean(fmap, ts[1..]);
      assert ts == [ts[0]] + ts[1..];
      if |s| == 1 && x == TNone {
        forall y | YieldsList(fmap, ts, y) ensures y == TSentinel {
          forall i | 0 <= i < |ts[1..]| && Simplify(fmap, ts[1..][i]) != TNone ensures Yields(fmap, ts[1..][i], y) {
            assert ts[1..][i] == ts[i + 1];
          }
          assert YieldsList(fmap, ts[1..], y);
        }
      }
    }
  }

  lemma {:induction false} SimplifyKeepsNoGiven(fmap: Renaming, t: Tree)
    requires NoGiven(t)
    ensures Simplify(fmap, t) != TGiven
    decreases t, 0
  {
    match t
    case TList(items) => SimplifyItemsKeepsNoGiven(fmap, items);
    case TResults(_, tokens) => SimplifyItemsKeepsNoGiven(fmap, tokens);
    case _ =>
  }

  lemma {:induction false} SimplifyItemsKeepsNoGiven(fmap: Renaming, ts: seq<Tree>)
    requires forall x <- ts :: NoGiven(x)
    ensures TGiven !in SimplifyItems(fmap, ts)
    decreases ts
  {
    if ts != [] {
      SimplifyKeepsNoGiven(fmap, ts[0]);
      assert forall x <- ts[1..] :: x in ts;
      SimplifyItemsKeepsNoGiven(fmap, ts[1..]);
    }
  }

  function ReplaceAll(ts: seq<Tree>): seq<Tree> {
    seq(|ts|, i requires 0 <= i < |ts| => Replace(ts[i]))
  }

  /**
    Whatever the location list makes of a parse result that is not NULL itself, it is the intended
    result exactly when the parse result is clean.
   */
  lemma {:induction false} YieldsFillIfClean(fmap: Renaming, t: Tree, x: Tree)
    requires NoGiven(t) && Simplify(fmap, t) != TSentinel && Yields(fmap, t, x)
    ensures x == Fill(fmap, t) <==> Clean(fmap, t)
    decreases t, 2
  {
    SimplifyUnfolds(fmap, t);
    match t
    case TList(items) => ListFill(fmap, items, x);
    case TDict(m) => EntriesFill(fmap, t, m, x);
    case TCall(_, _, _) => CallFill(fmap, t, x);
    case TResults(m, tokens) =>
      if Kept(fmap, m) != map[] {
        EntriesFill(fmap, t, m, x);
      } else {
        ListFill(fmap, tokens, x);
      }
    case _ =>
  }

  lemma {:induction false} EntryFill(fmap: Renaming, t: Tree, y: Tree)
    requires NoGiven(t) && YieldsEntry(fmap, t, y)
    ensures y == Fill(fmap, t) <==> Clean(fmap, t)
    decreases t, 3
  {
    if Simplify(fmap, t) == TSentinel {
      BareIsClean(fmap, t);
    } else {
      YieldsFillIfClean(fmap, t, y);
    }
  }

  lemma {:induction false} EntriesFill(fmap: Renaming, parent: Tree, m: map<string, Tree>, x: Tree)
    requires forall k <- m :: m[k] < parent && NoGiven(m[k])
    requires x.TDict? && x.pairs.Keys == Kept(fmap, m).Keys
    requires forall k | k in m && k in x.pairs :: YieldsEntry(fmap, m[k], x.pairs[k])
    ensures x == Replace(TDict(Kept(fmap, m))) <==> forall k <- m :: Clean(fmap, m[k])
    decreases parent, 0
  {
    hide Yields, YieldsEntry, Simplify, Clean, NoGiven, Replace;
    var want := Replaced(Kept(fmap, m));
    ReplaceDict(Kept(fmap, m));
    forall k | k in m
      ensures k in x.pairs ==> (x.pairs[k] == want[k] <==> Clean(fmap, m[k]))
      ensures k !in x.pairs ==> Clean(fmap, m[k])
    {
      if k in x.pairs {
        EntryFill(fmap, m[k], x.pairs[k]);
      } else {
        BareIsClean(fmap, m[k]);
      }
    }
    SameEntries(x.pairs, want);
  }

  function Replaced(m: map<string, Tree>): map<string, Tree> {
    map k | k in m :: Replace(m[k])
  }

  lemma ReplaceDict(m: map<string, Tree>)
    ensures Replace(TDict(m)) == TDict(Replaced(m))
  {
  }

  lemma SameEntries(x: map<string, Tree>, want: map<string, Tree>)
    requires x.Keys == want.Keys
    ensures x == want <==> forall k <- x :: x[k] == want[k]
  {
  }

  lemma {:induction false} ListFill(fmap: Renaming, ts: seq<Tree>, x: Tree)
    requires (forall y <- ts :: NoGiven(y)) && YieldsList(fmap, ts, x)
    requires Collapse(SimplifyItems(fmap, ts)) != TSentinel
    ensures x == Replace(Collapse(SimplifyItems(fmap, ts))) <==> forall y <- ts :: Clean(fmap, y)
    decreases ts, 1
  {
    var s := SimplifyItems(fmap, ts);
    if |s| == 0 {
      BareItemsAreClean(fmap, ts);
    } else if |s| == 1 {
      SoleFill(fmap, ts, x);
    } else {
      ItemsFill(fmap, ts, x.items);
      assert Replace(TList(s)) == TList(ReplaceAll(s));
    }
  }

  lemma {:induction false} SoleFill(fmap: Renaming, ts: seq<Tree>, x: Tree)
    requires (forall y <- ts :: NoGiven(y)) && |SimplifyItems(fmap, ts)| == 1
    requires SimplifyItems(fmap, ts)[0] != TSentinel
    requires forall i | 0 <= i < |ts| && Simplify(fmap, ts[i]) != TNone :: Yields(fmap, ts[i], x)
    ensures x == Replace(SimplifyItems(fmap, ts)[0]) <==> forall y <- ts :: Clean(fmap, y)
    decreases ts, 0
  {
    var s := SimplifyItems(fmap, ts);
    var rest := ts[1..];
    assert forall i :: 0 <= i < |rest| ==> rest[i] == ts[i + 1];
    assert ts == [ts[0]] + rest;
    assert ts[0] in ts;
    if Simplify(fmap, ts[0]) == TNone {
      assert s == SimplifyItems(fmap, rest);
      BareIsClean(fmap, ts[0]);
      SoleFill(fmap, rest, x);
    } else {
      assert s == [Simplify(fmap, ts[0])] + SimplifyItems(fmap, rest);
      BareItemsAreClean(fmap, rest);
      YieldsFillIfClean(fmap, ts[0], x);
    }
  }

  lemma SimplifyCons(fmap: Renaming, ts: seq<Tree>)
    requires ts != []
    ensures var rest := SimplifyItems(fmap, ts[1..]);
      SimplifyItems(fmap, ts) == if Simplify(fmap, ts[0]) == TNone then rest else [Simplify(fmap, ts[0])] + rest
  {
  }

  lemma ReplaceCons(x: Tree, xs: seq<Tree>)
    ensures ReplaceAll([x] + xs) == [Replace(x)] + ReplaceAll(xs)
  {
    hide Replace;
  }

  lemma {:induction false} ItemsFill(fmap: Renaming, ts: seq<Tree>, ys: seq<Tree>)
    requires (forall y <- ts :: NoGiven(y)) && YieldsItems(fmap, ts, ys)
    ensures |ys| == |SimplifyItems(fmap, ts)|
    ensures ys == ReplaceAll(SimplifyItems(fmap, ts)) <==> forall y <- ts :: Clean(fmap, y)
    decreases ts, 0
  {
    hide Yields, YieldsEntry, Simplify, Clean, NoGiven, Replace;
    if ts != [] {
      var rest := ts[1..];
      assert ts == [ts[0]] + rest;
      assert ts[0] in ts;
      SimplifyCons(fmap, ts);
      if Simplify(fmap, ts[0]) == TNone {
        BareIsClean(fmap, ts[0]);
        ItemsFill(fmap, rest, ys);
      } else {
        EntryFill(fmap, ts[0], ys[0]);
        ItemsFill(fmap, rest, ys[1..]);
        ReplaceCons(Simplify(fmap, ts[0]), SimplifyItems(fmap, rest));
        assert ys == [ys[0]] + ys[1..];
      }
    }
  }

  lemma {:induction false} CallFill(fmap: Renaming, t: Tree, x: Tree)
    requires t.TCall? && NoGiven(t) && Yields(fmap, t, x)
    ensures x == Fill(fmap, t) <==> Clean(fmap, t)
    decreases t, 1
  {
    hide Yields, YieldsEntry, Simplify, NoGiven, Replace, CallWant, Clean, CallNulls;
    var m := t.kwargs;
    var name := Renamed(fmap, t.op);
    var want := CallWant(fmap, t);
    CallWanted(fmap, t);
    CallNameFill(fmap, t, x);
    YieldsCall(fmap, t, x);
    NoGivenCall(t);
    CleanCall(fmap, t);
    forall k | k in m && k != name && !(ArgIsNull(fmap, t.args) && k == t.op)
      ensures k in x.pairs ==> k in want && (x.pairs[k] == want[k] <==> Clean(fmap, m[k]))
      ensures k !in x.pairs ==> k !in want && Clean(fmap, m[k])
    {
      if k in x.pairs {
        EntryFill(fmap, m[k], x.pairs[k]);
      } else {
        BareIsClean(fmap, m[k]);
      }
    }
    if ArgIsNull(fmap, t.args) && t.op != name {
      NullArgumentFill(fmap, t, x);
    } else {
      SameEntries(x.pairs, want);
      CallNullsHere(fmap, t, x);
    }
  }

  lemma NoGivenCall(t: Tree)
    requires t.TCall? && NoGiven(t)
    ensures NoGiven(t.args) && forall k <- t.kwargs :: NoGiven(t.kwargs[k])
  {
  }

  /** A NULL argument stored under its own name has become the caller's value. */
  lemma CallNullsHere(fmap: Renaming, t: Tree, x: Tree)
    requires t.TCall? && Yields(fmap, t, x)
    ensures x.TDict? && (ArgIsNull(fmap, t.args) ==> t.op in x.pairs && x.pairs[t.op] == TGiven)
  {
    hide YieldsEntry, Simplify, NullEntry;
  }

  /** The entries of what the caller should get for a call. */
  function CallWant(fmap: Renaming, t: Tree): map<string, Tree>
    requires t.TCall?
  {
    Replaced(Kept(fmap, t.kwargs)[Renamed(fmap, t.op) := Stored(Simplify(fmap, t.args))])
  }

  lemma CallWanted(fmap: Renaming, t: Tree)
    requires t.TCall?
    ensures Fill(fmap, t) == TDict(CallWant(fmap, t))
    ensures var want, name := CallWant(fmap, t), Renamed(fmap, t.op);
      && want.Keys == Kept(fmap, t.kwargs).Keys + {name}
      && want[name] == Replace(Stored(Simplify(fmap, t.args)))
      && forall k | k in Kept(fmap, t.kwargs) && k != name :: want[k] == Replace(Simplify(fmap, t.kwargs[k]))
  {
    hide Replace, Simplify;
    SimplifyUnfolds(fmap, t);
    ReplaceDict(Kept(fmap, t.kwargs)[Renamed(fmap, t.op) := Stored(Simplify(fmap, t.args))]);
  }

  lemma CleanCall(fmap: Renaming, t: Tree)
    requires t.TCall?
    ensures var name := Renamed(fmap, t.op);
      Clean(fmap, t) <==>
      && (if ArgIsNull(fmap, t.args)
          then t.op == name || (NullEntry(fmap, t.kwargs, name) && NullEntry(fmap, t.kwargs, t.op))
          else !NullEntry(fmap, t.kwargs, name))
      && Clean(fmap, t.args)
      && forall k | k in t.kwargs && k != name :: Clean(fmap, t.kwargs[k])
  {
    hide Simplify;
  }

  lemma YieldsCall(fmap: Renaming, t: Tree, x: Tree)
    requires t.TCall? && Yields(fmap, t, x)
    ensures x.TDict? && CallKeys(fmap, t.op, t.args, t.kwargs, x.pairs)
    ensures CallNulls(fmap, t.op, t.args, t.kwargs, x.pairs)
    ensures forall k | k in t.kwargs && k in x.pairs && k != Renamed(fmap, t.op)
      && !(ArgIsNull(fmap, t.args) && k == t.op) ::
      YieldsEntry(fmap, t.kwargs[k], x.pairs[k])
  {
    hide YieldsEntry;
  }

  /** The entry under which the argument is stored. */
  lemma {:induction false} CallNameFill(fmap: Renaming, t: Tree, x: Tree)
    requires t.TCall? && NoGiven(t) && Yields(fmap, t, x)
    ensures var name := Renamed(fmap, t.op);
      x.pairs[name] == Replace(Stored(Simplify(fmap, t.args))) <==>
        (if ArgIsNull(fmap, t.args) then x.pairs[name] == TGiven else !NullEntry(fmap, t.kwargs, name))
        && Clean(fmap, t.args)
    decreases t, 0
  {
    var a := Simplify(fmap, t.args);
    SimplifyKeepsNoGiven(fmap, t.args);
    if a == TSentinel || a == TNone {
      BareIsClean(fmap, t.args);
    } else if !NullEntry(fmap, t.kwargs, Renamed(fmap, t.op)) {
      YieldsFillIfClean(fmap, t.args, x.pairs[Renamed(fmap, t.op)]);
    }
  }

  /** A renamed call with a NULL argument. */
  lemma NullArgumentFill(fmap: Renaming, t: Tree, x: Tree)
    requires t.TCall? && NoGiven(t) && Yields(fmap, t, x) && ArgIsNull(fmap, t.args)
    requires t.op != Renamed(fmap, t.op)
    requires forall k | k in t.kwargs && k != Renamed(fmap, t.op) && k != t.op ::
      if k in x.pairs then x.pairs[k] == Replace(Simplify(fmap, t.kwargs[k])) <==> Clean(fmap, t.kwargs[k])
      else Clean(fmap, t.kwargs[k])
    ensures x == Fill(fmap, t) <==> Clean(fmap, t)
  {
    hide Yields, YieldsEntry, Simplify, NoGiven, CallWant, Clean, Replace;
    var m := t.kwargs;
    var name := Renamed(fmap, t.op);
    var want := CallWant(fmap, t);
    CallWanted(fmap, t);
    YieldsCall(fmap, t, x);
    CallNullsHere(fmap, t, x);
    NoGivenCall(t);
    BareIsClean(fmap, t.args);
    CleanCall(fmap, t);
    ReplaceSentinel();
    if t.op in Kept(fmap, m) {
      NullEntryFill(fmap, m[t.op]);
      SameEntries(x.pairs, want);
    } else {
      assert t.op in x.pairs && t.op !in want;
    }
  }

  lemma CallIsDict(fmap: Renaming, t: Tree)
    requires t.TCall?
    ensures Simplify(fmap, t).TDict?
  {
  }

  lemma ReplaceSentinel()
    ensures Replace(TSentinel) == TGiven
  {
  }

  /** Only NULL becomes the caller's value. */
  lemma NullEntryFill(fmap: Renaming, t: Tree)
    requires NoGiven(t)
    ensures Replace(Simplify(fmap, t)) == TGiven <==> Simplify(fmap, t) == TSentinel
    ensures Simplify(fmap, t) == TSentinel ==> Clean(fmap, t)
  {
    SimplifyKeepsNoGiven(fmap, t);
    if Simplify(fmap, t) == TSentinel {
      BareIsClean(fmap, t);
    }
  }

  /* ---------- parse results without NULL ---------- */

  predicate WithoutNull(t: Tree) {
    match t
    case TSentinel => false
    case TList(items) => forall x <- items :: WithoutNull(x)
    case TDict(m) => forall k <- m :: WithoutNull(m[k])
    case TCall(_, args, m) => WithoutNull(args) && forall k <- m :: WithoutNull(m[k])
    case TResults(m, tokens) => (forall x <- tokens :: WithoutNull(x)) && forall k <- m :: WithoutNull(m[k])
    case _ => true
  }

  lemma {:induction false} NoNullFromNone(fmap: Renaming, t: Tree)
    requires WithoutNull(t)
    ensures Simplify(fmap, t) != TSentinel
    decreases t, 0
  {
    match t
    case TList(items) => NoNullAmong(fmap, items);
    case TResults(_, tokens) => NoNullAmong(fmap, tokens);
    case _ =>
  }

  lemma {:induction false} NoNullAmong(fmap: Renaming, ts: seq<Tree>)
    requires forall x <- ts :: WithoutNull(x)
    ensures TSentinel !in SimplifyItems(fmap, ts)
    decreases ts
  {
    if ts != [] {
      NoNullFromNone(fmap, ts[0]);
      assert forall x <- ts[1..] :: x in ts;
      NoNullAmong(fmap, ts[1..]);
    }
  }

  lemma {:induction false} ReplaceNothing(t: Tree)
    requires NoSentinel(t)
    ensures Replace(t) == t
  {
    match t
    case TList(items) =>
      forall i | 0 <= i < |items| ensures Replace(items[i]) == items[i] {
        ReplaceNothing(items[i]);
      }
    case TDict(m) =>
      forall k | k in m ensures Replace(m[k]) == m[k] {
        ReplaceNothing(m[k]);
      }
    case _ =>
  }

  lemma {:induction false} NoNullAfter(fmap: Renaming, t: Tree)
    requires WithoutNull(t)
    ensures NoSentinel(Simplify(fmap, t))
    decreases t, 0
  {
    SimplifyUnfolds(fmap, t);
    match t
    case TList(items) => NoNullInItems(fmap, items);
    case TDict(m) =>
      forall k | k in m ensures NoSentinel(Simplify(fmap, m[k])) {
        NoNullAfter(fmap, m[k]);
      }
    case TCall(_, args, m) =>
      NoNullAfter(fmap, args);
      forall k | k in m ensures NoSentinel(Simplify(fmap, m[k])) {
        NoNullAfter(fmap, m[k]);
      }
    case TResults(m, tokens) =>
      NoNullInItems(fmap, tokens);
      forall k | k in m ensures NoSentinel(Simplify(fmap, m[k])) {
        NoNullAfter(fmap, m[k]);
      }
    case _ =>
  }

  lemma {:induction false} NoNullInItems(fmap: Renaming, ts: seq<Tree>)
    requires forall x <- ts :: WithoutNull(x)
    ensures forall x <- SimplifyItems(fmap, ts) :: NoSentinel(x)
    ensures NoSentinel(Collapse(SimplifyItems(fmap, ts)))
    decreases ts
  {
    hide Simplify;
    if ts != [] {
      NoNullAfter(fmap, ts[0]);
      assert forall x <- ts[1..] :: x in ts;
      NoNullInItems(fmap, ts[1..]);
    }
    var s := SimplifyItems(fmap, ts);
    assert |s| == 1 ==> s[0] in s;
  }

  /** Then there is nothing to replace. */
  lemma FillWithoutNull(fmap: Renaming, t: Tree)
    requires WithoutNull(t)
    ensures Fill(fmap, t) == Simplify(fmap, t)
  {
    NoNullAfter(fmap, t);
    ReplaceNothing(Simplify(fmap, t));
  }

  /** Under any renaming. */
  lemma {:induction false} WithoutNullIsClean(fmap: Renaming, t: Tree)
    requires WithoutNull(t)
    ensures Clean(fmap, t) && Simplify(fmap, t) != TSentinel
  {
    hide Simplify;
    NoNullFromNone(fmap, t);
    match t
    case TList(items) =>
      forall x | x in items ensures Clean(fmap, x) {
        WithoutNullIsClean(fmap, x);
      }
    case TDict(m) =>
      forall k | k in m ensures Clean(fmap, m[k]) {
        WithoutNullIsClean(fmap, m[k]);
      }
    case TCall(_, args, m) =>
      WithoutNullIsClean(fmap, args);
      forall k | k in m ensures Clean(fmap, m[k]) && Simplify(fmap, m[k]) != TSentinel {
        WithoutNullIsClean(fmap, m[k]);
      }
    case TResults(m, tokens) =>
      forall x | x in tokens ensures Clean(fmap, x) {
        WithoutNullIsClean(fmap, x);
      }
      forall k | k in m ensures Clean(fmap, m[k]) {
        WithoutNullIsClean(fmap, m[k]);
      }
    case _ =>
  }

  /* ---------- outcomes are in normal form, so a value unfolds to no other ---------- */

  lemma {:induction false} ReplaceIsNormal(t: Tree)
    requires Normal(t)
    ensures Normal(Replace(t)) && (Replace(t) == TNone <==> t == TNone)
  {
    match t
    case TList(items) =>
      forall i | 0 <= i < |items| ensures Normal(Replace(items[i])) && Replace(items[i]) != TNone {
        ReplaceIsNormal(items[i]);
      }
    case TDict(m) =>
      forall k | k in m ensures Normal(Replace(m[k])) && Replace(m[k]) != TNone {
        ReplaceIsNormal(m[k]);
      }
    case _ =>
  }

  lemma {:induction false} YieldsIsNormal(fmap: Renaming, t: Tree, x: Tree)
    requires Yields(fmap, t, x)
    ensures Normal(x) && (x == TNone <==> Simplify(fmap, t) == TNone)
    decreases t, 1
  {
    SimplifyUnfolds(fmap, t);
    match t
    case TList(items) => YieldsListIsNormal(fmap, items, x);
    case TDict(m) =>
      forall k | k in x.pairs ensures Normal(x.pairs[k]) && x.pairs[k] != TNone {
        YieldsEntryIsNormal(fmap, m[k], x.pairs[k]);
      }
    case TCall(_, _, _) => YieldsCallIsNormal(fmap, t, x);
    case TResults(m, tokens) =>
      if Kept(fmap, m) != map[] {
        forall k | k in x.pairs ensures Normal(x.pairs[k]) && x.pairs[k] != TNone {
          YieldsEntryIsNormal(fmap, m[k], x.pairs[k]);
        }
      } else {
        YieldsListIsNormal(fmap, tokens, x);
      }
    case _ =>
  }

  lemma {:induction false} YieldsEntryIsNormal(fmap: Renaming, t: Tree, y: Tree)
    requires YieldsEntry(fmap, t, y) && Simplify(fmap, t) != TNone
    ensures Normal(y) && y != TNone
    decreases t, 2
  {
    if Simplify(fmap, t) != TSentinel {
      YieldsIsNormal(fmap, t, y);
    }
  }

  lemma {:induction false} YieldsListIsNormal(fmap: Renaming, ts: seq<Tree>, x: Tree)
    requires YieldsList(fmap, ts, x)
    ensures Normal(x) && (x == TNone <==> Collapse(SimplifyItems(fmap, ts)) == TNone)
    decreases ts, 1
  {
    var n := |SimplifyItems(fmap, ts)|;
    if n == 1 {
      var i := SoleSurvivor(fmap, ts);
      YieldsIsNormal(fmap, ts[i], x);
    } else if n > 1 {
      YieldsItemsNormal(fmap, ts, x.items);
    }
  }

  lemma {:induction false} SoleSurvivor(fmap: Renaming, ts: seq<Tree>) returns (i: nat)
    requires |SimplifyItems(fmap, ts)| == 1
    ensures i < |ts| && SimplifyItems(fmap, ts) == [Simplify(fmap, ts[i])] && Simplify(fmap, ts[i]) != TNone
    decreases ts
  {
    hide Simplify;
    SimplifyCons(fmap, ts);
    i := 0;
    if Simplify(fmap, ts[0]) == TNone {
      i := SoleSurvivor(fmap, ts[1..]);
      i := i + 1;
    }
  }

  lemma {:induction false} YieldsItemsNormal(fmap: Renaming, ts: seq<Tree>, ys: seq<Tree>)
    requires YieldsItems(fmap, ts, ys)
    ensures |ys| == |SimplifyItems(fmap, ts)| && forall y <- ys :: y != TNone && Normal(y)
    decreases ts, 0
  {
    hide YieldsEntry, Simplify, Yields, Normal;
    if ts != [] {
      SimplifyCons(fmap, ts);
      if Simplify(fmap, ts[0]) == TNone {
        YieldsItemsNormal(fmap, ts[1..], ys);
      } else {
        YieldsEntryIsNormal(fmap, ts[0], ys[0]);
        YieldsItemsNormal(fmap, ts[1..], ys[1..]);
        assert ys == [ys[0]] + ys[1..];
      }
    }
  }

  lemma {:induction false} YieldsCallIsNormal(fmap: Renaming, t: Tree, x: Tree)
    requires t.TCall? && Yields(fmap, t, x)
    ensures Normal(x) && x != TNone
    decreases t, 0
  {
    hide YieldsEntry, Simplify;
    YieldsCall(fmap, t, x);
    var name := Renamed(fmap, t.op);
    forall k | k in x.pairs ensures Normal(x.pairs[k]) && x.pairs[k] != TNone {
      if k != name && !(ArgIsNull(fmap, t.args) && k == t.op) {
        YieldsEntryIsNormal(fmap, t.kwargs[k], x.pairs[k]);
      } else if k == name && !ArgIsNull(fmap, t.args) && !NullEntry(fmap, t.kwargs, name)
        && Simplify(fmap, t.args) != TNone {
        YieldsIsNormal(fmap, t.args, x.pairs[k]);
      }
    }
  }

  /* ---------- parse results that are not clean ---------- */

  /** A test for NULL on NULL itself, with `missing` renamed: the recorded place is not the value's. */
  lemma RenamedNullIsLost(x: Tree)
    requires Yields(map["missing" := "is_null"], TCall("missing", TSentinel, map[]), x)
    ensures x != Fill(map["missing" := "is_null"], TCall("missing", TSentinel, map[]))
    ensures x.TDict? && x.pairs.Keys == {"is_null", "missing"} && x.pairs["missing"] == TGiven
  {
    hide Yields, YieldsEntry, Clean, Replace;
    var fmap, t := map["missing" := "is_null"], TCall("missing", TSentinel, map[]);
    assert Kept(fmap, map[]) == map[];
    assert Renamed(fmap, "missing") == "is_null" && ArgIsNull(fmap, TSentinel);
    YieldsCall(fmap, t, x);
    CallNullsHere(fmap, t, x);
    CleanCall(fmap, t);
    hide Simplify;
    CallIsDict(fmap, t);
    YieldsFillIfClean(fmap, t, x);
  }

  /** A NULL keyword argument named like its operator: the argument stored over it is overwritten. */
  lemma ArgumentIsLost(x: Tree)
    requires Yields(map[], TCall("f", TText("a"), map["f" := TSentinel]), x)
    ensures Fill(map[], TCall("f", TText("a"), map["f" := TSentinel])) == TDict(map["f" := TText("a")])
    ensures x == TDict(map["f" := TGiven])
  {
    var fmap: Renaming, t := map[], TCall("f", TText("a"), map["f" := TSentinel]);
    hide Yields, YieldsEntry, Clean;
    YieldsCall(fmap, t, x);
    CallWanted(fmap, t);
    assert NullEntry(fmap, t.kwargs, "f");
    assert x.pairs.Keys == {"f"} && x.pairs["f"] == TGiven;
    assert CallWant(fmap, t) == map["f" := TText("a")];
  }
}
