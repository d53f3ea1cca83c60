/**
  Python containers as an explicit heap. `scrub` writes into dicts of the parse result itself, so
  addresses, and who owns them, matter. Everything here is about one line of SQL.
 */
module Heap {
  import opened Trees
  import opened Nulls

  type Addr = nat

  /** A Python value: the SQL_NULL object, None, the caller's NULL value, an immutable value, or a reference. */
  datatype Val = Sentinel | NoneVal | Given | Text(text: string) | Number(number: int) | Ref(at: Addr)

  datatype Obj =
    | ListObj(items: seq<Val>)
    | DictObj(pairs: map<string, Val>)
    | CallObj(op: string, args: Val, kwargs: Addr)
    | ResultsObj(named: map<string, Val>, tokens: seq<Val>)

  datatype Slot = Index(i: nat) | Key(k: string)

  datatype Location = Location(at: Addr, slot: Slot)

  /** The call for which an empty kwargs dict was built: its operator and what its arguments unfold to. */
  datatype Owner = Owner(op: string, args: Tree)

  /** What does not change during a line: the renaming, the owned kwargs dicts, and where new objects start. */
  datatype Line = Line(fmap: Renaming, own: map<Addr, Owner>, base: Addr)

  /** What does change; `reused` are the owned dicts that have become output. */
  datatype State = State(heap: seq<Obj>, reused: set<Addr>, locations: seq<Location>)

  /**
    `v` unfolds to `t` through containers in `s`. A call without keyword arguments owns its kwargs
    dict, whatever that dict holds by now.
   */
  ghost predicate Den(h: seq<Obj>, s: set<Addr>, own: map<Addr, Owner>, v: Val, t: Tree)
    decreases t
  {
    match t
    case TSentinel => v == Sentinel
    case TNone => v == NoneVal
    case TGiven => v == Given
    case TText(text) => v == Text(text)
    case TNumber(n) => v == Number(n)
    case TList(ts) =>
      && v.Ref? && v.at in s && v.at < |h| && h[v.at].ListObj?
      && var items := h[v.at].items;
      && |items| == |ts| && forall i :: 0 <= i < |ts| ==> Den(h, s, own, items[i], ts[i])
    case TDict(m) =>
      && v.Ref? && v.at in s && v.at < |h| && h[v.at].DictObj?
      && var pairs := h[v.at].pairs;
      && pairs.Keys == m.Keys && forall k <- m :: Den(h, s, own, pairs[k], m[k])
    case TCall(op, args, m) =>
      && v.Ref? && v.at in s && v.at < |h| && h[v.at].CallObj?
      && var call := h[v.at];
      && call.op == op && Den(h, s, own, call.args, args)
      && call.kwargs < |h| && h[call.kwargs].DictObj?
      && if m == map[] then call.kwargs in own && own[call.kwargs] == Owner(op, args)
         else
           && call.kwargs in s
           && var pairs := h[call.kwargs].pairs;
           && pairs.Keys == m.Keys && forall k <- m :: Den(h, s, own, pairs[k], m[k])
    case TResults(m, ts) =>
      && v.Ref? && v.at in s && v.at < |h| && h[v.at].ResultsObj?
      && var named, tokens := h[v.at].named, h[v.at].tokens;
      && named.Keys == m.Keys && (forall k <- m :: Den(h, s, own, named[k], m[k]))
      && |tokens| == |ts| && forall i :: 0 <= i < |ts| ==> Den(h, s, own, tokens[i], ts[i])
  }

  lemma DenOfDict(h: seq<Obj>, s: set<Addr>, own: map<Addr, Owner>, a: Addr, t: Tree)
    requires t.TDict? && Den(h, s, own, Ref(a), t)
    ensures a in s && a < |h| && h[a].DictObj? && h[a].pairs.Keys == t.pairs.Keys
    ensures forall k <- t.pairs :: Den(h, s, own, h[a].pairs[k], t.pairs[k])
  {
  }

  lemma DenDict(
    h: seq<Obj>, s: set<Addr>, own: map<Addr, Owner>, a: Addr, pairs: map<string, Val>, m: map<string, Tree>)
    requires a in s && a < |h| && h[a] == DictObj(pairs) && pairs.Keys == m.Keys
    requires forall k <- m :: Den(h, s, own, pairs[k], m[k])
    ensures Den(h, s, own, Ref(a), TDict(m))
  {
  }

  lemma DenList(h: seq<Obj>, s: set<Addr>, own: map<Addr, Owner>, a: Addr, items: seq<Val>, ts: seq<Tree>)
    requires a in s && a < |h| && h[a] == ListObj(items) && |items| == |ts|
    requires forall i :: 0 <= i < |ts| ==> Den(h, s, own, items[i], ts[i])
    ensures Den(h, s, own, Ref(a), TList(ts))
  {
  }

  lemma DenOfResults(h: seq<Obj>, s: set<Addr>, own: map<Addr, Owner>, a: Addr, t: Tree)
    requires t.TResults? && Den(h, s, own, Ref(a), t)
    ensures a in s && a < |h| && h[a].ResultsObj? && h[a].named.Keys == t.named.Keys && |h[a].tokens| == |t.tokens|
    ensures forall k <- t.named :: Den(h, s, own, h[a].named[k], t.named[k])
    ensures forall i :: 0 <= i < |t.tokens| ==> Den(h, s, own, h[a].tokens[i], t.tokens[i])
  {
  }

  lemma DenOfCall(h: seq<Obj>, s: set<Addr>, own: map<Addr, Owner>, a: Addr, t: Tree)
    requires t.TCall? && Den(h, s, own, Ref(a), t)
    ensures a in s && a < |h| && h[a].CallObj? && h[a].op == t.op && Den(h, s, own, h[a].args, t.args)
    ensures h[a].kwargs < |h| && h[h[a].kwargs].DictObj?
    ensures t.kwargs == map[] ==> h[a].kwargs in own && own[h[a].kwargs] == Owner(t.op, t.args)
    ensures t.kwargs != map[] ==>
      && h[a].kwargs in s && h[h[a].kwargs].pairs.Keys == t.kwargs.Keys
      && forall k <- t.kwargs :: Den(h, s, own, h[h[a].kwargs].pairs[k], t.kwargs[k])
  {
  }

  /** Unfoldings depend only on the containers they go through. */
  lemma {:induction false} DenFrame(
    h: seq<Obj>, s: set<Addr>, own: map<Addr, Owner>, h': seq<Obj>, s': set<Addr>, v: Val, t: Tree)
    requires Den(h, s, own, v, t)
    requires s <= s' && |h| <= |h'| && forall a <- s :: a < |h| ==> h'[a] == h[a]
    requires forall a <- own :: a < |h| && h[a].DictObj? ==> h'[a].DictObj?
    ensures Den(h', s', own, v, t)
    decreases t
  {
    match t
    case TList(ts) =>
      forall i | 0 <= i < |ts| ensures Den(h', s', own, h'[v.at].items[i], ts[i]) {
        DenFrame(h, s, own, h', s', h[v.at].items[i], ts[i]);
      }
    case TDict(m) =>
      forall k | k in m ensures Den(h', s', own, h'[v.at].pairs[k], m[k]) {
        DenFrame(h, s, own, h', s', h[v.at].pairs[k], m[k]);
      }
    case TCall(op, args, m) =>
      var call := h[v.at];
      DenFrame(h, s, own, h', s', call.args, args);
      if m != map[] {
        forall k | k in m ensures Den(h', s', own, h'[call.kwargs].pairs[k], m[k]) {
          DenFrame(h, s, own, h', s', h[call.kwargs].pairs[k], m[k]);
        }
      }
    case TResults(m, ts) =>
      forall k | k in m ensures Den(h', s', own, h'[v.at].named[k], m[k]) {
        DenFrame(h, s, own, h', s', h[v.at].named[k], m[k]);
      }
      forall i | 0 <= i < |ts| ensures Den(h', s', own, h'[v.at].tokens[i], ts[i]) {
        DenFrame(h, s, own, h', s', h[v.at].tokens[i], ts[i]);
      }
    case _ =>
  }

  /** `v` unfolds to `t`, through whatever containers. */
  ghost predicate UnfoldsTo(h: seq<Obj>, own: map<Addr, Owner>, v: Val, t: Tree) {
    exists s :: Den(h, s, own, v, t)
  }

  /** A value has one unfolding at most, calls apart. */
  lemma {:induction false} DenUnique(
    h: seq<Obj>, s: set<Addr>, s': set<Addr>, own: map<Addr, Owner>, v: Val, t: Tree, t': Tree)
    requires Normal(t) && Normal(t') && Den(h, s, own, v, t) && Den(h, s', own, v, t')
    ensures t == t'
    decreases t
  {
    match t
    case TList(ts) =>
      forall i | 0 <= i < |ts| ensures ts[i] == t'.items[i] {
        DenUnique(h, s, s', own, h[v.at].items[i], ts[i], t'.items[i]);
      }
    case TDict(m) =>
      forall k | k in m ensures m[k] == t'.pairs[k] {
        DenUnique(h, s, s', own, h[v.at].pairs[k], m[k], t'.pairs[k]);
      }
    case _ =>
  }

  /** A value that unfolds to an outcome of the two phases unfolds to the intended one exactly when `t` is clean. */
  lemma UnfoldsToFillIfClean(
    h: seq<Obj>, s: set<Addr>, own: map<Addr, Owner>, v: Val, fmap: Renaming, t: Tree, x: Tree)
    requires NoGiven(t) && Simplify(fmap, t) != TSentinel && Yields(fmap, t, x) && Den(h, s, own, v, x)
    ensures UnfoldsTo(h, own, v, Fill(fmap, t)) <==> Clean(fmap, t)
    ensures UnfoldsTo(h, own, v, Replace(Simplify(map[], RenameCalls(fmap, t)))) <==> Clean(fmap, t)
    ensures WithoutNull(t) ==> UnfoldsTo(h, own, v, Simplify(map[], RenameCalls(fmap, t)))
  {
    hide Den, Yields, Simplify, Clean, Normal, NoGiven, Replace, RenameCalls, WithoutNull;
    RenamedFirst(fmap, t);
    if WithoutNull(t) {
      WithoutNullIsClean(fmap, t);
      FillWithoutNull(fmap, t);
    }
    YieldsFillIfClean(fmap, t, x);
    YieldsIsNormal(fmap, t, x);
    SimplifyIsNormal(fmap, t);
    ReplaceIsNormal(Simplify(fmap, t));
    if s' :| Den(h, s', own, v, Fill(fmap, t)) {
      DenUnique(h, s, s', own, v, x, Fill(fmap, t));
    }
  }

  /* ---------- the heap with the recorded locations overwritten ---------- */

  function KeysAt(locs: seq<Location>, a: Addr): set<string> {
    set l | l in locs && l.at == a && l.slot.Key? :: l.slot.k
  }

  function PatchedObj(o: Obj, locs: seq<Location>, a: Addr): Obj {
    match o
    case ListObj(items) =>
      ListObj(seq(|items|, i requires 0 <= i < |items| => if Location(a, Index(i)) in locs then Given else items[i]))
    case DictObj(pairs) =>
      DictObj(map k | k in pairs.Keys + KeysAt(locs, a) :: if Location(a, Key(k)) in locs then Given else pairs[k])
    case _ => o
  }

  function Patched(h: seq<Obj>, locs: seq<Location>): (r: seq<Obj>)
    ensures |r| == |h|
  {
    seq(|h|, a requires 0 <= a < |h| => PatchedObj(h[a], locs, a))
  }

  /* ---------- which containers may be looked at, and which may be handed out ---------- */

  /** Containers that no longer change: all but the owned dicts not yet reused. `pend` are those under construction. */
  ghost function Fixed(c: Line, s: State, pend: set<Addr>): set<Addr> {
    set a | 0 <= a < |s.heap| && a !in pend && (a !in c.own || a in s.reused)
  }

  /** Containers output may go through: new ones, reused ones, and empty dicts of the parse result. */
  ghost function Output(c: Line, s: State, pend: set<Addr>): set<Addr> {
    set a | 0 <= a < |s.heap| && a !in pend &&
      (a >= c.base || a in s.reused || (a !in c.own && s.heap[a] == DictObj(map[])))
  }

  ghost predicate ReusedOk(c: Line, s: State, pend: set<Addr>, a: Addr)
    requires a in c.own && a < |s.heap|
  {
    var name := Renamed(c.fmap, c.own[a].op);
    && s.heap[a].DictObj? && s.heap[a].pairs.Keys == {name}
    && Den(s.heap, Output(c, s, pend), c.own, s.heap[a].pairs[name], Stored(Simplify(c.fmap, c.own[a].args)))
  }

  /** The slot exists, or is about to be added to a dict that already has entries. */
  predicate SlotFits(o: Obj, slot: Slot) {
    match o
    case ListObj(items) => slot.Index? && slot.i < |items|
    case DictObj(pairs) => slot.Key? && pairs != map[]
    case _ => false
  }

  ghost predicate Inv(c: Line, s: State, pend: set<Addr>) {
    && c.base <= |s.heap|
    && s.reused <= c.own.Keys && s.reused !! pend && (forall a <- pend :: a < |s.heap|)
    && (forall a <- c.own :: a < c.base)
    && (forall a <- c.own :: a !in s.reused ==> s.heap[a] == DictObj(map[]))
    && (forall a <- s.reused :: ReusedOk(c, s, pend, a))
    && (forall l <- s.locations ::
         l.at < |s.heap| && (l.at >= c.base || l.at in s.reused) && SlotFits(s.heap[l.at], l.slot))
  }

  /** From `s` to `s'` nothing fixed has changed, nor what was recorded about it. */
  ghost predicate Frame(c: Line, s: State, s': State) {
    && |s.heap| <= |s'.heap| && s.reused <= s'.reused
    && (forall a :: 0 <= a < |s.heap| && (a !in c.own || a in s.reused) ==> s'.heap[a] == s.heap[a])
    && (forall l: Location :: l.at < |s.heap| && (l.at !in c.own || l.at in s.reused) ==>
         (l in s'.locations <==> l in s.locations))
  }

  lemma FrameTransitive(c: Line, s1: State, s2: State, s3: State)
    requires Frame(c, s1, s2) && Frame(c, s2, s3)
    ensures Frame(c, s1, s3)
  {
  }

  lemma PatchedFrame(c: Line, s: State, s': State, a: Addr)
    requires Frame(c, s, s') && a < |s.heap| && (a !in c.own || a in s.reused)
    ensures Patched(s'.heap, s'.locations)[a] == Patched(s.heap, s.locations)[a]
  {
    var o := s.heap[a];
    assert forall k :: Location(a, Key(k)).at == a;
    assert forall i :: Location(a, Index(i)).at == a;
    assert KeysAt(s'.locations, a) == KeysAt(s.locations, a);
    assert PatchedObj(o, s'.locations, a) == PatchedObj(o, s.locations, a);
  }

  /** Input stays readable. */
  lemma InputFrame(c: Line, s: State, s': State, pend: set<Addr>, pend': set<Addr>, v: Val, t: Tree)
    requires Inv(c, s, pend) && Inv(c, s', pend') && Frame(c, s, s')
    requires forall a <- pend' :: a in pend || a >= |s.heap| || (a in c.own && a !in s.reused)
    requires Den(s.heap, Fixed(c, s, pend), c.own, v, t)
    ensures Den(s'.heap, Fixed(c, s', pend'), c.own, v, t)
  {
    assert Fixed(c, s, pend) <= Fixed(c, s', pend');
    DenFrame(s.heap, Fixed(c, s, pend), c.own, s'.heap, Fixed(c, s', pend'), v, t);
  }

  /** A finished value with its raw unfolding `t` and its unfolding `x` after overwriting. */
  ghost predicate Result(c: Line, s: State, pend: set<Addr>, v: Val, t: Tree, x: Tree) {
    && Den(s.heap, Output(c, s, pend), c.own, v, t)
    && Den(Patched(s.heap, s.locations), Output(c, s, pend), c.own, v, x)
  }

  /** Finished values stay as they are. */
  lemma ResultFrame(c: Line, s: State, s': State, pend: set<Addr>, pend': set<Addr>, v: Val, t: Tree, x: Tree)
    requires Inv(c, s, pend) && Inv(c, s', pend') && Frame(c, s, s')
    requires forall a <- pend' :: a in pend || a >= |s.heap| || (a in c.own && a !in s.reused)
    requires Result(c, s, pend, v, t, x)
    ensures Result(c, s', pend', v, t, x)
  {
    var o, o' := Output(c, s, pend), Output(c, s', pend');
    assert o <= o';
    DenFrame(s.heap, o, c.own, s'.heap, o', v, t);
    forall a | a in o ensures Patched(s'.heap, s'.locations)[a] == Patched(s.heap, s.locations)[a] {
      PatchedFrame(c, s, s', a);
    }
    DenFrame(Patched(s.heap, s.locations), o, c.own, Patched(s'.heap, s'.locations), o', v, x);
  }
}
