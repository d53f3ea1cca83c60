/** `scrub` and the patching of NULL, on the heap. */
module Scrub {
  import opened Trees
  import opened Nulls
  import opened Heap

  ghost predicate Deep(c: Line, pend: set<Addr>, d: nat) {
    forall a <- pend :: a in c.own ==> Depth(c.own[a].args) >= d
  }

  /** Only calls shallower than `d` have had their dict reused on the way. */
  ghost predicate ReusedBelow(c: Line, s: State, s': State, d: nat)
    requires s'.reused <= c.own.Keys
  {
    forall a <- s'.reused :: a !in s.reused ==> Depth(c.own[a].args) < d
  }

  lemma InvStep(c: Line, s: State, s': State, pend: set<Addr>, pend': set<Addr>)
    requires Inv(c, s, pend) && Frame(c, s, s') && s'.reused == s.reused
    requires pend' !! s.reused && forall a <- pend' :: a in pend || a >= |s.heap| || (a in c.own && a !in s.reused)
    requires forall a <- pend' :: a < |s'.heap|
    requires forall a <- c.own :: s'.heap[a] == s.heap[a]
    requires forall l <- s'.locations ::
      l.at < |s'.heap| && (l.at >= c.base || l.at in s'.reused) && SlotFits(s'.heap[l.at], l.slot)
    ensures Inv(c, s', pend')
  {
    forall a | a in s.reused ensures ReusedOk(c, s', pend', a) {
      var name := Renamed(c.fmap, c.own[a].op);
      assert ReusedOk(c, s, pend, a);
      var o, o' := Output(c, s, pend), Output(c, s', pend');
      assert o <= o';
      DenFrame(s.heap, o, c.own, s'.heap, o', s.heap[a].pairs[name], Stored(Simplify(c.fmap, c.own[a].args)));
    }
  }

  /** A new container and what is recorded about it. */
  lemma Allocated(c: Line, s: State, s': State, pend: set<Addr>, o: Obj)
    requires Inv(c, s, pend)
    requires s'.heap == s.heap + [o] && s'.reused == s.reused
    requires forall l: Location :: l.at != |s.heap| ==> (l in s'.locations <==> l in s.locations)
    requires forall l <- s'.locations :: l.at == |s.heap| ==> SlotFits(o, l.slot)
    ensures Frame(c, s, s') && Inv(c, s', pend + {|s.heap|}) && Inv(c, s', pend)
  {
    assert forall l <- s'.locations :: l.at == |s.heap| || l in s.locations;
    if |s.heap| in s.reused {
      assert false;
    }
    InvStep(c, s, s', pend, pend + {|s.heap|});
    InvStep(c, s, s', pend, pend);
  }

  lemma LocationsInHeap(c: Line, s: State, pend: set<Addr>)
    requires Inv(c, s, pend)
    ensures forall l <- s.locations :: l.at < |s.heap|
  {
  }

  /** What every step of the simplification guarantees about the state. */
  ghost predicate Went(c: Line, s: State, s': State, pend: set<Addr>, d: nat) {
    Inv(c, s', pend) && Frame(c, s, s') && ReusedBelow(c, s, s', d)
  }

  lemma WentNowhere(c: Line, s: State, pend: set<Addr>, d: nat)
    requires Inv(c, s, pend)
    ensures Went(c, s, s, pend, d)
  {
  }

  lemma WentDeeper(c: Line, s: State, s': State, pend: set<Addr>, d: nat, d': nat)
    requires Went(c, s, s', pend, d) && d <= d'
    ensures Went(c, s, s', pend, d')
  {
  }

  lemma WentInv(c: Line, s: State, s': State, pend: set<Addr>, d: nat)
    requires Went(c, s, s', pend, d)
    ensures Inv(c, s', pend) && Frame(c, s, s')
  {
  }

  lemma ScrubbedFrame(c: Line, s: State, s': State, pend: set<Addr>, d: nat, v: Val, t: Tree, x: Tree)
    requires Inv(c, s, pend) && Went(c, s, s', pend, d) && Scrubbed(c, s, pend, v, t, x)
    ensures Scrubbed(c, s', pend, v, t, x)
  {
    ResultFrame(c, s, s', pend, pend, v, Simplify(c.fmap, t), x);
  }

  lemma WentThenWent(c: Line, s1: State, s2: State, s3: State, pend: set<Addr>, d: nat, d': nat)
    requires Went(c, s1, s2, pend, d) && Went(c, s2, s3, pend, d') && d' <= d
    ensures Went(c, s1, s3, pend, d)
  {
    FrameTransitive(c, s1, s2, s3);
  }

  /* ---------- results under construction ---------- */

  /** A finished value for `t`. */
  ghost predicate Scrubbed(c: Line, s: State, pend: set<Addr>, v: Val, t: Tree, x: Tree) {
    Result(c, s, pend, v, Simplify(c.fmap, t), x) && Yields(c.fmap, t, x)
  }

  ghost predicate PairResults(
    c: Line, s: State, pend: set<Addr>, vs: map<string, Val>, m: map<string, Tree>, xm: map<string, Tree>)
  {
    && vs.Keys == Kept(c.fmap, m).Keys == xm.Keys
    && forall k <- vs :: Scrubbed(c, s, pend, vs[k], m[k], xm[k])
  }

  /** None and SQL_NULL are told apart by looking at the value alone. */
  lemma Recognised(own: map<Addr, Owner>, h: seq<Obj>, o: set<Addr>, v: Val, t: Tree)
    requires Den(h, o, own, v, t)
    ensures v == NoneVal <==> t == TNone
    ensures v == Sentinel <==> t == TSentinel
  {
  }

  lemma KeptWithout(fmap: Renaming, m: map<string, Tree>, k: string)
    requires k in m
    ensures Kept(fmap, m).Keys == Kept(fmap, m - {k}).Keys + (if Simplify(fmap, m[k]) == TNone then {} else {k})
  {
  }

  lemma NoPairs(c: Line, s: State, pend: set<Addr>, m: map<string, Tree>)
    requires m == map[]
    ensures PairResults(c, s, pend, map[], m, map[])
  {
    assert Kept(c.fmap, m) == map[];
  }

  lemma KeptIsPart(fmap: Renaming, m: map<string, Tree>)
    ensures Kept(fmap, m).Keys <= m.Keys
  {
  }

  lemma NoneIsNone(c: Line, s: State, pend: set<Addr>, out: Val, t: Tree, x: Tree)
    requires Scrubbed(c, s, pend, out, t, x)
    ensures out == NoneVal <==> Simplify(c.fmap, t) == TNone
  {
    hide Den, Yields, Simplify, Output;
    Recognised(c.own, s.heap, Output(c, s, pend), out, Simplify(c.fmap, t));
  }

  lemma PairsExtended(
    c: Line, s: State, pend: set<Addr>, m: map<string, Tree>, k: string, out: Val, x: Tree,
    vs: map<string, Val>, xm: map<string, Tree>)
    requires k in m && PairResults(c, s, pend, vs, m - {k}, xm) && Scrubbed(c, s, pend, out, m[k], x)
    ensures out == NoneVal ==> PairResults(c, s, pend, vs, m, xm)
    ensures out != NoneVal ==> PairResults(c, s, pend, vs[k := out], m, xm[k := x])
  {
    hide Den, Yields, Simplify, Output, Kept, Scrubbed;
    NoneIsNone(c, s, pend, out, m[k], x);
    KeptIsPart(c.fmap, m);
    KeptIsPart(c.fmap, m - {k});
    KeptWithout(c.fmap, m, k);
    var vs', xm' := vs[k := out], xm[k := x];
    forall j | j in vs' ensures Scrubbed(c, s, pend, vs'[j], m[j], xm'[j]) {
      assert j != k ==> j in vs && (m - {k})[j] == m[j];
    }
    forall j | j in vs ensures Scrubbed(c, s, pend, vs[j], m[j], xm[j]) {
      assert (m - {k})[j] == m[j];
    }
  }

  ghost predicate ItemResults(c: Line, s: State, pend: set<Addr>, vs: seq<Val>, ts: seq<Tree>, xs: seq<Tree>) {
    |vs| == |ts| == |xs| && forall i :: 0 <= i < |vs| ==> Result(c, s, pend, vs[i], ts[i], xs[i])
  }

  ghost predicate YieldsValues(fmap: Renaming, ts: seq<Tree>, xs: seq<Tree>)
    decreases ts
  {
    if ts == [] then xs == []
    else if Simplify(fmap, ts[0]) == TNone then YieldsValues(fmap, ts[1..], xs)
    else xs != [] && Yields(fmap, ts[0], xs[0]) && YieldsValues(fmap, ts[1..], xs[1..])
  }

  lemma NoItems(c: Line, s: State, pend: set<Addr>)
    ensures ItemResults(c, s, pend, [], SimplifyItems(c.fmap, []), []) && YieldsValues(c.fmap, [], [])
  {
  }

  lemma YieldsFirst(fmap: Renaming, ts: seq<Tree>, x: Tree, xs: seq<Tree>)
    requires ts != [] && YieldsValues(fmap, ts[1..], xs) && Yields(fmap, ts[0], x)
    ensures YieldsValues(fmap, ts, if Simplify(fmap, ts[0]) == TNone then xs else [x] + xs)
  {
    hide Yields, Simplify;
    assert ([x] + xs)[1..] == xs;
  }

  lemma ResultsExtended(
    c: Line, s: State, pend: set<Addr>, out: Val, t: Tree, x: Tree, vs: seq<Val>, ts: seq<Tree>, xs: seq<Tree>)
    requires Result(c, s, pend, out, t, x) && ItemResults(c, s, pend, vs, ts, xs)
    ensures ItemResults(c, s, pend, [out] + vs, [t] + ts, [x] + xs)
  {
    hide Result;
  }

  lemma ItemsExtended(
    c: Line, s: State, pend: set<Addr>, ts: seq<Tree>, out: Val, x: Tree, vs: seq<Val>, xs: seq<Tree>)
    requires ts != [] && Scrubbed(c, s, pend, out, ts[0], x)
    requires ItemResults(c, s, pend, vs, SimplifyItems(c.fmap, ts[1..]), xs) && YieldsValues(c.fmap, ts[1..], xs)
    ensures out == NoneVal ==>
      ItemResults(c, s, pend, vs, SimplifyItems(c.fmap, ts), xs) && YieldsValues(c.fmap, ts, xs)
    ensures out != NoneVal ==>
      ItemResults(c, s, pend, [out] + vs, SimplifyItems(c.fmap, ts), [x] + xs) && YieldsValues(c.fmap, ts, [x] + xs)
  {
    hide Den, Yields, Simplify, SimplifyItems, YieldsValues, ItemResults, Output;
    Recognised(c.own, s.heap, Output(c, s, pend), out, Simplify(c.fmap, ts[0]));
    SimplifyCons(c.fmap, ts);
    YieldsFirst(c.fmap, ts, x, xs);
    ResultsExtended(c, s, pend, out, Simplify(c.fmap, ts[0]), x, vs, SimplifyItems(c.fmap, ts[1..]), xs);
  }

  /** What the slots of a container hold after overwriting. */
  ghost function Slots(ts: seq<Tree>, xs: seq<Tree>): seq<Tree>
    requires |ts| == |xs|
  {
    seq(|ts|, i requires 0 <= i < |ts| => if ts[i] == TSentinel then TGiven else xs[i])
  }

  lemma {:induction false} SlotsYield(fmap: Renaming, ts: seq<Tree>, xs: seq<Tree>)
    requires YieldsValues(fmap, ts, xs) && |xs| == |SimplifyItems(fmap, ts)|
    ensures YieldsItems(fmap, ts, Slots(SimplifyItems(fmap, ts), xs))
    decreases ts
  {
    if ts != [] {
      var kept := SimplifyItems(fmap, ts);
      var rest := SimplifyItems(fmap, ts[1..]);
      if Simplify(fmap, ts[0]) == TNone {
        assert kept == rest;
        SlotsYield(fmap, ts[1..], xs);
      } else {
        assert kept == [Simplify(fmap, ts[0])] + rest;
        SlotsYield(fmap, ts[1..], xs[1..]);
        assert Slots(kept, xs)[1..] == Slots(rest, xs[1..]);
      }
    }
  }

  lemma {:induction false} SoleYields(fmap: Renaming, ts: seq<Tree>, xs: seq<Tree>)
    requires YieldsValues(fmap, ts, xs) && |xs| == |SimplifyItems(fmap, ts)| <= 1
    ensures YieldsList(fmap, ts, if xs == [] then TNone else xs[0])
    decreases ts
  {
    if ts != [] {
      var kept := SimplifyItems(fmap, ts);
      var rest := SimplifyItems(fmap, ts[1..]);
      if Simplify(fmap, ts[0]) == TNone {
        assert kept == rest;
        SoleYields(fmap, ts[1..], xs);
      } else {
        assert kept == [Simplify(fmap, ts[0])] + rest;
        SoleYields(fmap, ts[1..], xs[1..]);
      }
      forall i | 0 < i < |ts| && xs != [] && Simplify(fmap, ts[i]) != TNone ensures Yields(fmap, ts[i], xs[0]) {
        assert ts[i] == ts[1..][i - 1];
        if Simplify(fmap, ts[0]) != TNone {
          NothingKept(fmap, ts[1..], i - 1);
        }
      }
    }
  }

  lemma {:induction false} NothingKept(fmap: Renaming, ts: seq<Tree>, i: nat)
    requires SimplifyItems(fmap, ts) == [] && i < |ts|
    ensures Simplify(fmap, ts[i]) == TNone
  {
    if i > 0 {
      NothingKept(fmap, ts[1..], i - 1);
    }
  }

  /** A fresh list whose NULL entries have all been recorded. */
  lemma ListClosed(c: Line, s0: State, s: State, pend: set<Addr>, vs: seq<Val>, ts: seq<Tree>, xs: seq<Tree>)
    requires Inv(c, s0, pend) && ItemResults(c, s0, pend, vs, ts, xs)
    requires s.heap == s0.heap + [ListObj(vs)] && s.reused == s0.reused
    requires forall l: Location :: l.at != |s0.heap| ==> (l in s.locations <==> l in s0.locations)
    requires forall l <- s.locations :: l.at == |s0.heap| ==> SlotFits(ListObj(vs), l.slot)
    requires forall i: nat :: Location(|s0.heap|, Index(i)) in s.locations <==> i < |vs| && vs[i] == Sentinel
    requires |s0.heap| !in pend
    ensures Inv(c, s, pend) && Frame(c, s0, s)
    ensures Result(c, s, pend, Ref(|s0.heap|), TList(ts), TList(Slots(ts, xs)))
  {
    var a := |s0.heap|;
    Allocated(c, s0, s, pend, ListObj(vs));
    forall i | 0 <= i < |vs| ensures Result(c, s, pend, vs[i], ts[i], xs[i]) {
      ResultFrame(c, s0, s, pend, pend, vs[i], ts[i], xs[i]);
    }
    NewInOutput(c, s, pend, a);
    hide Inv, Frame, Den, Output;
    var o := Output(c, s, pend);
    DenList(s.heap, o, c.own, a, vs, ts);
    var p := Patched(s.heap, s.locations);
    assert p[a] == PatchedObj(ListObj(vs), s.locations, a) && |p[a].items| == |vs|;
    forall i | 0 <= i < |vs| ensures Den(p, o, c.own, p[a].items[i], Slots(ts, xs)[i]) {
      assert Location(a, Index(i)) in s.locations <==> vs[i] == Sentinel;
      NullSlot(p, o, c.own, vs[i], ts[i], s.heap);
    }
    DenList(p, o, c.own, a, p[a].items, Slots(ts, xs));
  }

  lemma NewInOutput(c: Line, s: State, pend: set<Addr>, a: Addr)
    requires a < |s.heap| && a !in pend && a >= c.base
    ensures a in Output(c, s, pend)
  {
  }

  /** NULL unfolds to NULL and to nothing else, the given value to itself. */
  lemma NullSlot(p: seq<Obj>, o: set<Addr>, own: map<Addr, Owner>, v: Val, t: Tree, h: seq<Obj>)
    requires Den(h, o, own, v, t)
    ensures v == Sentinel <==> t == TSentinel
    ensures Den(p, o, own, Given, TGiven)
  {
  }

  /**
    The dict at `f` is being built: every entry of `m` that survives is in place, its NULL entries
    have been recorded, and nothing else refers to it yet.
   */
  ghost predicate OpenDict(
    c: Line, s: State, pend: set<Addr>, f: Addr, m: map<string, Tree>, ym: map<string, Tree>)
  {
    && f < |s.heap| && s.heap[f].DictObj?
    && var pairs := s.heap[f].pairs;
    && pairs.Keys == Kept(c.fmap, m).Keys == ym.Keys
    && (forall k <- pairs :: OpenEntry(c, s, pend + {f}, f, k, pairs[k], m[k], ym[k]))
    && (forall l <- s.locations :: l.at == f ==> RecordedKey(pairs, l.slot))
  }

  predicate RecordedKey(pairs: map<string, Val>, slot: Slot) {
    slot.Key? && slot.k in pairs && pairs[slot.k] == Sentinel
  }

  ghost predicate OpenEntry(
    c: Line, s: State, pend: set<Addr>, f: Addr, k: string, v: Val, t: Tree, y: Tree)
  {
    && Den(s.heap, Output(c, s, pend), c.own, v, Simplify(c.fmap, t))
    && YieldsEntry(c.fmap, t, y)
    && if v == Sentinel then y == TGiven && Location(f, Key(k)) in s.locations
       else Den(Patched(s.heap, s.locations), Output(c, s, pend), c.own, v, y)
  }

  lemma EntryClosed(
    c: Line, s: State, pend: set<Addr>, f: Addr, pairs: map<string, Val>, k: string, t: Tree, y: Tree)
    requires f < |s.heap| && s.heap[f] == DictObj(pairs) && k in pairs
    requires OpenEntry(c, s, pend + {f}, f, k, pairs[k], t, y)
    requires forall l <- s.locations :: l.at == f ==> RecordedKey(pairs, l.slot)
    ensures Den(s.heap, Output(c, s, pend), c.own, pairs[k], Simplify(c.fmap, t))
    ensures k in Patched(s.heap, s.locations)[f].pairs
    ensures Den(Patched(s.heap, s.locations), Output(c, s, pend), c.own, Patched(s.heap, s.locations)[f].pairs[k], y)
  {
    var o, o' := Output(c, s, pend + {f}), Output(c, s, pend);
    var p := Patched(s.heap, s.locations);
    assert o <= o';
    assert p[f] == PatchedObj(DictObj(pairs), s.locations, f);
    DenFrame(s.heap, o, c.own, s.heap, o', pairs[k], Simplify(c.fmap, t));
    var l := Location(f, Key(k));
    assert l.at == f && l.slot.k == k;
    if pairs[k] != Sentinel {
      DenFrame(p, o, c.own, p, o', pairs[k], y);
    }
  }

  lemma OpenPatchedKeys(c: Line, s: State, pend: set<Addr>, f: Addr, m: map<string, Tree>, ym: map<string, Tree>)
    requires OpenDict(c, s, pend, f, m, ym)
    ensures var p := Patched(s.heap, s.locations);
      && p[f] == PatchedObj(s.heap[f], s.locations, f) && p[f].DictObj?
      && p[f].pairs.Keys == s.heap[f].pairs.Keys == ym.Keys
  {
    hide OpenEntry, Kept;
    assert KeysAt(s.locations, f) <= s.heap[f].pairs.Keys;
  }

  lemma DictClosed(c: Line, s: State, pend: set<Addr>, f: Addr, m: map<string, Tree>, ym: map<string, Tree>)
    requires OpenDict(c, s, pend, f, m, ym) && f in Output(c, s, pend)
    ensures Result(c, s, pend, Ref(f), TDict(Kept(c.fmap, m)), TDict(ym))
  {
    var pairs := s.heap[f].pairs;
    var p := Patched(s.heap, s.locations);
    OpenPatchedKeys(c, s, pend, f, m, ym);
    forall k | k in pairs
      ensures Den(s.heap, Output(c, s, pend), c.own, pairs[k], Kept(c.fmap, m)[k])
      ensures Den(p, Output(c, s, pend), c.own, p[f].pairs[k], ym[k])
    {
      EntryClosed(c, s, pend, f, pairs, k, m[k], ym[k]);
    }
    hide Den, OpenEntry, Patched, PatchedObj, Simplify;
    DenDict(s.heap, Output(c, s, pend), c.own, f, pairs, Kept(c.fmap, m));
    DenDict(p, Output(c, s, pend), c.own, f, p[f].pairs, ym);
  }

  /** `s` is `s0` with a fresh dict of the surviving entries `pairs`, its NULL entries recorded. */
  ghost predicate NewDict(s0: State, s: State, pairs: map<string, Val>) {
    && s.heap == s0.heap + [DictObj(pairs)] && s.reused == s0.reused
    && (forall l: Location :: l.at != |s0.heap| ==> (l in s.locations <==> l in s0.locations))
    && (forall l: Location :: l.at == |s0.heap| ==> (l in s.locations <==> RecordedKey(pairs, l.slot)))
  }

  lemma NewDictHolds(s0: State, s: State, pairs: map<string, Val>)
    requires NewDict(s0, s, pairs)
    ensures |s0.heap| < |s.heap| && s.heap[|s0.heap|] == DictObj(pairs)
    ensures forall l <- s.locations :: l.at == |s0.heap| ==> RecordedKey(pairs, l.slot)
  {
  }

  lemma DictAllocated(c: Line, s0: State, s: State, pend: set<Addr>, pairs: map<string, Val>)
    requires Inv(c, s0, pend) && NewDict(s0, s, pairs)
    ensures Inv(c, s, pend) && Inv(c, s, pend + {|s0.heap|}) && Frame(c, s0, s)
    ensures |s0.heap| !in pend
  {
    Allocated(c, s0, s, pend, DictObj(pairs));
  }

  lemma DictOpened(
    c: Line, s0: State, s: State, pend: set<Addr>, m: map<string, Tree>, pairs: map<string, Val>, xm: map<string, Tree>)
    requires Inv(c, s0, pend) && PairResults(c, s0, pend, pairs, m, xm) && NewDict(s0, s, pairs)
    requires Inv(c, s, pend + {|s0.heap|}) && Frame(c, s0, s)
    ensures OpenDict(c, s, pend, |s0.heap|, m, EntrySlots(pairs, xm))
  {
    hide Den, Yields, Simplify, Output, Fixed, Result, Inv, Frame;
    hide Patched, Kept, Scrubbed, OpenEntry, NewDict, RecordedKey;
    var f := |s0.heap|;
    var ym := EntrySlots(pairs, xm);
    NewDictHolds(s0, s, pairs);
    KeptIsPart(c.fmap, m);
    forall k | k in pairs
      ensures OpenEntry(c, s, pend + {f}, f, k, pairs[k], m[k], ym[k])
    {
      EntryOpened(c, s0, s, pend, pairs, k, m[k], xm[k]);
    }
  }

  lemma NullIsRecorded(s0: State, s: State, pairs: map<string, Val>, k: string)
    requires NewDict(s0, s, pairs) && k in pairs
    ensures pairs[k] == Sentinel ==> Location(|s0.heap|, Key(k)) in s.locations
  {
    assert Location(|s0.heap|, Key(k)).at == |s0.heap|;
  }

  lemma EntryOpened(
    c: Line, s0: State, s: State, pend: set<Addr>, pairs: map<string, Val>, k: string, t: Tree, x: Tree)
    requires Inv(c, s0, pend) && k in pairs && Scrubbed(c, s0, pend, pairs[k], t, x) && NewDict(s0, s, pairs)
    requires Inv(c, s, pend + {|s0.heap|}) && Frame(c, s0, s)
    ensures OpenEntry(c, s, pend + {|s0.heap|}, |s0.heap|, k, pairs[k], t, if pairs[k] == Sentinel then TGiven else x)
  {
    hide NewDict, Den, Output, Patched, Inv, Frame, Yields, Simplify;
    NullIsRecorded(s0, s, pairs, k);
    ResultFrame(c, s0, s, pend, pend + {|s0.heap|}, pairs[k], Simplify(c.fmap, t), x);
    Recognised(c.own, s0.heap, Output(c, s0, pend), pairs[k], Simplify(c.fmap, t));
  }

  ghost function EntrySlots(pairs: map<string, Val>, xm: map<string, Tree>): map<string, Tree>
    requires pairs.Keys == xm.Keys
  {
    map k | k in pairs :: if pairs[k] == Sentinel then TGiven else xm[k]
  }

  class Scrubber {
    const fmap: Renaming
    var heap: seq<Obj>
    var locations: seq<Location>
    ghost const own: map<Addr, Owner>
    ghost const base: Addr
    ghost var reused: set<Addr>

    ghost function Now(): State
      reads this
    {
      State(heap, reused, locations)
    }

    ghost function Here(): Line {
      Line(fmap, own, base)
    }

    /** The state at the start of a line: nothing recorded, every owned dict still empty. */
    constructor (parsed: seq<Obj>, fmap: Renaming, ghost own: map<Addr, Owner>)
      requires forall a <- own :: a < |parsed| && parsed[a] == DictObj(map[])
      ensures this.fmap == fmap && this.own == own && this.base == |parsed|
      ensures heap == parsed && locations == [] && reused == {}
      ensures Inv(Here(), Now(), {})
    {
      this.fmap := fmap;
      this.heap := parsed;
      this.locations := [];
      this.own := own;
      this.base := |parsed|;
      this.reused := {};
    }

    /** Appends a location for every NULL entry of the list at `at`. */
    method RecordList(at: Addr, items: seq<Val>)
      modifies this`locations
      ensures old(locations) <= locations
      ensures forall l: Location :: l in locations <==>
        l in old(locations) || (l.at == at && l.slot.Index? && l.slot.i < |items| && items[l.slot.i] == Sentinel)
    {
      for i := 0 to |items|
        invariant old(locations) <= locations
        invariant forall l: Location :: l in locations <==>
          l in old(locations) || (l.at == at && l.slot.Index? && l.slot.i < i && items[l.slot.i] == Sentinel)
      {
        if items[i] == Sentinel {
          locations := locations + [Location(at, Index(i))];
        }
      }
    }

    /** Appends a location for every NULL entry of the dict at `at`. */
    method RecordDict(at: Addr, pairs: map<string, Val>)
      modifies this`locations
      ensures old(locations) <= locations
      ensures forall l: Location :: l in locations <==>
        l in old(locations) || (l.at == at && RecordedKey(pairs, l.slot))
    {
      var keys := pairs.Keys;
      while keys != {}
        invariant keys <= pairs.Keys
        invariant old(locations) <= locations
        invariant forall l: Location :: l in locations <==>
          l in old(locations) ||
          (l.at == at && l.slot.Key? && l.slot.k in pairs && l.slot.k !in keys && pairs[l.slot.k] == Sentinel)
        decreases keys
      {
        var k :| k in keys;
        keys := keys - {k};
        if pairs[k] == Sentinel {
          locations := locations + [Location(at, Key(k))];
        }
      }
    }

    method Scrub(v: Val, ghost t: Tree, ghost pend: set<Addr>) returns (out: Val, ghost x: Tree)
      requires Inv(Here(), Now(), pend) && Deep(Here(), pend, Depth(t))
      requires Den(heap, Fixed(Here(), Now(), pend), own, v, t)
      modifies this`heap, this`locations, this`reused
      ensures Went(Here(), old(Now()), Now(), pend, Depth(t))
      ensures Scrubbed(Here(), Now(), pend, out, t, x)
      decreases Depth(t), 5, 0
    {
      match v
      case Sentinel => return v, t;
      case NoneVal => return v, t;
      case Given => return v, t;
      case Text(_) => return v, t;
      case Number(_) => return v, t;
      case Ref(a) =>
        match heap[a]
        case ListObj(items) =>
          ghost var d := DepthOfItems(t.items);
          forall i | 0 <= i < |items| ensures Depth(t.items[i]) <= d {
            DepthOfItem(t.items, i);
          }
          out, x := ScrubList(items, t.items, d, pend);
        case DictObj(pairs) =>
          out, x := ScrubDictValue(a, t, pend);
        case CallObj(op, args, kwargs) =>
          out, x := ScrubCall(a, t, pend);
        case ResultsObj(named, tokens) =>
          out, x := ScrubResults(a, t, pend);
    }

    method ScrubList(items: seq<Val>, ghost ts: seq<Tree>, ghost d: nat, ghost pend: set<Addr>)
      returns (out: Val, ghost x: Tree)
      requires Inv(Here(), Now(), pend) && Deep(Here(), pend, d) && |items| == |ts|
      requires forall i :: 0 <= i < |items| ==>
        Den(heap, Fixed(Here(), Now(), pend), own, items[i], ts[i]) && Depth(ts[i]) <= d
      modifies this`heap, this`locations, this`reused
      ensures Went(Here(), old(Now()), Now(), pend, d)
      ensures Result(Here(), Now(), pend, out, Collapse(SimplifyItems(fmap, ts)), x) && YieldsList(fmap, ts, x)
      decreases d, 8, 0
    {
      hide Yields, Output, Fixed, Simplify, Deep;
      var outs; ghost var xs;
      outs, xs := ScrubItems(items, ts, d, pend);
      ghost var kept := SimplifyItems(fmap, ts);
      if |outs| == 0 {
        SoleYields(fmap, ts, xs);
        return NoneVal, TNone;
      } else if |outs| == 1 {
        SoleYields(fmap, ts, xs);
        return outs[0], xs[0];
      }
      ghost var s0 := Now();
      var at := |heap|;
      heap := heap + [ListObj(outs)];
      RecordList(at, outs);
      assert forall l: Location :: l.at < at ==> (l in locations <==> l in s0.locations);
      ListClosed(Here(), s0, Now(), pend, outs, kept, xs);
      FrameTransitive(Here(), old(Now()), s0, Now());
      SlotsYield(fmap, ts, xs);
      return Ref(at), TList(Slots(kept, xs));
    }

    method ScrubItems(items: seq<Val>, ghost ts: seq<Tree>, ghost d: nat, ghost pend: set<Addr>)
      returns (outs: seq<Val>, ghost xs: seq<Tree>)
      requires Inv(Here(), Now(), pend) && Deep(Here(), pend, d) && |items| == |ts|
      requires forall i :: 0 <= i < |items| ==>
        Den(heap, Fixed(Here(), Now(), pend), own, items[i], ts[i]) && Depth(ts[i]) <= d
      modifies this`heap, this`locations, this`reused
      ensures Went(Here(), old(Now()), Now(), pend, d)
      ensures ItemResults(Here(), Now(), pend, outs, SimplifyItems(fmap, ts), xs) && YieldsValues(fmap, ts, xs)
      decreases d, 7, |ts|
    {
      hide Den, Yields, Simplify, Output, Fixed, Result, Inv, Frame, Kept, Scrubbed, Went, ReusedBelow, ItemResults,
        YieldsValues, PairResults;
      if items == [] {
        WentNowhere(Here(), Now(), pend, d);
        NoItems(Here(), Now(), pend);
        return [], [];
      }
      ghost var s0 := Now();
      var out; ghost var x;
      out, x := Scrub(items[0], ts[0], pend);
      ghost var s1 := Now();
      WentDeeper(Here(), s0, s1, pend, Depth(ts[0]), d);
      WentInv(Here(), s0, s1, pend, d);
      forall i | 1 <= i < |items| ensures Den(heap, Fixed(Here(), Now(), pend), own, items[i], ts[i]) {
        InputFrame(Here(), s0, s1, pend, pend, items[i], ts[i]);
      }
      outs, xs := ScrubItems(items[1..], ts[1..], d, pend);
      WentThenWent(Here(), s0, s1, Now(), pend, d, d);
      ScrubbedFrame(Here(), s1, Now(), pend, d, out, ts[0], x);
      ItemsExtended(Here(), Now(), pend, ts, out, x, outs, xs);
      if out != NoneVal {
        outs, xs := [out] + outs, [x] + xs;
      }
    }

    method ScrubPairs(pairs: map<string, Val>, ghost m: map<string, Tree>, ghost d: nat, ghost pend: set<Addr>)
      returns (outs: map<string, Val>, ghost xm: map<string, Tree>)
      requires Inv(Here(), Now(), pend) && Deep(Here(), pend, d) && pairs.Keys == m.Keys
      requires forall k <- m :: Den(heap, Fixed(Here(), Now(), pend), own, pairs[k], m[k]) && Depth(m[k]) <= d
      modifies this`heap, this`locations, this`reused
      ensures Went(Here(), old(Now()), Now(), pend, d)
      ensures PairResults(Here(), Now(), pend, outs, m, xm)
      decreases d, 7, |m|
    {
      hide Den, Yields, Simplify, Output, Fixed, Result, Inv, Frame, Kept, Scrubbed, Went, ReusedBelow, ItemResults,
        YieldsValues, PairResults;
      if pairs == map[] {
        WentNowhere(Here(), Now(), pend, d);
        NoPairs(Here(), Now(), pend, m);
        return map[], map[];
      }
      ghost var s0 := Now();
      var k :| k in pairs;
      var out; ghost var x;
      out, x := Scrub(pairs[k], m[k], pend);
      ghost var s1 := Now();
      WentDeeper(Here(), s0, s1, pend, Depth(m[k]), d);
      ghost var rest := m - {k};
      WentInv(Here(), s0, s1, pend, d);
      forall j | j in rest ensures Den(heap, Fixed(Here(), Now(), pend), own, pairs[j], m[j]) {
        InputFrame(Here(), s0, s1, pend, pend, pairs[j], m[j]);
      }
      outs, xm := ScrubPairs(pairs - {k}, rest, d, pend);
      WentThenWent(Here(), s0, s1, Now(), pend, d, d);
      ScrubbedFrame(Here(), s1, Now(), pend, d, out, m[k], x);
      PairsExtended(Here(), Now(), pend, m, k, out, x, outs, xm);
      if out != NoneVal {
        outs, xm := outs[k := out], xm[k := x];
      }
    }

    /** The dict branch: an empty dict is returned itself, any other is rebuilt. */
    method ScrubDict(a: Addr, ghost m: map<string, Tree>, ghost d: nat, ghost pend: set<Addr>)
      returns (f: Addr, ghost ym: map<string, Tree>)
      requires Inv(Here(), Now(), pend) && Deep(Here(), pend, d)
      requires a < |heap| && heap[a].DictObj? && heap[a].pairs.Keys == m.Keys
      requires forall k <- m :: Den(heap, Fixed(Here(), Now(), pend), own, heap[a].pairs[k], m[k]) && Depth(m[k]) <= d
      modifies this`heap, this`locations, this`reused
      ensures Went(Here(), old(Now()), Now(), pend, d)
      ensures m == map[] ==> f == a && ym == map[] && Now() == old(Now())
      ensures m != map[] ==>
        && old(|heap|) <= f < |heap| && f !in pend && Inv(Here(), Now(), pend + {f})
        && OpenDict(Here(), Now(), pend, f, m, ym)
      decreases d, 8, 0
    {
      hide Den, Yields, Simplify, Output, Fixed, Result, Kept;
      if heap[a].pairs == map[] {
        return a, map[];
      }
      var outs; ghost var xm;
      outs, xm := ScrubPairs(heap[a].pairs, m, d, pend);
      ghost var s0 := Now();
      f := |heap|;
      heap := heap + [DictObj(outs)];
      RecordDict(f, outs);
      DictAllocated(Here(), s0, Now(), pend, outs);
      DictOpened(Here(), s0, Now(), pend, m, outs, xm);
      FrameTransitive(Here(), old(Now()), s0, Now());
      ym := EntrySlots(outs, xm);
    }

    method ScrubDictValue(a: Addr, ghost t: Tree, ghost pend: set<Addr>) returns (out: Val, ghost x: Tree)
      requires Inv(Here(), Now(), pend) && Deep(Here(), pend, Depth(t)) && t.TDict?
      requires Den(heap, Fixed(Here(), Now(), pend), own, Ref(a), t)
      modifies this`heap, this`locations, this`reused
      ensures Went(Here(), old(Now()), Now(), pend, Depth(t))
      ensures Scrubbed(Here(), Now(), pend, out, t, x)
      decreases Depth(t), 4, 0
    {
      hide Den, Yields, Simplify, Output, Fixed, Result, Inv, Frame, Kept, Scrubbed;
      var f; ghost var ym;
      DenOfDict(heap, Fixed(Here(), Now(), pend), own, a, t);
      ghost var d := DepthOfPairs(t, t.pairs);
      forall k | k in t.pairs ensures Depth(t.pairs[k]) <= d {
        DepthOfPair(t, t.pairs, k);
      }
      ghost var s0 := Now();
      f, ym := ScrubDict(a, t.pairs, d, pend);
      DictScrubbed(Here(), s0, Now(), pend, a, f, t, ym);
      return Ref(f), TDict(ym);
    }

    method ScrubResults(a: Addr, ghost t: Tree, ghost pend: set<Addr>) returns (out: Val, ghost x: Tree)
      requires Inv(Here(), Now(), pend) && Deep(Here(), pend, Depth(t)) && t.TResults?
      requires Den(heap, Fixed(Here(), Now(), pend), own, Ref(a), t)
      modifies this`heap, this`locations, this`reused
      ensures Went(Here(), old(Now()), Now(), pend, Depth(t))
      ensures Scrubbed(Here(), Now(), pend, out, t, x)
      decreases Depth(t), 4, 0
    {
      hide Den, Yields, Simplify, Output, Fixed, Result, Inv, Frame, Kept, Scrubbed;
      ghost var start := Now();
      DenOfResults(heap, Fixed(Here(), Now(), pend), own, a, t);
      var named, tokens := heap[a].named, heap[a].tokens;
      ghost var d := Max(DepthOfPairs(t, t.named), DepthOfItems(t.tokens));
      forall k | k in t.named ensures Depth(t.named[k]) <= d {
        DepthOfPair(t, t.named, k);
      }
      forall i | 0 <= i < |tokens| ensures Depth(t.tokens[i]) <= d {
        DepthOfItem(t.tokens, i);
      }
      var outs; ghost var xm;
      outs, xm := ScrubPairs(named, t.named, d, pend);
      ghost var s0 := Now();
      if outs != map[] {
        var f := |heap|;
        LocationsInHeap(Here(), s0, pend);
        heap := heap + [DictObj(outs)];
        RecordDict(f, outs);
        NamedScrubbed(Here(), start, s0, Now(), pend, d, t, outs, xm);
        return Ref(f), TDict(EntrySlots(outs, xm));
      } else {
        forall i | 0 <= i < |tokens| ensures Den(heap, Fixed(Here(), Now(), pend), own, tokens[i], t.tokens[i]) {
          InputFrame(Here(), start, s0, pend, pend, tokens[i], t.tokens[i]);
        }
        out, x := ScrubList(tokens, t.tokens, d, pend);
        TokensScrubbed(Here(), start, s0, Now(), pend, d, t, outs, xm, out, x);
      }
    }

    /** The patch loop: every recorded location is overwritten with the caller's value. */
    method Patch()
      requires forall l <- locations :: l.at < |heap| && SlotFits(heap[l.at], l.slot)
      modifies this`heap
      ensures heap == Patched(old(heap), locations)
    {
      PatchedByNone(heap);
      for i := 0 to |locations|
        invariant heap == Patched(old(heap), locations[..i])
      {
        var l := locations[i];
        PatchedByOneMore(old(heap), locations[..i], l);
        assert locations[..i + 1] == locations[..i] + [l];
        heap := heap[l.at := SetSlot(heap[l.at], l.slot)];
      }
      assert locations[..|locations|] == locations;
    }

    /**
      One line of SQL: simplification, then replacement of NULL. Whatever is shared in the parse
      result, the outcome is one of those its unfolding `t` can yield; it is the intended one exactly
      when `t` is clean: what the parse result gives if its calls are renamed first and nothing later, NULL
      replaced. Of the parse result only owned kwargs dicts change.
     */
    method ScrubLine(v: Val, ghost t: Tree) returns (out: Val, ghost x: Tree)
      requires Inv(Here(), Now(), {}) && locations == [] && reused == {} && base == |heap|
      requires Den(heap, Fixed(Here(), Now(), {}), own, v, t) && NoGiven(t)
      modifies this
      ensures |heap| >= old(|heap|) && forall a :: 0 <= a < old(|heap|) && a !in own ==> heap[a] == old(heap[a])
      ensures Simplify(fmap, t) == TSentinel ==> out == Sentinel
      ensures Simplify(fmap, t) != TSentinel ==>
        && Den(heap, Output(Here(), Now(), {}), own, out, x) && Yields(fmap, t, x)
        && (x == Fill(fmap, t) <==> Clean(fmap, t))
        && (UnfoldsTo(heap, own, out, Fill(fmap, t)) <==> Clean(fmap, t))
        && (UnfoldsTo(heap, own, out, Replace(Simplify(map[], RenameCalls(fmap, t)))) <==> Clean(fmap, t))
        && (WithoutNull(t) ==> UnfoldsTo(heap, own, out, Simplify(map[], RenameCalls(fmap, t))))
        && (Clean(fmap, t) ==> NoSentinel(x))
    {
      hide Den, Yields, Simplify, Clean, UnfoldsTo, Replace, RenameCalls, NoSentinel, Normal, Fixed, WithoutNull;
      ghost var s0 := Now();
      out, x := Scrub(v, t, {});
      ghost var s1 := Now();
      ReadyToPatch(Here(), s0, s1, out, t, x);
      Patch();
      assert Output(Here(), Now(), {}) == Output(Here(), s1, {});
      if Simplify(fmap, t) != TSentinel {
        YieldsFillIfClean(fmap, t, x);
        UnfoldsToFillIfClean(heap, Output(Here(), Now(), {}), own, out, fmap, t, x);
        SimplifyIsNormal(fmap, t);
        FillHasNoSentinel(Simplify(fmap, t));
      }
    }

    /** `simple_op`: the argument, or an empty dict for none, goes into the kwargs dict, which is the result. */
    method SimpleOp(op: string, args: Val, kwargs: Addr) returns (out: Val)
      requires kwargs < |heap| && heap[kwargs].DictObj?
      modifies this`heap
      ensures heap == WithArgument(old(heap), op, args, kwargs) && out == Ref(kwargs)
    {
      var value := args;
      if args == NoneVal {
        value := Ref(|heap|);
        heap := heap + [DictObj(map[])];
      }
      heap := heap[kwargs := DictObj(heap[kwargs].pairs[op := value])];
      out := Ref(kwargs);
    }

    method ScrubCall(a: Addr, ghost t: Tree, ghost pend: set<Addr>) returns (out: Val, ghost x: Tree)
      requires Inv(Here(), Now(), pend) && Deep(Here(), pend, Depth(t)) && t.TCall?
      requires Den(heap, Fixed(Here(), Now(), pend), own, Ref(a), t)
      modifies this`heap, this`locations, this`reused
      ensures Went(Here(), old(Now()), Now(), pend, Depth(t))
      ensures Scrubbed(Here(), Now(), pend, out, t, x)
      decreases Depth(t), 4, 0
    {
      hide Den, Yields, Simplify, Output, Fixed, Result, Inv, Frame, Kept, Scrubbed, Deep, OpenDict, ReusedBelow, Held,
        CallOutcome, Called, YieldsEntry, Stored, Went, OwnKwargs;
      ghost var s0 := Now();
      DenOfCall(heap, Fixed(Here(), s0, pend), own, a, t);
      var op, callArgs, callKwargs := heap[a].op, heap[a].args, heap[a].kwargs;
      ghost var held := Held(Here(), s0, callKwargs, t);
      HeldReadable(Here(), s0, pend, a, t);
      DeepBelow(Here(), pend, Depth(t), Depth(t) - 1);
      var kwargs; ghost var ym;
      kwargs, ym := ScrubDict(callKwargs, held, Depth(t) - 1, pend);
      ghost var s1 := Now();
      KwargsReady(Here(), s0, s1, pend, a, kwargs, t, ym);
      var args; ghost var xa;
      args, xa := Scrub(callArgs, t.args, pend + {kwargs});
      ghost var s2 := Now();
      KwargsStillOpen(Here(), s1, s2, pend, kwargs, t, held, ym);
      if args == Sentinel {
        locations := locations + [Location(kwargs, Key(op))];
      }
      out := SimpleOp(Renamed(fmap, op), args, kwargs);
      if kwargs in own {
        reused := reused + {kwargs};
      }
      OpenKeys(Here(), s2, pend, kwargs, held, ym);
      x := CallOutcome(fmap, s2.heap[kwargs].pairs, t, ym, xa);
      IsCalled(Here(), s2, Now(), kwargs, op, args);
      CallScrubbed(Here(), s0, s1, s2, Now(), pend, callKwargs, kwargs, t, args, xa, ym);
    }
  }

  /** The NULL of the caller is stored in one slot. */
  function SetSlot(o: Obj, slot: Slot): Obj
    requires SlotFits(o, slot)
  {
    match o
    case ListObj(items) => ListObj(items[slot.i := Given])
    case DictObj(pairs) => DictObj(pairs[slot.k := Given])
  }

  lemma PatchedByNone(h: seq<Obj>)
    ensures Patched(h, []) == h
  {
    forall a | 0 <= a < |h| ensures Patched(h, [])[a] == h[a] {
      assert KeysAt([], a) == {};
    }
  }

  lemma PatchedByOneMore(h: seq<Obj>, locs: seq<Location>, l: Location)
    requires l.at < |h| && SlotFits(h[l.at], l.slot)
    ensures SlotFits(Patched(h, locs)[l.at], l.slot)
    ensures Patched(h, locs + [l]) == Patched(h, locs)[l.at := SetSlot(Patched(h, locs)[l.at], l.slot)]
  {
    forall a | 0 <= a < |h|
      ensures PatchedObj(h[a], locs + [l], a) ==
        if a == l.at then SetSlot(Patched(h, locs)[a], l.slot) else Patched(h, locs)[a]
    {
      PatchedObjByOneMore(h[a], locs, l, a);
    }
  }

  lemma PatchedObjByOneMore(o: Obj, locs: seq<Location>, l: Location, a: Addr)
    requires l.at == a ==> SlotFits(o, l.slot)
    ensures l.at != a ==> PatchedObj(o, locs + [l], a) == PatchedObj(o, locs, a)
    ensures l.at == a ==>
        && SlotFits(PatchedObj(o, locs, a), l.slot)
        && PatchedObj(o, locs + [l], a) == SetSlot(PatchedObj(o, locs, a), l.slot)
  {
    match o
    case ListObj(items) => PatchedListByOneMore(items, locs, l, a);
    case DictObj(pairs) => PatchedDictByOneMore(pairs, locs, l, a);
    case _ =>
  }

  lemma PatchedListByOneMore(items: seq<Val>, locs: seq<Location>, l: Location, a: Addr)
    requires l.at == a ==> SlotFits(ListObj(items), l.slot)
    ensures var was, is_ := PatchedObj(ListObj(items), locs, a), PatchedObj(ListObj(items), locs + [l], a);
      && (l.at != a ==> is_ == was)
      && (l.at == a ==> SlotFits(was, l.slot) && is_ == SetSlot(was, l.slot))
  {
  }

  lemma PatchedDictByOneMore(pairs: map<string, Val>, locs: seq<Location>, l: Location, a: Addr)
    requires l.at == a ==> SlotFits(DictObj(pairs), l.slot)
    ensures var was, is_ := PatchedObj(DictObj(pairs), locs, a), PatchedObj(DictObj(pairs), locs + [l], a);
      && (l.at != a ==> is_ == was)
      && (l.at == a ==> SlotFits(was, l.slot) && is_ == SetSlot(was, l.slot))
  {
    hide KeysAt;
    KeysByOneMore(locs, l, a);
    var was, is_ := PatchedObj(DictObj(pairs), locs, a).pairs, PatchedObj(DictObj(pairs), locs + [l], a).pairs;
    if l.at == a {
      var k :| k in pairs;
      assert k in was;
      assert is_ == was[l.slot.k := Given];
    } else {
      assert is_ == was;
    }
  }

  lemma KeysByOneMore(locs: seq<Location>, l: Location, a: Addr)
    ensures KeysAt(locs + [l], a) == KeysAt(locs, a) + (if l.at == a && l.slot.Key? then {l.slot.k} else {})
  {
  }

  lemma ReadyToPatch(c: Line, s0: State, s1: State, v: Val, t: Tree, x: Tree)
    requires s0.reused == {} && s0.locations == [] && c.base == |s0.heap|
    requires Went(c, s0, s1, {}, Depth(t)) && Scrubbed(c, s1, {}, v, t, x)
    ensures forall l <- s1.locations :: l.at < |s1.heap| && SlotFits(s1.heap[l.at], l.slot)
    ensures |s1.heap| >= |s0.heap|
    ensures forall a :: 0 <= a < |s0.heap| && a !in c.own ==> Patched(s1.heap, s1.locations)[a] == s0.heap[a]
    ensures v == Sentinel <==> Simplify(c.fmap, t) == TSentinel
    ensures Den(Patched(s1.heap, s1.locations), Output(c, s1, {}), c.own, v, x) && Yields(c.fmap, t, x)
    ensures forall s: State :: s.heap == Patched(s1.heap, s1.locations) && s.reused == s1.reused ==>
      Output(c, s, {}) == Output(c, s1, {})
  {
    Recognised(c.own, s1.heap, Output(c, s1, {}), v, Simplify(c.fmap, t));
    hide Den, Yields, Simplify, ReusedOk, Output, Patched;
    forall a | 0 <= a < |s0.heap| && a !in c.own ensures Patched(s1.heap, s1.locations)[a] == s0.heap[a] {
      InputUntouched(c, s0, s1, a);
    }
    forall s: State | s.heap == Patched(s1.heap, s1.locations) && s.reused == s1.reused
      ensures Output(c, s, {}) == Output(c, s1, {})
    {
      OutputAfterPatch(c, s0, s1, s);
    }
  }

  lemma OutputAfterPatch(c: Line, s0: State, s1: State, s: State)
    requires Frame(c, s0, s1) && s0.locations == [] && c.base == |s0.heap|
    requires s.heap == Patched(s1.heap, s1.locations) && s.reused == s1.reused
    ensures Output(c, s, {}) == Output(c, s1, {})
  {
    forall a | 0 <= a < c.base && a !in c.own ensures s.heap[a] == s1.heap[a] {
      InputUntouched(c, s0, s1, a);
    }
  }

  lemma InputUntouched(c: Line, s0: State, s1: State, a: Addr)
    requires Frame(c, s0, s1) && s0.locations == [] && a < |s0.heap| && a !in c.own
    ensures s1.heap[a] == s0.heap[a] && Patched(s1.heap, s1.locations)[a] == s0.heap[a]
  {
    PatchedFrame(c, s0, s1, a);
    PatchedByNone(s0.heap);
  }

  /** The heap after `simple_op`. */
  function WithArgument(h: seq<Obj>, op: string, args: Val, kwargs: Addr): (r: seq<Obj>)
    requires kwargs < |h| && h[kwargs].DictObj?
  {
    var value := if args == NoneVal then Ref(|h|) else args;
    var h' := if args == NoneVal then h + [DictObj(map[])] else h;
    h'[kwargs := DictObj(h[kwargs].pairs[op := value])]
  }

  /**
    What the kwargs dict of a call unfolds to when the call is reached: the argument, if an earlier
    visit stored it.
   */
  ghost function Held(c: Line, s: State, kwargs: Addr, t: Tree): map<string, Tree>
    requires t.TCall?
  {
    if t.kwargs != map[] then t.kwargs
    else if kwargs in s.reused then map[Renamed(c.fmap, t.op) := Stored(Simplify(c.fmap, t.args))]
    else map[]
  }

  lemma DeepBelow(c: Line, pend: set<Addr>, d: nat, d': nat)
    requires Deep(c, pend, d) && d' <= d
    ensures Deep(c, pend, d')
  {
  }

  lemma HeldReadable(c: Line, s: State, pend: set<Addr>, a: Addr, t: Tree)
    requires Inv(c, s, pend) && t.TCall? && Den(s.heap, Fixed(c, s, pend), c.own, Ref(a), t)
    requires a < |s.heap| && s.heap[a].CallObj?
    ensures var kwargs := s.heap[a].kwargs;
      && kwargs < |s.heap| && s.heap[kwargs].DictObj?
      && var held := Held(c, s, kwargs, t);
      && s.heap[kwargs].pairs.Keys == held.Keys
      && forall k <- held ::
           Den(s.heap, Fixed(c, s, pend), c.own, s.heap[kwargs].pairs[k], held[k]) && Depth(held[k]) <= Depth(t) - 1
  {
    var kwargs := s.heap[a].kwargs;
    if t.kwargs != map[] {
      forall k | k in t.kwargs ensures Depth(t.kwargs[k]) <= Depth(t) - 1 {
        DepthOfPair(t, t.kwargs, k);
      }
    } else if kwargs in s.reused {
      var name := Renamed(c.fmap, t.op);
      assert ReusedOk(c, s, pend, kwargs);
      assert Output(c, s, pend) <= Fixed(c, s, pend);
      DenFrame(s.heap, Output(c, s, pend), c.own, s.heap, Fixed(c, s, pend),
        s.heap[kwargs].pairs[name], Stored(Simplify(c.fmap, t.args)));
      SimplifyKeepsDepth(c.fmap, t.args);
      StoredKeepsDepth(Simplify(c.fmap, t.args));
    }
  }

  lemma StoredKeepsDepth(t: Tree)
    ensures Depth(Stored(t)) <= Depth(t)
  {
    if t == TNone {
      DepthOfPairsAtMost(TDict(map[]), map[], 0);
    }
  }

  /** The kwargs dict is open, whichever way it came about, and the arguments can still be read. */
  lemma KwargsReady(
    c: Line, s0: State, s1: State, pend: set<Addr>, a: Addr, f: Addr, t: Tree, ym: map<string, Tree>)
    requires Inv(c, s0, pend) && Deep(c, pend, Depth(t)) && t.TCall?
    requires Den(s0.heap, Fixed(c, s0, pend), c.own, Ref(a), t) && a < |s0.heap| && s0.heap[a].CallObj?
    requires Went(c, s0, s1, pend, Depth(t) - 1)
    requires var held := Held(c, s0, s0.heap[a].kwargs, t);
      && (held == map[] ==> f == s0.heap[a].kwargs && ym == map[] && s1 == s0)
      && (held != map[] ==>
            |s0.heap| <= f < |s1.heap| && f !in pend && Inv(c, s1, pend + {f}) && OpenDict(c, s1, pend, f, held, ym))
    ensures Inv(c, s1, pend + {f}) && f !in pend && f < |s1.heap| && s1.heap[f].DictObj?
    ensures OpenDict(c, s1, pend, f, Held(c, s0, s0.heap[a].kwargs, t), ym)
    ensures Den(s1.heap, Fixed(c, s1, pend + {f}), c.own, s0.heap[a].args, t.args)
    ensures Deep(c, pend + {f}, Depth(t.args))
    ensures OwnKwargs(c, s0, f, t, Held(c, s0, s0.heap[a].kwargs, t))
    ensures f in c.own ==> Held(c, s0, s0.heap[a].kwargs, t) == map[]
  {
    hide Den, Simplify, Kept, Output, Frame, Deep, Fixed;
    var held := Held(c, s0, s0.heap[a].kwargs, t);
    DenOfCall(s0.heap, Fixed(c, s0, pend), c.own, a, t);
    assert s0.heap[a].kwargs in s0.reused && t.kwargs == map[] ==> Renamed(c.fmap, t.op) in held;
    if held == map[] {
      OwnDictReady(c, s0, pend, f, t);
    }
    DeepWithKwargs(c, s0, pend, f, t, held);
    hide OpenDict;
    InputFrame(c, s0, s1, pend, pend + {f}, s0.heap[a].args, t.args);
  }

  lemma OwnDictReady(c: Line, s: State, pend: set<Addr>, f: Addr, t: Tree)
    requires Inv(c, s, pend) && Deep(c, pend, Depth(t)) && t.TCall?
    requires f in c.own && f !in s.reused && c.own[f] == Owner(t.op, t.args)
    ensures f !in pend && f < |s.heap| && s.heap[f] == DictObj(map[])
    ensures Inv(c, s, pend + {f}) && OpenDict(c, s, pend, f, map[], map[])
  {
    hide Den, ReusedOk;
    InvStep(c, s, s, pend, pend + {f});
    assert Kept(c.fmap, map[]) == map[];
  }

  lemma DeepWithKwargs(c: Line, s: State, pend: set<Addr>, f: Addr, t: Tree, held: map<string, Tree>)
    requires t.TCall? && Deep(c, pend, Depth(t)) && OwnKwargs(c, s, f, t, held)
    ensures Deep(c, pend + {f}, Depth(t.args))
  {
  }

  /** Either the call's own, still empty dict, or a new one. */
  ghost predicate OwnKwargs(c: Line, s: State, f: Addr, t: Tree, held: map<string, Tree>)
    requires t.TCall?
  {
    if f in c.own then
      f !in s.reused && f < |s.heap| && c.own[f] == Owner(t.op, t.args) && held == map[] && t.kwargs == map[]
    else f >= |s.heap|
  }

  lemma KwargsStillOpen(
    c: Line, s1: State, s2: State, pend: set<Addr>, f: Addr, t: Tree, held: map<string, Tree>, ym: map<string, Tree>)
    requires t.TCall? && OpenDict(c, s1, pend, f, held, ym) && (f in c.own ==> held == map[])
    requires Inv(c, s1, pend + {f}) && Went(c, s1, s2, pend + {f}, Depth(t.args))
    ensures Inv(c, s2, pend + {f}) && OpenDict(c, s2, pend, f, held, ym)
    ensures f < |s2.heap| && s2.heap[f].DictObj?
  {
    if f in c.own {
      assert Kept(c.fmap, held) == map[];
    } else {
      KeptIsPart(c.fmap, held);
      forall k | k in s1.heap[f].pairs
        ensures OpenEntry(c, s2, pend + {f}, f, k, s2.heap[f].pairs[k], held[k], ym[k])
      {
        EntryStillOpen(c, s1, s2, pend, f, k, s1.heap[f].pairs[k], held[k], ym[k]);
      }
    }
  }

  lemma EntryStillOpen(
    c: Line, s1: State, s2: State, pend: set<Addr>, f: Addr, k: string, v: Val, t: Tree, y: Tree)
    requires OpenEntry(c, s1, pend + {f}, f, k, v, t, y) && f !in c.own && f < |s1.heap|
    requires Inv(c, s1, pend + {f}) && Inv(c, s2, pend + {f}) && Frame(c, s1, s2)
    ensures OpenEntry(c, s2, pend + {f}, f, k, v, t, y)
  {
    if v == Sentinel {
      assert Location(f, Key(k)).at == f;
    } else {
      ResultFrame(c, s1, s2, pend + {f}, pend + {f}, v, Simplify(c.fmap, t), y);
    }
  }

  /** From `s2` to `s3` the argument is stored and, when it is NULL, recorded under the operator's own name. */
  ghost predicate Called(c: Line, s2: State, s3: State, f: Addr, op: string, args: Val) {
    && f < |s2.heap| && s2.heap[f].DictObj?
    && s3.heap == WithArgument(s2.heap, Renamed(c.fmap, op), args, f)
    && s3.reused == s2.reused + (if f in c.own then {f} else {})
    && s3.locations == s2.locations + (if args == Sentinel then [Location(f, Key(op))] else [])
  }

  lemma IsCalled(c: Line, s2: State, s3: State, f: Addr, op: string, args: Val)
    requires f < |s2.heap| && s2.heap[f].DictObj?
    requires s3.heap == WithArgument(s2.heap, Renamed(c.fmap, op), args, f)
    requires s3.reused == if f in c.own then s2.reused + {f} else s2.reused
    requires s3.locations == if args == Sentinel then s2.locations + [Location(f, Key(op))] else s2.locations
    ensures Called(c, s2, s3, f, op, args)
  {
  }

  lemma OpenKeys(c: Line, s: State, pend: set<Addr>, f: Addr, m: map<string, Tree>, ym: map<string, Tree>)
    requires OpenDict(c, s, pend, f, m, ym)
    ensures f < |s.heap| && s.heap[f].DictObj? && s.heap[f].pairs.Keys == ym.Keys
  {
  }

  lemma CalledElsewhere(c: Line, s2: State, s3: State, pend: set<Addr>, f: Addr, op: string, args: Val)
    requires Inv(c, s2, pend + {f}) && Called(c, s2, s3, f, op, args) && (f in c.own || f >= c.base) && f !in pend
    ensures |s2.heap| <= |s3.heap| && forall a :: 0 <= a < |s2.heap| && a != f ==> s3.heap[a] == s2.heap[a]
    ensures forall l: Location :: l.at != f ==> (l in s3.locations <==> l in s2.locations)
    ensures Output(c, s2, pend + {f}) <= Output(c, s3, pend) && f in Output(c, s3, pend)
  {
  }

  lemma CalledPatched(c: Line, s2: State, s3: State, f: Addr, a: Addr)
    requires a < |s2.heap| <= |s3.heap| && a != f && s3.heap[a] == s2.heap[a]
    requires forall l: Location :: l.at != f ==> (l in s3.locations <==> l in s2.locations)
    ensures Patched(s3.heap, s3.locations)[a] == Patched(s2.heap, s2.locations)[a]
  {
    assert forall k :: Location(a, Key(k)).at == a;
    assert forall i :: Location(a, Index(i)).at == a;
    assert KeysAt(s3.locations, a) == KeysAt(s2.locations, a);
    assert PatchedObj(s2.heap[a], s3.locations, a) == PatchedObj(s2.heap[a], s2.locations, a);
  }

  lemma CalledRaw(
    c: Line, s2: State, s3: State, pend: set<Addr>, f: Addr, op: string, args: Val, v: Val, t: Tree)
    requires Inv(c, s2, pend + {f}) && Called(c, s2, s3, f, op, args) && (f in c.own || f >= c.base) && f !in pend
    requires Den(s2.heap, Output(c, s2, pend + {f}), c.own, v, t)
    ensures Den(s3.heap, Output(c, s3, pend), c.own, v, t)
  {
    CalledElsewhere(c, s2, s3, pend, f, op, args);
    DenFrame(s2.heap, Output(c, s2, pend + {f}), c.own, s3.heap, Output(c, s3, pend), v, t);
  }

  lemma CalledOverwritten(
    c: Line, s2: State, s3: State, pend: set<Addr>, f: Addr, op: string, args: Val, v: Val, x: Tree)
    requires Inv(c, s2, pend + {f}) && Called(c, s2, s3, f, op, args) && (f in c.own || f >= c.base) && f !in pend
    requires Den(Patched(s2.heap, s2.locations), Output(c, s2, pend + {f}), c.own, v, x)
    ensures Den(Patched(s3.heap, s3.locations), Output(c, s3, pend), c.own, v, x)
  {
    hide Den, Patched, Called, Inv, Output;
    var p2, p3 := Patched(s2.heap, s2.locations), Patched(s3.heap, s3.locations);
    var o, o' := Output(c, s2, pend + {f}), Output(c, s3, pend);
    CalledOutput(c, s2, s3, pend, f, op, args);
    OwnedStayDicts(c, s2, s3, pend, f, op, args);
    DenFrame(p2, o, c.own, p3, o', v, x);
  }

  lemma CalledOutput(c: Line, s2: State, s3: State, pend: set<Addr>, f: Addr, op: string, args: Val)
    requires Inv(c, s2, pend + {f}) && Called(c, s2, s3, f, op, args) && (f in c.own || f >= c.base) && f !in pend
    ensures Output(c, s2, pend + {f}) <= Output(c, s3, pend) && |s2.heap| <= |s3.heap|
    ensures forall a <- Output(c, s2, pend + {f}) ::
      a < |s2.heap| && Patched(s3.heap, s3.locations)[a] == Patched(s2.heap, s2.locations)[a]
  {
    CalledElsewhere(c, s2, s3, pend, f, op, args);
    forall a | a in Output(c, s2, pend + {f})
      ensures a < |s2.heap| && Patched(s3.heap, s3.locations)[a] == Patched(s2.heap, s2.locations)[a]
    {
      CalledPatched(c, s2, s3, f, a);
    }
  }

  lemma OwnedStayDicts(c: Line, s2: State, s3: State, pend: set<Addr>, f: Addr, op: string, args: Val)
    requires Inv(c, s2, pend + {f}) && Called(c, s2, s3, f, op, args) && (f in c.own || f >= c.base) && f !in pend
    requires |s2.heap| <= |s3.heap|
    ensures forall a <- c.own :: a < |s2.heap| && Patched(s2.heap, s2.locations)[a].DictObj? ==>
      Patched(s3.heap, s3.locations)[a].DictObj?
  {
    CalledElsewhere(c, s2, s3, pend, f, op, args);
  }

  /** The stored value and its two unfoldings. */
  ghost predicate Argument(c: Line, s3: State, pend: set<Addr>, value: Val, t: Tree, x: Tree) {
    && Den(s3.heap, Output(c, s3, pend), c.own, value, Stored(Simplify(c.fmap, t)))
    && (value != Sentinel ==> Den(Patched(s3.heap, s3.locations), Output(c, s3, pend), c.own, value, x))
  }

  lemma CalledArgument(
    c: Line, s2: State, s3: State, pend: set<Addr>, f: Addr, op: string, args: Val, t: Tree, xa: Tree)
    requires Inv(c, s2, pend + {f}) && Called(c, s2, s3, f, op, args) && (f in c.own || f >= c.base) && f !in pend
    requires Scrubbed(c, s2, pend + {f}, args, t, xa)
    ensures args == Sentinel <==> ArgIsNull(c.fmap, t)
    ensures args == NoneVal <==> Simplify(c.fmap, t) == TNone
    ensures var value := if args == NoneVal then Ref(|s2.heap|) else args;
      Argument(c, s3, pend, value, t, if args == NoneVal then TDict(map[]) else xa)
  {
    Recognised(c.own, s2.heap, Output(c, s2, pend + {f}), args, Simplify(c.fmap, t));
    if args == NoneVal {
      NewEmptyDict(c, s2, s3, pend, f, op);
    } else {
      CalledRaw(c, s2, s3, pend, f, op, args, args, Simplify(c.fmap, t));
      if args != Sentinel {
        CalledOverwritten(c, s2, s3, pend, f, op, args, args, xa);
      }
    }
  }

  lemma NewEmptyDict(c: Line, s2: State, s3: State, pend: set<Addr>, f: Addr, op: string)
    requires Inv(c, s2, pend + {f}) && Called(c, s2, s3, f, op, NoneVal)
    ensures Den(s3.heap, Output(c, s3, pend), c.own, Ref(|s2.heap|), TDict(map[]))
    ensures Den(Patched(s3.heap, s3.locations), Output(c, s3, pend), c.own, Ref(|s2.heap|), TDict(map[]))
  {
    var e := |s2.heap|;
    assert s3.heap[e] == DictObj(map[]);
    assert forall l <- s3.locations :: l.at != e;
    assert KeysAt(s3.locations, e) == {};
    assert Patched(s3.heap, s3.locations)[e] == PatchedObj(DictObj(map[]), s3.locations, e);
    assert Patched(s3.heap, s3.locations)[e].pairs == map[];
  }

  ghost predicate LocationsFit(c: Line, s: State) {
    forall l <- s.locations ::
      l.at < |s.heap| && (l.at >= c.base || l.at in s.reused) && SlotFits(s.heap[l.at], l.slot)
  }

  lemma CalledSlots(c: Line, s2: State, s3: State, pend: set<Addr>, f: Addr, op: string, args: Val)
    requires Inv(c, s2, pend + {f}) && Called(c, s2, s3, f, op, args) && (f in c.own || f >= c.base) && f !in pend
    requires forall l <- s2.locations :: l.at == f ==> l.slot.Key?
    ensures LocationsFit(c, s3)
    ensures c.base <= |s3.heap| && s3.reused <= c.own.Keys && s3.reused !! pend
    ensures forall a <- pend :: a < |s3.heap|
    ensures forall a <- c.own :: a < c.base && (a !in s3.reused ==> s3.heap[a] == DictObj(map[]))
  {
    CalledElsewhere(c, s2, s3, pend, f, op, args);
    assert Renamed(c.fmap, op) in s3.heap[f].pairs;
    forall l | l in s3.locations
      ensures l.at < |s3.heap| && (l.at >= c.base || l.at in s3.reused) && SlotFits(s3.heap[l.at], l.slot)
    {
      assert l in s2.locations || l == Location(f, Key(op));
    }
  }

  lemma CalledInv(
    c: Line, s0: State, s2: State, s3: State, pend: set<Addr>, f: Addr, t: Tree, held: map<string, Tree>,
    ym: map<string, Tree>, args: Val, xa: Tree)
    requires t.TCall? && Inv(c, s2, pend + {f}) && Called(c, s2, s3, f, t.op, args) && f !in pend
    requires c.base <= |s0.heap| && OwnKwargs(c, s0, f, t, held) && OpenDict(c, s2, pend, f, held, ym)
    requires Scrubbed(c, s2, pend + {f}, args, t.args, xa)
    ensures Inv(c, s3, pend)
  {
    assert forall l <- s2.locations :: l.at == f ==> RecordedKey(s2.heap[f].pairs, l.slot);
    CalledSlots(c, s2, s3, pend, f, t.op, args);
    forall a | a in s3.reused ensures a in c.own && a < |s3.heap| && ReusedOk(c, s3, pend, a) {
      hide *;
      CalledReused(c, s0, s2, s3, pend, f, t, held, ym, args, xa, a);
    }
    hide Den, Yields, Simplify, Output, Scrubbed, ReusedOk, Kept, OpenDict, SlotFits, Called;
  }

  lemma CalledReused(
    c: Line, s0: State, s2: State, s3: State, pend: set<Addr>, f: Addr, t: Tree, held: map<string, Tree>,
    ym: map<string, Tree>, args: Val, xa: Tree, a: Addr)
    requires t.TCall? && Inv(c, s2, pend + {f}) && Called(c, s2, s3, f, t.op, args) && f !in pend
    requires c.base <= |s0.heap| && OwnKwargs(c, s0, f, t, held) && OpenDict(c, s2, pend, f, held, ym)
    requires Scrubbed(c, s2, pend + {f}, args, t.args, xa)
    requires a in s3.reused
    ensures a in c.own && a < |s3.heap| && ReusedOk(c, s3, pend, a)
  {
    if a == f {
      OwnDictCalled(c, s0, s2, s3, pend, f, t, held, ym, args, xa);
    } else {
      hide Den, Yields, Simplify, Output, Scrubbed, Kept, OpenDict, SlotFits;
      assert ReusedOk(c, s2, pend + {f}, a);
      var name := Renamed(c.fmap, c.own[a].op);
      CalledElsewhere(c, s2, s3, pend, f, t.op, args);
      CalledRaw(c, s2, s3, pend, f, t.op, args, s2.heap[a].pairs[name], Stored(Simplify(c.fmap, c.own[a].args)));
    }
  }

  /** The owned dict itself, now holding the argument. */
  lemma OwnDictCalled(
    c: Line, s0: State, s2: State, s3: State, pend: set<Addr>, f: Addr, t: Tree, held: map<string, Tree>,
    ym: map<string, Tree>, args: Val, xa: Tree)
    requires t.TCall? && Inv(c, s2, pend + {f}) && Called(c, s2, s3, f, t.op, args) && f !in pend
    requires c.base <= |s0.heap| && OwnKwargs(c, s0, f, t, held) && OpenDict(c, s2, pend, f, held, ym)
    requires Scrubbed(c, s2, pend + {f}, args, t.args, xa)
    requires f in s3.reused
    ensures f in c.own && f < |s3.heap| && ReusedOk(c, s3, pend, f)
  {
    hide Den, Yields, Simplify, Output, Scrubbed, SlotFits;
    CalledArgument(c, s2, s3, pend, f, t.op, args, t.args, xa);
    assert Kept(c.fmap, held) == map[];
    assert s2.heap[f].pairs == map[];
  }

  lemma CalledFrame(
    c: Line, s0: State, s2: State, s3: State, pend: set<Addr>, f: Addr, t: Tree, held: map<string, Tree>, args: Val)
    requires t.TCall? && Inv(c, s2, pend + {f}) && Called(c, s2, s3, f, t.op, args) && f !in pend
    requires c.base <= |s0.heap| && OwnKwargs(c, s0, f, t, held) && Frame(c, s0, s2)
    ensures Frame(c, s0, s3)
  {
    CalledElsewhere(c, s2, s3, pend, f, t.op, args);
    assert s2.reused <= s3.reused;
    hide Called, Inv;
  }

  lemma CalledWent(
    c: Line, s0: State, s1: State, s2: State, s3: State, pend: set<Addr>, f: Addr, t: Tree,
    held: map<string, Tree>, args: Val)
    requires t.TCall? && Inv(c, s2, pend + {f}) && Inv(c, s3, pend) && Called(c, s2, s3, f, t.op, args) && f !in pend
    requires Inv(c, s0, pend) && OwnKwargs(c, s0, f, t, held)
    requires Went(c, s0, s1, pend, Depth(t) - 1) && Went(c, s1, s2, pend + {f}, Depth(t.args))
    ensures Went(c, s0, s3, pend, Depth(t))
  {
    hide Called, Frame, Inv, Depth;
    WentInv(c, s0, s1, pend, Depth(t) - 1);
    WentInv(c, s1, s2, pend + {f}, Depth(t.args));
    FrameTransitive(c, s0, s1, s2);
    BaseInHeap(c, s0, pend);
    CalledFrame(c, s0, s2, s3, pend, f, t, held, args);
    CalledReuse(c, s0, s1, s2, s3, pend, f, t, held, args);
  }

  lemma BaseInHeap(c: Line, s: State, pend: set<Addr>)
    requires Inv(c, s, pend)
    ensures c.base <= |s.heap| && s.reused <= c.own.Keys
  {
  }

  lemma CalledReuse(
    c: Line, s0: State, s1: State, s2: State, s3: State, pend: set<Addr>, f: Addr, t: Tree,
    held: map<string, Tree>, args: Val)
    requires t.TCall? && Called(c, s2, s3, f, t.op, args) && OwnKwargs(c, s0, f, t, held)
    requires Inv(c, s3, pend) && Went(c, s0, s1, pend, Depth(t) - 1) && Went(c, s1, s2, pend + {f}, Depth(t.args))
    ensures s3.reused <= c.own.Keys && ReusedBelow(c, s0, s3, Depth(t))
  {
    BaseInHeap(c, s1, pend);
    BaseInHeap(c, s2, pend + {f});
    BaseInHeap(c, s3, pend);
    assert s3.reused == s2.reused + (if f in c.own then {f} else {});
    hide Called, Frame, Inv;
    forall a | a in s3.reused && a !in s0.reused ensures Depth(c.own[a].args) < Depth(t) {
      assert a in s2.reused || a == f;
      assert a in s2.reused ==> a in s1.reused || Depth(c.own[a].args) < Depth(t.args);
    }
  }

  /** The dict of a call after overwriting. `pairs` is the kwargs dict before the argument went in. */
  ghost function CallOutcome(
    fmap: Renaming, pairs: map<string, Val>, t: Tree, ym: map<string, Tree>, xa: Tree): Tree
    requires t.TCall? && pairs.Keys == ym.Keys
  {
    var name := Renamed(fmap, t.op);
    var isNull := ArgIsNull(fmap, t.args);
    TDict(map k | k in ym.Keys + {name} + (if isNull then {t.op} else {}) :: OutcomeEntry(fmap, pairs, t, ym, xa, k))
  }

  ghost function OutcomeEntry(
    fmap: Renaming, pairs: map<string, Val>, t: Tree, ym: map<string, Tree>, xa: Tree, k: string): Tree
    requires t.TCall? && pairs.Keys == ym.Keys
    requires k in ym || k == Renamed(fmap, t.op) || (ArgIsNull(fmap, t.args) && k == t.op)
  {
    if NullPair(pairs, k) || (ArgIsNull(fmap, t.args) && k == t.op) then TGiven
    else if k == Renamed(fmap, t.op) then CallValue(fmap, t.args, xa)
    else ym[k]
  }

  predicate NullPair(pairs: map<string, Val>, k: string) {
    k in pairs && pairs[k] == Sentinel
  }

  ghost function CallValue(fmap: Renaming, args: Tree, xa: Tree): Tree {
    if ArgIsNull(fmap, args) then TSentinel else if Simplify(fmap, args) == TNone then TDict(map[]) else xa
  }

  /** Where the dict of a call has recorded entries. */
  lemma CallLocations(
    c: Line, s2: State, s3: State, pend: set<Addr>, f: Addr, t: Tree, held: map<string, Tree>, ym: map<string, Tree>,
    args: Val, k: string)
    requires t.TCall? && Called(c, s2, s3, f, t.op, args) && OpenDict(c, s2, pend, f, held, ym)
    requires args == Sentinel <==> ArgIsNull(c.fmap, t.args)
    ensures Location(f, Key(k)) in s3.locations <==>
      NullPair(s2.heap[f].pairs, k) || (ArgIsNull(c.fmap, t.args) && k == t.op)
  {
    var l := Location(f, Key(k));
    assert l.at == f && l.slot.k == k;
    if NullPair(s2.heap[f].pairs, k) {
      assert OpenEntry(c, s2, pend + {f}, f, k, s2.heap[f].pairs[k], held[k], ym[k]);
    }
  }

  lemma CallRaw(
    c: Line, s2: State, s3: State, pend: set<Addr>, f: Addr, t: Tree, held: map<string, Tree>, ym: map<string, Tree>,
    args: Val, xa: Tree)
    requires t.TCall? && Inv(c, s2, pend + {f}) && Called(c, s2, s3, f, t.op, args) && f !in pend
    requires (f in c.own || f >= c.base) && OpenDict(c, s2, pend, f, held, ym)
    requires Scrubbed(c, s2, pend + {f}, args, t.args, xa)
    ensures Den(s3.heap, Output(c, s3, pend), c.own, Ref(f),
      TDict(Kept(c.fmap, held)[Renamed(c.fmap, t.op) := Stored(Simplify(c.fmap, t.args))]))
  {
    hide Den, Yields, Simplify, Output, Fixed, Inv, Scrubbed, OpenEntry, Kept;
    var name := Renamed(c.fmap, t.op);
    var pairs := s2.heap[f].pairs;
    var value := if args == NoneVal then Ref(|s2.heap|) else args;
    var m := Kept(c.fmap, held)[name := Stored(Simplify(c.fmap, t.args))];
    CalledElsewhere(c, s2, s3, pend, f, t.op, args);
    CalledArgument(c, s2, s3, pend, f, t.op, args, t.args, xa);
    KeptIsPart(c.fmap, held);
    forall k | k in m ensures Den(s3.heap, Output(c, s3, pend), c.own, pairs[name := value][k], m[k]) {
      if k != name {
        OpenEntryRaw(c, s2, pend, f, k, pairs[k], held, ym[k]);
        CalledRaw(c, s2, s3, pend, f, t.op, args, pairs[k], Kept(c.fmap, held)[k]);
      }
    }
    DenDict(s3.heap, Output(c, s3, pend), c.own, f, pairs[name := value], m);
  }

  lemma OpenEntryRaw(
    c: Line, s: State, pend: set<Addr>, f: Addr, k: string, v: Val, m: map<string, Tree>, y: Tree)
    requires k in Kept(c.fmap, m) && k in m && OpenEntry(c, s, pend + {f}, f, k, v, m[k], y)
    ensures Den(s.heap, Output(c, s, pend + {f}), c.own, v, Kept(c.fmap, m)[k])
  {
  }

  lemma CallOverwritten(
    c: Line, s2: State, s3: State, pend: set<Addr>, f: Addr, t: Tree, held: map<string, Tree>, ym: map<string, Tree>,
    args: Val, xa: Tree)
    requires t.TCall? && Inv(c, s2, pend + {f}) && Called(c, s2, s3, f, t.op, args) && f !in pend
    requires (f in c.own || f >= c.base) && OpenDict(c, s2, pend, f, held, ym)
    requires Scrubbed(c, s2, pend + {f}, args, t.args, xa)
    ensures Den(Patched(s3.heap, s3.locations), Output(c, s3, pend), c.own, Ref(f),
      CallOutcome(c.fmap, s2.heap[f].pairs, t, ym, xa))
  {
    var p := Patched(s3.heap, s3.locations);
    var x := CallOutcome(c.fmap, s2.heap[f].pairs, t, ym, xa);
    CalledElsewhere(c, s2, s3, pend, f, t.op, args);
    CallPatchedKeys(c, s2, s3, pend, f, t, held, ym, args, xa);
    forall k | k in x.pairs ensures Den(p, Output(c, s3, pend), c.own, p[f].pairs[k], x.pairs[k]) {
      CallOverwrittenEntry(c, s2, s3, pend, f, t, held, ym, args, xa, k);
    }
  }

  lemma CallPatchedKeys(
    c: Line, s2: State, s3: State, pend: set<Addr>, f: Addr, t: Tree, held: map<string, Tree>, ym: map<string, Tree>,
    args: Val, xa: Tree)
    requires t.TCall? && Inv(c, s2, pend + {f}) && Called(c, s2, s3, f, t.op, args) && f !in pend
    requires (f in c.own || f >= c.base) && OpenDict(c, s2, pend, f, held, ym)
    requires Scrubbed(c, s2, pend + {f}, args, t.args, xa)
    ensures f < |s3.heap| && s3.heap[f].DictObj?
    ensures Patched(s3.heap, s3.locations)[f] == PatchedObj(s3.heap[f], s3.locations, f)
    ensures Patched(s3.heap, s3.locations)[f].DictObj?
    ensures Patched(s3.heap, s3.locations)[f].pairs.Keys == CallOutcome(c.fmap, s2.heap[f].pairs, t, ym, xa).pairs.Keys
  {
    hide Den, Yields, Simplify, Output, Fixed, Inv, Scrubbed, OpenEntry, Kept, CallValue;
    CalledArgument(c, s2, s3, pend, f, t.op, args, t.args, xa);
    forall k ensures k in KeysAt(s3.locations, f) <==>
      NullPair(s2.heap[f].pairs, k) || (ArgIsNull(c.fmap, t.args) && k == t.op)
    {
      KeyAtLocation(s3.locations, f, k);
      CallLocations(c, s2, s3, pend, f, t, held, ym, args, k);
    }
    OpenKeys(c, s2, pend, f, held, ym);
    CalledKeys(c, s2, s3, f, t.op, args);
    OutcomeAt(c.fmap, s2.heap[f].pairs, t, ym, xa, t.op);
    hide OpenDict, Called, CallOutcome, Argument, KeysAt, ArgIsNull;
    NullKeys(s2.heap[f].pairs, KeysAt(s3.locations, f), Renamed(c.fmap, t.op), t.op, ArgIsNull(c.fmap, t.args));
  }

  lemma NullKeys(pairs: map<string, Val>, recorded: set<string>, name: string, op: string, argIsNull: bool)
    requires forall k :: k in recorded <==> NullPair(pairs, k) || (argIsNull && k == op)
    ensures pairs.Keys + {name} + recorded == pairs.Keys + {name} + (if argIsNull then {op} else {})
  {
  }

  lemma KeyAtLocation(locs: seq<Location>, a: Addr, k: string)
    ensures k in KeysAt(locs, a) <==> Location(a, Key(k)) in locs
  {
    assert Location(a, Key(k)).at == a && Location(a, Key(k)).slot.k == k;
  }

  lemma CalledKeys(c: Line, s2: State, s3: State, f: Addr, op: string, args: Val)
    requires Called(c, s2, s3, f, op, args)
    ensures f < |s3.heap| && s3.heap[f].DictObj?
    ensures s3.heap[f].pairs.Keys == s2.heap[f].pairs.Keys + {Renamed(c.fmap, op)}
    ensures Patched(s3.heap, s3.locations)[f] == PatchedObj(s3.heap[f], s3.locations, f)
  {
  }

  lemma CallOverwrittenEntry(
    c: Line, s2: State, s3: State, pend: set<Addr>, f: Addr, t: Tree, held: map<string, Tree>, ym: map<string, Tree>,
    args: Val, xa: Tree, k: string)
    requires t.TCall? && Inv(c, s2, pend + {f}) && Called(c, s2, s3, f, t.op, args) && f !in pend
    requires (f in c.own || f >= c.base) && OpenDict(c, s2, pend, f, held, ym)
    requires Scrubbed(c, s2, pend + {f}, args, t.args, xa)
    requires f < |s3.heap| && s3.heap[f].DictObj? && k in PatchedObj(s3.heap[f], s3.locations, f).pairs
    requires k in CallOutcome(c.fmap, s2.heap[f].pairs, t, ym, xa).pairs
    ensures Den(Patched(s3.heap, s3.locations), Output(c, s3, pend), c.own,
      PatchedObj(s3.heap[f], s3.locations, f).pairs[k], CallOutcome(c.fmap, s2.heap[f].pairs, t, ym, xa).pairs[k])
  {
    hide Den, Yields, Simplify, Output, Inv, Scrubbed, Kept, CallOutcome, Patched, OpenDict, OpenEntry;
    var o := Output(c, s3, pend);
    var p3 := Patched(s3.heap, s3.locations);
    CalledArgument(c, s2, s3, pend, f, t.op, args, t.args, xa);
    CallLocations(c, s2, s3, pend, f, t, held, ym, args, k);
    OpenKeys(c, s2, pend, f, held, ym);
    OutcomeAt(c.fmap, s2.heap[f].pairs, t, ym, xa, k);
    DenAtoms(p3, o, c.own);
    if Location(f, Key(k)) !in s3.locations && k != Renamed(c.fmap, t.op) {
      OpenEntryDen(c, s2, pend, f, held, ym, k);
      CalledOverwritten(c, s2, s3, pend, f, t.op, args, s2.heap[f].pairs[k], ym[k]);
    }
  }

  lemma DenAtoms(h: seq<Obj>, s: set<Addr>, own: map<Addr, Owner>)
    ensures Den(h, s, own, Given, TGiven) && Den(h, s, own, Sentinel, TSentinel)
  {
  }

  /** An entry of an open dict that is not NULL, after overwriting. */
  lemma OpenEntryDen(
    c: Line, s: State, pend: set<Addr>, f: Addr, held: map<string, Tree>, ym: map<string, Tree>, k: string)
    requires OpenDict(c, s, pend, f, held, ym) && f < |s.heap| && s.heap[f].DictObj? && k in s.heap[f].pairs
    ensures k in ym
    ensures s.heap[f].pairs[k] != Sentinel ==>
      Den(Patched(s.heap, s.locations), Output(c, s, pend + {f}), c.own, s.heap[f].pairs[k], ym[k])
  {
    hide Den, Patched, Output, YieldsEntry, Simplify;
    assert OpenEntry(c, s, pend + {f}, f, k, s.heap[f].pairs[k], held[k], ym[k]);
  }

  /** What an open dict says about its entries. */
  lemma OpenEntries(
    c: Line, s: State, pend: set<Addr>, f: Addr, held: map<string, Tree>, ym: map<string, Tree>, k: string)
    requires OpenDict(c, s, pend, f, held, ym)
    ensures k in ym <==> k in Kept(c.fmap, held)
    ensures k in ym ==> k in held && YieldsEntry(c.fmap, held[k], ym[k])
    ensures NullPair(s.heap[f].pairs, k) <==> NullEntry(c.fmap, held, k)
    ensures NullPair(s.heap[f].pairs, k) ==> ym[k] == TGiven
  {
    var pairs := s.heap[f].pairs;
    if k in pairs {
      assert OpenEntry(c, s, pend + {f}, f, k, pairs[k], held[k], ym[k]);
      Recognised(c.own, s.heap, Output(c, s, pend + {f}), pairs[k], Simplify(c.fmap, held[k]));
    }
  }

  lemma CallYields(
    c: Line, s0: State, s2: State, pend: set<Addr>, kwargs: Addr, f: Addr, t: Tree, ym: map<string, Tree>, xa: Tree)
    requires t.TCall? && OpenDict(c, s2, pend, f, Held(c, s0, kwargs, t), ym) && Yields(c.fmap, t.args, xa)
    ensures Yields(c.fmap, t, CallOutcome(c.fmap, s2.heap[f].pairs, t, ym, xa))
    ensures Simplify(c.fmap, t) ==
      TDict(Kept(c.fmap, Held(c, s0, kwargs, t))[Renamed(c.fmap, t.op) := Stored(Simplify(c.fmap, t.args))])
  {
    var held := Held(c, s0, kwargs, t);
    var pairs := s2.heap[f].pairs;
    SimplifyUnfolds(c.fmap, t);
    forall k
      ensures k in ym <==> k in Kept(c.fmap, held)
      ensures k in ym ==> k in held && YieldsEntry(c.fmap, held[k], ym[k])
      ensures NullPair(pairs, k) <==> NullEntry(c.fmap, held, k)
      ensures NullPair(pairs, k) ==> ym[k] == TGiven
    {
      OpenEntries(c, s2, pend, f, held, ym, k);
    }
    hide OpenDict;
    if t.kwargs == map[] {
      StoredSimplifies(c.fmap, t.args);
      HeldYields(c.fmap, t, held, pairs, ym, xa);
    } else {
      KwargsYield(c.fmap, t, pairs, ym, xa);
    }
  }

  lemma StoredSimplifies(fmap: Renaming, args: Tree)
    ensures Simplify(fmap, Stored(Simplify(fmap, args))) == Stored(Simplify(fmap, args)) != TNone
  {
    SimplifyIsIdempotent(fmap, fmap, args);
    if Simplify(fmap, args) == TNone {
      NormalIsFixed(fmap, TDict(map[]));
    }
  }

  /** A call without keyword arguments, first visit or later. */
  lemma HeldYields(
    fmap: Renaming, t: Tree, held: map<string, Tree>, pairs: map<string, Val>, ym: map<string, Tree>, xa: Tree)
    requires t.TCall? && t.kwargs == map[] && pairs.Keys == ym.Keys && Yields(fmap, t.args, xa)
    requires var name := Renamed(fmap, t.op); var stored := Stored(Simplify(fmap, t.args));
      (held == map[] || held == map[name := stored]) && Simplify(fmap, stored) == stored != TNone
    requires forall k :: k in ym <==> k in Kept(fmap, held)
    requires forall k :: NullPair(pairs, k) <==> NullEntry(fmap, held, k)
    ensures Yields(fmap, t, CallOutcome(fmap, pairs, t, ym, xa))
    ensures Kept(fmap, held)[Renamed(fmap, t.op) := Stored(Simplify(fmap, t.args))]
      == Kept(fmap, t.kwargs)[Renamed(fmap, t.op) := Stored(Simplify(fmap, t.args))]
  {
    hide CallOutcome, Kept, Yields, YieldsEntry, Simplify;
    var name := Renamed(fmap, t.op);
    var x := CallOutcome(fmap, pairs, t, ym, xa);
    HeldKept(fmap, held, name, Stored(Simplify(fmap, t.args)));
    OutcomeAt(fmap, pairs, t, ym, xa, name);
    OutcomeAt(fmap, pairs, t, ym, xa, t.op);
    Nulls.CallYields(fmap, t, x);
  }

  lemma HeldKept(fmap: Renaming, held: map<string, Tree>, name: string, stored: Tree)
    requires (held == map[] || held == map[name := stored]) && Simplify(fmap, stored) == stored != TNone
    ensures Kept(fmap, map[]) == map[] && forall k :: k in Kept(fmap, held) ==> k == name
    ensures Kept(fmap, held)[name := stored] == Kept(fmap, map[])[name := stored]
    ensures held == map[] ==> Kept(fmap, held) == map[]
  {
    hide Simplify;
  }

  lemma OutcomeAt(
    fmap: Renaming, pairs: map<string, Val>, t: Tree, ym: map<string, Tree>, xa: Tree, k: string)
    requires t.TCall? && pairs.Keys == ym.Keys
    ensures var x := CallOutcome(fmap, pairs, t, ym, xa);
      && x.TDict?
      && x.pairs.Keys == ym.Keys + {Renamed(fmap, t.op)} + (if ArgIsNull(fmap, t.args) then {t.op} else {})
      && (k in x.pairs ==> x.pairs[k] == OutcomeEntry(fmap, pairs, t, ym, xa, k))
  {
  }

  lemma KwargsNulls(
    fmap: Renaming, t: Tree, pairs: map<string, Val>, ym: map<string, Tree>, xa: Tree)
    requires t.TCall? && pairs.Keys == ym.Keys && t.kwargs != map[]
    requires forall k :: k in ym <==> k in Kept(fmap, t.kwargs)
    requires forall k :: NullPair(pairs, k) <==> NullEntry(fmap, t.kwargs, k)
    requires forall k :: NullPair(pairs, k) ==> ym[k] == TGiven
    ensures var x := CallOutcome(fmap, pairs, t, ym, xa);
      x.TDict? && CallKeys(fmap, t.op, t.args, t.kwargs, x.pairs)
      && CallNulls(fmap, t.op, t.args, t.kwargs, x.pairs)
  {
    hide CallOutcome, Simplify, ArgIsNull, NullEntry, Kept;
    assert ym.Keys == Kept(fmap, t.kwargs).Keys;
    OutcomeAt(fmap, pairs, t, ym, xa, Renamed(fmap, t.op));
    OutcomeAt(fmap, pairs, t, ym, xa, t.op);
  }

  lemma KwargsYield(
    fmap: Renaming, t: Tree, pairs: map<string, Val>, ym: map<string, Tree>, xa: Tree)
    requires t.TCall? && pairs.Keys == ym.Keys && Yields(fmap, t.args, xa)
    requires t.kwargs != map[]
    requires forall k :: k in ym <==> k in Kept(fmap, t.kwargs)
    requires forall k :: k in ym ==> k in t.kwargs && YieldsEntry(fmap, t.kwargs[k], ym[k])
    requires forall k :: NullPair(pairs, k) <==> NullEntry(fmap, t.kwargs, k)
    requires forall k :: NullPair(pairs, k) ==> ym[k] == TGiven
    ensures Yields(fmap, t, CallOutcome(fmap, pairs, t, ym, xa))
  {
    hide CallOutcome, Yields, YieldsEntry, Simplify, ArgIsNull, NullEntry, CallNulls, CallKeys, Kept;
    var name := Renamed(fmap, t.op);
    var x := CallOutcome(fmap, pairs, t, ym, xa);
    KwargsNulls(fmap, t, pairs, ym, xa);
    OutcomeAt(fmap, pairs, t, ym, xa, name);
    forall k | k in t.kwargs && k in x.pairs && k != name && !(ArgIsNull(fmap, t.args) && k == t.op)
      ensures YieldsEntry(fmap, t.kwargs[k], x.pairs[k])
    {
      OutcomeAt(fmap, pairs, t, ym, xa, k);
    }
    Nulls.CallYields(fmap, t, x);
  }

  lemma CallScrubbed(
    c: Line, s0: State, s1: State, s2: State, s3: State, pend: set<Addr>, kwargs: Addr, f: Addr,
    t: Tree, args: Val, xa: Tree, ym: map<string, Tree>)
    requires t.TCall? && Inv(c, s0, pend) && f !in pend && Inv(c, s2, pend + {f})
    requires OwnKwargs(c, s0, f, t, Held(c, s0, kwargs, t)) && OpenDict(c, s2, pend, f, Held(c, s0, kwargs, t), ym)
    requires Went(c, s0, s1, pend, Depth(t) - 1) && Went(c, s1, s2, pend + {f}, Depth(t.args))
    requires Called(c, s2, s3, f, t.op, args) && Scrubbed(c, s2, pend + {f}, args, t.args, xa)
    ensures Went(c, s0, s3, pend, Depth(t))
    ensures Scrubbed(c, s3, pend, Ref(f), t, CallOutcome(c.fmap, s2.heap[f].pairs, t, ym, xa))
  {
    hide Den, Yields, Simplify, Output, Fixed, Frame, Kept, Held, Called, OpenDict, OpenEntry, CallOutcome;
    var held := Held(c, s0, kwargs, t);
    CalledInv(c, s0, s2, s3, pend, f, t, held, ym, args, xa);
    CalledWent(c, s0, s1, s2, s3, pend, f, t, held, args);
    CallRaw(c, s2, s3, pend, f, t, held, ym, args, xa);
    CallOverwritten(c, s2, s3, pend, f, t, held, ym, args, xa);
    CallYields(c, s0, s2, pend, kwargs, f, t, ym, xa);
  }

  /** The named tokens of a ParseResults make the result. */
  lemma NamedScrubbed(
    c: Line, start: State, s0: State, s: State, pend: set<Addr>, d: nat,
    t: Tree, pairs: map<string, Val>, xm: map<string, Tree>)
    requires t.TResults? && pairs != map[] && d < Depth(t)
    requires Went(c, start, s0, pend, d) && PairResults(c, s0, pend, pairs, t.named, xm)
    requires NewDict(s0, s, pairs)
    ensures Went(c, start, s, pend, Depth(t))
    ensures Scrubbed(c, s, pend, Ref(|s0.heap|), t, TDict(EntrySlots(pairs, xm)))
  {
    hide Den, Yields, Simplify, Fixed, Result, Inv, Frame, Patched, Kept, OpenDict;
    SimplifyUnfolds(c.fmap, t);
    DictAllocated(c, s0, s, pend, pairs);
    DictOpened(c, s0, s, pend, t.named, pairs, xm);
    FrameTransitive(c, start, s0, s);
    NewIsOutput(c, s0, s, pend, pairs);
    DictClosed(c, s, pend, |s0.heap|, t.named, EntrySlots(pairs, xm));
    NamedYields(c, s, pend, |s0.heap|, t, EntrySlots(pairs, xm));
  }

  lemma NewIsOutput(c: Line, s0: State, s: State, pend: set<Addr>, pairs: map<string, Val>)
    requires Inv(c, s0, pend) && NewDict(s0, s, pairs)
    ensures |s0.heap| in Output(c, s, pend)
  {
  }

  lemma NamedYields(c: Line, s: State, pend: set<Addr>, f: Addr, t: Tree, ym: map<string, Tree>)
    requires t.TResults? && OpenDict(c, s, pend, f, t.named, ym) && ym != map[]
    ensures Yields(c.fmap, t, TDict(ym)) && Kept(c.fmap, t.named) != map[]
  {
    assert Kept(c.fmap, t.named).Keys == ym.Keys;
    forall k | k in t.named && k in ym ensures YieldsEntry(c.fmap, t.named[k], ym[k]) {
      assert OpenEntry(c, s, pend + {f}, f, k, s.heap[f].pairs[k], t.named[k], ym[k]);
    }
  }

  /** No named token survives, so the plain tokens make the result. */
  lemma TokensScrubbed(
    c: Line, start: State, s0: State, s: State, pend: set<Addr>, d: nat,
    t: Tree, pairs: map<string, Val>, xm: map<string, Tree>, out: Val, x: Tree)
    requires t.TResults? && pairs == map[] && d < Depth(t)
    requires Went(c, start, s0, pend, d) && PairResults(c, s0, pend, pairs, t.named, xm) && Went(c, s0, s, pend, d)
    requires Result(c, s, pend, out, Collapse(SimplifyItems(c.fmap, t.tokens)), x) && YieldsList(c.fmap, t.tokens, x)
    ensures Went(c, start, s, pend, Depth(t)) && Scrubbed(c, s, pend, out, t, x)
  {
    SimplifyUnfolds(c.fmap, t);
    assert Kept(c.fmap, t.named) == map[];
    FrameTransitive(c, start, s0, s);
  }

  lemma DictScrubbed(
    c: Line, s0: State, s: State, pend: set<Addr>, a: Addr, f: Addr, t: Tree, ym: map<string, Tree>)
    requires t.TDict? && Inv(c, s0, pend) && Den(s0.heap, Fixed(c, s0, pend), c.own, Ref(a), t)
    requires Inv(c, s, pend)
    requires t.pairs == map[] ==> f == a && ym == map[] && s == s0
    requires t.pairs != map[] ==>
      |s0.heap| <= f < |s.heap| && f !in pend && OpenDict(c, s, pend, f, t.pairs, ym)
    ensures Scrubbed(c, s, pend, Ref(f), t, TDict(ym))
  {
    hide Den, Inv, Fixed, Output, OpenDict, Yields, Simplify, Result;
    SimplifyUnfolds(c.fmap, t);
    if t.pairs == map[] {
      assert Kept(c.fmap, t.pairs) == map[];
      DenOfDict(s0.heap, Fixed(c, s0, pend), c.own, a, t);
      EmptyDictResult(c, s, pend, a);
      EmptyDictYields(c.fmap, t);
    } else {
      BaseInHeap(c, s0, pend);
      NewInOutput(c, s, pend, f);
      DictClosed(c, s, pend, f, t.pairs, ym);
      OpenDictYields(c, s, pend, f, t, ym);
    }
  }

  lemma EmptyDictYields(fmap: Renaming, t: Tree)
    requires t == TDict(map[])
    ensures Yields(fmap, t, TDict(map[]))
  {
  }

  lemma OpenDictYields(c: Line, s: State, pend: set<Addr>, f: Addr, t: Tree, ym: map<string, Tree>)
    requires t.TDict? && OpenDict(c, s, pend, f, t.pairs, ym)
    ensures Yields(c.fmap, t, TDict(ym))
  {
    hide Den, Output, Simplify;
  }

  lemma EmptyDictResult(c: Line, s: State, pend: set<Addr>, a: Addr)
    requires Inv(c, s, pend) && a in Fixed(c, s, pend) && s.heap[a] == DictObj(map[])
    ensures Result(c, s, pend, Ref(a), TDict(map[]), TDict(map[]))
  {
  }

  /** A run whose outcome is not the intended one: `missing`, renamed, of NULL. */
  method RenamedNullRun() returns (line: Scrubber, out: Val, ghost x: Tree)
    ensures Den(line.heap, Output(line.Here(), line.Now(), {}), line.own, out, x)
    ensures !UnfoldsTo(line.heap, line.own, out, Fill(map["missing" := "is_null"], TCall("missing", TSentinel, map[])))
  {
    hide Den, Yields, Fill, Clean, Simplify, UnfoldsTo;
    ghost var t := TCall("missing", TSentinel, map[]);
    var fmap: Renaming := map["missing" := "is_null"];
    ghost var own := map[1 := Owner("missing", TSentinel)];
    line := new Scrubber([CallObj("missing", Sentinel, 1), DictObj(map[])], fmap, own);
    BareCallDen(line.heap, Fixed(line.Here(), line.Now(), {}), own);
    CallIsDict(fmap, t);
    out, x := line.ScrubLine(Ref(0), t);
    RenamedNullIsLost(x);
  }

  /** And one whose outcome is: `a IS NOT NULL` with both tests renamed. */
  method RenamedTestRun() returns (line: Scrubber, out: Val)
    ensures UnfoldsTo(line.heap, line.own, out, TDict(map["is_not_null" := TText("a")]))
  {
    hide Den, Yields, Fill, Clean, UnfoldsTo;
    ghost var t := TCall("exists", TText("a"), map[]);
    var fmap: Renaming := map["missing" := "is_null", "exists" := "is_not_null"];
    ghost var own := map[1 := Owner("exists", TText("a"))];
    line := new Scrubber([CallObj("exists", Text("a"), 1), DictObj(map[])], fmap, own);
    TextCallDen(line.heap, Fixed(line.Here(), line.Now(), {}), own);
    RenamedTest(fmap, t);
    hide Simplify;
    ghost var x;
    out, x := line.ScrubLine(Ref(0), t);
  }

  lemma RenamedTest(fmap: Renaming, t: Tree)
    requires fmap == map["missing" := "is_null", "exists" := "is_not_null"] && t == TCall("exists", TText("a"), map[])
    ensures Simplify(map[], RenameCalls(fmap, t)) == TDict(map["is_not_null" := TText("a")])
    ensures NoGiven(t) && WithoutNull(t) && Simplify(fmap, t) != TSentinel
  {
    assert RenameCalls(fmap, t) == TCall("is_not_null", TText("a"), map[]);
    SimplifyUnfolds(map[], RenameCalls(fmap, t));
    assert Kept(map[], map[]) == map[];
    CallIsDict(fmap, t);
  }

  lemma TextCallDen(h: seq<Obj>, s: set<Addr>, own: map<Addr, Owner>)
    requires h == [CallObj("exists", Text("a"), 1), DictObj(map[])] && 0 in s
    requires own == map[1 := Owner("exists", TText("a"))]
    ensures Den(h, s, own, Ref(0), TCall("exists", TText("a"), map[]))
  {
  }

  lemma BareCallDen(h: seq<Obj>, s: set<Addr>, own: map<Addr, Owner>)
    requires h == [CallObj("missing", Sentinel, 1), DictObj(map[])] && 0 in s
    requires own == map[1 := Owner("missing", TSentinel)]
    ensures Den(h, s, own, Ref(0), TCall("missing", TSentinel, map[]))
  {
  }
}
