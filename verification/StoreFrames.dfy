/** What a store leaves of the slots around its target, in any state. */
module StoreFrames {
  import opened SlotPaths
  import opened PointeeSets
  import opened RegionStates
  import opened MemoryPrograms
  import opened AbstractMemory
  import opened TransferExactness

  /** The entries a read of the slot looks at. */
  predicate ReadWith(s: Slot, u: Slot) {
    s == u || (EndsInIndex(u.path) && IsSibling(s, u))
  }

  predicate SameAt(a: map<Slot, Pointees>, b: map<Slot, Pointees>, s: Slot) {
    (s in a <==> s in b) && (s in a ==> a[s] == b[s])
  }

  /** The states agree on all a read of the slot looks at. */
  ghost predicate ReadsAlike(a: State, b: State, u: Slot) {
    && a.epoch == b.epoch && a.reachEpoch == b.reachEpoch && a.stepEpochs == b.stepEpochs
    && a.escaped == b.escaped && a.escapes == b.escapes
    && (forall s | ReadWith(s, u) :: SameAt(a.contents, b.contents, s))
    && forall k: nat | k <= |u.path| ::
         var p := Slot(u.region, u.path[..k]);
         (p in a.clobbered <==> p in b.clobbered) && (p in a.clobbered ==> a.clobbered[p] == b.clobbered[p])
  }

  lemma DepthAlike(a: State, b: State, u: Slot)
    requires ReadsAlike(a, b, u)
    ensures ClobberDepth(a.clobbered, u.region, u.path) == ClobberDepth(b.clobbered, u.region, u.path)
  {
    var x, y := ClobberDepth(a.clobbered, u.region, u.path), ClobberDepth(b.clobbered, u.region, u.path);
    if x >= 0 {
      assert Slot(u.region, u.path[..x]) in b.clobbered;
    }
    if y >= 0 {
      assert Slot(u.region, u.path[..y]) in a.clobbered;
    }
  }

  lemma UnwrittenAlike(a: State, b: State, u: Slot)
    requires ReadsAlike(a, b, u)
    ensures Unwritten(a, u) == Unwritten(b, u)
  {
    DepthAlike(a, b, u);
    SameReachAll(a, b, u.region);
  }

  lemma ElementsAlike(a: State, b: State, u: Slot)
    requires ReadsAlike(a, b, u) && EndsInIndex(u.path)
    ensures Siblings(a.contents, u) == Siblings(b.contents, u)
    ensures JoinOver(a.contents, Siblings(a.contents, u)) == JoinOver(b.contents, Siblings(b.contents, u))
  {
    forall s | IsSibling(s, u) ensures SameAt(a.contents, b.contents, s) {
      assert ReadWith(s, u);
    }
    JoinAlike(a.contents, b.contents, Siblings(a.contents, u));
  }

  lemma JoinAlike(a: map<Slot, Pointees>, b: map<Slot, Pointees>, slots: set<Slot>)
    requires slots <= a.Keys && slots <= b.Keys && forall s | s in slots :: a[s] == b[s]
    ensures JoinOver(a, slots) == JoinOver(b, slots)
  {
    assert HeldBy(a, slots) == HeldBy(b, slots);
  }

  lemma ContentAlike(a: State, b: State, u: Slot)
    requires ReadsAlike(a, b, u)
    ensures Content(a, u) == Content(b, u)
  {
    UnwrittenAlike(a, b, u);
    assert ReadWith(u, u);
    if EndsInStar(u.path) {
      ElementsAlike(a, b, u);
    } else if EndsInIndex(u.path) {
      assert ReadWith(StarSlot(u), u);
    }
  }

  // ---- One store --------------------------------------------------------------

  /** The paths part before the last step of u. */
  predicate Apart(u: Slot, target: Slot) {
    u.region != target.region ||
    exists k :: 0 <= k < |u.path| - 1 && k < |target.path| && u.path[k] != target.path[k]
  }

  /** The paths differ at a step before the last of s. */
  predicate DifferAt(s: Slot, target: Slot, k: nat) {
    k < |s.path| - 1 && k < |target.path| && s.path[k] != target.path[k]
  }

  lemma DifferentPaths(s: Slot, target: Slot, k: nat)
    requires DifferAt(s, target, k)
    ensures !Beneath(s, target) && !StrictlyAbove(s, target) && s != target && !IsSibling(s, target)
  {
    assert Parent(s.path)[k] == s.path[k];
    assert k < |target.path| - 1 ==> Parent(target.path)[k] == target.path[k];
  }

  lemma ApartEntries(u: Slot, target: Slot, s: Slot)
    requires Apart(u, target) && ReadWith(s, u)
    ensures !Beneath(s, target) && !StrictlyAbove(s, target) && s != target && !IsSibling(s, target)
  {
    if u.region == target.region {
      var k :| 0 <= k < |u.path| - 1 && k < |target.path| && u.path[k] != target.path[k];
      assert Parent(s.path)[k] == Parent(u.path)[k];
      assert DifferAt(s, target, k);
      DifferentPaths(s, target, k);
    }
  }

  lemma ApartPrefix(u: Slot, target: Slot, n: nat)
    requires Apart(u, target) && n <= |u.path|
    ensures !Beneath(Slot(u.region, u.path[..n]), target)
  {
    if u.region == target.region {
      var k :| 0 <= k < |u.path| - 1 && k < |target.path| && u.path[k] != target.path[k];
      assert k < n ==> u.path[..n][k] == u.path[k];
    }
  }

  lemma SameEntries(state: State, target: Slot, value: Pointees, strong: bool, s: Slot)
    requires !Beneath(s, target) && !StrictlyAbove(s, target) && s != target && !IsSibling(s, target)
    ensures SameAt(StoreSlot(state, target, value, strong).contents, state.contents, s)
  {
    SameUnlessAbove(state, target, s);
    if EndsInStar(target.path) {
      SameUnlessElement(state, target, value, s);
    }
  }

  lemma SameUnlessAbove(state: State, target: Slot, s: Slot)
    requires !Beneath(s, target) && !StrictlyAbove(s, target)
    ensures var forgot := ForgetWholeAbove(state, target);
            && SameAt(forgot.contents, state.contents, s)
            && SameAt(ClearSubtree(forgot, target).contents, state.contents, s)
  {
  }

  lemma SameUnlessElement(state: State, target: Slot, value: Pointees, s: Slot)
    requires !StrictlyAbove(s, target) && s != target && !IsSibling(s, target)
    ensures SameAt(WeakElementStore(state, target, value).contents, state.contents, s)
  {
  }

  lemma SameClobbers(state: State, target: Slot, value: Pointees, strong: bool, p: Slot)
    requires !Beneath(p, target)
    ensures var next := StoreSlot(state, target, value, strong).clobbered;
            (p in next <==> p in state.clobbered) && (p in next ==> next[p] == state.clobbered[p])
  {
  }

  lemma SameRest(state: State, target: Slot, value: Pointees, strong: bool)
    ensures var next := StoreSlot(state, target, value, strong);
            && next.epoch == state.epoch && next.reachEpoch == state.reachEpoch
            && next.stepEpochs == state.stepEpochs && next.escaped == state.escaped && next.escapes == state.escapes
  {
  }

  /** A store leaves every slot apart from its target as it was. */
  lemma StoreElsewhere(state: State, target: Slot, value: Pointees, strong: bool, u: Slot)
    requires Apart(u, target)
    ensures Content(StoreSlot(state, target, value, strong), u) == Content(state, u)
  {
    var next := StoreSlot(state, target, value, strong);
    forall s | ReadWith(s, u) ensures SameAt(next.contents, state.contents, s) {
      ApartEntries(u, target, s);
      SameEntries(state, target, value, strong, s);
    }
    forall k: nat | k <= |u.path|
      ensures var p := Slot(u.region, u.path[..k]);
              (p in next.clobbered <==> p in state.clobbered) &&
              (p in next.clobbered ==> next.clobbered[p] == state.clobbered[p])
    {
      ApartPrefix(u, target, k);
      SameClobbers(state, target, value, strong, Slot(u.region, u.path[..k]));
    }
    SameRest(state, target, value, strong);
    assert ReadsAlike(next, state, u);
    ContentAlike(next, state, u);
  }

  /** A store through an unknown index adds the value to the wildcard and to each
  known element, and takes nothing from them. */
  lemma ElementsGainValue(state: State, target: Slot, value: Pointees, strong: bool, s: Slot)
    requires EndsInStar(target.path) && (s == target || (IsSibling(s, target) && s in state.contents))
    ensures var next := StoreSlot(state, target, value, strong);
            && s in next.contents && Admits(next.contents[s], value)
            && (s in state.contents ==> Admits(next.contents[s], state.contents[s]))
  {
    var forgot := ForgetWholeAbove(state, target);
    assert !StrictlyAbove(s, target);
    JoinAdmits(if s in forgot.contents then forgot.contents[s] else Content(forgot, target), value);
  }

  lemma JoinAdmits(a: Pointees, b: Pointees)
    ensures Admits(BoundSet(Join(a, b)), a) && Admits(BoundSet(Join(a, b)), b)
  {
    assert UNKNOWN in map[UNKNOWN := false];
  }

  /** What was stored as a whole above the target is forgotten. */
  lemma WholeForgotten(state: State, target: Slot, value: Pointees, strong: bool, u: Slot)
    requires StrictlyAbove(u, target)
    ensures u !in StoreSlot(state, target, value, strong).contents
  {
  }

  /** Some effect not followed has hit the whole that the target is part of. */
  predicate HitAbove(state: State, target: Slot) {
    exists k :: 0 <= k < |target.path| && Slot(target.region, target.path[..k]) in state.clobbered
  }

  /** A store that replaces forgets what lay within its target: a part of a local
  reads as nil again, unless an effect not followed has hit a whole around it. */
  lemma PartsForgotten(state: State, target: Slot, value: Pointees, u: Slot)
    requires !EndsInStar(target.path) && u.region == target.region && u.region.Site? && target.path < u.path
    ensures var held := Content(StoreSlot(state, target, value, true), u);
            if HitAbove(state, target) then AdmitsAnything(held) else held == map[NIL := false]
  {
    var next := StoreSlot(state, target, value, true);
    forall s | ReadWith(s, u) ensures s !in next.contents {
      assert Parent(s.path) == Parent(u.path) ==> target.path <= Parent(u.path);
    }
    UnheldReads(next, u);
    forall k: nat | k <= |u.path|
      ensures Slot(u.region, u.path[..k]) in next.clobbered <==>
              k < |target.path| && Slot(u.region, target.path[..k]) in state.clobbered
    {
      if k < |target.path| {
        assert u.path[..k] == target.path[..k];
      } else {
        assert Beneath(Slot(u.region, u.path[..k]), target);
      }
    }
    if ClobberedBeneath(next, u) {
      var stamp := Stamp(ClobberStamp(next, u), 0);
      assert Slot(Placeholder(u, stamp), []) in Unwritten(next, u).Keys;
    }
  }

  /** A new object of a site outside any loop reads as nil throughout, whatever was
  recorded of the site before, and no other object changes. */
  lemma AllocationReadsNil(values: Values, state: State, next: State, alloc: nat, u: Slot)
    requires Transfers(values, Alloc(alloc), state, next)
    ensures Content(next, u) == if u.region == Site(alloc) then map[NIL := false] else Content(state, u)
  {
    if u.region == Site(alloc) {
      forall s | ReadWith(s, u) ensures s !in next.contents {
        assert [] <= s.path;
      }
      UnheldReads(next, u);
    } else {
      ContentAlike(next, state, u);
    }
  }

  lemma UnheldReads(state: State, u: Slot)
    requires u.region.Site? && forall s | ReadWith(s, u) :: s !in state.contents
    ensures Content(state, u).Keys == Unwritten(state, u).Keys
    ensures Content(state, u) == Unwritten(state, u)
  {
    assert ReadWith(u, u);
    if EndsInStar(u.path) {
      assert Siblings(state.contents, u) == {};
      assert JoinOver(state.contents, {}) == map[];
    } else if EndsInIndex(u.path) {
      assert ReadWith(StarSlot(u), u);
    }
    UnwrittenIsOne(state, u);
  }
}
