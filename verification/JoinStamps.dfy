/** What a join keeps beside the contents: who may write an object, the stamps
of the effects, and which pointees are stale. */
module JoinStamps {
  import opened SlotPaths
  import opened PointeeSets
  import opened RegionStates

  // ---- Escapes --------------------------------------------------------------

  predicate LetOut(state: State, target: Slot, kind: EscapeKind) {
    target in state.escapes && kind in state.escapes[target]
  }

  /** An object, or a way out of it, that some side let go is let go after the
  join, and no other. */
  lemma EscapesJoin(a: State, b: State, loopMade: set<Region>, block: int, region: Region, target: Slot,
                    kind: EscapeKind)
    ensures var merged := Merge(a, b, loopMade, block);
            && (region in merged.escaped <==> region in a.escaped || region in b.escaped)
            && (LetOut(merged, target, kind) <==> LetOut(a, target, kind) || LetOut(b, target, kind))
  {
  }

  lemma ReachedJoins(a: State, b: State, loopMade: set<Region>, block: int, region: Region)
    ensures Reached(Merge(a, b, loopMade, block), region) <==> Reached(a, region) || Reached(b, region)
  {
    var merged, target := Merge(a, b, loopMade, block), Slot(region, []);
    forall kind ensures LetOut(merged, target, kind) <==> LetOut(a, target, kind) || LetOut(b, target, kind) {
      EscapesJoin(a, b, loopMade, block, region, target, kind);
    }
    ReachedByWay(merged, region);
    ReachedByWay(a, region);
    ReachedByWay(b, region);
  }

  lemma ReachedByWay(state: State, region: Region)
    ensures Reached(state, region) <==> exists kind :: LetOut(state, Slot(region, []), kind) && kind != ToField
  {
    var target := Slot(region, []);
    if kind :| LetOut(state, target, kind) && kind != ToField {
      assert kind in state.escapes[target];
    }
    if Reached(state, region) {
      var kind :| kind in state.escapes[target] && kind != ToField;
      assert LetOut(state, target, kind);
    }
  }

  // ---- Who may write an object ----------------------------------------------

  /** The object, and the objects it was read out of. */
  function Owners(region: Region): seq<Region>
    decreases region
  {
    [region] + if region.Placeholder? then Owners(region.source.region) else []
  }

  /** Code the graph did not follow has the object in hand: what it made itself
  and what a global is, and what was handed to it. */
  predicate InHand(state: State, region: Region) {
    || region.Opaque?
    || (region.External? && region.isGlobal)
    || (region.Site? && region in state.escaped)
    || ((region.External? || region.Placeholder? || region.Closure?) && Reached(state, region))
  }

  /** An object is within reach exactly when code not followed has it, or one it
  was read out of, in hand. */
  lemma {:induction false} WithinReachExactly(state: State, region: Region)
    ensures ForeignWithinReach(state, region) <==> exists owner :: owner in Owners(region) && InHand(state, owner)
    decreases region
  {
    if region.Placeholder? {
      var above := region.source.region;
      WithinReachExactly(state, above);
      assert Owners(region) == [region] + Owners(above);
      if owner :| owner in Owners(above) && InHand(state, owner) {
        assert owner in Owners(region);
      }
      if owner :| owner in Owners(region) && InHand(state, owner) {
        assert owner == region || owner in Owners(above);
      }
      assert region in Owners(region);
    } else {
      assert Owners(region) == [region];
      assert region in Owners(region);
    }
  }

  /** After the join an object is within reach exactly when it was on some side. */
  lemma WithinReachJoins(a: State, b: State, loopMade: set<Region>, block: int, region: Region)
    ensures ForeignWithinReach(Merge(a, b, loopMade, block), region) <==>
            ForeignWithinReach(a, region) || ForeignWithinReach(b, region)
  {
    var merged := Merge(a, b, loopMade, block);
    WithinReachExactly(a, region);
    WithinReachExactly(b, region);
    WithinReachExactly(merged, region);
    forall owner ensures InHand(merged, owner) <==> InHand(a, owner) || InHand(b, owner) {
      ReachedJoins(a, b, loopMade, block, owner);
      EscapesJoin(a, b, loopMade, block, owner, Slot(owner, []), ToField);
    }
  }

  /** A read is stamped by the last effect that could have changed what is in
  hand of code not followed, or by the last one of all where the object is not. */
  lemma StampExactly(state: State, target: Slot)
    ensures var reached := exists owner :: owner in Owners(target.region) && InHand(state, owner);
            StampOf(state, target).epoch == if reached then state.reachEpoch else state.epoch
  {
    WithinReachExactly(state, target.region);
  }

  // ---- Stamps ---------------------------------------------------------------

  predicate Agreed(merged: int, a: int, b: int, block: int) {
    merged == (if a == b then a else block)
  }

  /** Epochs that agree stand, others take the join's. */
  lemma EpochsJoin(a: State, b: State, loopMade: set<Region>, block: int)
    ensures var merged := Merge(a, b, loopMade, block);
            Agreed(merged.epoch, a.epoch, b.epoch, block) &&
              Agreed(merged.reachEpoch, a.reachEpoch, b.reachEpoch, block)
  {
  }

  /** A step stamp stands exactly when both sides have it alike; one that a side
  lacks, or has otherwise, takes the join's. */
  lemma StepStampsJoin(a: State, b: State, loopMade: set<Region>, block: int, k: StepKey)
    ensures var merged := Merge(a, b, loopMade, block);
            && (k in merged.stepEpochs <==> k in a.stepEpochs || k in b.stepEpochs)
            && (k in a.stepEpochs && k in b.stepEpochs ==>
                Agreed(merged.stepEpochs[k], a.stepEpochs[k], b.stepEpochs[k], block))
            && (k in a.stepEpochs && k !in b.stepEpochs ==> merged.stepEpochs[k] == block)
            && (k in b.stepEpochs && k !in a.stepEpochs ==> merged.stepEpochs[k] == block)
  {
  }

  /** A clobber stamp stands when the sides that have it agree, so also when
  only one does. */
  lemma ClobberStampsJoin(a: State, b: State, loopMade: set<Region>, block: int, t: Slot)
    ensures var merged := Merge(a, b, loopMade, block);
            && (t in merged.clobbered <==> t in a.clobbered || t in b.clobbered)
            && (t in a.clobbered && t in b.clobbered ==>
                Agreed(merged.clobbered[t], a.clobbered[t], b.clobbered[t], block))
            && (t in a.clobbered && t !in b.clobbered ==> merged.clobbered[t] == a.clobbered[t])
            && (t in b.clobbered && t !in a.clobbered ==> merged.clobbered[t] == b.clobbered[t])
  {
  }

  predicate SameReach(a: State, b: State, region: Region) {
    ForeignWithinReach(a, region) == ForeignWithinReach(b, region)
  }

  /** Reads of a slot on the two sides carry one epoch after the join exactly
  when they did before, where the sides agree on who may write the object. */
  lemma StampsJoin(a: State, b: State, loopMade: set<Region>, block: int, target: Slot)
    requires SameReach(a, b, target.region)
    ensures Agreed(StampOf(Merge(a, b, loopMade, block), target).epoch, StampOf(a, target).epoch,
                   StampOf(b, target).epoch, block)
  {
    WithinReachJoins(a, b, loopMade, block, target.region);
    EpochsJoin(a, b, loopMade, block);
  }

  // ---- Staleness ------------------------------------------------------------

  /** The pointees after the join of a known entry are those of either side, each
  stale exactly when a side says so or the back edge made it. */
  lemma KnownJoin(mine: Pointees, theirs: Pointees, loopMade: set<Region>, p: Slot)
    requires !IsUnknown(mine) && !IsUnknown(theirs)
    ensures var joined := Join(mine, Restale(theirs, loopMade));
            && joined.Keys == mine.Keys + theirs.Keys
            && (StaleIn(joined, p) <==>
                StaleIn(mine, p) || StaleIn(theirs, p) || (p in theirs && p.region in loopMade))
  {
    var marked := Restale(theirs, loopMade);
    assert marked.Keys == theirs.Keys;
    assert StaleIn(marked, p) <==> StaleIn(theirs, p) || (p in theirs && p.region in loopMade);
  }

  lemma UnknownJoin(mine: Pointees, theirs: Pointees, loopMade: set<Region>)
    requires (IsUnknown(mine) || IsUnknown(theirs)) && UnknownRegion !in loopMade
    ensures Join(mine, Restale(theirs, loopMade)) == map[UNKNOWN := StaleIn(mine, UNKNOWN) || StaleIn(theirs, UNKNOWN)]
  {
    assert Restale(theirs, loopMade).Keys == theirs.Keys;
  }

  lemma OneKey(stale: bool)
    ensures |map[UNKNOWN := stale]| == 1
  {
    var m: Pointees := map[UNKNOWN := stale];
    assert m.Keys == {UNKNOWN};
    assert |m| == |m.Keys|;
  }

  /** A pointee of a joined entry is one of some side, each side's implicit
  content included, and stale exactly when a side says so or the back edge made
  it. An unknown side makes the entry unknown, and so do too many pointees. */
  lemma StaleExactly(a: State, b: State, loopMade: set<Region>, block: int, t: Slot, p: Slot)
    requires (t in a.contents || t in b.contents) && UnknownRegion !in loopMade
    ensures var entry, mine, theirs := Merge(a, b, loopMade, block).contents[t], EntryOrContent(a, t),
                                       EntryOrContent(b, t);
            if IsUnknown(mine) || IsUnknown(theirs) then
              entry == map[UNKNOWN := StaleIn(mine, UNKNOWN) || StaleIn(theirs, UNKNOWN)]
            else if |mine.Keys + theirs.Keys| > POINTEE_LIMIT then entry == map[UNKNOWN := false]
            else
              && entry.Keys == mine.Keys + theirs.Keys
              && (StaleIn(entry, p) <==>
                  StaleIn(mine, p) || StaleIn(theirs, p) || (p in theirs && p.region in loopMade))
  {
    var mine, theirs := EntryOrContent(a, t), EntryOrContent(b, t);
    var joined := Join(mine, Restale(theirs, loopMade));
    EntryIsJoin(a, b, loopMade, block, t);
    if IsUnknown(mine) || IsUnknown(theirs) {
      UnknownJoin(mine, theirs, loopMade);
      OneKey(StaleIn(mine, UNKNOWN) || StaleIn(theirs, UNKNOWN));
    } else {
      KnownJoin(mine, theirs, loopMade, p);
      assert |joined| == |joined.Keys|;
    }
  }

  lemma EntryIsJoin(a: State, b: State, loopMade: set<Region>, block: int, t: Slot)
    requires t in a.contents || t in b.contents
    ensures Merge(a, b, loopMade, block).contents[t] ==
            BoundSet(Join(EntryOrContent(a, t), Restale(EntryOrContent(b, t), loopMade)))
  {
  }

  /** What is read is stale only where some entry says so: content that was not
  written never is. */
  lemma StaleFromEntries(state: State, t: Slot, p: Slot)
    ensures !StaleIn(Unwritten(state, t), p)
    ensures StaleIn(Content(state, t), p) ==> exists s :: s in state.contents && StaleIn(state.contents[s], p)
  {
    if StaleIn(Content(state, t), p) && EndsInStar(t.path) {
      StaleAmongSiblings(state.contents, Siblings(state.contents, t), p);
    }
  }

  lemma StaleAmongSiblings(contents: map<Slot, Pointees>, slots: set<Slot>, p: Slot)
    requires slots <= contents.Keys && StaleIn(JoinOver(contents, slots), p)
    ensures exists s :: s in contents && StaleIn(contents[s], p)
  {
  }

  // ---- What the function did not write --------------------------------------

  /** A read of foreign content not written here may be anything, and names the
  slot and the last effect that could have changed it: so two reads are one
  placeholder exactly when no such effect came between. */
  lemma ForeignReads(a: State, b: State, target: Slot)
    requires target.region.External? || target.region.Opaque? || target.region.Placeholder? || target.region.Closure?
    requires !ClobberedBeneath(a, target) && !ClobberedBeneath(b, target)
    ensures AdmitsAnything(Unwritten(a, target))
    ensures Unwritten(a, target) == Unwritten(b, target) <==> StampOf(a, target) == StampOf(b, target)
  {
    var x, y := Slot(Placeholder(target, StampOf(a, target)), []), Slot(Placeholder(target, StampOf(b, target)), []);
    assert x in Unwritten(a, target).Keys && y in Unwritten(b, target).Keys;
    if Unwritten(a, target) == Unwritten(b, target) {
      assert x in Unwritten(b, target);
    }
  }

  /** An untouched local reads as nil; beneath an effect not followed, as what
  that effect may have left. */
  lemma LocalReads(state: State, target: Slot)
    requires target.region.Site?
    ensures !ClobberedBeneath(state, target) ==> Unwritten(state, target) == map[NIL := false]
    ensures ClobberedBeneath(state, target) ==> AdmitsAnything(Unwritten(state, target))
  {
    if ClobberedBeneath(state, target) {
      var stamp := Stamp(ClobberStamp(state, target), 0);
      assert Slot(Placeholder(target, stamp), []) in Unwritten(state, target).Keys;
    }
  }
}
