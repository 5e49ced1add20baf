/** A control-flow join covers both of the states it merges. */
module Joins {
  import opened SlotPaths
  import opened PointeeSets
  import opened RegionStates

  /** Every entry names at least one slot. A state holds an empty entry only for
  a value whose pointees are still pending. */
  predicate EntriesFilled(state: State) {
    NormalContents(state.contents) && forall t | t in state.contents :: state.contents[t] != map[]
  }

  lemma ContentNormal(state: State, target: Slot)
    requires NormalContents(state.contents)
    ensures Normal(Unwritten(state, target)) && Normal(Content(state, target))
  {
    assert Normal(Unwritten(state, target));
  }

  lemma JoinNotEmpty(a: Pointees, b: Pointees)
    ensures Join(a, b) == map[] <==> a == map[] && b == map[]
  {
    if IsUnknown(a) || IsUnknown(b) {
      assert UNKNOWN in Join(a, b);
    } else {
      assert Join(a, b).Keys == a.Keys + b.Keys;
      assert a == map[] <==> a.Keys == {};
      assert b == map[] <==> b.Keys == {};
      assert Join(a, b) == map[] <==> Join(a, b).Keys == {};
    }
  }

  lemma ContentNotEmpty(state: State, target: Slot)
    ensures Unwritten(state, target) != map[] && Content(state, target) != map[]
  {
    assert forall k: Slot, b: bool :: k in map[k := b];
    if EndsInStar(target.path) && target.region != UnknownRegion && target.region != NilRegion {
      JoinNotEmpty(JoinOver(state.contents, Siblings(state.contents, target)), Unwritten(state, target));
    }
  }

  /** Joining, marking and bounding two sets loses neither. */
  lemma CombineCovers(mine: Pointees, theirs: Pointees, loopMade: set<Region>, value: Value)
    requires Normal(mine) && Normal(theirs) && (mine != map[] || theirs != map[])
    ensures var pts := BoundSet(Join(mine, Restale(theirs, loopMade)));
            && pts != map[] && Normal(pts)
            && (Covers(mine, value) || Covers(theirs, value) ==> Covers(pts, value))
  {
    var marked := Restale(theirs, loopMade);
    CoversJoin(mine, marked, value);
    JoinNotEmpty(mine, marked);
    var joined := Join(mine, marked);
    assert Normal(joined);
    assert UNKNOWN in map[UNKNOWN := false];
    if Covers(joined, value) {
      CoversBound(joined, value);
    }
  }

  /** The first state's entries are filled; the other's need not be. */
  predicate OneFilled(mine: State, theirs: State) {
    EntriesFilled(mine) && NormalContents(theirs.contents)
  }

  /** The merged entry of a slot either side wrote. */
  lemma MergedEntry(a: State, b: State, loopMade: set<Region>, target: Slot, value: Value)
    requires OneFilled(a, b) || OneFilled(b, a)
    requires target in a.contents || target in b.contents
    ensures var merged := MergeContents(a, b, loopMade);
            && merged[target] != map[] && Normal(merged[target])
            && (Covers(EntryOrContent(a, target), value) || Covers(EntryOrContent(b, target), value) ==>
                Covers(merged[target], value))
  {
    ContentNormal(a, target);
    ContentNormal(b, target);
    ContentNotEmpty(a, target);
    ContentNotEmpty(b, target);
    CombineCovers(EntryOrContent(a, target), EntryOrContent(b, target), loopMade, value);
  }

  lemma MergedFilled(a: State, b: State, loopMade: set<Region>, block: int)
    requires OneFilled(a, b) || OneFilled(b, a)
    ensures EntriesFilled(Merge(a, b, loopMade, block))
  {
    forall t | t in MergeContents(a, b, loopMade)
      ensures MergeContents(a, b, loopMade)[t] != map[] && Normal(MergeContents(a, b, loopMade)[t])
    {
      MergedEntry(a, b, loopMade, t, NilValue);
    }
  }

  lemma {:induction false} ClobberDepthExactly(clobbered: map<Slot, int>, region: Region, path: Path)
    ensures ClobberDepth(clobbered, region, path) >= 0 <==>
            exists k :: 0 <= k <= |path| && Slot(region, path[..k]) in clobbered
  {
    if k :| 0 <= k <= |path| && Slot(region, path[..k]) in clobbered {
      assert k <= ClobberDepth(clobbered, region, path);
    }
  }

  lemma MergedClobber(a: State, b: State, loopMade: set<Region>, block: int, target: Slot)
    ensures ClobberedBeneath(Merge(a, b, loopMade, block), target) <==>
            ClobberedBeneath(a, target) || ClobberedBeneath(b, target)
  {
    var merged := Merge(a, b, loopMade, block);
    assert merged.clobbered.Keys == a.clobbered.Keys + b.clobbered.Keys;
    ClobberDepthExactly(a.clobbered, target.region, target.path);
    ClobberDepthExactly(b.clobbered, target.region, target.path);
    ClobberDepthExactly(merged.clobbered, target.region, target.path);
    forall k | 0 <= k <= |target.path|
      ensures Slot(target.region, target.path[..k]) in merged.clobbered <==>
              Slot(target.region, target.path[..k]) in a.clobbered ||
                Slot(target.region, target.path[..k]) in b.clobbered
    {
    }
  }

  lemma UnwrittenCovers(state: State, target: Slot, value: Value)
    requires target.region.Site?
    ensures Covers(Unwritten(state, target), value) <==> ClobberedBeneath(state, target) || value.NilValue?
    ensures AdmitsAnything(Unwritten(state, target)) <==> ClobberedBeneath(state, target)
  {
    if ClobberedBeneath(state, target) {
      var t := Slot(Placeholder(target, Stamp(ClobberStamp(state, target), 0)), []);
      assert t in Unwritten(state, target) && Denotes(t, value);
    } else {
      assert NIL in Unwritten(state, target);
    }
  }

  /** What a read of a local slot may yield, spelled out by entry. */
  lemma ContentCovers(state: State, target: Slot, value: Value)
    requires EntriesFilled(state) && target.region.Site?
    ensures EndsInStar(target.path) ==>
      (Covers(Content(state, target), value) <==>
        (exists s <- Siblings(state.contents, target) :: Covers(state.contents[s], value))
        || Covers(Unwritten(state, target), value))
    ensures !EndsInStar(target.path) ==>
      var star := StarSlot(target);
      var viaStar := EndsInIndex(target.path) && star in state.contents;
      (Covers(Content(state, target), value) <==>
        if target in state.contents || viaStar then
          (target in state.contents && Covers(state.contents[target], value)) ||
          (viaStar && Covers(state.contents[star], value))
        else Covers(Unwritten(state, target), value))
  {
    ContentNormal(state, target);
    if EndsInStar(target.path) {
      var siblings := Siblings(state.contents, target);
      CoversJoin(JoinOver(state.contents, siblings), Unwritten(state, target), value);
    } else {
      var own := Entry(state.contents, target);
      var star := if EndsInIndex(target.path) then Entry(state.contents, StarSlot(target)) else map[];
      JoinNotEmpty(own, star);
      CoversJoin(own, star, value);
    }
  }

  ghost predicate CoversAllOf(state: State, other: State, target: Slot) {
    forall value | Covers(Content(other, target), value) :: Covers(Content(state, target), value)
  }

  predicate Sides(a: State, b: State, mine: State, theirs: State) {
    (mine == a && theirs == b) || (mine == b && theirs == a)
  }

  lemma StarCovered(a: State, b: State, mine: State, theirs: State, loopMade: set<Region>, block: int, target: Slot,
                    value: Value)
    requires OneFilled(mine, theirs) && target.region.Site? && Sides(a, b, mine, theirs)
    requires Covers(Content(mine, target), value)
    requires EndsInStar(target.path)
    ensures Covers(Content(Merge(a, b, loopMade, block), target), value)
  {
    var merged := Merge(a, b, loopMade, block);
    MergedFilled(a, b, loopMade, block);
    ContentCovers(mine, target, value);
    ContentCovers(merged, target, value);
    if s :| s in Siblings(mine.contents, target) && Covers(mine.contents[s], value) {
      MergedEntry(a, b, loopMade, s, value);
      assert s in Siblings(merged.contents, target);
    } else {
      UnwrittenCovers(mine, target, value);
      UnwrittenCovers(merged, target, value);
      MergedClobber(a, b, loopMade, block, target);
    }
  }

  /** The slot or, for an element, its wildcard was written on some side. */
  lemma WrittenCovered(a: State, b: State, mine: State, theirs: State, loopMade: set<Region>, block: int, target: Slot,
                       value: Value)
    requires OneFilled(mine, theirs) && target.region.Site? && Sides(a, b, mine, theirs)
    requires Covers(Content(mine, target), value)
    requires !EndsInStar(target.path)
    requires target in a.contents || target in b.contents ||
             (EndsInIndex(target.path) && StarSlot(target) in mine.contents)
    ensures Covers(Content(Merge(a, b, loopMade, block), target), value)
  {
    var merged, star := Merge(a, b, loopMade, block), StarSlot(target);
    MergedFilled(a, b, loopMade, block);
    ContentCovers(mine, target, value);
    ContentCovers(merged, target, value);
    if target in a.contents || target in b.contents {
      MergedEntry(a, b, loopMade, target, value);
    }
    if EndsInIndex(target.path) && star in mine.contents {
      MergedEntry(a, b, loopMade, star, value);
    }
  }

  /** Only the other side wrote the wildcard above an untouched element. */
  lemma UntouchedCovered(a: State, b: State, mine: State, theirs: State, loopMade: set<Region>, block: int,
                         target: Slot, value: Value)
    requires OneFilled(mine, theirs) && target.region.Site? && Sides(a, b, mine, theirs)
    requires Covers(Content(mine, target), value)
    requires EndsInIndex(target.path) && !EndsInStar(target.path)
    requires target !in a.contents && target !in b.contents
    requires StarSlot(target) !in mine.contents && StarSlot(target) in theirs.contents
    requires target !in mine.clobbered
    ensures Covers(Content(Merge(a, b, loopMade, block), target), value)
  {
    var merged, star := Merge(a, b, loopMade, block), StarSlot(target);
    MergedFilled(a, b, loopMade, block);
    ContentCovers(mine, target, value);
    ContentCovers(merged, target, value);
    UnwrittenCovers(mine, target, value);
    UnwrittenCovers(mine, star, value);
    ContentCovers(mine, star, value);
    MergedEntry(a, b, loopMade, star, value);
  }

  lemma UnwrittenCovered(a: State, b: State, mine: State, theirs: State, loopMade: set<Region>, block: int,
                         target: Slot, value: Value)
    requires OneFilled(mine, theirs) && target.region.Site? && Sides(a, b, mine, theirs)
    requires Covers(Content(mine, target), value)
    requires !EndsInStar(target.path) && target !in a.contents && target !in b.contents
    requires EndsInIndex(target.path) ==> StarSlot(target) !in a.contents && StarSlot(target) !in b.contents
    ensures Covers(Content(Merge(a, b, loopMade, block), target), value)
  {
    var merged := Merge(a, b, loopMade, block);
    MergedFilled(a, b, loopMade, block);
    ContentCovers(mine, target, value);
    ContentCovers(merged, target, value);
    UnwrittenCovers(mine, target, value);
    UnwrittenCovers(merged, target, value);
    MergedClobber(a, b, loopMade, block, target);
  }

  /** mine alone clobbered exactly this element while only theirs wrote the
  wildcard, and what the two say of the wildcard neither admits everything nor,
  put together, passes the limit. */
  predicate HiddenFrom(mine: State, theirs: State, target: Slot) {
    && EndsInIndex(target.path) && !EndsInStar(target.path)
    && target !in mine.contents && target !in theirs.contents
    && StarSlot(target) !in mine.contents && StarSlot(target) in theirs.contents
    && target in mine.clobbered
    && StaysKnown(Content(mine, StarSlot(target)), theirs.contents[StarSlot(target)])
  }

  predicate StaysKnown(a: Pointees, b: Pointees) {
    !AdmitsAnything(a) && !AdmitsAnything(b) && |a.Keys + b.Keys| <= POINTEE_LIMIT
  }

  /** Whether a merged set says anything can be told from the two. */
  lemma CombinedKnown(a: Pointees, b: Pointees, loopMade: set<Region>)
    ensures !AdmitsAnything(BoundSet(Join(a, Restale(b, loopMade)))) <==> StaysKnown(a, b)
  {
    var marked := Restale(b, loopMade);
    assert marked.Keys == b.Keys;
    assert UNKNOWN in map[UNKNOWN := false];
    if IsUnknown(a) || IsUnknown(b) {
      assert UNKNOWN in Join(a, marked);
    } else {
      assert Join(a, marked).Keys == a.Keys + b.Keys;
      assert |Join(a, marked)| == |Join(a, marked).Keys|;
    }
  }

  /** The merged wildcard entry of which only theirs wrote one. */
  lemma WildcardMerged(a: State, b: State, mine: State, theirs: State, loopMade: set<Region>, star: Slot)
    requires Sides(a, b, mine, theirs) && star !in mine.contents && star in theirs.contents
    ensures star in MergeContents(a, b, loopMade)
    ensures !AdmitsAnything(MergeContents(a, b, loopMade)[star]) <==>
            StaysKnown(Content(mine, star), theirs.contents[star])
  {
    CombinedKnown(EntryOrContent(a, star), EntryOrContent(b, star), loopMade);
    assert Content(mine, star).Keys + theirs.contents[star].Keys ==
           theirs.contents[star].Keys + Content(mine, star).Keys;
  }

  /** A hidden element clobber loses some value. */
  lemma HiddenClobberLoses(a: State, b: State, mine: State, theirs: State, loopMade: set<Region>, block: int,
                           target: Slot)
    requires EntriesFilled(a) && EntriesFilled(b) && target.region.Site?
    requires Sides(a, b, mine, theirs)
    requires HiddenFrom(mine, theirs, target)
    ensures !CoversAllOf(Merge(a, b, loopMade, block), mine, target)
  {
    var merged, star := Merge(a, b, loopMade, block), StarSlot(target);
    MergedFilled(a, b, loopMade, block);
    WildcardMerged(a, b, mine, theirs, loopMade, star);
    AdmitsAnythingExactly(merged.contents[star]);
    var value :| !Covers(merged.contents[star], value);
    ContentCovers(merged, target, value);
    assert Covers(Content(mine, target), value) by {
      ContentCovers(mine, target, value);
      UnwrittenCovers(mine, target, value);
    }
  }

  /** A join covers everything either side says about a local slot, slots
  written on one side only, implicit nil, wildcard entries, clobbers and
  widened sets included. The one exception is an element that was itself
  clobbered on one side while only the other side wrote the wildcard. */
  lemma JoinCoversExactly(a: State, b: State, loopMade: set<Region>, block: int, target: Slot)
    requires EntriesFilled(a) && EntriesFilled(b) && target.region.Site?
    ensures var merged := Merge(a, b, loopMade, block);
            (CoversAllOf(merged, a, target) && CoversAllOf(merged, b, target)) <==>
            !HiddenFrom(a, b, target) && !HiddenFrom(b, a, target)
  {
    var merged := Merge(a, b, loopMade, block);
    if HiddenFrom(a, b, target) {
      HiddenClobberLoses(a, b, a, b, loopMade, block, target);
    } else if HiddenFrom(b, a, target) {
      HiddenClobberLoses(a, b, b, a, loopMade, block, target);
    } else {
      OneSideCovered(a, b, a, b, loopMade, block, target);
      OneSideCovered(a, b, b, a, loopMade, block, target);
    }
  }

  lemma OneSideCovered(a: State, b: State, mine: State, theirs: State, loopMade: set<Region>, block: int, target: Slot)
    requires OneFilled(mine, theirs) && target.region.Site?
    requires Sides(a, b, mine, theirs)
    requires !HiddenFrom(mine, theirs, target)
    ensures CoversAllOf(Merge(a, b, loopMade, block), mine, target)
  {
    var merged := Merge(a, b, loopMade, block);
    var star := StarSlot(target);
    forall value | Covers(Content(mine, target), value) ensures Covers(Content(merged, target), value) {
      if EndsInStar(target.path) {
        StarCovered(a, b, mine, theirs, loopMade, block, target, value);
      } else if target in a.contents || target in b.contents || (EndsInIndex(target.path) && star in mine.contents) {
        WrittenCovered(a, b, mine, theirs, loopMade, block, target, value);
      } else if !EndsInIndex(target.path) || star !in theirs.contents {
        UnwrittenCovered(a, b, mine, theirs, loopMade, block, target, value);
      } else if target !in mine.clobbered {
        UntouchedCovered(a, b, mine, theirs, loopMade, block, target, value);
      } else {
        MergedFilled(a, b, loopMade, block);
        WildcardMerged(a, b, mine, theirs, loopMade, star);
        AdmitsAnythingExactly(merged.contents[star]);
        ContentCovers(merged, target, value);
      }
    }
  }

  type Heap = map<Slot, Value>

  /** Every cell of the heap holds something its slot's content admits. */
  ghost predicate HeapCovered(state: State, heap: Heap) {
    forall t | t in heap :: Covers(Content(state, t), heap[t])
  }

  /** No unfollowed effect clobbered a scalar element on its own. */
  predicate ElementsUnclobbered(state: State, heap: Heap) {
    forall t | t in heap && EndsInIndex(t.path) :: t !in state.clobbered
  }

  /** Any heap covered by either incoming state is covered by the merged one. */
  lemma JoinKeepsHeaps(a: State, b: State, loopMade: set<Region>, block: int, heap: Heap)
    requires EntriesFilled(a) && EntriesFilled(b)
    requires forall t | t in heap :: t.region.Site?
    requires ElementsUnclobbered(a, heap) && ElementsUnclobbered(b, heap)
    requires HeapCovered(a, heap) || HeapCovered(b, heap)
    ensures HeapCovered(Merge(a, b, loopMade, block), heap)
  {
    forall t | t in heap ensures Covers(Content(Merge(a, b, loopMade, block), t), heap[t]) {
      JoinCoversExactly(a, b, loopMade, block, t);
    }
  }

  lemma FieldReadsEntry(state: State, target: Slot)
    requires target in state.contents && target.region.Site? && !EndsInIndex(target.path)
    requires Normal(state.contents[target])
    ensures Content(state, target) ==
            if state.contents[target] != map[] then state.contents[target] else Unwritten(state, target)
  {
  }

  const NIL_SET: Pointees := map[NIL := false]
  const ELEMENT := Slot(Site(0), [Index(3)])
  const ELEMENT_CLOBBERED := EMPTY_STATE.(clobbered := map[ELEMENT := 1])
  const WILDCARD_WRITTEN := EMPTY_STATE.(contents := map[Slot(Site(0), [AnyIndex]) := NIL_SET])

  lemma OneJoined(x: Pointees, only: Slot)
    requires x == map[only := false] || x == map[]
    ensures BoundSet(Join(x, Restale(map[only := false], {}))) == map[only := false]
  {
    var one: Pointees := map[only := false];
    assert Restale(one, {}) == one;
    assert Join(x, one) == one;
    assert one.Keys == {only};
  }

  /** The merged entry when both sides hold the same one slot. */
  lemma SameEntryMerged(a: State, b: State, target: Slot, only: Slot)
    requires target in b.contents && b.contents[target] == map[only := false]
    requires EntryOrContent(a, target) == map[only := false] || EntryOrContent(a, target) == map[]
    ensures MergeContents(a, b, {})[target] == map[only := false]
  {
    OneJoined(EntryOrContent(a, target), only);
  }

  /** An array one of whose elements an effect clobbered, joined with one that
  stored nil through an unknown index. */
  lemma HiddenClobberExample()
    ensures !CoversAllOf(Merge(ELEMENT_CLOBBERED, WILDCARD_WRITTEN, {}, -1), ELEMENT_CLOBBERED, ELEMENT)
  {
    var star := Slot(Site(0), [AnyIndex]);
    assert StarSlot(ELEMENT) == star;
    assert Content(ELEMENT_CLOBBERED, star) == NIL_SET by {
      ElementClobberSparesWildcard();
    }
    assert NIL_SET.Keys == {NIL} && !AdmitsAnything(NIL_SET);
    HiddenClobberLoses(ELEMENT_CLOBBERED, WILDCARD_WRITTEN, ELEMENT_CLOBBERED, WILDCARD_WRITTEN, {}, -1, ELEMENT);
  }

  lemma ElementClobberSparesWildcard()
    ensures Content(ELEMENT_CLOBBERED, Slot(Site(0), [AnyIndex])) == NIL_SET
  {
    var star := Slot(Site(0), [AnyIndex]);
    assert !ClobberedBeneath(ELEMENT_CLOBBERED, star) by {
      ClobberDepthExactly(ELEMENT_CLOBBERED.clobbered, Site(0), [AnyIndex]);
      assert ELEMENT.path[0] == Index(3);
    }
  }

  const ONE_SET: Pointees := map[Slot(Site(1), []) := false]
  const EMPTY_ENTRY := EMPTY_STATE.(contents := map[Slot(Site(0), []) := map[]])
  const ONE_ENTRY := EMPTY_STATE.(contents := map[Slot(Site(0), []) := ONE_SET])

  /** An entry present but empty reads as nil, and a join with a side that
  stored something forgets that nil. */
  lemma EmptyEntryExample()
    ensures !CoversAllOf(Merge(EMPTY_ENTRY, ONE_ENTRY, {}, -1), EMPTY_ENTRY, Slot(Site(0), []))
  {
    var t := Slot(Site(0), []);
    SameEntryMerged(EMPTY_ENTRY, ONE_ENTRY, t, Slot(Site(1), []));
    FieldReadsEntry(Merge(EMPTY_ENTRY, ONE_ENTRY, {}, -1), t);
    FieldReadsEntry(EMPTY_ENTRY, t);
    UnwrittenCovers(EMPTY_ENTRY, t, NilValue);
    assert !Covers(ONE_SET, NilValue);
  }
}
