/** A store through a pointer with several targets visits them in the order of a
range over a map. When that order can show. */
module TargetOrders {
  import opened Options
  import opened SlotPaths
  import opened PointeeSets
  import opened RegionStates
  import opened Joins
  import opened MemoryPrograms
  import opened AbstractMemory
  import opened MemorySoundness

  /** A wildcard's entry is never empty; another's is when a pending value
  replaced it. */
  predicate StarsFilled(state: State) {
    forall t | t in state.contents && EndsInStar(t.path) :: state.contents[t] != map[]
  }

  predicate StateFine(fn: Function, state: State) {
    StateTyped(fn, state) && StarsFilled(state)
  }

  /** How many elements the array has that the location is an element of. */
  function Elements(fn: Function, t: Slot): nat {
    if t.region.Site? && NamesType(fn, t.region.alloc) && PathType(StorageOf(fn, t.region.alloc), Parent(t.path)).Some?
    then ArrayLength(PathType(StorageOf(fn, t.region.alloc), Parent(t.path)).value)
    else 0
  }

  /** A wildcard and an element of one array of several elements. */
  predicate Clash(fn: Function, star: Slot, element: Slot) {
    EndsInStar(star.path) && element != star && IsSibling(element, star) && Elements(fn, star) > 1
  }

  predicate Mixed(fn: Function, targets: Pointees) {
    exists a, b | a in targets && b in targets :: Clash(fn, a, b)
  }

  // ---- One store ------------------------------------------------------------

  /** The entries after a possible store to one location. */
  function Settle(state: State, u: Slot, value: Pointees): map<Slot, Pointees> {
    if EndsInStar(u.path) then ElementStored(state, u, value)
    else state.contents[u := BoundSet(Join(EntryOrContent(state, u), value))]
  }

  function SettleIn(state: State, u: Slot, value: Pointees): State {
    state.(contents := Settle(state, u, value))
  }

  lemma StoreSettles(fn: Function, state: State, u: Slot, value: Pointees)
    requires StateTyped(fn, state) && IsLeaf(fn, u)
    ensures StoreSlot(state, u, value, false) == SettleIn(state, u, value)
  {
    if EndsInStar(u.path) {
      ElementStoreIs(fn, state, u, value);
    } else {
      WeakStoreIs(fn, state, u, value);
    }
  }

  lemma SettleEntry(state: State, u: Slot, value: Pointees, t: Slot)
    ensures t in Settle(state, u, value) <==> t == u || t in state.contents
    ensures t in Settle(state, u, value) ==>
              Settle(state, u, value)[t] ==
                if t == u then BoundSet(Join(EntryOrContent(state, u), value))
                else if EndsInStar(u.path) && IsSibling(t, u) then BoundSet(Join(state.contents[t], value))
                else state.contents[t]
  {
  }

  /** after is before with a possible store to u, which held the set read. */
  ghost predicate SettledTo(before: map<Slot, Pointees>, after: map<Slot, Pointees>, u: Slot, read: Pointees,
                            value: Pointees)
  {
    && (forall t :: t in after <==> t == u || t in before)
    && (forall t | t in after ::
          after[t] ==
          if t == u then BoundSet(Join(read, value))
          else if EndsInStar(u.path) && IsSibling(t, u) then BoundSet(Join(before[t], value))
          else before[t])
  }

  lemma SettlesTo(state: State, u: Slot, value: Pointees)
    ensures SettledTo(state.contents, Settle(state, u, value), u, EntryOrContent(state, u), value)
  {
    forall t | t in Settle(state, u, value) {
      SettleEntry(state, u, value, t);
    }
  }

  /** One's store does not touch what the other reads. */
  predicate Apart(u: Slot, v: Slot) {
    u != v && !(EndsInStar(u.path) && IsSibling(v, u)) && !(EndsInStar(v.path) && IsSibling(u, v))
  }

  lemma JoinOverSame(a: map<Slot, Pointees>, b: map<Slot, Pointees>, slots: set<Slot>)
    requires slots <= a.Keys && slots <= b.Keys && forall s | s in slots :: a[s] == b[s]
    ensures JoinOver(a, slots) == JoinOver(b, slots)
  {
    assert HeldBy(a, slots) == HeldBy(b, slots);
  }

  lemma StarIsSibling(t: Slot)
    requires EndsInIndex(t.path)
    ensures IsSibling(t, StarSlot(t)) && EndsInStar(StarSlot(t).path) && IsSibling(StarSlot(t), t)
  {
  }

  lemma SameStar(u: Slot, v: Slot)
    requires EndsInStar(u.path) && EndsInStar(v.path) && u.region == v.region && Parent(u.path) == Parent(v.path)
    ensures u == v
  {
    assert u.path == Parent(u.path) + [AnyIndex] && v.path == Parent(v.path) + [AnyIndex];
  }

  /** A wildcard's siblings are untouched by a store apart from it. */
  lemma SiblingsUntouched(state: State, u: Slot, v: Slot, value: Pointees)
    requires Apart(u, v) && EndsInStar(v.path)
    ensures Siblings(Settle(state, u, value), v) == Siblings(state.contents, v)
    ensures forall t | t in Siblings(state.contents, v) :: Settle(state, u, value)[t] == state.contents[t]
  {
    forall t ensures t in Siblings(Settle(state, u, value), v) <==> t in Siblings(state.contents, v) {
      SettleEntry(state, u, value, t);
    }
    forall t | t in Siblings(state.contents, v) ensures Settle(state, u, value)[t] == state.contents[t] {
      SettleEntry(state, u, value, t);
      if EndsInStar(u.path) && IsSibling(t, u) {
        SameStar(u, v);
      }
    }
  }

  lemma EntryUntouched(state: State, u: Slot, v: Slot, value: Pointees)
    requires Apart(u, v)
    ensures Entry(Settle(state, u, value), v) == Entry(state.contents, v)
    ensures v in Settle(state, u, value) <==> v in state.contents
  {
    SettleEntry(state, u, value, v);
  }

  lemma ReadUntouched(fn: Function, state: State, u: Slot, v: Slot, value: Pointees)
    requires StateTyped(fn, state) && IsLeaf(fn, u) && IsLeaf(fn, v) && Apart(u, v)
    ensures EntryOrContent(SettleIn(state, u, value), v) == EntryOrContent(state, v)
  {
    var after := SettleIn(state, u, value);
    EntryUntouched(state, u, v, value);
    assert Unwritten(after, v) == Unwritten(state, v);
    if EndsInStar(v.path) {
      SiblingsUntouched(state, u, v, value);
      JoinOverSame(after.contents, state.contents, Siblings(state.contents, v));
    } else if EndsInIndex(v.path) {
      StarUntouched(state, u, v, value);
    }
  }

  lemma StarUntouched(state: State, u: Slot, v: Slot, value: Pointees)
    requires Apart(u, v) && EndsInIndex(v.path) && !EndsInStar(v.path)
    ensures Entry(Settle(state, u, value), StarSlot(v)) == Entry(state.contents, StarSlot(v))
  {
    StarIsSibling(v);
    SettleEntry(state, u, value, StarSlot(v));
    if EndsInStar(u.path) && IsSibling(StarSlot(v), u) {
      SameStar(u, StarSlot(v));
    }
  }

  // ---- Two stores -----------------------------------------------------------

  lemma ApartSwap(before: map<Slot, Pointees>, a: map<Slot, Pointees>, b: map<Slot, Pointees>,
                  ab: map<Slot, Pointees>, ba: map<Slot, Pointees>,
                  u: Slot, v: Slot, readU: Pointees, readV: Pointees, value: Pointees)
    requires Apart(u, v)
    requires SettledTo(before, a, u, readU, value) && SettledTo(a, ab, v, readV, value)
    requires SettledTo(before, b, v, readV, value) && SettledTo(b, ba, u, readU, value)
    ensures ab == ba
  {
    forall t | t in ab ensures t in ba && ab[t] == ba[t] {
      if EndsInStar(u.path) && IsSibling(t, u) && EndsInStar(v.path) && IsSibling(t, v) {
        SameStar(u, v);
      }
    }
    assert ab.Keys == ba.Keys;
  }

  lemma ApartCommute(fn: Function, state: State, u: Slot, v: Slot, value: Pointees)
    requires StateTyped(fn, state) && IsLeaf(fn, u) && IsLeaf(fn, v) && Apart(u, v)
    ensures SettleIn(SettleIn(state, u, value), v, value) == SettleIn(SettleIn(state, v, value), u, value)
  {
    var a, b := SettleIn(state, u, value), SettleIn(state, v, value);
    ReadUntouched(fn, state, u, v, value);
    ReadUntouched(fn, state, v, u, value);
    SettlesTo(state, u, value);
    SettlesTo(state, v, value);
    SettlesTo(a, v, value);
    SettlesTo(b, u, value);
    ApartSwap(state.contents, a.contents, b.contents, Settle(a, v, value), Settle(b, u, value), u, v,
              EntryOrContent(state, u), EntryOrContent(state, v), value);
  }

  // ---- An array of one element ----------------------------------------------

  const ZERO: Pointees := map[NIL := false]

  const LOST: Pointees := map[UNKNOWN := false]

  lemma JoinNormal(a: Pointees, b: Pointees)
    requires Normal(a) && Normal(b)
    ensures Normal(Join(a, b)) && (IsUnknown(Join(a, b)) <==> IsUnknown(a) || IsUnknown(b))
  {
  }

  lemma JoinTwice(a: Pointees, value: Pointees)
    requires Normal(a) && Normal(value)
    ensures Join(Join(a, value), value) == Join(a, value)
  {
    JoinAssociates(a, value, value);
    assert Join(value, value) == value;
  }

  lemma JoinCommutes(a: Pointees, b: Pointees)
    requires Normal(a) && Normal(b)
    ensures Join(a, b) == Join(b, a)
  {
    assert Join(a, b).Keys == Join(b, a).Keys;
  }

  lemma LostAbsorbs(value: Pointees)
    requires Normal(value) && !IsUnknown(value)
    ensures Join(LOST, value) == LOST && |LOST| == 1
  {
  }

  /** A set beyond the limit does not hold unknown. */
  lemma LargeIsKnown(pts: Pointees)
    requires Normal(pts) && |pts| > POINTEE_LIMIT
    ensures !IsUnknown(pts)
  {
    assert |pts| == |pts.Keys|;
    assert |{UNKNOWN}| == 1;
  }

  lemma JoinAgain(a: Pointees, value: Pointees)
    requires Normal(a) && Normal(value)
    ensures BoundSet(Join(BoundSet(Join(a, value)), value)) == BoundSet(Join(a, value))
  {
    var joined := Join(a, value);
    JoinNormal(a, value);
    if |joined| <= POINTEE_LIMIT {
      JoinTwice(a, value);
    } else {
      LargeIsKnown(joined);
      LostAbsorbs(value);
    }
  }

  /** Bounding early changes nothing when the zero value joins in between. */
  lemma BoundEarly(a: Pointees, value: Pointees)
    requires Normal(a) && Normal(value)
    ensures BoundSet(Join(Join(BoundSet(Join(a, value)), ZERO), value)) == BoundSet(Join(Join(a, ZERO), value))
  {
    var joined := Join(a, value);
    JoinNormal(a, value);
    if |joined| <= POINTEE_LIMIT {
      ZeroBetween(a, value);
    } else {
      LargeIsKnown(joined);
      LostAbsorbs(ZERO);
      LostAbsorbs(value);
      LargerWithZero(a, value);
    }
  }

  lemma ZeroBetween(a: Pointees, value: Pointees)
    requires Normal(a) && Normal(value)
    ensures Join(Join(Join(a, value), ZERO), value) == Join(Join(a, ZERO), value)
  {
    JoinNormal(a, ZERO);
    JoinAssociates(a, value, ZERO);
    JoinCommutes(value, ZERO);
    JoinAssociates(a, ZERO, value);
    JoinTwice(Join(a, ZERO), value);
  }

  lemma LargerWithZero(a: Pointees, value: Pointees)
    requires Normal(a) && Normal(value) && |Join(a, value)| > POINTEE_LIMIT && !IsUnknown(Join(a, value))
    ensures BoundSet(Join(Join(a, ZERO), value)) == LOST
  {
    JoinNormal(a, value);
    JoinNormal(a, ZERO);
    JoinNormal(Join(a, ZERO), value);
    KnownKeys(a, value);
    KnownKeys(a, ZERO);
    KnownKeys(Join(a, ZERO), value);
    SubsetSize(Join(a, value).Keys, Join(Join(a, ZERO), value).Keys);
  }

  lemma KnownKeys(a: Pointees, b: Pointees)
    requires !IsUnknown(a) && !IsUnknown(b)
    ensures Join(a, b).Keys == a.Keys + b.Keys && |Join(a, b)| == |Join(a, b).Keys|
  {
  }

  /** An array of one element has no other entries than its two. */
  lemma OnlyTwo(fn: Function, star: Slot, element: Slot, t: Slot)
    requires IsLeaf(fn, star) && IsLeaf(fn, element) && IsLeaf(fn, t) && EndsInStar(star.path)
    requires IsSibling(element, star) && element != star && IsSibling(t, star) && Elements(fn, star) <= 1
    ensures t == star || t == element
  {
    ElementInRange(fn, star, element);
    ElementInRange(fn, star, t);
  }

  /** An element of an array in flat storage: its position is in range. */
  lemma ElementInRange(fn: Function, star: Slot, t: Slot)
    requires IsLeaf(fn, star) && IsLeaf(fn, t) && EndsInStar(star.path) && IsSibling(t, star)
    ensures t.path == Parent(star.path) + [t.path[|t.path| - 1]]
    ensures t != star ==> t.path[|t.path| - 1].Index? && t.path[|t.path| - 1].position < Elements(fn, star)
  {
    var storage, above, last := StorageOf(fn, t.region.alloc), Parent(star.path), t.path[|t.path| - 1];
    assert t.path == above + [last] && star.path == above + [AnyIndex];
    PathTypeAppend(storage, above, [last]);
    PathTypeAppend(storage, above, [AnyIndex]);
  }

  lemma SiblingsOfOne(fn: Function, state: State, star: Slot, element: Slot)
    requires StateTyped(fn, state) && IsLeaf(fn, star) && IsLeaf(fn, element) && EndsInStar(star.path)
    requires IsSibling(element, star) && element != star && Elements(fn, star) <= 1 && star !in state.contents
    ensures Siblings(state.contents, star) == if element in state.contents then {element} else {}
  {
    forall t | t in Siblings(state.contents, star) ensures t == element {
      OnlyTwo(fn, star, element, t);
    }
  }

  lemma JoinOverOne(contents: map<Slot, Pointees>, t: Slot)
    requires t in contents && Normal(contents[t])
    ensures JoinOver(contents, {t}) == contents[t] && JoinOver(contents, {}) == map[]
  {
    assert t in {t};
    assert HeldBy(contents, {t}) == contents[t].Keys;
    assert HeldBy(contents, {}) == {};
  }

  /** What the two entries of an array of one element read. */
  lemma StarReads(fn: Function, state: State, star: Slot, element: Slot)
    requires StateTyped(fn, state) && IsLeaf(fn, star) && IsLeaf(fn, element) && EndsInStar(star.path)
    requires IsSibling(element, star) && element != star && Elements(fn, star) <= 1
    ensures EntryOrContent(state, star) ==
            if star in state.contents then state.contents[star]
            else Join(if element in state.contents then state.contents[element] else map[], ZERO)
  {
    NoClobber(state, star);
    if star !in state.contents {
      SiblingsOfOne(fn, state, star, element);
      if element in state.contents {
        JoinOverOne(state.contents, element);
      } else {
        assert JoinOver(state.contents, {}) == map[];
      }
    }
  }

  lemma ElementReads(fn: Function, state: State, star: Slot, element: Slot)
    requires StateFine(fn, state) && IsLeaf(fn, star) && IsLeaf(fn, element) && EndsInStar(star.path)
    requires IsSibling(element, star) && element != star
    ensures EntryOrContent(state, element) ==
            if element in state.contents then state.contents[element]
            else if star in state.contents then state.contents[star]
            else ZERO
  {
    NoClobber(state, element);
    ElementInRange(fn, star, element);
    assert StarSlot(element) == star;
    if element !in state.contents && star in state.contents {
      assert Normal(state.contents[star]);
      NothingJoined(state.contents[star]);
    }
  }

  lemma NothingJoined(pts: Pointees)
    requires Normal(pts)
    ensures Join(map[], pts) == pts
  {
  }

  // ---- States stay fine -----------------------------------------------------

  predicate Storable(fn: Function, u: Slot, value: Pointees) {
    IsLeaf(fn, u) && PointeesTyped(fn, value, LeafName(fn, u))
  }

  lemma GainTyped(fn: Function, held: Pointees, value: Pointees, name: nat)
    requires PointeesTyped(fn, held, name) && PointeesTyped(fn, value, name)
    ensures PointeesTyped(fn, BoundSet(Join(held, value)), name)
    ensures held != map[] ==> BoundSet(Join(held, value)) != map[]
  {
    JoinTyped(fn, held, value, name);
    JoinNotEmpty(held, value);
    assert UNKNOWN in map[UNKNOWN := false];
  }

  lemma ReadFine(fn: Function, state: State, u: Slot)
    requires StateFine(fn, state) && IsLeaf(fn, u) && LeafName(fn, u) < |fn.types|
    ensures PointeesTyped(fn, EntryOrContent(state, u), LeafName(fn, u))
    ensures EndsInStar(u.path) ==> EntryOrContent(state, u) != map[]
  {
    EntryTyped(fn, state, u);
    ContentNotEmpty(state, u);
  }

  lemma SettleFine(fn: Function, state: State, u: Slot, value: Pointees)
    requires StateFine(fn, state) && Storable(fn, u, value)
    ensures StateFine(fn, SettleIn(state, u, value))
  {
    var after := Settle(state, u, value);
    SettlesTo(state, u, value);
    forall t | t in after
      ensures IsLeaf(fn, t) && PointeesTyped(fn, after[t], LeafName(fn, t)) &&
              (EndsInStar(t.path) ==> after[t] != map[])
    {
      if t == u {
        ReadFine(fn, state, u);
        GainTyped(fn, EntryOrContent(state, u), value, LeafName(fn, u));
      } else if EndsInStar(u.path) && IsSibling(t, u) {
        SiblingTypes(fn, t, u);
        GainTyped(fn, state.contents[t], value, LeafName(fn, t));
      }
    }
  }

  // ---- The stores to an array of one element commute ------------------------

  lemma OneElementCommute(fn: Function, state: State, star: Slot, element: Slot, value: Pointees)
    requires StateFine(fn, state) && Storable(fn, star, value) && Storable(fn, element, value) && EndsInStar(star.path)
    requires IsSibling(element, star) && element != star && Elements(fn, star) <= 1
    ensures SettleIn(SettleIn(state, star, value), element, value) ==
            SettleIn(SettleIn(state, element, value), star, value)
  {
    var a, b := SettleIn(state, star, value), SettleIn(state, element, value);
    SettleFine(fn, state, star, value);
    SettleFine(fn, state, element, value);
    StarReads(fn, state, star, element);
    StarReads(fn, b, star, element);
    ElementReads(fn, state, star, element);
    ElementReads(fn, a, star, element);
    SettlesTo(state, star, value);
    SettlesTo(state, element, value);
    SettlesTo(a, element, value);
    SettlesTo(b, star, value);
    forall t | t in state.contents && IsSibling(t, star) ensures t == star || t == element {
      OnlyTwo(fn, star, element, t);
    }
    ElementInRange(fn, star, element);
    OneElementSwap(state.contents, a.contents, b.contents, Settle(a, element, value), Settle(b, star, value),
                   star, element, value);
  }

  function StarRead(contents: map<Slot, Pointees>, star: Slot, element: Slot): Pointees {
    if star in contents then contents[star]
    else Join(if element in contents then contents[element] else map[], ZERO)
  }

  function ElementRead(contents: map<Slot, Pointees>, star: Slot, element: Slot): Pointees {
    if element in contents then contents[element] else if star in contents then contents[star] else ZERO
  }

  lemma OneElementStar(before: map<Slot, Pointees>, a: map<Slot, Pointees>, b: map<Slot, Pointees>,
                       star: Slot, element: Slot, value: Pointees)
    requires NormalContents(before) && Normal(value)
    requires EndsInStar(star.path) && IsSibling(element, star) && element != star && !EndsInStar(element.path)
    requires SettledTo(before, a, star, StarRead(before, star, element), value)
    requires SettledTo(before, b, element, ElementRead(before, star, element), value)
    ensures BoundSet(Join(StarRead(b, star, element), value)) == a[star]
  {
    if star !in before {
      NothingJoined(ZERO);
      if element in before {
        BoundEarly(before[element], value);
      } else {
        BoundEarly(ZERO, value);
        JoinLaws(ZERO, ZERO, ZERO);
      }
    }
  }

  lemma OneElementOther(before: map<Slot, Pointees>, a: map<Slot, Pointees>, b: map<Slot, Pointees>,
                        star: Slot, element: Slot, value: Pointees)
    requires NormalContents(before) && Normal(value)
    requires EndsInStar(star.path) && IsSibling(element, star) && element != star && !EndsInStar(element.path)
    requires SettledTo(before, a, star, StarRead(before, star, element), value)
    requires SettledTo(before, b, element, ElementRead(before, star, element), value)
    ensures BoundSet(Join(ElementRead(a, star, element), value)) == BoundSet(Join(b[element], value))
  {
    NothingJoined(ZERO);
    JoinAgain(ElementRead(before, star, element), value);
  }

  /** The four steps of storing in both orders. */
  ghost predicate BothOrders(before: map<Slot, Pointees>, a: map<Slot, Pointees>, b: map<Slot, Pointees>,
                             ab: map<Slot, Pointees>, ba: map<Slot, Pointees>,
                             star: Slot, element: Slot, value: Pointees)
  {
    && SettledTo(before, a, star, StarRead(before, star, element), value)
    && SettledTo(a, ab, element, ElementRead(a, star, element), value)
    && SettledTo(before, b, element, ElementRead(before, star, element), value)
    && SettledTo(b, ba, star, StarRead(b, star, element), value)
  }

  lemma SwapAt(before: map<Slot, Pointees>, a: map<Slot, Pointees>, b: map<Slot, Pointees>,
               ab: map<Slot, Pointees>, ba: map<Slot, Pointees>,
               star: Slot, element: Slot, value: Pointees, t: Slot)
    requires NormalContents(before) && Normal(value) && EndsInStar(star.path) && !EndsInStar(element.path)
    requires IsSibling(element, star) && element != star
    requires t in before && IsSibling(t, star) ==> t == star || t == element
    requires BothOrders(before, a, b, ab, ba, star, element, value)
    ensures t in ab <==> t in ba
    ensures t in ab ==> ab[t] == ba[t]
  {
    if t == star {
      OneElementStar(before, a, b, star, element, value);
    } else if t == element {
      OneElementOther(before, a, b, star, element, value);
    }
  }

  lemma OneElementSwap(before: map<Slot, Pointees>, a: map<Slot, Pointees>, b: map<Slot, Pointees>,
                       ab: map<Slot, Pointees>, ba: map<Slot, Pointees>, star: Slot, element: Slot, value: Pointees)
    requires NormalContents(before) && Normal(value) && EndsInStar(star.path) && !EndsInStar(element.path)
    requires IsSibling(element, star) && element != star
    requires forall t | t in before && IsSibling(t, star) :: t == star || t == element
    requires BothOrders(before, a, b, ab, ba, star, element, value)
    ensures ab == ba
  {
    forall t ensures t in ab <==> t in ba ensures t in ab ==> ab[t] == ba[t] {
      SwapAt(before, a, b, ab, ba, star, element, value, t);
    }
  }

  // ---- Every order of targets that do not clash ------------------------------

  lemma StoresCommute(fn: Function, state: State, u: Slot, v: Slot, value: Pointees)
    requires StateFine(fn, state) && Storable(fn, u, value) && Storable(fn, v, value)
    requires u != v && !Clash(fn, u, v) && !Clash(fn, v, u)
    ensures SettleIn(SettleIn(state, u, value), v, value) == SettleIn(SettleIn(state, v, value), u, value)
  {
    if Apart(u, v) {
      ApartCommute(fn, state, u, v, value);
    } else if EndsInStar(u.path) && IsSibling(v, u) {
      OneElementCommute(fn, state, u, v, value);
    } else {
      OneElementCommute(fn, state, v, u, value);
    }
  }

  /** One step of the loop over the targets: nil is passed over. */
  function StepInto(state: State, t: Slot, value: Pointees): State {
    if t.region == NilRegion then state else StoreSlot(state, t, value, false)
  }

  lemma StoreEachSteps(state: State, order: seq<Slot>, value: Pointees)
    requires order != []
    ensures StoreEach(state, order, value, false) ==
            StoreEach(StepInto(state, order[0], value), order[1..], value, false)
  {
  }

  predicate TargetFits(fn: Function, t: Slot, value: Pointees) {
    t.region == NilRegion || Storable(fn, t, value)
  }

  lemma StepsCommute(fn: Function, state: State, u: Slot, v: Slot, value: Pointees)
    requires StateFine(fn, state) && TargetFits(fn, u, value) && TargetFits(fn, v, value)
    requires u != v && !Clash(fn, u, v) && !Clash(fn, v, u)
    ensures StateFine(fn, StepInto(state, u, value))
    ensures StepInto(StepInto(state, u, value), v, value) == StepInto(StepInto(state, v, value), u, value)
  {
    if u.region != NilRegion {
      StoreSettles(fn, state, u, value);
      SettleFine(fn, state, u, value);
    }
    if v.region != NilRegion {
      StoreSettles(fn, state, v, value);
      SettleFine(fn, state, v, value);
    }
    if u.region != NilRegion && v.region != NilRegion {
      StoreSettles(fn, SettleIn(state, u, value), v, value);
      StoreSettles(fn, SettleIn(state, v, value), u, value);
      StoresCommute(fn, state, u, v, value);
    }
  }

  ghost predicate OrderFits(fn: Function, order: seq<Slot>, value: Pointees) {
    && (forall t | t in order :: TargetFits(fn, t, value))
    && (forall t, u | t in order && u in order :: !Clash(fn, t, u))
    && (forall i, j | 0 <= i < j < |order| :: order[i] != order[j])
  }

  function WithFront(order: seq<Slot>, k: nat): seq<Slot>
    requires k < |order|
  {
    [order[k]] + order[..k] + order[k + 1..]
  }

  lemma RestFits(fn: Function, order: seq<Slot>, value: Pointees)
    requires OrderFits(fn, order, value) && order != []
    ensures OrderFits(fn, order[1..], value) && order[0] !in order[1..]
  {
    forall i, j | 0 <= i < j < |order| - 1 ensures order[1..][i] != order[1..][j] {
      assert order[1..][i] == order[i + 1] && order[1..][j] == order[j + 1];
    }
  }

  function Without(order: seq<Slot>, k: nat): seq<Slot>
    requires 0 < k < |order|
  {
    order[1..k] + order[k + 1..]
  }

  lemma FrontParts(order: seq<Slot>, k: nat)
    requires 0 < k < |order|
    ensures WithFront(order[1..], k - 1) == [order[k]] + Without(order, k)
    ensures WithFront(order, k) == [order[k]] + ([order[0]] + Without(order, k))
  {
    assert order[..k] == [order[0]] + order[1..k];
  }

  /** Any target may be visited first. */
  lemma {:induction false} VisitFirst(fn: Function, state: State, order: seq<Slot>, k: nat, value: Pointees)
    requires StateFine(fn, state) && OrderFits(fn, order, value) && k < |order|
    ensures StoreEach(state, order, value, false) == StoreEach(state, WithFront(order, k), value, false)
    decreases k
  {
    if k == 0 {
      assert WithFront(order, 0) == order;
    } else {
      var first, other := order[0], order[k];
      assert first in order && other in order && first != other;
      StepsCommute(fn, state, first, other, value);
      RestFits(fn, order, value);
      VisitFirst(fn, StepInto(state, first, value), order[1..], k - 1, value);
      StoreEachSteps(state, order, value);
      FrontParts(order, k);
      SwapSteps(state, first, other, Without(order, k), value);
    }
  }

  lemma SwapSteps(state: State, u: Slot, v: Slot, left: seq<Slot>, value: Pointees)
    requires StepInto(StepInto(state, u, value), v, value) == StepInto(StepInto(state, v, value), u, value)
    ensures StoreEach(StepInto(state, u, value), [v] + left, value, false) ==
            StoreEach(state, [v] + ([u] + left), value, false)
  {
    TwoSteps(StepInto(state, u, value), v, left, value);
    TwoSteps(state, v, [u] + left, value);
    TwoSteps(StepInto(state, v, value), u, left, value);
  }

  lemma TwoSteps(state: State, t: Slot, left: seq<Slot>, value: Pointees)
    ensures StoreEach(state, [t] + left, value, false) == StoreEach(StepInto(state, t, value), left, value, false)
  {
    assert ([t] + left)[1..] == left;
    StoreEachSteps(state, [t] + left, value);
  }

  lemma VisitThere(fn: Function, state: State, b: seq<Slot>, k: nat, value: Pointees)
    requires StateFine(fn, state) && OrderFits(fn, b, value) && k < |b|
    ensures StoreEach(state, b, value, false) ==
            StoreEach(StepInto(state, b[k], value), b[..k] + b[k + 1..], value, false)
  {
    VisitFirst(fn, state, b, k, value);
    assert WithFront(b, k) == [b[k]] + (b[..k] + b[k + 1..]);
    TwoSteps(state, b[k], b[..k] + b[k + 1..], value);
  }

  lemma SameTargetsEmpty(b: seq<Slot>)
    requires forall t :: t !in b
    ensures b == []
  {
    assert forall t :: t in multiset(b) <==> t in b;
    assert multiset(b) == multiset{};
    assert |multiset(b)| == |b|;
  }

  /** Two lists of the same targets that do not clash lead to one state. */
  lemma {:induction false} OrdersAgree(fn: Function, state: State, a: seq<Slot>, b: seq<Slot>, value: Pointees)
    requires StateFine(fn, state) && OrderFits(fn, a, value) && OrderFits(fn, b, value)
    requires forall t :: t in a <==> t in b
    ensures StoreEach(state, a, value, false) == StoreEach(state, b, value, false)
    decreases |a|
  {
    if a == [] {
      SameTargetsEmpty(b);
    } else {
      var k := PlaceOf(b, a[0]);
      VisitThere(fn, state, b, k, value);
      StoreEachSteps(state, a, value);
      StepsFine(fn, state, a[0], value);
      RestFits(fn, a, value);
      SameRest(fn, a, b, k, value);
      OrdersAgree(fn, StepInto(state, a[0], value), a[1..], b[..k] + b[k + 1..], value);
    }
  }

  ghost function PlaceOf(b: seq<Slot>, t: Slot): (k: nat)
    requires t in b
    ensures k < |b| && b[k] == t
  {
    var k :| 0 <= k < |b| && b[k] == t;
    k
  }

  lemma StepsFine(fn: Function, state: State, t: Slot, value: Pointees)
    requires StateFine(fn, state) && TargetFits(fn, t, value)
    ensures StateFine(fn, StepInto(state, t, value))
  {
    if t.region != NilRegion {
      StoreSettles(fn, state, t, value);
      SettleFine(fn, state, t, value);
    }
  }

  lemma SameRest(fn: Function, a: seq<Slot>, b: seq<Slot>, k: nat, value: Pointees)
    requires OrderFits(fn, a, value) && OrderFits(fn, b, value) && (forall t :: t in a <==> t in b)
    requires a != [] && k < |b| && b[k] == a[0]
    ensures var rest := b[..k] + b[k + 1..];
            OrderFits(fn, rest, value) && forall t :: t in a[1..] <==> t in rest
  {
    var rest := b[..k] + b[k + 1..];
    RestFits(fn, a, value);
    assert a == [a[0]] + a[1..];
    forall i | 0 <= i < |rest| ensures rest[i] == b[if i < k then i else i + 1] {
    }
    assert forall t | t in rest :: t in b;
    forall t ensures t in a[1..] <==> t in rest {
      if t in a[1..] {
        assert t in a && t in b;
        var m :| 0 <= m < |b| && b[m] == t;
        assert m != k;
        assert rest[if m < k then m else m - 1] == t;
      }
    }
  }

  // ---- Exactly when the order cannot show -----------------------------------

  /** The recorded targets of a store: locations of the pointer type, and nil. */
  predicate TargetsTyped(fn: Function, targets: Pointees, to: nat) {
    to < |fn.types| && !IsUnknown(targets) &&
    forall t | t in targets :: t == NIL || (IsLeaf(fn, t) && LeafName(fn, t) == to)
  }

  /** Whatever the state and the value, every order leaves one state. */
  ghost predicate OrderFree(fn: Function, targets: Pointees, to: nat) {
    forall state, value, a, b |
      StateFine(fn, state) && PointeesTyped(fn, value, to) && ListsSlots(a, targets) && ListsSlots(b, targets) ::
      StoreEach(state, a, value, StrongStore(targets)) == StoreEach(state, b, value, StrongStore(targets))
  }

  lemma ListFits(fn: Function, targets: Pointees, to: nat, order: seq<Slot>, value: Pointees)
    requires TargetsTyped(fn, targets, to) && PointeesTyped(fn, value, to) && ListsSlots(order, targets)
    requires !Mixed(fn, targets)
    ensures OrderFits(fn, order, value)
  {
    forall t | t in order ensures TargetFits(fn, t, value) && t in targets {
    }
    forall t, u | t in order && u in order ensures !Clash(fn, t, u) {
      assert t in targets && u in targets;
    }
  }

  lemma {:induction false} DistinctCount(order: seq<Slot>)
    requires forall i, j | 0 <= i < j < |order| :: order[i] != order[j]
    ensures |(set t | t in order)| == |order|
  {
    if order != [] {
      var rest := order[1..];
      assert order == [order[0]] + rest;
      assert order[0] !in rest;
      assert (set t | t in order) == (set t | t in rest) + {order[0]};
      DistinctCount(rest);
    }
  }

  lemma OneTarget(targets: Pointees, a: seq<Slot>, b: seq<Slot>)
    requires |targets| == 1 && ListsSlots(a, targets) && ListsSlots(b, targets)
    ensures a == b
  {
    SingletonKey(targets);
    DistinctCount(a);
    DistinctCount(b);
    assert (set t | t in a) == targets.Keys == (set t | t in b);
    assert |targets| == |targets.Keys|;
    assert a[0] in targets && b[0] in targets;
  }

  /** Targets that do not clash: one state, whichever order is taken. */
  lemma OneOrder(fn: Function, state: State, targets: Pointees, to: nat, value: Pointees, a: seq<Slot>, b: seq<Slot>)
    requires StateFine(fn, state) && TargetsTyped(fn, targets, to) && PointeesTyped(fn, value, to)
    requires ListsSlots(a, targets) && ListsSlots(b, targets) && !Mixed(fn, targets)
    ensures StoreEach(state, a, value, StrongStore(targets)) == StoreEach(state, b, value, StrongStore(targets))
  {
    if StrongStore(targets) {
      OneTarget(targets, a, b);
    } else {
      ListFits(fn, targets, to, a, value);
      ListFits(fn, targets, to, b, value);
      OrdersAgree(fn, state, a, b, value);
    }
  }

  // ---- Targets that clash ---------------------------------------------------

  /** Another element of the array. */
  function OtherElement(star: Slot, element: Slot): Slot {
    Slot(star.region, Parent(star.path) + [if element.path == Parent(star.path) + [Index(0)] then Index(1)
      else Index(0)])
  }

  lemma OtherFits(fn: Function, star: Slot, element: Slot)
    requires IsLeaf(fn, star) && IsLeaf(fn, element) && Clash(fn, star, element)
    ensures var other := OtherElement(star, element);
            && IsLeaf(fn, other) && LeafName(fn, other) == LeafName(fn, star)
            && IsSibling(other, star) && other != star && other != element && !EndsInStar(other.path)
  {
    var other, storage, above := OtherElement(star, element), StorageOf(fn, star.region.alloc), Parent(star.path);
    var last := other.path[|other.path| - 1];
    assert star.path == above + [AnyIndex] && other.path == above + [last];
    PathTypeAppend(storage, above, [AnyIndex]);
    PathTypeAppend(storage, above, [last]);
    assert [last][1..] == [] && [AnyIndex][1..] == [];
  }

  /** A state in which only that element was written, with what was lost. */
  function OtherWritten(star: Slot, element: Slot): State {
    EMPTY_STATE.(contents := map[OtherElement(star, element) := LOST])
  }

  /** In it the wildcard reads unknown, and the element reads zero. */
  lemma OtherReads(fn: Function, star: Slot, element: Slot)
    requires IsLeaf(fn, star) && IsLeaf(fn, element) && Clash(fn, star, element) && LeafName(fn, star) < |fn.types|
    ensures var state := OtherWritten(star, element);
            && Good(fn, state) && StateFine(fn, state)
            && IsUnknown(EntryOrContent(state, star)) && EntryOrContent(state, element) == ZERO
  {
    var state, other := OtherWritten(star, element), OtherElement(star, element);
    OtherFits(fn, star, element);
    assert UNKNOWN in LOST;
    assert StateFine(fn, state) && EntriesFilled(state);
    ElementReads(fn, state, star, element);
    assert Siblings(state.contents, star) == {other};
    JoinOverOne(state.contents, other);
  }

  /** The wildcard first: the element ends unknown. */
  lemma StarThenElement(fn: Function, state: State, star: Slot, element: Slot)
    requires StateFine(fn, state) && Storable(fn, star, ZERO) && Storable(fn, element, ZERO)
    requires EndsInStar(star.path) && IsSibling(element, star) && element != star
    requires element !in state.contents && IsUnknown(EntryOrContent(state, star))
    ensures IsUnknown(Settle(SettleIn(state, star, ZERO), element, ZERO)[element])
  {
    var a := SettleIn(state, star, ZERO);
    SettlesTo(state, star, ZERO);
    SettleFine(fn, state, star, ZERO);
    ElementReads(fn, a, star, element);
    ElementInRange(fn, star, element);
    SettlesTo(a, element, ZERO);
    assert UNKNOWN in LOST;
    UnknownStays(EntryOrContent(state, star));
    UnknownStays(EntryOrContent(a, element));
  }

  lemma UnknownStays(pts: Pointees)
    requires IsUnknown(pts)
    ensures IsUnknown(BoundSet(Join(pts, ZERO)))
  {
    assert UNKNOWN in LOST;
    assert UNKNOWN in Join(pts, ZERO);
  }

  /** The element first: it ends with the zero value. */
  lemma ElementThenStar(fn: Function, state: State, star: Slot, element: Slot)
    requires StateFine(fn, state) && Storable(fn, star, ZERO) && Storable(fn, element, ZERO)
    requires EndsInStar(star.path) && IsSibling(element, star) && element != star
    requires EntryOrContent(state, element) == ZERO
    ensures !IsUnknown(Settle(SettleIn(state, element, ZERO), star, ZERO)[element])
  {
    var b := SettleIn(state, element, ZERO);
    SettlesTo(state, element, ZERO);
    SettlesTo(b, star, ZERO);
    JoinLaws(ZERO, ZERO, ZERO);
    assert |ZERO| == 1 && UNKNOWN !in ZERO;
  }

  /** The stores that follow leave the element alone. */
  lemma {:induction false} RestKeeps(fn: Function, state: State, order: seq<Slot>, element: Slot, value: Pointees)
    requires StateFine(fn, state) && element in state.contents && forall t | t in order :: TargetFits(fn, t, value)
    requires forall t | t in order :: t != element && !(EndsInStar(t.path) && IsSibling(element, t))
    ensures var after := StoreEach(state, order, value, false);
            element in after.contents && after.contents[element] == state.contents[element]
    decreases |order|
  {
    if order != [] {
      var t, rest := order[0], order[1..];
      StoreEachSteps(state, order, value);
      StepsFine(fn, state, t, value);
      if t.region != NilRegion {
        StoreSettles(fn, state, t, value);
        SettleEntry(state, t, value, element);
      }
      RestKeeps(fn, StepInto(state, t, value), rest, element, value);
    }
  }

  ghost function AnyOrder(slots: set<Slot>): (order: seq<Slot>)
    ensures forall t :: t in order <==> t in slots
    ensures forall i, j | 0 <= i < j < |order| :: order[i] != order[j]
  {
    if slots == {} then []
    else
      var t :| t in slots;
      [t] + AnyOrder(slots - {t})
  }

  lemma TwoThenRest(targets: Pointees, u: Slot, v: Slot)
    requires u in targets && v in targets && u != v
    ensures ListsSlots([u, v] + AnyOrder(targets.Keys - {u, v}), targets) && !StrongStore(targets)
  {
    var rest := AnyOrder(targets.Keys - {u, v});
    var order := [u, v] + rest;
    forall i, j | 0 <= i < j < |order| ensures order[i] != order[j] {
      assert j >= 2 ==> order[j] in rest;
    }
    forall i | 0 <= i < |order| ensures order[i] in targets {
      assert i >= 2 ==> order[i] in rest;
    }
    assert order[0] == u && order[1] == v && forall t | t in rest :: t in order;
    if |targets| == 1 {
      SingletonKey(targets);
    }
  }

  lemma TwoFirst(state: State, u: Slot, v: Slot, rest: seq<Slot>, value: Pointees)
    ensures StoreEach(state, [u, v] + rest, value, false) ==
            StoreEach(StepInto(StepInto(state, u, value), v, value), rest, value, false)
  {
    assert [u, v] + rest == [u] + ([v] + rest);
    TwoSteps(state, u, [v] + rest, value);
    TwoSteps(StepInto(state, u, value), v, rest, value);
  }

  /** Where the element ends in the two orders. */
  lemma StarFirst(fn: Function, targets: Pointees, to: nat, star: Slot, element: Slot)
    requires TargetsTyped(fn, targets, to) && star in targets && element in targets && Clash(fn, star, element)
    ensures var order := [star, element] + AnyOrder(targets.Keys - {star, element});
            var after := StoreEach(OtherWritten(star, element), order, ZERO, false).contents;
            element in after && IsUnknown(after[element])
  {
    OtherReads(fn, star, element);
    OtherFits(fn, star, element);
    RestApart(fn, targets, to, star, element);
    StarThenElement(fn, OtherWritten(star, element), star, element);
    EndsAs(fn, OtherWritten(star, element), star, element, element, AnyOrder(targets.Keys - {star, element}));
  }

  lemma ElementFirst(fn: Function, targets: Pointees, to: nat, star: Slot, element: Slot)
    requires TargetsTyped(fn, targets, to) && star in targets && element in targets && Clash(fn, star, element)
    ensures var order := [element, star] + AnyOrder(targets.Keys - {star, element});
            var after := StoreEach(OtherWritten(star, element), order, ZERO, false).contents;
            element in after && !IsUnknown(after[element])
  {
    OtherReads(fn, star, element);
    OtherFits(fn, star, element);
    RestApart(fn, targets, to, star, element);
    ElementThenStar(fn, OtherWritten(star, element), star, element);
    EndsAs(fn, OtherWritten(star, element), element, star, element, AnyOrder(targets.Keys - {star, element}));
  }

  /** Targets that clash: a state for which the order shows. */
  lemma OrderShows(fn: Function, targets: Pointees, to: nat, star: Slot, element: Slot)
    requires TargetsTyped(fn, targets, to) && star in targets && element in targets && Clash(fn, star, element)
    ensures !OrderFree(fn, targets, to)
  {
    var rest := AnyOrder(targets.Keys - {star, element});
    TwoThenRest(targets, star, element);
    TwoThenRest(targets, element, star);
    assert {element, star} == {star, element};
    OtherReads(fn, star, element);
    StarFirst(fn, targets, to, star, element);
    ElementFirst(fn, targets, to, star, element);
    ShowsDifference(fn, OtherWritten(star, element), targets, to, [star, element] + rest, [element, star] + rest,
                    element);
  }

  lemma ShowsDifference(fn: Function, state: State, targets: Pointees, to: nat, a: seq<Slot>, b: seq<Slot>,
                        element: Slot)
    requires TargetsTyped(fn, targets, to) && StateFine(fn, state) && !StrongStore(targets)
    requires ListsSlots(a, targets) && ListsSlots(b, targets)
    requires var x, y := StoreEach(state, a, ZERO, false).contents, StoreEach(state, b, ZERO, false).contents;
             element in x && element in y && x[element] != y[element]
    ensures !OrderFree(fn, targets, to)
  {
    assert PointeesTyped(fn, ZERO, to);
  }

  /** What two stores leave at the element, the rest leaves too. */
  lemma EndsAs(fn: Function, state: State, u: Slot, v: Slot, element: Slot, rest: seq<Slot>)
    requires StateFine(fn, state) && Storable(fn, u, ZERO) && Storable(fn, v, ZERO) && (element == u || element == v)
    requires forall t | t in rest ::
               TargetFits(fn, t, ZERO) && t != element && !(EndsInStar(t.path) && IsSibling(element, t))
    ensures var after := StoreEach(state, [u, v] + rest, ZERO, false).contents;
            element in after && element in Settle(SettleIn(state, u, ZERO), v, ZERO) &&
            after[element] == Settle(SettleIn(state, u, ZERO), v, ZERO)[element]
  {
    TwoSettled(fn, state, u, v);
    TwoFirst(state, u, v, rest, ZERO);
    RestKeeps(fn, StepInto(StepInto(state, u, ZERO), v, ZERO), rest, element, ZERO);
  }

  lemma TwoSettled(fn: Function, state: State, u: Slot, v: Slot)
    requires StateFine(fn, state) && Storable(fn, u, ZERO) && Storable(fn, v, ZERO)
    ensures var after := StepInto(StepInto(state, u, ZERO), v, ZERO);
            && StateFine(fn, after) && after == SettleIn(SettleIn(state, u, ZERO), v, ZERO)
            && u in after.contents && v in after.contents
  {
    StoreSettles(fn, state, u, ZERO);
    SettleFine(fn, state, u, ZERO);
    StoreSettles(fn, SettleIn(state, u, ZERO), v, ZERO);
    SettleFine(fn, SettleIn(state, u, ZERO), v, ZERO);
    SettlesTo(state, u, ZERO);
    SettlesTo(SettleIn(state, u, ZERO), v, ZERO);
  }

  lemma RestApart(fn: Function, targets: Pointees, to: nat, star: Slot, element: Slot)
    requires TargetsTyped(fn, targets, to) && star in targets && element in targets && Clash(fn, star, element)
    ensures forall t | t in AnyOrder(targets.Keys - {star, element}) ::
              TargetFits(fn, t, ZERO) && t != element && !(EndsInStar(t.path) && IsSibling(element, t))
  {
    forall t | t in AnyOrder(targets.Keys - {star, element})
      ensures TargetFits(fn, t, ZERO) && t != element && !(EndsInStar(t.path) && IsSibling(element, t))
    {
      if EndsInStar(t.path) && IsSibling(element, t) {
        SameStar(t, star);
      }
    }
  }

  /** The order of the targets cannot show exactly when no wildcard is among
  them together with an element of its array, which has several. */
  lemma OrderFreeExactly(fn: Function, targets: Pointees, to: nat)
    requires TargetsTyped(fn, targets, to)
    ensures OrderFree(fn, targets, to) <==> !Mixed(fn, targets)
  {
    if Mixed(fn, targets) {
      var star, element :| star in targets && element in targets && Clash(fn, star, element);
      OrderShows(fn, targets, to, star, element);
    } else {
      forall state, value, a, b |
        StateFine(fn, state) && PointeesTyped(fn, value, to) && ListsSlots(a, targets) && ListsSlots(b, targets)
        ensures StoreEach(state, a, value, StrongStore(targets)) == StoreEach(state, b, value, StrongStore(targets))
      {
        OneOrder(fn, state, targets, to, value, a, b);
      }
    }
  }

  /** An allocation of an array of two pointers. */
  const TWO_ELEMENTS := Function([], [Array(2, Pointer(1)), Struct([])], map[0 := 0])

  const ANY_ELEMENT := Slot(Site(0), [AnyIndex])

  const FIRST_ELEMENT := Slot(Site(0), [Index(0)])

  /** A store through a pointer to its first element or to any of its elements
  settles differently in different orders. */
  lemma MixedTargetsExample()
    ensures var targets := map[ANY_ELEMENT := false, FIRST_ELEMENT := false];
            TargetsTyped(TWO_ELEMENTS, targets, 1) && !OrderFree(TWO_ELEMENTS, targets, 1)
  {
    var targets: Pointees := map[ANY_ELEMENT := false, FIRST_ELEMENT := false];
    assert [Index(0)][1..] == [] && [AnyIndex][1..] == [];
    assert Parent([AnyIndex]) == [] && Parent([Index(0)]) == [];
    OrderShows(TWO_ELEMENTS, targets, 1, ANY_ELEMENT, FIRST_ELEMENT);
  }
}
