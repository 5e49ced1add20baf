/** A completed points-to graph covers every run of an acyclic function. */
module MemorySoundness {
  import opened Options
  import opened SlotPaths
  import opened PointeeSets
  import opened RegionStates
  import opened Joins
  import opened MemoryPrograms
  import opened AbstractMemory

  // ---- Typed paths ----------------------------------------------------------

  lemma {:induction false} PathTypeAppend(storage: Type, p: Path, q: Path)
    ensures PathType(storage, p + q) ==
            if PathType(storage, p).Some? then PathType(PathType(storage, p).value, q) else None
    decreases |p|
  {
    if p == [] {
      assert p + q == q;
    } else {
      assert (p + q)[1..] == p[1..] + q;
      match (storage, p[0])
      case (Struct(fields), Field(n)) => if n < |fields| { PathTypeAppend(fields[n], p[1..], q); }
      case (Array(length, element), Index(n)) => PathTypeAppend(element, p[1..], q);
      case (Array(_, element), AnyIndex) => PathTypeAppend(element, p[1..], q);
      case _ =>
    }
  }

  /** No location lies strictly beneath a pointer. */
  lemma LeafHasNothingBeneath(fn: Function, leaf: Slot, other: Slot)
    requires IsLeaf(fn, leaf) && IsLeaf(fn, other) && Beneath(other, leaf)
    ensures other == leaf
  {
    var rest := other.path[|leaf.path|..];
    assert other.path == leaf.path + rest;
    PathTypeAppend(StorageOf(fn, leaf.region.alloc), leaf.path, rest);
    assert rest == [];
  }

  /** In storage with flat arrays a wildcard is always the last step. */
  lemma {:induction false} WildcardIsLast(storage: Type, path: Path)
    requires FlatArrays(storage) && PathType(storage, path).Some?
    ensures Concrete(Parent(path)) && (Concrete(path) <==> !EndsInStar(path))
    decreases |path|
  {
    if path != [] {
      assert path == [path[0]] + path[1..];
      match (storage, path[0])
      case (Struct(fields), Field(n)) =>
        WildcardIsLast(fields[n], path[1..]);
        assert |path| > 1 ==> Parent(path) == [path[0]] + Parent(path[1..]);
      case (Array(_, element), _) => assert path[1..] == [];
    }
  }

  lemma MatchingConcrete(pattern: Path, path: Path)
    requires Matches(pattern, path) && Concrete(pattern)
    ensures pattern == path
  {
    forall i | 0 <= i < |path| ensures pattern[i] == path[i] {
      assert StepMatches(pattern[i], path[i]) && pattern[i] in pattern;
    }
  }

  lemma StarSlotIsLeaf(fn: Function, cell: Slot)
    requires IsLeaf(fn, cell) && EndsInIndex(cell.path)
    ensures IsLeaf(fn, StarSlot(cell)) && LeafName(fn, StarSlot(cell)) == LeafName(fn, cell)
  {
    SiblingTypes(fn, StarSlot(cell), cell);
  }

  /** Elements of one array, named or not, have one type. */
  lemma SiblingTypes(fn: Function, a: Slot, b: Slot)
    requires IsLeaf(fn, b) && IsSibling(a, b) && EndsInIndex(b.path)
    requires a.path[|a.path| - 1] == AnyIndex || IsLeaf(fn, a)
    ensures IsLeaf(fn, a) && LeafName(fn, a) == LeafName(fn, b)
  {
    var storage, above := StorageOf(fn, b.region.alloc), Parent(b.path);
    var x, y := a.path[|a.path| - 1], b.path[|b.path| - 1];
    assert a.path == above + [x] && b.path == above + [y];
    PathTypeAppend(storage, above, [x]);
    PathTypeAppend(storage, above, [y]);
    var whole := PathType(storage, above).value;
    assert whole.Array?;
    assert PathType(whole.element, []) == Some(whole.element);
    assert [x][1..] == [] && [y][1..] == [];
  }

  // ---- Stores into typed states ---------------------------------------------

  predicate Good(fn: Function, state: State) {
    StateTyped(fn, state) && EntriesFilled(state)
  }

  lemma NothingAboveLeaf(fn: Function, state: State, target: Slot)
    requires StateTyped(fn, state) && IsLeaf(fn, target)
    ensures ForgetWholeAbove(state, target) == state
  {
    forall t | t in state.contents ensures !StrictlyAbove(t, target) {
      if StrictlyAbove(t, target) {
        LeafHasNothingBeneath(fn, t, target);
      }
    }
    assert ForgetWholeAbove(state, target).contents == state.contents;
  }

  lemma OnlyLeafBeneath(fn: Function, state: State, target: Slot)
    requires StateTyped(fn, state) && IsLeaf(fn, target)
    ensures ClearSubtree(state, target) == state.(contents := state.contents - {target})
  {
    forall t | t in state.contents ensures Beneath(t, target) <==> t == target {
      if Beneath(t, target) {
        LeafHasNothingBeneath(fn, target, t);
      }
    }
    assert ClearSubtree(state, target).contents == state.contents - {target};
    assert ClearSubtree(state, target).clobbered == map[];
  }

  /** A strong store replaces exactly its own location. */
  lemma StrongStoreIs(fn: Function, state: State, target: Slot, value: Pointees)
    requires StateTyped(fn, state) && IsLeaf(fn, target) && !EndsInStar(target.path)
    ensures StoreSlot(state, target, value, true) == state.(contents := state.contents[target := value])
  {
    NothingAboveLeaf(fn, state, target);
    OnlyLeafBeneath(fn, state, target);
    assert (state.contents - {target})[target := value] == state.contents[target := value];
  }

  lemma WeakStoreIs(fn: Function, state: State, target: Slot, value: Pointees)
    requires StateTyped(fn, state) && IsLeaf(fn, target) && !EndsInStar(target.path)
    ensures StoreSlot(state, target, value, false) ==
            state.(contents := state.contents[target := BoundSet(Join(EntryOrContent(state, target), value))])
  {
    NothingAboveLeaf(fn, state, target);
  }

  function ElementStored(state: State, target: Slot, value: Pointees): map<Slot, Pointees> {
    var entries := state.contents[target := EntryOrContent(state, target)];
    map t | t in entries :: if t == target || IsSibling(t, target) then BoundSet(Join(entries[t], value))
      else entries[t]
  }

  lemma ElementStoreIs(fn: Function, state: State, target: Slot, value: Pointees)
    requires StateTyped(fn, state) && IsLeaf(fn, target) && EndsInStar(target.path)
    ensures forall strong ::
              StoreSlot(state, target, value, strong) == state.(contents := ElementStored(state, target, value))
  {
    NothingAboveLeaf(fn, state, target);
  }

  lemma NoClobber(state: State, target: Slot)
    requires state.clobbered == map[]
    ensures !ClobberedBeneath(state, target)
  {
    ClobberDepthExactly(state.clobbered, target.region, target.path);
  }

  lemma JoinOverTyped(fn: Function, contents: map<Slot, Pointees>, slots: set<Slot>, name: nat)
    requires slots <= contents.Keys && name < |fn.types| && forall s | s in slots ::
               PointeesTyped(fn, contents[s], name)
    ensures PointeesTyped(fn, JoinOver(contents, slots), name)
  {
    var joined := JoinOver(contents, slots);
    forall t | t in joined
      ensures !joined[t] && (t == NIL || t == UNKNOWN || SlotTyped(fn, t, fn.types[name]))
    {
      if t != UNKNOWN {
        assert t in HeldBy(contents, slots);
      }
    }
  }

  /** A read of a typed local slot yields pointers of the slot's type. */
  lemma ContentTyped(fn: Function, state: State, target: Slot)
    requires StateTyped(fn, state) && IsLeaf(fn, target) && LeafName(fn, target) < |fn.types|
    ensures PointeesTyped(fn, Content(state, target), LeafName(fn, target))
  {
    var name := LeafName(fn, target);
    NoClobber(state, target);
    assert PointeesTyped(fn, map[NIL := false], name);
    if EndsInStar(target.path) {
      var siblings := Siblings(state.contents, target);
      forall s | s in siblings ensures PointeesTyped(fn, state.contents[s], name) {
        SiblingTypes(fn, s, target);
      }
      JoinOverTyped(fn, state.contents, siblings, name);
      JoinTyped(fn, JoinOver(state.contents, siblings), Unwritten(state, target), name);
    } else {
      if EndsInIndex(target.path) {
        StarSlotIsLeaf(fn, target);
      }
      var star := if EndsInIndex(target.path) then Entry(state.contents, StarSlot(target)) else map[];
      JoinTyped(fn, Entry(state.contents, target), star, name);
    }
  }

  /** What an addressed slot holds is of the pointer's type, and current. */
  lemma AddressedTyped(fn: Function, state: State, a: Slot, storage: nat, t: Slot)
    requires StateTyped(fn, state) && storage < |fn.types| && fn.types[storage].Pointer?
    requires fn.types[storage].to < |fn.types| && t in Content(state, a)
    requires a == NIL || a == UNKNOWN || SlotTyped(fn, a, fn.types[storage])
    ensures !Content(state, a)[t]
    ensures t == NIL || t == UNKNOWN || SlotTyped(fn, t, fn.types[fn.types[storage].to])
  {
    if a.region.Site? {
      ContentTyped(fn, state, a);
    }
  }

  /** Loading through pointers to pointers yields pointers of the inner type. */
  lemma LoadTyped(fn: Function, state: State, addresses: Pointees, storage: nat)
    requires StateTyped(fn, state) && storage < |fn.types| && PointeesTyped(fn, addresses, storage)
    requires fn.types[storage].Pointer? && fn.types[storage].to < |fn.types|
    ensures PointeesTyped(fn, LoadFrom(state, addresses), fn.types[storage].to)
  {
    var loaded := LoadFrom(state, addresses);
    forall t | t in loaded
      ensures !loaded[t]
      ensures t == NIL || t == UNKNOWN || SlotTyped(fn, t, fn.types[fn.types[storage].to])
    {
      var a, b := LoadedFrom(state, addresses, t);
      AddressedTyped(fn, state, a, storage, t);
      AddressedTyped(fn, state, b, storage, t);
    }
    LoadNormal(state, addresses);
  }

  /** A loaded slot is one that some address holds; it is stale only if another
  address that holds it is, or is said to hold it stale. */
  lemma LoadedFrom(state: State, addresses: Pointees, t: Slot) returns (a: Slot, b: Slot)
    requires t in LoadFrom(state, addresses)
    ensures a in addresses && t in Content(state, a) && b in addresses && t in Content(state, b)
    ensures LoadFrom(state, addresses)[t] ==> addresses[b] || Content(state, b)[t]
  {
    a :| a in addresses && t in Content(state, a);
    b := a;
    if LoadFrom(state, addresses)[t] {
      b :| b in addresses && t in Content(state, b) && (addresses[b] || StaleIn(Content(state, b), t));
    }
  }

  lemma LoadNormal(state: State, addresses: Pointees)
    ensures Normal(LoadFrom(state, addresses))
  {
    assert UNKNOWN in LoadedSlots(state, addresses) ==> LoadFrom(state, addresses).Keys == {UNKNOWN};
  }

  lemma JoinTyped(fn: Function, a: Pointees, b: Pointees, name: nat)
    requires PointeesTyped(fn, a, name) && PointeesTyped(fn, b, name)
    ensures PointeesTyped(fn, Join(a, b), name) && PointeesTyped(fn, BoundSet(Join(a, b)), name)
  {
    var joined := Join(a, b);
    forall t | t in joined
      ensures !joined[t] && (t == NIL || t == UNKNOWN || SlotTyped(fn, t, fn.types[name]))
    {
      assert t in a || t in b;
    }
    BoundTyped(fn, joined, name);
  }

  lemma BoundTyped(fn: Function, pts: Pointees, name: nat)
    requires PointeesTyped(fn, pts, name)
    ensures PointeesTyped(fn, BoundSet(pts), name)
  {
    assert map[UNKNOWN := false].Keys == {UNKNOWN};
  }

  lemma EntryTyped(fn: Function, state: State, target: Slot)
    requires StateTyped(fn, state) && IsLeaf(fn, target) && LeafName(fn, target) < |fn.types|
    ensures PointeesTyped(fn, EntryOrContent(state, target), LeafName(fn, target))
  {
    ContentTyped(fn, state, target);
  }

  lemma UpdateKeepsGood(fn: Function, state: State, target: Slot, value: Pointees)
    requires Good(fn, state) && IsLeaf(fn, target) && PointeesTyped(fn, value, LeafName(fn, target)) && value != map[]
    ensures Good(fn, state.(contents := state.contents[target := value]))
  {
  }

  lemma ElementStoreKeepsGood(fn: Function, state: State, target: Slot, value: Pointees)
    requires Good(fn, state) && IsLeaf(fn, target) && PointeesTyped(fn, value, LeafName(fn, target))
    requires EndsInStar(target.path)
    ensures Good(fn, state.(contents := ElementStored(state, target, value)))
  {
    var stored := ElementStored(state, target, value);
    forall t | t in stored
      ensures IsLeaf(fn, t) && PointeesTyped(fn, stored[t], LeafName(fn, t)) && stored[t] != map[]
    {
      if t == target || IsSibling(t, target) {
        SiblingTypes(fn, t, target);
        EntryTyped(fn, state, t);
        ContentNotEmpty(state, t);
        JoinTyped(fn, EntryOrContent(state, t), value, LeafName(fn, t));
        FilledJoin(EntryOrContent(state, t), value);
      }
    }
  }

  /** Stores keep states typed and filled. */
  lemma StoreKeepsGood(fn: Function, state: State, target: Slot, value: Pointees, strong: bool)
    requires Good(fn, state) && IsLeaf(fn, target) && PointeesTyped(fn, value, LeafName(fn, target))
    requires strong ==> value != map[]
    ensures Good(fn, StoreSlot(state, target, value, strong))
  {
    if EndsInStar(target.path) {
      ElementStoreIs(fn, state, target, value);
      ElementStoreKeepsGood(fn, state, target, value);
    } else if strong {
      StrongStoreIs(fn, state, target, value);
      UpdateKeepsGood(fn, state, target, value);
    } else {
      WeakStoreIs(fn, state, target, value);
      EntryTyped(fn, state, target);
      ContentNotEmpty(state, target);
      JoinTyped(fn, EntryOrContent(state, target), value, LeafName(fn, target));
      FilledJoin(EntryOrContent(state, target), value);
      UpdateKeepsGood(fn, state, target, BoundSet(Join(EntryOrContent(state, target), value)));
    }
  }

  lemma FilledJoin(a: Pointees, b: Pointees)
    requires Normal(a) && Normal(b) && a != map[]
    ensures BoundSet(Join(a, b)) != map[] && Normal(BoundSet(Join(a, b)))
    ensures forall value | Covers(a, value) || Covers(b, value) :: Covers(BoundSet(Join(a, b)), value)
  {
    JoinNotEmpty(a, b);
    assert UNKNOWN in map[UNKNOWN := false];
    forall value | Covers(a, value) || Covers(b, value) ensures Covers(BoundSet(Join(a, b)), value) {
      CoversJoin(a, b, value);
      CoversBound(Join(a, b), value);
    }
  }

  /** What a typed state says about one run-time location. */
  lemma CellCovers(fn: Function, state: State, cell: Slot, held: Value)
    requires Good(fn, state) && IsLeaf(fn, cell) && !EndsInStar(cell.path)
    ensures var viaStar := EndsInIndex(cell.path) && StarSlot(cell) in state.contents;
            Covers(Content(state, cell), held) <==>
              if cell in state.contents || viaStar then
                (cell in state.contents && Covers(state.contents[cell], held)) ||
                (viaStar && Covers(state.contents[StarSlot(cell)], held))
              else held.NilValue?
  {
    ContentCovers(state, cell, held);
    NoClobber(state, cell);
    UnwrittenCovers(state, cell, held);
  }

  /** A strong store: its own location holds the value, every other location
  reads what it read before. */
  lemma StrongStoreCovers(fn: Function, state: State, target: Slot, value: Pointees, cell: Slot, held: Value)
    requires Good(fn, state) && IsLeaf(fn, target) && PointeesTyped(fn, value, LeafName(fn, target)) && value != map[]
    requires !EndsInStar(target.path) && IsLeaf(fn, cell) && !EndsInStar(cell.path)
    requires if cell == target then Covers(value, held) else Covers(Content(state, cell), held)
    ensures Covers(Content(StoreSlot(state, target, value, true), cell), held)
  {
    StoreKeepsGood(fn, state, target, value, true);
    StrongStoreIs(fn, state, target, value);
    CellCovers(fn, state, cell, held);
    CellCovers(fn, StoreSlot(state, target, value, true), cell, held);
  }

  ghost predicate MayGain(target: Slot, value: Pointees, cell: Slot, held: Value) {
    cell.region == target.region && Matches(target.path, cell.path) && Covers(value, held)
  }

  /** A weak store loses nothing, and a location it may name gains the value. */
  lemma WeakStoreCovers(fn: Function, state: State, target: Slot, value: Pointees, cell: Slot, held: Value)
    requires Good(fn, state) && IsLeaf(fn, target) && PointeesTyped(fn, value, LeafName(fn, target))
    requires IsLeaf(fn, cell) && Concrete(cell.path) && FlatArrays(StorageOf(fn, target.region.alloc))
    requires Covers(Content(state, cell), held) || MayGain(target, value, cell, held)
    ensures Covers(Content(StoreSlot(state, target, value, false), cell), held)
  {
    WildcardIsLast(StorageOf(fn, target.region.alloc), target.path);
    if EndsInStar(target.path) {
      ElementStoreCovers(fn, state, target, value, cell, held);
    } else {
      FieldStoreCovers(fn, state, target, value, cell, held);
    }
  }

  /** Every entry of a good state is normal and not empty, and so is what it
  becomes when a value joins it. */
  lemma EntryGains(fn: Function, state: State, target: Slot, value: Pointees, held: Value)
    requires Good(fn, state) && IsLeaf(fn, target) && PointeesTyped(fn, value, LeafName(fn, target))
    ensures var joined := BoundSet(Join(EntryOrContent(state, target), value));
            Covers(EntryOrContent(state, target), held) || Covers(value, held) ==> Covers(joined, held)
  {
    EntryTyped(fn, state, target);
    ContentNotEmpty(state, target);
    FilledJoin(EntryOrContent(state, target), value);
  }

  lemma FieldStoreCovers(fn: Function, state: State, target: Slot, value: Pointees, cell: Slot, held: Value)
    requires Good(fn, state) && IsLeaf(fn, target) && PointeesTyped(fn, value, LeafName(fn, target))
    requires IsLeaf(fn, cell) && Concrete(cell.path) && Concrete(target.path)
    requires Covers(Content(state, cell), held) || MayGain(target, value, cell, held)
    ensures Covers(Content(StoreSlot(state, target, value, false), cell), held)
  {
    WeakStoreIs(fn, state, target, value);
    StoreKeepsGood(fn, state, target, value, false);
    if MayGain(target, value, cell, held) {
      MatchingConcrete(target.path, cell.path);
    }
    EntryGains(fn, state, target, value, held);
    CellCovers(fn, state, cell, held);
    CellCovers(fn, StoreSlot(state, target, value, false), cell, held);
  }

  lemma ElementEntry(state: State, target: Slot, value: Pointees, t: Slot)
    requires EndsInStar(target.path)
    ensures var stored := ElementStored(state, target, value);
            && (t in stored <==> t == target || t in state.contents)
            && (t in stored ==>
                stored[t] == if t == target then BoundSet(Join(EntryOrContent(state, target), value))
                             else if IsSibling(t, target) then BoundSet(Join(state.contents[t], value))
                             else state.contents[t])
  {
  }

  predicate SameEntry(a: State, b: State, t: Slot) {
    (t in a.contents <==> t in b.contents) && (t in a.contents ==> a.contents[t] == b.contents[t])
  }

  lemma SameEntriesCover(fn: Function, state: State, after: State, cell: Slot, held: Value)
    requires Good(fn, state) && Good(fn, after) && IsLeaf(fn, cell) && !EndsInStar(cell.path)
    requires SameEntry(state, after, cell) && (EndsInIndex(cell.path) ==> SameEntry(state, after, StarSlot(cell)))
    requires Covers(Content(state, cell), held)
    ensures Covers(Content(after, cell), held)
  {
    CellCovers(fn, state, cell, held);
    CellCovers(fn, after, cell, held);
  }

  /** A location of another array, or of none, reads what it read. */
  lemma OtherCellKeeps(fn: Function, state: State, target: Slot, value: Pointees, cell: Slot, held: Value)
    requires Good(fn, state) && Good(fn, state.(contents := ElementStored(state, target, value)))
    requires IsLeaf(fn, cell) && Concrete(cell.path) && EndsInStar(target.path) && !IsSibling(cell, target)
    requires Covers(Content(state, cell), held)
    ensures Covers(Content(state.(contents := ElementStored(state, target, value)), cell), held)
  {
    ElementEntry(state, target, value, cell);
    ElementEntry(state, target, value, StarSlot(cell));
    SameEntriesCover(fn, state, state.(contents := ElementStored(state, target, value)), cell, held);
  }

  lemma ElementStoreCovers(fn: Function, state: State, target: Slot, value: Pointees, cell: Slot, held: Value)
    requires Good(fn, state) && IsLeaf(fn, target) && PointeesTyped(fn, value, LeafName(fn, target))
    requires IsLeaf(fn, cell) && Concrete(cell.path) && EndsInStar(target.path) && Concrete(Parent(target.path))
    requires Covers(Content(state, cell), held) || MayGain(target, value, cell, held)
    ensures Covers(Content(StoreSlot(state, target, value, false), cell), held)
  {
    if MayGain(target, value, cell, held) {
      MatchedBySibling(target.path, cell.path);
    }
    ElementStoreIs(fn, state, target, value);
    ElementStoreKeepsGood(fn, state, target, value);
    if IsSibling(cell, target) {
      SiblingGains(fn, state, target, value, cell, held);
    } else {
      OtherCellKeeps(fn, state, target, value, cell, held);
    }
  }

  lemma SiblingGains(fn: Function, state: State, target: Slot, value: Pointees, cell: Slot, held: Value)
    requires Good(fn, state) && IsLeaf(fn, target) && PointeesTyped(fn, value, LeafName(fn, target))
    requires IsLeaf(fn, cell) && Concrete(cell.path) && EndsInStar(target.path) && IsSibling(cell, target)
    requires Covers(Content(state, cell), held) || Covers(value, held)
    ensures Covers(Content(state.(contents := ElementStored(state, target, value)), cell), held)
  {
    ElementStoreKeepsGood(fn, state, target, value);
    assert StarSlot(cell) == target by {
      assert target.path == Parent(target.path) + [AnyIndex];
    }
    CellCovers(fn, state, cell, held);
    CellCovers(fn, state.(contents := ElementStored(state, target, value)), cell, held);
    if cell in state.contents && Covers(state.contents[cell], held) {
      ElementEntryKeeps(fn, state, target, value, cell, held);
    } else {
      WildcardEntryGains(fn, state, target, value, held);
    }
  }

  /** After an element store the wildcard entry admits the value and whatever
  the wildcard or an unwritten element held before. */
  lemma WildcardEntryGains(fn: Function, state: State, target: Slot, value: Pointees, held: Value)
    requires Good(fn, state) && IsLeaf(fn, target) && PointeesTyped(fn, value, LeafName(fn, target))
    requires EndsInStar(target.path)
    requires || Covers(value, held) || (held.NilValue? && target !in state.contents)
             || (target in state.contents && Covers(state.contents[target], held))
    ensures var stored := ElementStored(state, target, value); target in stored && Covers(stored[target], held)
  {
    ElementEntry(state, target, value, target);
    EntryTyped(fn, state, target);
    ContentNotEmpty(state, target);
    FilledJoin(EntryOrContent(state, target), value);
    if target !in state.contents && held.NilValue? {
      UnwrittenReadsNil(fn, state, target, held);
    }
  }

  /** And an element's own entry what it held. */
  lemma ElementEntryKeeps(fn: Function, state: State, target: Slot, value: Pointees, cell: Slot, held: Value)
    requires Good(fn, state) && IsLeaf(fn, target) && PointeesTyped(fn, value, LeafName(fn, target))
    requires EndsInStar(target.path) && cell in state.contents && IsSibling(cell, target)
    requires Covers(state.contents[cell], held)
    ensures var stored := ElementStored(state, target, value); cell in stored && Covers(stored[cell], held)
  {
    ElementEntry(state, target, value, cell);
    if cell == target {
      WildcardEntryGains(fn, state, target, value, held);
    } else {
      FilledJoin(state.contents[cell], value);
    }
  }

  lemma UnwrittenReadsNil(fn: Function, state: State, target: Slot, held: Value)
    requires Good(fn, state) && IsLeaf(fn, target) && EndsInStar(target.path)
    requires target !in state.contents && held.NilValue?
    ensures Covers(Content(state, target), held)
  {
    ContentCovers(state, target, held);
    NoClobber(state, target);
    UnwrittenCovers(state, target, held);
  }

  /** A path matched by one that ends in a wildcard is an element of the same array. */
  lemma MatchedBySibling(pattern: Path, path: Path)
    requires Matches(pattern, path) && EndsInStar(pattern) && Concrete(Parent(pattern)) && Concrete(path)
    ensures EndsInIndex(path) && Parent(path) == Parent(pattern)
  {
    assert StepMatches(pattern[|path| - 1], path[|path| - 1]);
    assert path[|path| - 1] in path;
    forall i | 0 <= i < |path| - 1 ensures path[i] == pattern[i] {
      assert StepMatches(pattern[i], path[i]);
      assert Parent(pattern)[i] == pattern[i];
    }
  }
}
