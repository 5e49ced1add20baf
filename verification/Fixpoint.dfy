/** The transfer of the memory state as a function, and what keeps the states and
the recorded pointees typed. */
module Fixpoint {
  import opened Options
  import opened SlotPaths
  import opened PointeeSets
  import opened RegionStates
  import opened Joins
  import opened MemoryPrograms
  import opened AbstractMemory
  import opened MemorySoundness
  import opened TargetOrders

  // ---- Sets and states of a build -------------------------------------------

  /** Some instruction selects by the step. */
  ghost predicate Selects(fn: Function, step: Step) {
    exists b: nat, i: nat :: At(fn, b, i) && SelectsBy(InstrAt(fn, b, i), step)
  }

  predicate SelectsBy(instr: Instr, step: Step) {
    match instr
    case FieldAddr(_, _, field) => step == Field(field)
    case ConstIndexAddr(_, _, position) => step == Index(position)
    case DynamicIndexAddr(_, _) => step == AnyIndex
    case _ => false
  }

  ghost predicate PathDrawn(fn: Function, path: Path) {
    forall step | step in path :: Selects(fn, step)
  }

  ghost predicate SetDrawn(fn: Function, pts: Pointees) {
    forall t | t in pts :: PathDrawn(fn, t.path)
  }

  ghost predicate SetOk(fn: Function, pts: Pointees, name: nat) {
    PointeesTyped(fn, pts, name) && SetDrawn(fn, pts)
  }

  /** A typed state all of whose paths the function's own steps make up. */
  ghost predicate StateOk(fn: Function, state: State) {
    StateFine(fn, state) && forall t | t in state.contents :: PathDrawn(fn, t.path) && SetDrawn(fn, state.contents[t])
  }

  ghost predicate ValuesOk(fn: Function, values: Values) {
    forall v | v in values :: NamesType(fn, v) && SetOk(fn, values[v], fn.pointee[v])
  }

  // ---- The transfer as a function -------------------------------------------

  /** The state after an instruction, the targets of a store visited in one fixed
  order. */
  ghost function NextState(values: Values, state: State, instr: Instr): State {
    match instr
    case Alloc(r) => ClearSubtree(state, Slot(Site(r), []))
    case Store(address, written) =>
      var targets, value := PointeesOf(values, address), PointeesOf(values, written);
      if IsUnknown(targets) then state else StoreEach(state, AnyOrder(targets.Keys), value, StrongStore(targets))
    case _ => state
  }

  /** The instruction stores into a wildcard and an element of its array. */
  predicate MixedStore(fn: Function, values: Values, instr: Instr) {
    instr.Store? && !IsUnknown(PointeesOf(values, instr.address)) && Mixed(fn, PointeesOf(values, instr.address))
  }

  lemma JoinOverDrawn(fn: Function, contents: map<Slot, Pointees>, slots: set<Slot>)
    requires slots <= contents.Keys && forall s | s in slots :: SetDrawn(fn, contents[s])
    ensures SetDrawn(fn, JoinOver(contents, slots))
  {
    forall t | t in JoinOver(contents, slots) ensures PathDrawn(fn, t.path) {
      if t != UNKNOWN {
        assert t in HeldBy(contents, slots);
      }
    }
  }

  lemma JoinOk(fn: Function, a: Pointees, b: Pointees, name: nat)
    requires SetOk(fn, a, name) && SetOk(fn, b, name)
    ensures SetOk(fn, Join(a, b), name) && SetOk(fn, BoundSet(Join(a, b)), name)
  {
    JoinTyped(fn, a, b, name);
  }

  lemma ContentOk(fn: Function, state: State, t: Slot)
    requires StateOk(fn, state) && IsLeaf(fn, t) && LeafName(fn, t) < |fn.types|
    ensures SetOk(fn, Content(state, t), LeafName(fn, t)) && SetOk(fn, EntryOrContent(state, t), LeafName(fn, t))
  {
    ContentTyped(fn, state, t);
    NoClobber(state, t);
    if EndsInStar(t.path) {
      JoinOverDrawn(fn, state.contents, Siblings(state.contents, t));
    }
  }

  ghost predicate TargetOk(fn: Function, t: Slot, value: Pointees) {
    t.region == NilRegion || (IsLeaf(fn, t) && PathDrawn(fn, t.path) && SetOk(fn, value, LeafName(fn, t)))
  }

  lemma SettleOk(fn: Function, state: State, t: Slot, value: Pointees)
    requires StateOk(fn, state) && TargetOk(fn, t, value) && t.region != NilRegion
    ensures StateOk(fn, SettleIn(state, t, value))
  {
    var after := Settle(state, t, value);
    SettleFine(fn, state, t, value);
    SettlesTo(state, t, value);
    forall u | u in after ensures PathDrawn(fn, u.path) && SetDrawn(fn, after[u]) {
      if u == t {
        ContentOk(fn, state, t);
        JoinOk(fn, EntryOrContent(state, t), value, LeafName(fn, t));
      } else if EndsInStar(t.path) && IsSibling(u, t) {
        SiblingTypes(fn, u, t);
        JoinOk(fn, state.contents[u], value, LeafName(fn, t));
      }
    }
  }

  lemma StoreOk(fn: Function, state: State, t: Slot, value: Pointees, strong: bool)
    requires StateOk(fn, state) && TargetOk(fn, t, value) && t.region != NilRegion
    requires strong ==> !EndsInStar(t.path)
    ensures StateOk(fn, StoreSlot(state, t, value, strong))
  {
    if strong {
      StrongStoreIs(fn, state, t, value);
    } else {
      StoreSettles(fn, state, t, value);
      SettleOk(fn, state, t, value);
    }
  }

  lemma {:induction false} StoreEachOk(fn: Function, state: State, order: seq<Slot>, value: Pointees, strong: bool)
    requires StateOk(fn, state) && forall t | t in order :: TargetOk(fn, t, value)
    requires strong ==> forall t | t in order :: !EndsInStar(t.path)
    ensures StateOk(fn, StoreEach(state, order, value, strong))
    decreases |order|
  {
    if order != [] {
      if order[0].region != NilRegion {
        StoreOk(fn, state, order[0], value, strong);
        StoreEachOk(fn, StoreSlot(state, order[0], value, strong), order[1..], value, strong);
      } else {
        StoreEachOk(fn, state, order[1..], value, strong);
      }
    }
  }

  lemma TargetsOk(fn: Function, values: Values, address: Operand, written: Operand)
    requires ValuesOk(fn, values) && InstrTyped(fn, Store(address, written))
    requires !IsUnknown(PointeesOf(values, address))
    ensures var targets, value := PointeesOf(values, address), PointeesOf(values, written);
            && (forall t | t in targets :: TargetOk(fn, t, value))
            && (targets.Keys <= {NIL} || exists to :: TargetsTyped(fn, targets, to) && PointeesTyped(fn, value, to))
  {
    var targets, value := PointeesOf(values, address), PointeesOf(values, written);
    if address.Ref? && address.value in values {
      assert TargetsTyped(fn, targets, StorageOf(fn, address.value).to);
      assert PointeesTyped(fn, value, StorageOf(fn, address.value).to);
    }
  }

  /** Whatever order a store visits its targets in, the state stays typed. */
  lemma TransferOk(fn: Function, values: Values, state: State, instr: Instr, next: State)
    requires ValuesOk(fn, values) && StateOk(fn, state) && InstrTyped(fn, instr)
    requires Transfers(values, instr, state, next)
    ensures StateOk(fn, next)
  {
    match instr {
      case Store(address, written) =>
        var targets, value := PointeesOf(values, address), PointeesOf(values, written);
        if !IsUnknown(targets) {
          var order :| ListsSlots(order, targets) && next == StoreEach(state, order, value, StrongStore(targets));
          TargetsOk(fn, values, address, written);
          StoreEachOk(fn, state, order, value, StrongStore(targets));
        }
      case Alloc(r) =>
        ClearOk(fn, state, r);
      case _ =>
    }
  }

  /** Unless a store's targets clash, it is the one state a transfer can lead to. */
  lemma TransferIsNextState(fn: Function, values: Values, state: State, instr: Instr, next: State)
    requires ValuesOk(fn, values) && StateOk(fn, state) && InstrTyped(fn, instr) && !MixedStore(fn, values, instr)
    requires Transfers(values, instr, state, next)
    ensures next == NextState(values, state, instr)
  {
    if instr.Store? && !IsUnknown(PointeesOf(values, instr.address)) {
      var targets, value := PointeesOf(values, instr.address), PointeesOf(values, instr.written);
      var order :| ListsSlots(order, targets) && next == StoreEach(state, order, value, StrongStore(targets));
      TargetsOk(fn, values, instr.address, instr.written);
      OneStoreOrder(fn, state, targets, value, order);
    }
  }

  lemma OneStoreOrder(fn: Function, state: State, targets: Pointees, value: Pointees, order: seq<Slot>)
    requires StateFine(fn, state) && ListsSlots(order, targets) && !Mixed(fn, targets)
    requires targets.Keys <= {NIL} || exists to :: TargetsTyped(fn, targets, to) && PointeesTyped(fn, value, to)
    ensures StoreEach(state, order, value, StrongStore(targets)) ==
            StoreEach(state, AnyOrder(targets.Keys), value, StrongStore(targets))
  {
    assert ListsSlots(AnyOrder(targets.Keys), targets);
    if targets.Keys <= {NIL} {
      NilOnly(state, order, value, StrongStore(targets));
      NilOnly(state, AnyOrder(targets.Keys), value, StrongStore(targets));
    } else {
      var to :| TargetsTyped(fn, targets, to) && PointeesTyped(fn, value, to);
      OneOrder(fn, state, targets, to, value, order, AnyOrder(targets.Keys));
    }
  }

  lemma {:induction false} NilOnly(state: State, order: seq<Slot>, value: Pointees, strong: bool)
    requires forall t | t in order :: t == NIL
    ensures StoreEach(state, order, value, strong) == state
    decreases |order|
  {
    if order != [] {
      assert order[0] in order && forall t | t in order[1..] :: t in order;
      NilOnly(state, order[1..], value, strong);
    }
  }

  lemma ClearOk(fn: Function, state: State, r: nat)
    requires StateOk(fn, state)
    ensures StateOk(fn, ClearSubtree(state, Slot(Site(r), [])))
  {
    var next := ClearSubtree(state, Slot(Site(r), []));
    assert forall t | t in next.contents :: t in state.contents && next.contents[t] == state.contents[t];
    assert next.clobbered == map[];
  }

  /** A function that does not index arrays both ways: statically and with an
  index known only at run time. */
  ghost predicate OneIndexing(fn: Function) {
    (forall b: nat, i: nat | At(fn, b, i) :: !InstrAt(fn, b, i).DynamicIndexAddr?) ||
    (forall b: nat, i: nat | At(fn, b, i) :: !InstrAt(fn, b, i).ConstIndexAddr?)
  }

  /** Targets clash only in a function that indexes both ways. */
  lemma MixedIndexesBoth(fn: Function, values: Values, instr: Instr)
    requires ValuesOk(fn, values) && MixedStore(fn, values, instr)
    ensures !OneIndexing(fn)
  {
    var targets := PointeesOf(values, instr.address);
    var a, b :| a in targets && b in targets && Clash(fn, a, b);
    DrawnTargets(fn, values, instr, a);
    DrawnTargets(fn, values, instr, b);
    var last := b.path[|b.path| - 1];
    if last == AnyIndex {
      SameStar(a, b);
    }
    assert AnyIndex in a.path && last in b.path;
    BothSelected(fn, last);
  }

  lemma DrawnTargets(fn: Function, values: Values, instr: Instr, t: Slot)
    requires ValuesOk(fn, values) && instr.Store? && t in PointeesOf(values, instr.address)
    ensures PathDrawn(fn, t.path)
  {
  }

  lemma BothSelected(fn: Function, step: Step)
    requires Selects(fn, AnyIndex) && Selects(fn, step) && step.Index?
    ensures !OneIndexing(fn)
  {
  }

  // ---- What a value is given ------------------------------------------------

  lemma SelectOk(fn: Function, bases: Pointees, step: Step, name: nat, result: nat)
    requires SetOk(fn, bases, name) && name < |fn.types| && result < |fn.types| && Selects(fn, step)
    requires PathType(fn.types[name], [step]) == Some(fn.types[result])
    ensures SetOk(fn, SelectStep(bases, step), result)
  {
    forall t | t in SelectStep(bases, step)
      ensures t == NIL || t == UNKNOWN || SlotTyped(fn, t, fn.types[result])
      ensures PathDrawn(fn, t.path)
    {
      if !IsUnknown(bases) {
        var base := Slot(t.region, Parent(t.path));
        assert t in SelectedSlots(bases, step);
        var b :| b in bases && b.region != NilRegion && t == StepBeneath(b, step);
        PathTypeAppend(StorageOf(fn, b.region.alloc), b.path, [step]);
      }
    }
  }

  lemma {:induction false} PhiOk(fn: Function, values: Values, edges: seq<Operand>, name: nat)
    requires ValuesOk(fn, values) && name < |fn.types|
    requires forall i | 0 <= i < |edges| :: OperandTyped(fn, edges[i], name)
    ensures SetOk(fn, PhiOf(values, edges), name)
    decreases |edges|
  {
    if edges != [] {
      PhiOk(fn, values, edges[..|edges| - 1], name);
      JoinOk(fn, PhiOf(values, edges[..|edges| - 1]), PointeesOf(values, edges[|edges| - 1]), name);
    }
  }

  lemma LoadOk(fn: Function, state: State, addresses: Pointees, storage: nat)
    requires StateOk(fn, state) && storage < |fn.types| && SetOk(fn, addresses, storage)
    requires fn.types[storage].Pointer? && fn.types[storage].to < |fn.types|
    ensures SetOk(fn, LoadFrom(state, addresses), fn.types[storage].to)
  {
    LoadTyped(fn, state, addresses, storage);
    forall t | t in LoadFrom(state, addresses) ensures PathDrawn(fn, t.path) {
      var a, b := LoadedFrom(state, addresses, t);
      if a.region.Site? {
        ContentOk(fn, state, a);
      }
    }
  }

  lemma DefinedOk(fn: Function, values: Values, state: State, instr: Instr)
    requires ValuesOk(fn, values) && StateOk(fn, state) && InstrTyped(fn, instr)
    requires !instr.Store? && forall step | SelectsBy(instr, step) :: Selects(fn, step)
    ensures SetOk(fn, Defined(values, state, instr), fn.pointee[instr.result])
  {
    var name := fn.pointee[instr.result];
    match instr {
      case Alloc(r) =>
        assert PathType(StorageOf(fn, r), []) == Some(StorageOf(fn, r));
      case Alias(_, source) =>
      case FieldAddr(_, base, field) =>
        if base.Ref? && base.value in values {
          SelectOk(fn, values[base.value], Field(field), fn.pointee[base.value], name);
        } else {
          SelectNothing(PointeesOf(values, base), Field(field));
        }
      case ConstIndexAddr(_, base, position) =>
        if base.Ref? && base.value in values {
          SelectOk(fn, values[base.value], Index(position), fn.pointee[base.value], name);
        } else {
          SelectNothing(PointeesOf(values, base), Index(position));
        }
      case DynamicIndexAddr(_, base) =>
        if base.Ref? && base.value in values {
          SelectOk(fn, values[base.value], AnyIndex, fn.pointee[base.value], name);
        } else {
          SelectNothing(PointeesOf(values, base), AnyIndex);
        }
      case Load(_, address) =>
        if address.Ref? && address.value in values {
          LoadOk(fn, state, values[address.value], fn.pointee[address.value]);
        } else {
          LoadNothing(fn, state, PointeesOf(values, address), name);
        }
      case Phi(_, edges) =>
        PhiOk(fn, values, edges, name);
    }
  }

  lemma SelectNothing(bases: Pointees, step: Step)
    requires bases.Keys <= {NIL}
    ensures SelectStep(bases, step) == map[]
  {
    assert SelectedSlots(bases, step) == {};
  }

  lemma LoadNothing(fn: Function, state: State, addresses: Pointees, name: nat)
    requires addresses.Keys <= {NIL} && (NIL in addresses ==> !addresses[NIL]) && name < |fn.types|
    ensures SetOk(fn, LoadFrom(state, addresses), name)
  {
    assert forall a | a in addresses :: Content(state, a) == map[NIL := false];
  }
}
