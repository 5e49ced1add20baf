/** The transfer of the memory state across one instruction, and the equations
a completed points-to graph satisfies. */
module AbstractMemory {
  import opened Options
  import opened SlotPaths
  import opened PointeeSets
  import opened RegionStates
  import opened MemoryPrograms

  type Values = map<nat, Pointees>

  /** The slots an operand may refer to; a value without an entry is pending. */
  function PointeesOf(values: Values, operand: Operand): Pointees {
    match operand
    case NilConst => map[NIL := false]
    case Ref(v) => if v in values then values[v] else map[]
  }

  function StepBeneath(base: Slot, step: Step): Slot {
    if base == UNKNOWN then UNKNOWN else Slot(base.region, base.path + [step])
  }

  /** The slots one step beneath each base. Selecting through nil faults, so a
  nil base names no slot. */
  function SelectStep(bases: Pointees, step: Step): Pointees {
    if IsUnknown(bases) then map[UNKNOWN := bases[UNKNOWN]]
    else map t | t in SelectedSlots(bases, step) :: bases[Slot(t.region, Parent(t.path))]
  }

  function SelectedSlots(bases: Pointees, step: Step): (r: set<Slot>)
    ensures forall t | t in r :: t.path != [] && Slot(t.region, Parent(t.path)) in bases
  {
    var r := set b | b in bases && b.region != NilRegion :: StepBeneath(b, step);
    assert forall b, s: Step | b in bases && b != UNKNOWN :: Parent(StepBeneath(b, s).path) == b.path;
    if IsUnknown(bases) then {} else r
  }

  /** The union of what the addressed slots hold. */
  function LoadFrom(state: State, addresses: Pointees): Pointees {
    if exists a <- addresses.Keys :: IsUnknown(Content(state, a)) then
      map[UNKNOWN := exists a <- addresses.Keys ::
        IsUnknown(Content(state, a)) && (addresses[a] || StaleIn(Content(state, a), UNKNOWN))]
    else
      map t | t in LoadedSlots(state, addresses) ::
        exists a <- addresses.Keys :: t in Content(state, a) && (addresses[a] || StaleIn(Content(state, a), t))
  }

  function LoadedSlots(state: State, addresses: Pointees): set<Slot> {
    set a, t | a in addresses && t in Content(state, a) :: t
  }

  /** The union of the operands that flow in. */
  function PhiOf(values: Values, edges: seq<Operand>): Pointees {
    if edges == [] then map[]
    else Join(PhiOf(values, edges[..|edges| - 1]), PointeesOf(values, edges[|edges| - 1]))
  }

  /** The pointees an instruction gives the value it defines. */
  function Defined(values: Values, state: State, instr: Instr): Pointees {
    match instr
    case Alloc(r) => map[Slot(Site(r), []) := false]
    case Alias(_, source) => PointeesOf(values, source)
    case FieldAddr(_, base, field) => SelectStep(PointeesOf(values, base), Field(field))
    case ConstIndexAddr(_, base, position) => SelectStep(PointeesOf(values, base), Index(position))
    case DynamicIndexAddr(_, base) => SelectStep(PointeesOf(values, base), AnyIndex)
    case Load(_, address) => LoadFrom(state, PointeesOf(values, address))
    case Store(_, _) => map[]
    case Phi(_, edges) => PhiOf(values, edges)
  }

  /** order lists the slots of the set once each, as a range over a map does. */
  predicate ListsSlots(order: seq<Slot>, pts: Pointees) {
    && (forall i | 0 <= i < |order| :: order[i] in pts)
    && (forall t | t in pts :: t in order)
    && forall i, j | 0 <= i < j < |order| :: order[i] != order[j]
  }

  /** Only a store to one exact, current location replaces its content. */
  predicate StrongStore(targets: Pointees) {
    |targets| == 1 && forall t | t in targets :: !targets[t] && t != UNKNOWN && !EndsInStar(t.path)
  }

  function StoreEach(state: State, order: seq<Slot>, value: Pointees, strong: bool): State
    decreases |order|
  {
    if order == [] then state
    else if order[0].region == NilRegion then StoreEach(state, order[1..], value, strong)
    else StoreEach(StoreSlot(state, order[0], value, strong), order[1..], value, strong)
  }

  /** The state after an instruction, for some order of the range over the
  targets of a store. A store through an unknown pointer only concerns objects
  the function did not allocate, which this fragment does not have. */
  ghost predicate Transfers(values: Values, instr: Instr, state: State, next: State) {
    match instr
    case Alloc(r) => next == ClearSubtree(state, Slot(Site(r), []))
    case Store(address, written) =>
      var targets, value := PointeesOf(values, address), PointeesOf(values, written);
      if IsUnknown(targets) then next == state
      else exists order :: ListsSlots(order, targets) && next == StoreEach(state, order, value, StrongStore(targets))
    case _ => next == state
  }

  /** The states at the block's entry and exit, and the pointees of the values. */
  datatype Graph = Graph(values: Values, entry: map<nat, State>, out: map<nat, State>)

  /** states replays a prefix of the block from its entry state, one state
  before each instruction and one after the last. */
  ghost predicate IsReplay(fn: Function, graph: Graph, block: nat, states: seq<State>)
    requires block < |fn.blocks| && block in graph.entry
  {
    && 0 < |states| <= |fn.blocks[block].instrs| + 1
    && states[0] == graph.entry[block]
    && forall i | 0 < i < |states| :: Transfers(graph.values, InstrAt(fn, block, i - 1), states[i - 1], states[i])
  }

  /** The merge of the exit states of the first count predecessors that have
  one. No edge of an acyclic function is a back edge. */
  function MergePreds(out: map<nat, State>, preds: seq<nat>, block: nat): Option<State> {
    if preds == [] then None
    else
      var rest, last := MergePreds(out, preds[..|preds| - 1], block), preds[|preds| - 1];
      if last !in out then rest
      else if rest.None? then Some(out[last])
      else Some(Merge(rest.value, out[last], {}, -(block + 1)))
  }

  /** The slots of a set all name locations of the type. */
  predicate SlotTyped(fn: Function, target: Slot, storage: Type) {
    target.region.Site? && NamesType(fn, target.region.alloc) &&
    PathType(StorageOf(fn, target.region.alloc), target.path) == Some(storage)
  }

  /** A local location that holds a pointer. */
  predicate IsLeaf(fn: Function, target: Slot) {
    target.region.Site? && NamesType(fn, target.region.alloc) &&
    var storage := PathType(StorageOf(fn, target.region.alloc), target.path);
    storage.Some? && storage.value.Pointer?
  }

  /** The named type of what a pointer location points to. */
  function LeafName(fn: Function, target: Slot): nat
    requires IsLeaf(fn, target)
  {
    PathType(StorageOf(fn, target.region.alloc), target.path).value.to
  }

  predicate PointeesTyped(fn: Function, pts: Pointees, name: nat) {
    name < |fn.types| && Normal(pts) &&
    forall t | t in pts :: !pts[t] && (t == NIL || t == UNKNOWN || SlotTyped(fn, t, fn.types[name]))
  }

  /** Every entry is a pointer-typed location holding pointers of its type. */
  predicate StateTyped(fn: Function, state: State) {
    && state.clobbered == map[]
    && forall t | t in state.contents :: IsLeaf(fn, t) && PointeesTyped(fn, state.contents[t], LeafName(fn, t))
  }

  ghost predicate GraphTyped(fn: Function, graph: Graph) {
    && (forall v | v in graph.values :: NamesType(fn, v) && PointeesTyped(fn, graph.values[v], fn.pointee[v]))
    && (forall b | b in graph.entry :: b < |fn.blocks| && StateTyped(fn, graph.entry[b]))
    && (forall b | b in graph.out :: b in graph.entry && StateTyped(fn, graph.out[b]))
  }

  /** The graph is a fixpoint: the entry block starts empty, another block from
  its merged predecessors; each exit state is a replay of its block, and the
  recorded pointees admit what each instruction defines. */
  ghost predicate Settled(fn: Function, graph: Graph) {
    && 0 in graph.entry && graph.entry[0] == EMPTY_STATE
    && (forall b | b in graph.entry :: b < |fn.blocks|)
    && (forall b | b in graph.entry && b != 0 :: MergePreds(graph.out, fn.blocks[b].preds, b) == Some(graph.entry[b]))
    && (forall b | b in graph.entry :: b in graph.out && ExitReplayed(fn, graph, b))
    && (forall b, s | b in graph.entry && s in fn.blocks[b].succs :: s in graph.entry)
    && (forall b, i: nat | b in graph.entry && At(fn, b, i) :: Recorded(fn, graph, b, i))
  }

  ghost predicate Recorded(fn: Function, graph: Graph, block: nat, index: nat)
    requires block in graph.entry && At(fn, block, index)
  {
    var instr := InstrAt(fn, block, index);
    Result(instr).Some? ==>
      Result(instr).value in graph.values &&
      exists states ::
        IsReplay(fn, graph, block, states) && |states| == index + 1 &&
        Admits(graph.values[Result(instr).value], Defined(graph.values, states[index], instr))
  }

  predicate Admits(held: Pointees, defined: Pointees) {
    IsUnknown(held) || defined.Keys <= held.Keys
  }

  ghost predicate ExitReplayed(fn: Function, graph: Graph, block: nat)
    requires block < |fn.blocks| && block in graph.entry && block in graph.out
  {
    exists states ::
      IsReplay(fn, graph, block, states) && |states| == |fn.blocks[block].instrs| + 1 &&
      states[|states| - 1] == graph.out[block]
  }

  /** No store's address was widened to unknown. */
  ghost predicate StoresKnown(fn: Function, graph: Graph) {
    forall b: nat, i: nat | At(fn, b, i) && InstrAt(fn, b, i).Store? ::
      !IsUnknown(PointeesOf(graph.values, InstrAt(fn, b, i).address))
  }
}
