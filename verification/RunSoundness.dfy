/** Every run of an acyclic function is covered by its settled graph, and the
graph's must- and may-answers hold of every run. */
module RunSoundness {
  import opened Options
  import opened SlotPaths
  import opened PointeeSets
  import opened RegionStates
  import opened Joins
  import opened MemoryPrograms
  import opened AbstractMemory
  import opened MemorySoundness
  import opened AliasQueries

  // ---- What a graph and a point of a run agree on ---------------------------

  /** A pointer is nil or the address of a typed location of an allocation that
  ran once. */
  ghost predicate ValueOk(fn: Function, m: Machine, value: Value, name: nat) {
    value.NilValue? ||
    (value.Address? && value.instance == 0 && value.alloc in m.runs && NamesType(fn, value.alloc) &&
      Concrete(value.path) &&
     name < |fn.types| && PathType(StorageOf(fn, value.alloc), value.path) == Some(fn.types[name]))
  }

  ghost predicate EnvCovered(fn: Function, graph: Graph, m: Machine) {
    forall v | v in m.env ::
      NamesType(fn, v) && ValueOk(fn, m, m.env[v], fn.pointee[v]) &&
      v in graph.values && Covers(graph.values[v], m.env[v])
  }

  ghost predicate CellCovered(fn: Function, state: State, m: Machine, cell: Slot) {
    IsLeaf(fn, cell) && Concrete(cell.path) ==>
      var held := Read(m, Cell(cell.region.alloc, 0, cell.path));
      ValueOk(fn, m, held, LeafName(fn, cell)) && Covers(Content(state, cell), held)
  }

  ghost predicate MemoryCovered(fn: Function, state: State, m: Machine) {
    forall cell :: CellCovered(fn, state, m, cell)
  }

  /** Only allocations that ran have cells, and each ran once, earlier. */
  ghost predicate RanOnceEarlier(fn: Function, ranks: seq<nat>, c: Config)
    requires |ranks| == |fn.blocks| && Placed(fn, c)
  {
    && (forall cell | cell in c.machine.heap :: cell.alloc in c.machine.runs)
    && (forall a | a in c.machine.runs :: c.machine.runs[a] == 1)
    && forall a, b: nat, i: nat | a in c.machine.runs && Defines(fn, b, i, a) ::
         ranks[b] < ranks[c.block] || (b == c.block && i < c.index)
  }

  ghost predicate StatesCovered(fn: Function, graph: Graph, c: Config)
    requires Placed(fn, c) && c.block in graph.entry
  {
    forall states | IsReplay(fn, graph, c.block, states) && |states| == c.index + 1 ::
      Good(fn, states[c.index]) && MemoryCovered(fn, states[c.index], c.machine)
  }

  ghost predicate Covered(fn: Function, graph: Graph, ranks: seq<nat>, c: Config)
    requires |ranks| == |fn.blocks|
  {
    && Placed(fn, c) && c.block in graph.entry
    && RanOnceEarlier(fn, ranks, c)
    && EnvCovered(fn, graph, c.machine)
    && StatesCovered(fn, graph, c)
  }

  ghost predicate Premises(fn: Function, graph: Graph, ranks: seq<nat>) {
    WellFormed(fn) && Ranks(fn, graph.entry.Keys, ranks) && Settled(fn, graph) && GraphTyped(fn, graph) &&
      StoresKnown(fn, graph)
  }

  // ---- Operands -------------------------------------------------------------

  lemma OperandCovered(fn: Function, graph: Graph, m: Machine, operand: Operand)
    requires EnvCovered(fn, graph, m) && Has(m, operand)
    ensures Covers(PointeesOf(graph.values, operand), Eval(m, operand))
    ensures forall name | OperandTyped(fn, operand, name) :: ValueOk(fn, m, Eval(m, operand), name)
  {
    if operand.NilConst? {
      assert Denotes(NIL, NilValue);
    }
  }

  lemma {:induction false} PhiCovered(fn: Function, graph: Graph, edges: seq<Operand>, edge: nat, value: Value)
    requires GraphTyped(fn, graph) && edge < |edges|
    requires Covers(PointeesOf(graph.values, edges[edge]), value)
    ensures Normal(PhiOf(graph.values, edges)) && Covers(PhiOf(graph.values, edges), value)
    decreases |edges|
  {
    var front, last := edges[..|edges| - 1], edges[|edges| - 1];
    CoversJoin(PhiOf(graph.values, front), PointeesOf(graph.values, last), value);
    if edge < |edges| - 1 {
      PhiCovered(fn, graph, front, edge, value);
    }
  }

  /** The selected slots admit the selected address. */
  lemma SelectCovers(bases: Pointees, base: Value, patternStep: Step, step: Step)
    requires Covers(bases, base) && base.Address? && StepMatches(patternStep, step)
    requires forall t | t in bases :: t.region.Site? || t == NIL || t == UNKNOWN
    ensures Covers(SelectStep(bases, patternStep), StepFrom(base, step))
  {
    var value := StepFrom(base, step);
    if IsUnknown(bases) {
      assert UNKNOWN in SelectStep(bases, patternStep) && Denotes(UNKNOWN, value);
    } else {
      var t :| t in bases && Denotes(t, base);
      var s := StepBeneath(t, patternStep);
      assert s in SelectedSlots(bases, patternStep);
      forall i | 0 <= i < |value.path| ensures StepMatches(s.path[i], value.path[i]) {
        assert i < |base.path| ==> StepMatches(t.path[i], base.path[i]);
      }
      assert s in SelectStep(bases, patternStep) && Denotes(s, value);
    }
  }

  lemma BelowOk(fn: Function, m: Machine, base: Value, name: nat, pattern: Step, step: Step, result: nat)
    requires ValueOk(fn, m, base, name) && base.Address? && StepMatches(pattern, step) && step != AnyIndex
    requires name < |fn.types| && result < |fn.types|
    requires PathType(fn.types[name], [pattern]) == Some(fn.types[result])
    requires step.Index? ==> fn.types[name].Array? && step.position < fn.types[name].length
    ensures ValueOk(fn, m, StepFrom(base, step), result)
  {
    PathTypeAppend(StorageOf(fn, base.alloc), base.path, [step]);
    assert [step][1..] == [] && [pattern][1..] == [];
  }

  /** The location an address names is a leaf when a pointer lives there. */
  lemma AddressedLeaf(fn: Function, m: Machine, address: Value, name: nat)
    requires ValueOk(fn, m, address, name) && address.Address? && fn.types[name].Pointer?
    ensures var cell := Slot(Site(address.alloc), address.path);
            IsLeaf(fn, cell) && Concrete(cell.path) && LeafName(fn, cell) == fn.types[name].to
  {
  }

  /** A slot an address may be read through: the exact location or a wildcard
  over it yields at least what the location holds. */
  lemma SlotReadCovers(fn: Function, state: State, target: Slot, cell: Slot, held: Value)
    requires Good(fn, state) && IsLeaf(fn, target) && IsLeaf(fn, cell) && Concrete(cell.path)
    requires cell.region == target.region && Matches(target.path, cell.path)
    requires FlatArrays(StorageOf(fn, target.region.alloc))
    requires Covers(Content(state, cell), held)
    ensures Covers(Content(state, target), held)
  {
    WildcardIsLast(StorageOf(fn, target.region.alloc), target.path);
    if EndsInStar(target.path) {
      MatchedBySibling(target.path, cell.path);
      WildcardReadCovers(fn, state, target, cell, held);
    } else {
      MatchingConcrete(target.path, cell.path);
    }
  }

  /** Reading through the wildcard admits whatever any one element holds. */
  lemma WildcardReadCovers(fn: Function, state: State, target: Slot, cell: Slot, held: Value)
    requires Good(fn, state) && IsLeaf(fn, target) && IsLeaf(fn, cell) && Concrete(cell.path)
    requires EndsInStar(target.path) && IsSibling(cell, target) && Covers(Content(state, cell), held)
    ensures Covers(Content(state, target), held)
  {
    assert StarSlot(cell) == target by {
      assert target.path == Parent(target.path) + [AnyIndex];
    }
    CellCovers(fn, state, cell, held);
    ContentCovers(state, target, held);
    NoClobber(state, target);
    UnwrittenCovers(state, target, held);
    assert cell in state.contents ==> cell in Siblings(state.contents, target);
    assert target in state.contents ==> target in Siblings(state.contents, target);
  }

  lemma LoadCovers(state: State, addresses: Pointees, a: Slot, value: Value)
    requires a in addresses && Covers(Content(state, a), value)
    ensures Covers(LoadFrom(state, addresses), value)
  {
    if b :| b in addresses.Keys && IsUnknown(Content(state, b)) {
      assert UNKNOWN in LoadFrom(state, addresses) && Denotes(UNKNOWN, value);
    } else {
      var t :| t in Content(state, a) && Denotes(t, value);
      assert t in LoadedSlots(state, addresses);
    }
  }

  // ---- One instruction, the value it defines --------------------------------

  lemma TypesFlat(fn: Function, alloc: nat)
    requires WellFormed(fn) && NamesType(fn, alloc)
    ensures FlatArrays(StorageOf(fn, alloc))
  {
    assert StorageOf(fn, alloc) in fn.types;
  }

  /** A read through the abstract addresses admits what the run reads. */
  lemma LoadedCovered(fn: Function, graph: Graph, state: State, m: Machine, address: Operand)
    requires WellFormed(fn) && GraphTyped(fn, graph) && EnvCovered(fn, graph, m)
    requires Good(fn, state) && MemoryCovered(fn, state, m)
    requires address.Ref? && Has(m, address) && Eval(m, address).Address?
    requires NamesType(fn, address.value) && StorageOf(fn, address.value).Pointer?
    ensures var held := Read(m, CellOf(Eval(m, address)));
            ValueOk(fn, m, held, StorageOf(fn, address.value).to) &&
            Covers(LoadFrom(state, PointeesOf(graph.values, address)), held)
  {
    var at := Eval(m, address);
    OperandCovered(fn, graph, m, address);
    AddressedLeaf(fn, m, at, fn.pointee[address.value]);
    var cell := Slot(Site(at.alloc), at.path);
    assert CellCovered(fn, state, m, cell);
    var held := Read(m, Cell(at.alloc, 0, at.path));
    var targets := PointeesOf(graph.values, address);
    var t :| t in targets && Denotes(t, at);
    if t == UNKNOWN {
      assert Denotes(UNKNOWN, held) && UNKNOWN in Content(state, t);
    } else {
      TypesFlat(fn, t.region.alloc);
      SlotReadCovers(fn, state, t, cell, held);
    }
    LoadCovers(state, targets, t, held);
  }

  ghost predicate PointReached(fn: Function, graph: Graph, c: Config, instr: Instr, state: State) {
    && Placed(fn, c) && c.block in graph.entry && c.index < |fn.blocks[c.block].instrs|
    && InstrAt(fn, c.block, c.index) == instr
    && EnvCovered(fn, graph, c.machine)
    && Good(fn, state) && MemoryCovered(fn, state, c.machine)
  }

  lemma SelectedCovered(fn: Function, graph: Graph, m: Machine, base: Operand, pattern: Step, step: Step, result: nat)
    requires GraphTyped(fn, graph) && EnvCovered(fn, graph, m)
    requires base.Ref? && Has(m, base) && Eval(m, base).Address?
    requires StepMatches(pattern, step) && step != AnyIndex
    requires NamesType(fn, base.value) && NamesType(fn, result)
    requires PathType(StorageOf(fn, base.value), [pattern]) == Some(StorageOf(fn, result))
    requires step.Index? ==> StorageOf(fn, base.value).Array? && step.position < StorageOf(fn, base.value).length
    ensures var value := StepFrom(Eval(m, base), step);
            ValueOk(fn, m, value, fn.pointee[result]) &&
              Covers(SelectStep(PointeesOf(graph.values, base), pattern), value)
  {
    OperandCovered(fn, graph, m, base);
    SelectCovers(PointeesOf(graph.values, base), Eval(m, base), pattern, step);
    BelowOk(fn, m, Eval(m, base), fn.pointee[base.value], pattern, step, fn.pointee[result]);
  }

  /** What the instruction defines in the run is well typed and admitted by what
  the transfer defines. */
  lemma DefinedCovered(fn: Function, graph: Graph, c: Config, instr: Instr, state: State, n: Machine)
    requires WellFormed(fn) && GraphTyped(fn, graph)
    requires PointReached(fn, graph, c, instr, state)
    requires Executes(fn, instr, c.edge, c.machine, n) && !instr.Store?
    requires instr.Alloc? ==> instr.result !in c.machine.runs
    ensures NamesType(fn, instr.result) && instr.result in n.env
    ensures n.env == c.machine.env[instr.result := n.env[instr.result]]
    ensures ValueOk(fn, n, n.env[instr.result], fn.pointee[instr.result])
    ensures Covers(Defined(graph.values, state, instr), n.env[instr.result])
  {
    var m := c.machine;
    assert InstrTyped(fn, instr);
    match instr {
      case Alloc(r) =>
        FreshCovered(fn, r);
      case Alias(r, source) =>
        OperandCovered(fn, graph, m, source);
      case FieldAddr(r, base, field) =>
        SelectedCovered(fn, graph, m, base, Field(field), Field(field), r);
      case ConstIndexAddr(r, base, position) =>
        ConstIndexCovered(fn, graph, m, base, position, r);
      case DynamicIndexAddr(r, base) =>
        DynamicIndexCovered(fn, graph, m, base, r, n);
      case Load(r, address) =>
        LoadedCovered(fn, graph, state, m, address);
      case Phi(r, edges) =>
        OperandCovered(fn, graph, m, edges[c.edge]);
        PhiCovered(fn, graph, edges, c.edge, Eval(m, edges[c.edge]));
    }
  }

  lemma FreshCovered(fn: Function, r: nat)
    requires NamesType(fn, r)
    ensures PathType(StorageOf(fn, r), []) == Some(StorageOf(fn, r))
    ensures Covers(map[Slot(Site(r), []) := false], Address(r, 0, []))
  {
    assert Denotes(Slot(Site(r), []), Address(r, 0, []));
    assert Slot(Site(r), []) in map[Slot(Site(r), []) := false];
  }

  lemma ConstIndexCovered(fn: Function, graph: Graph, m: Machine, base: Operand, position: nat, r: nat)
    requires GraphTyped(fn, graph) && EnvCovered(fn, graph, m)
    requires InstrTyped(fn, ConstIndexAddr(r, base, position)) && Has(m, base) && Eval(m, base).Address?
    ensures var value := StepFrom(Eval(m, base), Index(position));
            ValueOk(fn, m, value, fn.pointee[r]) &&
            Covers(SelectStep(PointeesOf(graph.values, base), Index(position)), value)
  {
    SelectedCovered(fn, graph, m, base, Index(position), Index(position), r);
  }

  lemma DynamicIndexCovered(fn: Function, graph: Graph, m: Machine, base: Operand, r: nat, n: Machine)
    requires GraphTyped(fn, graph) && EnvCovered(fn, graph, m)
    requires InstrTyped(fn, DynamicIndexAddr(r, base)) && Executes(fn, DynamicIndexAddr(r, base), 0, m, n)
    ensures r in n.env && n == Define(m, r, n.env[r])
    ensures ValueOk(fn, m, n.env[r], fn.pointee[r]) &&
            Covers(SelectStep(PointeesOf(graph.values, base), AnyIndex), n.env[r])
  {
    var k :| 0 <= k < ArrayLength(StorageOf(fn, base.value)) && n == Define(m, r, StepFrom(Eval(m, base), Index(k)));
    SelectedCovered(fn, graph, m, base, AnyIndex, Index(k), r);
  }

  // ---- One instruction, the memory ------------------------------------------

  /** Targets a store may name: nil, or leaves that hold pointers of the value's type. */
  ghost predicate TargetsTyped(fn: Function, order: seq<Slot>, value: Pointees) {
    forall i | 0 <= i < |order| ::
      order[i] == NIL ||
      (IsLeaf(fn, order[i]) && PointeesTyped(fn, value, LeafName(fn, order[i])) &&
       FlatArrays(StorageOf(fn, order[i].region.alloc)))
  }

  /** Storing weakly into each target keeps what every location may hold and
  gives the value to every location a target names. */
  lemma {:induction false} WeakEachCovers(fn: Function, state: State, order: seq<Slot>, value: Pointees, cell: Slot,
                                          held: Value)
    requires Good(fn, state) && TargetsTyped(fn, order, value) && IsLeaf(fn, cell) && Concrete(cell.path)
    requires Covers(Content(state, cell), held) || exists i :: 0 <= i < |order| && MayGain(order[i], value, cell, held)
    ensures Good(fn, StoreEach(state, order, value, false))
    ensures Covers(Content(StoreEach(state, order, value, false), cell), held)
    decreases |order|
  {
    if order != [] {
      var first, rest := order[0], order[1..];
      assert forall i | 0 <= i < |rest| :: rest[i] == order[i + 1];
      if first == NIL {
        WeakEachCovers(fn, state, rest, value, cell, held);
      } else {
        StoreKeepsGood(fn, state, first, value, false);
        if Covers(Content(state, cell), held) || MayGain(first, value, cell, held) {
          WeakStoreCovers(fn, state, first, value, cell, held);
        }
        WeakEachCovers(fn, StoreSlot(state, first, value, false), rest, value, cell, held);
      }
    }
  }

  lemma {:induction false} WeakEachGood(fn: Function, state: State, order: seq<Slot>, value: Pointees)
    requires Good(fn, state) && TargetsTyped(fn, order, value)
    ensures Good(fn, StoreEach(state, order, value, false))
    decreases |order|
  {
    if order != [] {
      assert forall i | 0 <= i < |order[1..]| :: order[1..][i] == order[i + 1];
      if order[0] == NIL {
        WeakEachGood(fn, state, order[1..], value);
      } else {
        StoreKeepsGood(fn, state, order[0], value, false);
        WeakEachGood(fn, StoreSlot(state, order[0], value, false), order[1..], value);
      }
    }
  }

  /** A strong store into its only target. */
  lemma {:induction false} StrongEachCovers(fn: Function, state: State, order: seq<Slot>, target: Slot, value: Pointees,
                                            cell: Slot, held: Value)
    requires Good(fn, state) && IsLeaf(fn, target) && PointeesTyped(fn, value, LeafName(fn, target)) && value != map[]
    requires !EndsInStar(target.path) && IsLeaf(fn, cell) && !EndsInStar(cell.path)
    requires forall i | 0 <= i < |order| :: order[i] == target
    requires if cell == target && order != [] then Covers(value, held) else Covers(Content(state, cell), held)
    ensures Good(fn, StoreEach(state, order, value, true))
    ensures Covers(Content(StoreEach(state, order, value, true), cell), held)
    decreases |order|
  {
    if order != [] {
      assert order[0] == target;
      StoreKeepsGood(fn, state, target, value, true);
      StrongStoreCovers(fn, state, target, value, cell, held);
      StrongEachCovers(fn, StoreSlot(state, target, value, true), order[1..], target, value, cell, held);
    }
  }

  lemma MoreRuns(fn: Function, m: Machine, n: Machine, value: Value, name: nat)
    requires ValueOk(fn, m, value, name) && m.runs.Keys <= n.runs.Keys
    ensures ValueOk(fn, n, value, name)
  {
  }

  /** An allocation empties its storage, and the run's new instance is empty. */
  lemma AllocCovered(fn: Function, state: State, next: State, r: nat, m: Machine, n: Machine)
    requires Good(fn, state) && MemoryCovered(fn, state, m)
    requires next == ClearSubtree(state, Slot(Site(r), [])) && r !in m.runs
    requires forall cell | cell in m.heap :: cell.alloc in m.runs
    requires n.heap == m.heap && m.runs.Keys <= n.runs.Keys
    ensures Good(fn, next) && MemoryCovered(fn, next, n)
  {
    ClearedGood(fn, state, r);
    forall cell ensures CellCovered(fn, next, n, cell) {
      if IsLeaf(fn, cell) && Concrete(cell.path) {
        assert CellCovered(fn, state, m, cell);
        ClearedCell(fn, state, r, cell, Read(m, Cell(cell.region.alloc, 0, cell.path)));
      }
    }
  }

  lemma ClearedGood(fn: Function, state: State, r: nat)
    requires Good(fn, state)
    ensures Good(fn, ClearSubtree(state, Slot(Site(r), [])))
  {
    var next := ClearSubtree(state, Slot(Site(r), []));
    assert forall t | t in next.contents :: t in state.contents && next.contents[t] == state.contents[t];
    assert next.clobbered == map[];
  }

  /** A location of the emptied object reads nil, another what it read. */
  lemma ClearedCell(fn: Function, state: State, r: nat, cell: Slot, held: Value)
    requires Good(fn, state) && IsLeaf(fn, cell) && Concrete(cell.path) && Covers(Content(state, cell), held)
    requires cell.region.alloc == r ==> held.NilValue?
    ensures Covers(Content(ClearSubtree(state, Slot(Site(r), [])), cell), held)
  {
    var next := ClearSubtree(state, Slot(Site(r), []));
    ClearedGood(fn, state, r);
    CellCovers(fn, state, cell, held);
    CellCovers(fn, next, cell, held);
    assert Beneath(cell, Slot(Site(r), [])) <==> cell.region.alloc == r;
    assert Beneath(StarSlot(cell), Slot(Site(r), [])) <==> cell.region.alloc == r;
  }

  lemma ListTyped(fn: Function, graph: Graph, order: seq<Slot>, address: Operand, written: Operand)
    requires WellFormed(fn) && GraphTyped(fn, graph) && InstrTyped(fn, Store(address, written)) && address.Ref?
    requires ListsSlots(order, PointeesOf(graph.values, address)) && !IsUnknown(PointeesOf(graph.values, address))
    requires StorageOf(fn, address.value).to < |fn.types|
    ensures TargetsTyped(fn, order, PointeesOf(graph.values, written))
  {
    forall i | 0 <= i < |order|
      ensures order[i] == NIL ||
        (IsLeaf(fn, order[i]) && PointeesTyped(fn, PointeesOf(graph.values, written), LeafName(fn, order[i])) &&
         FlatArrays(StorageOf(fn, order[i].region.alloc)))
    {
      if order[i] != NIL {
        TypesFlat(fn, order[i].region.alloc);
      }
    }
  }

  ghost predicate StoreReached(fn: Function, graph: Graph, state: State, m: Machine, address: Operand,
                               written: Operand)
  {
    && WellFormed(fn) && GraphTyped(fn, graph) && EnvCovered(fn, graph, m)
    && Good(fn, state) && MemoryCovered(fn, state, m)
    && InstrTyped(fn, Store(address, written)) && address.Ref? && Has(m, address) && Has(m, written)
    && Eval(m, address).Address? && !IsUnknown(PointeesOf(graph.values, address))
  }

  function StoredCell(m: Machine, address: Operand): Slot
    requires Has(m, address) && Eval(m, address).Address?
  {
    Slot(Site(Eval(m, address).alloc), Eval(m, address).path)
  }

  /** What a location holds once the store ran. */
  function HeldAfter(m: Machine, address: Operand, written: Operand, cell: Slot): Value
    requires Has(m, address) && Has(m, written) && Eval(m, address).Address? && cell.region.Site?
  {
    if cell == StoredCell(m, address) then Eval(m, written) else Read(m, Cell(cell.region.alloc, 0, cell.path))
  }

  /** The values a store involves, and the target that names its location. */
  lemma StoreOperands(fn: Function, graph: Graph, state: State, m: Machine, address: Operand, written: Operand,
                      cell: Slot)
    returns (t: Slot)
    requires StoreReached(fn, graph, state, m, address, written) && IsLeaf(fn, cell) && Concrete(cell.path)
    ensures t in PointeesOf(graph.values, address) && Denotes(t, Eval(m, address)) && t.region.Site?
    ensures IsLeaf(fn, t) && LeafName(fn, t) == StorageOf(fn, address.value).to
    ensures FlatArrays(StorageOf(fn, t.region.alloc))
    ensures ValueOk(fn, m, HeldAfter(m, address, written, cell), LeafName(fn, cell))
    ensures Covers(PointeesOf(graph.values, written), Eval(m, written)) && PointeesOf(graph.values, written) != map[]
    ensures cell != StoredCell(m, address) ==> Covers(Content(state, cell), HeldAfter(m, address, written, cell))
  {
    OperandCovered(fn, graph, m, address);
    OperandCovered(fn, graph, m, written);
    AddressedLeaf(fn, m, Eval(m, address), fn.pointee[address.value]);
    assert CellCovered(fn, state, m, cell);
    t :| t in PointeesOf(graph.values, address) && Denotes(t, Eval(m, address));
    TypesFlat(fn, t.region.alloc);
  }

  lemma StrongStoredCovered(fn: Function, graph: Graph, state: State, m: Machine, address: Operand, written: Operand,
                            order: seq<Slot>, cell: Slot)
    requires StoreReached(fn, graph, state, m, address, written) && IsLeaf(fn, cell) && Concrete(cell.path)
    requires ListsSlots(order, PointeesOf(graph.values, address)) && StrongStore(PointeesOf(graph.values, address))
    ensures var next := StoreEach(state, order, PointeesOf(graph.values, written), true);
            Good(fn, next) && Covers(Content(next, cell), HeldAfter(m, address, written, cell))
  {
    var value := PointeesOf(graph.values, written);
    var t := StoreOperands(fn, graph, state, m, address, written, cell);
    assert PointeesTyped(fn, value, LeafName(fn, t));
    OnlyTarget(PointeesOf(graph.values, address), t);
    WildcardIsLast(StorageOf(fn, t.region.alloc), t.path);
    MatchingConcrete(t.path, Eval(m, address).path);
    assert t in order;
    StrongEachCovers(fn, state, order, t, value, cell, HeldAfter(m, address, written, cell));
  }

  lemma WeakStoredCovered(fn: Function, graph: Graph, state: State, m: Machine, address: Operand, written: Operand,
                          order: seq<Slot>, cell: Slot)
    requires StoreReached(fn, graph, state, m, address, written) && IsLeaf(fn, cell) && Concrete(cell.path)
    requires ListsSlots(order, PointeesOf(graph.values, address))
    ensures var next := StoreEach(state, order, PointeesOf(graph.values, written), false);
            Good(fn, next) && Covers(Content(next, cell), HeldAfter(m, address, written, cell))
  {
    var value := PointeesOf(graph.values, written);
    var t := StoreOperands(fn, graph, state, m, address, written, cell);
    ListTyped(fn, graph, order, address, written);
    assert t in order;
    assert cell == StoredCell(m, address) ==> MayGain(t, value, cell, Eval(m, written));
    WeakEachCovers(fn, state, order, value, cell, HeldAfter(m, address, written, cell));
  }

  lemma CellAfterStore(fn: Function, graph: Graph, state: State, m: Machine, n: Machine, address: Operand,
                       written: Operand, order: seq<Slot>, cell: Slot)
    requires StoreReached(fn, graph, state, m, address, written) && Executes(fn, Store(address, written), 0, m, n)
    requires ListsSlots(order, PointeesOf(graph.values, address)) && IsLeaf(fn, cell) && Concrete(cell.path)
    ensures var targets := PointeesOf(graph.values, address);
            var next := StoreEach(state, order, PointeesOf(graph.values, written), StrongStore(targets));
            Good(fn, next) && CellCovered(fn, next, n, cell)
  {
    var held := HeldAfter(m, address, written, cell);
    if StrongStore(PointeesOf(graph.values, address)) {
      StrongStoredCovered(fn, graph, state, m, address, written, order, cell);
    } else {
      WeakStoredCovered(fn, graph, state, m, address, written, order, cell);
    }
    var t := StoreOperands(fn, graph, state, m, address, written, cell);
    AddressIsCell(fn, graph, m, address);
    assert Read(n, Cell(cell.region.alloc, 0, cell.path)) == held;
    MoreRuns(fn, m, n, held, LeafName(fn, cell));
  }

  lemma AddressIsCell(fn: Function, graph: Graph, m: Machine, address: Operand)
    requires EnvCovered(fn, graph, m) && address.Ref? && Has(m, address) && Eval(m, address).Address?
    requires NamesType(fn, address.value) && StorageOf(fn, address.value).Pointer?
    ensures Eval(m, address).instance == 0
    ensures IsLeaf(fn, StoredCell(m, address)) && Concrete(StoredCell(m, address).path)
  {
    OperandCovered(fn, graph, m, address);
    AddressedLeaf(fn, m, Eval(m, address), fn.pointee[address.value]);
  }

  /** After a store the memory is covered again. */
  lemma StoreCovered(fn: Function, graph: Graph, state: State, next: State, m: Machine, n: Machine, address: Operand,
                     written: Operand)
    requires StoreReached(fn, graph, state, m, address, written)
    requires Transfers(graph.values, Store(address, written), state, next)
    requires Executes(fn, Store(address, written), 0, m, n)
    ensures Good(fn, next) && MemoryCovered(fn, next, n)
  {
    var targets, value := PointeesOf(graph.values, address), PointeesOf(graph.values, written);
    var order :| ListsSlots(order, targets) && next == StoreEach(state, order, value, StrongStore(targets));
    forall cell | IsLeaf(fn, cell) && Concrete(cell.path)
      ensures Good(fn, next) && CellCovered(fn, next, n, cell)
    {
      CellAfterStore(fn, graph, state, m, n, address, written, order, cell);
    }
    AddressIsCell(fn, graph, m, address);
    assert CellCovered(fn, next, n, StoredCell(m, address));
  }

  lemma OnlyTarget(targets: Pointees, t: Slot)
    requires |targets| == 1 && t in targets
    ensures forall s | s in targets :: s == t
  {
    SingletonKey(targets);
  }

  // ---- One step of a run ----------------------------------------------------

  lemma AllocationIsFresh(fn: Function, ranks: seq<nat>, c: Config, r: nat)
    requires |ranks| == |fn.blocks| && Placed(fn, c) && RanOnceEarlier(fn, ranks, c)
    requires c.index < |fn.blocks[c.block].instrs| && InstrAt(fn, c.block, c.index) == Alloc(r)
    ensures r !in c.machine.runs
  {
    assert Defines(fn, c.block, c.index, r);
  }

  lemma ReplayPrefix(fn: Function, graph: Graph, block: nat, states: seq<State>, count: nat)
    requires block < |fn.blocks| && block in graph.entry
    requires IsReplay(fn, graph, block, states) && 0 < count <= |states|
    ensures IsReplay(fn, graph, block, states[..count])
  {
  }

  /** An executed instruction leaves a replayed state covering the memory. */
  lemma StateCovered(fn: Function, graph: Graph, instr: Instr, edge: nat, state: State, next: State, m: Machine,
                     n: Machine)
    requires WellFormed(fn) && GraphTyped(fn, graph) && InstrTyped(fn, instr) && EnvCovered(fn, graph, m)
    requires instr.Alloc? ==> instr.result !in m.runs && forall cell | cell in m.heap :: cell.alloc in m.runs
    requires instr.Store? ==> !IsUnknown(PointeesOf(graph.values, instr.address))
    requires Good(fn, state) && MemoryCovered(fn, state, m)
    requires Transfers(graph.values, instr, state, next) && Executes(fn, instr, edge, m, n)
    ensures Good(fn, next) && MemoryCovered(fn, next, n)
  {
    if instr.Alloc? {
      AllocCovered(fn, state, next, instr.result, m, n);
    } else if instr.Store? {
      assert instr == Store(instr.address, instr.written);
      StoreCovered(fn, graph, state, next, m, n, instr.address, instr.written);
    } else {
      SameMemoryCovered(fn, state, m, n);
    }
  }

  lemma SameMemoryCovered(fn: Function, state: State, m: Machine, n: Machine)
    requires MemoryCovered(fn, state, m) && n.heap == m.heap && n.runs == m.runs
    ensures MemoryCovered(fn, state, n)
  {
    forall cell ensures CellCovered(fn, state, n, cell) {
      assert CellCovered(fn, state, m, cell);
    }
  }

  /** An executed instruction leaves every defined value covered. */
  lemma EnvStaysCovered(fn: Function, graph: Graph, c: Config, instr: Instr, n: Machine)
    requires WellFormed(fn) && GraphTyped(fn, graph) && EnvCovered(fn, graph, c.machine)
    requires Placed(fn, c) && c.block in graph.entry && StatesCovered(fn, graph, c)
    requires c.index < |fn.blocks[c.block].instrs| && InstrAt(fn, c.block, c.index) == instr
    requires Recorded(fn, graph, c.block, c.index)
    requires Executes(fn, instr, c.edge, c.machine, n)
    requires instr.Alloc? ==> instr.result !in c.machine.runs
    ensures EnvCovered(fn, graph, n)
  {
    if instr.Store? {
      assert n.env == c.machine.env && n.runs == c.machine.runs;
    } else {
      var r := instr.result;
      var states :| IsReplay(fn, graph, c.block, states) && |states| == c.index + 1 &&
        Admits(graph.values[r], Defined(graph.values, states[c.index], instr));
      DefinedCovered(fn, graph, c, instr, states[c.index], n);
      AdmittedCovered(graph.values[r], Defined(graph.values, states[c.index], instr), n.env[r]);
      DefiningKeepsEnv(fn, graph, c.machine, n, r);
    }
  }

  lemma DefiningKeepsEnv(fn: Function, graph: Graph, m: Machine, n: Machine, r: nat)
    requires EnvCovered(fn, graph, m) && m.runs.Keys <= n.runs.Keys
    requires r in n.env && n.env == m.env[r := n.env[r]]
    requires NamesType(fn, r) && ValueOk(fn, n, n.env[r], fn.pointee[r])
    requires r in graph.values && Covers(graph.values[r], n.env[r])
    ensures EnvCovered(fn, graph, n)
  {
  }

  lemma AdmittedCovered(held: Pointees, defined: Pointees, value: Value)
    requires Admits(held, defined) && Covers(defined, value)
    ensures Covers(held, value)
  {
    if IsUnknown(held) {
      assert Denotes(UNKNOWN, value);
    }
  }

  lemma RunsStayEarlier(fn: Function, graph: Graph, ranks: seq<nat>, c: Config, d: Config)
    requires WellFormed(fn) && |ranks| == |fn.blocks| && Placed(fn, c) && RanOnceEarlier(fn, ranks, c)
    requires EnvCovered(fn, graph, c.machine)
    requires c.index < |fn.blocks[c.block].instrs| && Steps(fn, c, d) && Placed(fn, d)
    ensures RanOnceEarlier(fn, ranks, d)
  {
    var instr := InstrAt(fn, c.block, c.index);
    if instr.Alloc? {
      AllocationIsFresh(fn, ranks, c, instr.result);
      assert Defines(fn, c.block, c.index, instr.result);
    } else if instr.Store? {
      var at := instr.address;
      assert at.Ref? && c.machine.env[at.value].alloc in c.machine.runs;
    }
  }

  lemma InstructionKeepsCovered(fn: Function, graph: Graph, ranks: seq<nat>, c: Config, d: Config)
    requires Premises(fn, graph, ranks) && Covered(fn, graph, ranks, c)
    requires c.index < |fn.blocks[c.block].instrs| && Steps(fn, c, d) && Placed(fn, d)
    ensures Covered(fn, graph, ranks, d)
  {
    var instr := InstrAt(fn, c.block, c.index);
    if instr.Alloc? {
      AllocationIsFresh(fn, ranks, c, instr.result);
    }
    assert Recorded(fn, graph, c.block, c.index) && InstrTyped(fn, instr);
    EnvStaysCovered(fn, graph, c, instr, d.machine);
    RunsStayEarlier(fn, graph, ranks, c, d);
    StatesStayCovered(fn, graph, ranks, c, d, instr);
  }

  lemma StatesStayCovered(fn: Function, graph: Graph, ranks: seq<nat>, c: Config, d: Config, instr: Instr)
    requires WellFormed(fn) && GraphTyped(fn, graph) && StoresKnown(fn, graph) && InstrTyped(fn, instr)
    requires |ranks| == |fn.blocks| && Covered(fn, graph, ranks, c)
    requires c.index < |fn.blocks[c.block].instrs| && InstrAt(fn, c.block, c.index) == instr
    requires Steps(fn, c, d) && Placed(fn, d)
    requires instr.Alloc? ==> instr.result !in c.machine.runs
    ensures StatesCovered(fn, graph, d)
  {
    forall states | IsReplay(fn, graph, d.block, states) && |states| == d.index + 1
      ensures Good(fn, states[d.index]) && MemoryCovered(fn, states[d.index], d.machine)
    {
      StateBefore(fn, graph, ranks, c, states);
      assert Transfers(graph.values, InstrAt(fn, c.block, d.index - 1), states[d.index - 1], states[d.index]);
      StateCovered(fn, graph, instr, c.edge, states[c.index], states[d.index], c.machine, d.machine);
    }
  }

  /** A longer replay passes through a state that covers the point. */
  lemma StateBefore(fn: Function, graph: Graph, ranks: seq<nat>, c: Config, states: seq<State>)
    requires |ranks| == |fn.blocks| && Covered(fn, graph, ranks, c)
    requires IsReplay(fn, graph, c.block, states) && |states| == c.index + 2
    ensures Good(fn, states[c.index]) && MemoryCovered(fn, states[c.index], c.machine)
  {
    ReplayPrefix(fn, graph, c.block, states, c.index + 1);
    var prefix := states[..c.index + 1];
    assert prefix[c.index] == states[c.index];
  }

  // ---- One edge of a run ----------------------------------------------------

  lemma MergedEntryTyped(fn: Function, a: State, b: State, t: Slot)
    requires StateTyped(fn, a) && StateTyped(fn, b) && (t in a.contents || t in b.contents)
    ensures IsLeaf(fn, t) && PointeesTyped(fn, MergeContents(a, b, {})[t], LeafName(fn, t))
  {
    EntryTyped(fn, a, t);
    EntryTyped(fn, b, t);
    var theirs := EntryOrContent(b, t);
    assert Restale(theirs, {}) == theirs;
    JoinTyped(fn, EntryOrContent(a, t), theirs, LeafName(fn, t));
  }

  lemma MergeTyped(fn: Function, a: State, b: State, block: int)
    requires StateTyped(fn, a) && StateTyped(fn, b)
    ensures StateTyped(fn, Merge(a, b, {}, block))
  {
    var merged := Merge(a, b, {}, block);
    forall t | t in merged.contents ensures IsLeaf(fn, t) && PointeesTyped(fn, merged.contents[t], LeafName(fn, t)) {
      MergedEntryTyped(fn, a, b, t);
    }
    assert merged.clobbered == map[];
  }

  /** A merge covers the memory that one good side covers. */
  lemma MergeCoversMemory(fn: Function, a: State, b: State, mine: State, theirs: State, block: int, m: Machine)
    requires Sides(a, b, mine, theirs)
    requires Good(fn, mine) && StateTyped(fn, theirs) && MemoryCovered(fn, mine, m)
    ensures Good(fn, Merge(a, b, {}, block)) && MemoryCovered(fn, Merge(a, b, {}, block), m)
  {
    var merged := Merge(a, b, {}, block);
    MergeTyped(fn, a, b, block);
    assert NormalContents(theirs.contents);
    MergedFilled(a, b, {}, block);
    forall cell ensures CellCovered(fn, merged, m, cell) {
      if IsLeaf(fn, cell) && Concrete(cell.path) {
        assert CellCovered(fn, mine, m, cell);
        OneSideCovered(a, b, mine, theirs, {}, block, cell);
      }
    }
  }

  /** Merging another typed state in keeps what a good state covers. */
  lemma MergeIntoCovers(fn: Function, a: State, b: State, block: int, m: Machine)
    requires Good(fn, a) && MemoryCovered(fn, a, m) && StateTyped(fn, b)
    ensures Good(fn, Merge(a, b, {}, block)) && MemoryCovered(fn, Merge(a, b, {}, block), m)
  {
    MergeCoversMemory(fn, a, b, a, b, block, m);
  }

  lemma {:induction false} MergePredsTyped(fn: Function, out: map<nat, State>, preds: seq<nat>, block: nat)
    requires forall p | p in out :: StateTyped(fn, out[p])
    ensures MergePreds(out, preds, block).Some? ==> StateTyped(fn, MergePreds(out, preds, block).value)
    decreases |preds|
  {
    if preds != [] {
      var last := preds[|preds| - 1];
      MergePredsTyped(fn, out, preds[..|preds| - 1], block);
      var rest := MergePreds(out, preds[..|preds| - 1], block);
      if last in out && rest.Some? {
        MergeTyped(fn, rest.value, out[last], -(block + 1));
      }
    }
  }

  /** The merge of the predecessors covers what any one of them covers. */
  lemma {:induction false} MergePredsCovers(fn: Function, out: map<nat, State>, preds: seq<nat>, block: nat, p: nat,
                                            m: Machine)
    requires forall q | q in out :: StateTyped(fn, out[q])
    requires p in preds && p in out && Good(fn, out[p]) && MemoryCovered(fn, out[p], m)
    ensures var merged := MergePreds(out, preds, block);
            merged.Some? && Good(fn, merged.value) && MemoryCovered(fn, merged.value, m)
    decreases |preds|
  {
    var front, last := preds[..|preds| - 1], preds[|preds| - 1];
    MergePredsTyped(fn, out, front, block);
    if p in front {
      MergePredsCovers(fn, out, front, block, p, m);
      MergeLastCovers(fn, out, preds, block, MergePreds(out, front, block).value, m);
    } else {
      assert p == last;
      var rest := MergePreds(out, front, block);
      if rest.Some? {
        MergeCoversMemory(fn, rest.value, out[last], out[last], rest.value, -(block + 1), m);
      }
    }
  }

  /** Merging in the last predecessor, or passing over it when it has no exit. */
  function MergeLast(out: map<nat, State>, rest: State, last: nat, block: nat): State {
    if last in out then Merge(rest, out[last], {}, -(block + 1)) else rest
  }

  lemma MergePredsLast(out: map<nat, State>, preds: seq<nat>, block: nat, rest: State)
    requires preds != [] && MergePreds(out, preds[..|preds| - 1], block) == Some(rest)
    ensures MergePreds(out, preds, block) == Some(MergeLast(out, rest, preds[|preds| - 1], block))
  {
  }

  lemma MergeLastKeeps(fn: Function, out: map<nat, State>, rest: State, last: nat, block: nat, m: Machine)
    requires Good(fn, rest) && MemoryCovered(fn, rest, m) && forall q | q in out :: StateTyped(fn, out[q])
    ensures Good(fn, MergeLast(out, rest, last, block)) && MemoryCovered(fn, MergeLast(out, rest, last, block), m)
  {
    if last in out {
      MergeIntoCovers(fn, rest, out[last], -(block + 1), m);
    }
  }

  lemma MergeLastCovers(fn: Function, out: map<nat, State>, preds: seq<nat>, block: nat, rest: State, m: Machine)
    requires preds != [] && forall q | q in out :: StateTyped(fn, out[q])
    requires MergePreds(out, preds[..|preds| - 1], block) == Some(rest) && Good(fn, rest) && MemoryCovered(fn, rest, m)
    ensures var merged := MergePreds(out, preds, block);
            merged.Some? && Good(fn, merged.value) && MemoryCovered(fn, merged.value, m)
  {
    MergePredsLast(out, preds, block, rest);
    MergeLastKeeps(fn, out, rest, preds[|preds| - 1], block, m);
  }

  /** Crossing an edge keeps memory covered by the entry state of the target. */
  lemma EntryCovered(fn: Function, graph: Graph, c: Config, d: Config)
    requires WellFormed(fn) && Settled(fn, graph) && GraphTyped(fn, graph) && Placed(fn, c) && Placed(fn, d)
    requires c.index == |fn.blocks[c.block].instrs| && Steps(fn, c, d)
    requires c.block in graph.out && Good(fn, graph.out[c.block]) && MemoryCovered(fn, graph.out[c.block], c.machine)
    requires c.block in graph.entry
    ensures d.block in graph.entry && d.block != 0
    ensures Good(fn, graph.entry[d.block]) && MemoryCovered(fn, graph.entry[d.block], d.machine)
  {
    MergePredsCovers(fn, graph.out, fn.blocks[d.block].preds, d.block, c.block, c.machine);
  }

  lemma EdgeKeepsCovered(fn: Function, graph: Graph, ranks: seq<nat>, c: Config, d: Config)
    requires Premises(fn, graph, ranks) && Covered(fn, graph, ranks, c)
    requires c.index == |fn.blocks[c.block].instrs| && Steps(fn, c, d) && Placed(fn, d)
    ensures Covered(fn, graph, ranks, d)
  {
    EntryCovered(fn, graph, c, d);
    assert ranks[c.block] < ranks[d.block];
    EntryStates(fn, graph, d);
  }

  lemma EntryStates(fn: Function, graph: Graph, d: Config)
    requires Placed(fn, d) && d.index == 0 && d.block in graph.entry
    requires Good(fn, graph.entry[d.block]) && MemoryCovered(fn, graph.entry[d.block], d.machine)
    ensures StatesCovered(fn, graph, d)
  {
    forall states | IsReplay(fn, graph, d.block, states) && |states| == 1
      ensures Good(fn, states[0]) && MemoryCovered(fn, states[0], d.machine)
    {
    }
  }

  // ---- Whole runs -----------------------------------------------------------

  lemma StartCovered(fn: Function, graph: Graph, ranks: seq<nat>)
    requires Premises(fn, graph, ranks)
    ensures Covered(fn, graph, ranks, Config(0, 0, 0, START))
  {
    assert Good(fn, EMPTY_STATE);
    forall cell ensures CellCovered(fn, EMPTY_STATE, START, cell) {
      if IsLeaf(fn, cell) && Concrete(cell.path) {
        CellCovers(fn, EMPTY_STATE, cell, NilValue);
      }
    }
  }

  /** Every point of every run is covered by the settled graph: each value is
  among its pointees and each live location's content admits what it holds, in
  every replay of the block up to that point. */
  lemma {:induction false} EveryRunCovered(fn: Function, graph: Graph, ranks: seq<nat>, run: seq<Config>, i: nat)
    requires Premises(fn, graph, ranks) && IsRun(fn, run) && i < |run|
    ensures Covered(fn, graph, ranks, run[i])
    decreases i
  {
    if i == 0 {
      StartCovered(fn, graph, ranks);
    } else {
      EveryRunCovered(fn, graph, ranks, run, i - 1);
      NextCovered(fn, graph, ranks, run, i);
    }
  }

  lemma NextCovered(fn: Function, graph: Graph, ranks: seq<nat>, run: seq<Config>, i: nat)
    requires Premises(fn, graph, ranks) && IsRun(fn, run) && 0 < i < |run|
    requires Covered(fn, graph, ranks, run[i - 1])
    ensures Covered(fn, graph, ranks, run[i])
  {
    assert Placed(fn, run[i]) && Steps(fn, run[i - 1], run[i]);
    StepKeepsCovered(fn, graph, ranks, run[i - 1], run[i]);
  }

  lemma StepKeepsCovered(fn: Function, graph: Graph, ranks: seq<nat>, c: Config, d: Config)
    requires Premises(fn, graph, ranks) && Covered(fn, graph, ranks, c)
    requires Steps(fn, c, d) && Placed(fn, d)
    ensures Covered(fn, graph, ranks, d)
  {
    if c.index < |fn.blocks[c.block].instrs| {
      InstructionKeepsCovered(fn, graph, ranks, c, d);
    } else {
      EdgeKeepsCovered(fn, graph, ranks, c, d);
    }
  }

  /** The value an exact slot stands for. */
  function ExactValue(t: Slot): Value {
    if t.region.Site? then Address(t.region.alloc, 0, t.path) else NilValue
  }

  lemma SlotIsExact(fn: Function, pts: Pointees, name: nat, t: Slot, value: Value)
    requires (forall s | s in fn.types :: FlatArrays(s)) && PointeesTyped(fn, pts, name) && IsSingleSlot(pts, t)
    requires Covers(pts, value) && (value.Address? ==> value.instance == 0)
    ensures value == ExactValue(t)
  {
    assert t in pts.Keys;
    if t != NIL {
      assert StorageOf(fn, t.region.alloc) in fn.types;
      WildcardIsLast(StorageOf(fn, t.region.alloc), t.path);
      MatchingConcrete(t.path, value.path);
    }
  }

  /** The exact-slot answer for a value is the value the run computed. */
  lemma SingleSlotExact(fn: Function, graph: Graph, ranks: seq<nat>, run: seq<Config>, i: nat, v: nat, t: Slot)
    requires Premises(fn, graph, ranks) && IsRun(fn, run) && i < |run|
    requires v in run[i].machine.env && v in graph.values && IsSingleSlot(graph.values[v], t)
    ensures run[i].machine.env[v] == ExactValue(t)
  {
    EveryRunCovered(fn, graph, ranks, run, i);
    SlotIsExact(fn, graph.values[v], fn.pointee[v], t, run[i].machine.env[v]);
  }

  /** Two values the graph calls the same are equal in every run. */
  lemma MustSameHolds(fn: Function, graph: Graph, ranks: seq<nat>, run: seq<Config>, i: nat, l: nat, r: nat)
    requires Premises(fn, graph, ranks) && IsRun(fn, run) && i < |run|
    requires l in run[i].machine.env && r in run[i].machine.env && l in graph.values && r in graph.values
    requires MustSame(graph.values[l], graph.values[r])
    ensures run[i].machine.env[l] == run[i].machine.env[r]
  {
    var t :| IsSingleSlot(graph.values[l], t) && IsSingleSlot(graph.values[r], t);
    SingleSlotExact(fn, graph, ranks, run, i, l, t);
    SingleSlotExact(fn, graph, ranks, run, i, r, t);
  }

  /** Two values the graph calls disjoint are never equal and non-nil. */
  lemma DisjointHolds(fn: Function, graph: Graph, ranks: seq<nat>, run: seq<Config>, i: nat, l: nat, r: nat,
                      history: History)
    requires Premises(fn, graph, ranks) && IsRun(fn, run) && i < |run|
    requires l in run[i].machine.env && r in run[i].machine.env && l in graph.values && r in graph.values
    requires !SetsMayAlias(history, graph.values[l], graph.values[r])
    ensures run[i].machine.env[l] == run[i].machine.env[r] ==> run[i].machine.env[l].NilValue?
  {
    EveryRunCovered(fn, graph, ranks, run, i);
    var value := run[i].machine.env[l];
    if run[i].machine.env[r] == value && value.Address? {
      SharedAddressMayAlias(history, graph.values[l], graph.values[r], value);
    }
  }

  /** Sets that both admit one address may alias, at any depth. */
  lemma SharedAddressMayAlias(history: History, a: Pointees, b: Pointees, value: Value)
    requires Covers(a, value) && Covers(b, value) && value.Address? && Concrete(value.path)
    requires forall t | t in a || t in b :: t.region.Site? || t == NIL || t == UNKNOWN
    ensures SetsMayAlias(history, a, b)
  {
    var x :| x in a.Keys && Denotes(x, value);
    var y :| y in b.Keys && Denotes(y, value);
    if x.region.Site? && y.region.Site? {
      PathsMayAliasExactly(x.path, y.path);
    }
    assert SlotsMayAlias(history, x, y, ALIAS_DEPTH);
  }

  /** The exact content the graph reads at a point is what the run's memory
  holds there, for every replay of the block. */
  lemma ContentExact(fn: Function, graph: Graph, ranks: seq<nat>, run: seq<Config>, i: nat, states: seq<State>,
                     address: nat, t: Slot)
    requires Premises(fn, graph, ranks) && IsRun(fn, run) && i < |run|
    requires var c := run[i];
             c.block in graph.entry && IsReplay(fn, graph, c.block, states) && |states| == c.index + 1 &&
             address in c.machine.env && c.machine.env[address].Address? &&
             NamesType(fn, address) && StorageOf(fn, address).Pointer? && StorageOf(fn, address).to < |fn.types| &&
             IsSingleSlot(LoadFrom(states[c.index], PointeesOf(graph.values, Ref(address))), t)
    ensures Read(run[i].machine, CellOf(run[i].machine.env[address])) == ExactValue(t)
  {
    var c := run[i];
    EveryRunCovered(fn, graph, ranks, run, i);
    LoadedCovered(fn, graph, states[c.index], c.machine, Ref(address));
    LoadTyped(fn, states[c.index], graph.values[address], fn.pointee[address]);
    SlotIsExact(fn, LoadFrom(states[c.index], PointeesOf(graph.values, Ref(address))), StorageOf(fn, address).to, t,
                Read(c.machine, CellOf(c.machine.env[address])));
  }
}
