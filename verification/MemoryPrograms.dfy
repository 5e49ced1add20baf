/** Acyclic, call-free functions over local memory, and how they run.

Values are numbered; every value is a pointer. The fragment has local
allocations, nil, field and element addresses, loads, stores and phis of
pointers, over structs and arrays whose elements are pointers. */
module MemoryPrograms {
  import opened Options
  import opened SlotPaths
  import opened PointeeSets
  import opened RegionStates

  /** A storage type. A pointer names the type of what it points to. */
  datatype Type = Pointer(to: nat) | Struct(fields: seq<Type>) | Array(length: nat, element: Type)

  datatype Operand = Ref(value: nat) | NilConst

  datatype Instr =
    | Alloc(result: nat)
    | Alias(result: nat, source: Operand)
    | FieldAddr(result: nat, base: Operand, field: nat)
    | ConstIndexAddr(result: nat, base: Operand, position: nat)
    | DynamicIndexAddr(result: nat, base: Operand)
    | Load(result: nat, address: Operand)
    | Store(address: Operand, written: Operand)
    | Phi(result: nat, edges: seq<Operand>)

  datatype Block = Block(instrs: seq<Instr>, preds: seq<nat>, succs: seq<nat>)

  /** types gives each named type its storage; pointee names, for each value,
  the type it points to. Block 0 is the entry. */
  datatype Function = Function(blocks: seq<Block>, types: seq<Type>, pointee: map<nat, nat>)

  function Result(instr: Instr): Option<nat> {
    if instr.Store? then None else Some(instr.result)
  }

  // ---- Types ----------------------------------------------------------------

  /** The type of the location a path leads to. */
  function PathType(storage: Type, path: Path): Option<Type>
    decreases |path|
  {
    if path == [] then Some(storage)
    else match (storage, path[0])
      case (Struct(fields), Field(n)) => if n < |fields| then PathType(fields[n], path[1..]) else None
      case (Array(length, element), Index(n)) => if n < length then PathType(element, path[1..]) else None
      case (Array(_, element), AnyIndex) => PathType(element, path[1..])
      case _ => None
  }

  /** Array elements are pointers, so a dynamic index is always a last step. */
  predicate FlatArrays(storage: Type) {
    match storage
    case Pointer(_) => true
    case Struct(fields) => forall i | 0 <= i < |fields| :: FlatArrays(fields[i])
    case Array(_, element) => element.Pointer?
  }

  predicate NamesType(fn: Function, value: nat) {
    value in fn.pointee && fn.pointee[value] < |fn.types|
  }

  function StorageOf(fn: Function, value: nat): Type
    requires NamesType(fn, value)
  {
    fn.types[fn.pointee[value]]
  }

  predicate OperandTyped(fn: Function, operand: Operand, name: nat) {
    operand.Ref? ==> NamesType(fn, operand.value) && fn.pointee[operand.value] == name
  }

  predicate InstrTyped(fn: Function, instr: Instr) {
    match instr
    case Alloc(r) => NamesType(fn, r)
    case Alias(r, source) => NamesType(fn, r) && OperandTyped(fn, source, fn.pointee[r])
    case FieldAddr(r, base, field) =>
      NamesType(fn, r) &&
      (base.Ref? ==>
         NamesType(fn, base.value) && PathType(StorageOf(fn, base.value), [Field(field)]) == Some(StorageOf(fn, r)))
    case ConstIndexAddr(r, base, position) =>
      NamesType(fn, r) &&
      (base.Ref? ==>
         NamesType(fn, base.value) && PathType(StorageOf(fn, base.value), [Index(position)]) == Some(StorageOf(fn, r)))
    case DynamicIndexAddr(r, base) =>
      NamesType(fn, r) &&
      (base.Ref? ==>
         NamesType(fn, base.value) && PathType(StorageOf(fn, base.value), [AnyIndex]) == Some(StorageOf(fn, r)))
    case Load(r, address) =>
      NamesType(fn, r) &&
      (address.Ref? ==> NamesType(fn, address.value) && StorageOf(fn, address.value) == Pointer(fn.pointee[r]))
    case Store(address, written) =>
      address.Ref? ==>
        NamesType(fn, address.value) && StorageOf(fn, address.value).Pointer? &&
        StorageOf(fn, address.value).to < |fn.types| &&
        OperandTyped(fn, written, StorageOf(fn, address.value).to)
    case Phi(r, edges) => NamesType(fn, r) && forall i | 0 <= i < |edges| :: OperandTyped(fn, edges[i], fn.pointee[r])
  }

  // ---- Well-formed functions ------------------------------------------------

  predicate At(fn: Function, block: nat, index: nat) {
    block < |fn.blocks| && index < |fn.blocks[block].instrs|
  }

  function InstrAt(fn: Function, block: nat, index: nat): Instr
    requires At(fn, block, index)
  {
    fn.blocks[block].instrs[index]
  }

  predicate Defines(fn: Function, block: nat, index: nat, value: nat) {
    At(fn, block, index) && Result(InstrAt(fn, block, index)) == Some(value)
  }

  /** Static single assignment, edges recorded at both ends, and Go's types. */
  ghost predicate WellFormed(fn: Function) {
    && fn.blocks != [] && fn.blocks[0].preds == []
    && (forall t | t in fn.types :: FlatArrays(t))
    && (forall b: nat, i: nat | At(fn, b, i) :: InstrTyped(fn, InstrAt(fn, b, i)))
    && (forall b: nat, i: nat | At(fn, b, i) && InstrAt(fn, b, i).Phi? ::
      |InstrAt(fn, b, i).edges| == |fn.blocks[b].preds|)
    && (forall b: nat, i: nat, c: nat, j: nat, v: nat | Defines(fn, b, i, v) && Defines(fn, c, j, v) ::
      b == c && i == j)
    && (forall b, s | 0 <= b < |fn.blocks| && s in fn.blocks[b].succs :: s < |fn.blocks|)
    && (forall b, s | 0 <= b < |fn.blocks| && s in fn.blocks[b].succs :: b in fn.blocks[s].preds)
    && (forall b, p | 0 <= b < |fn.blocks| && p in fn.blocks[b].preds :: p < |fn.blocks| && b in fn.blocks[p].succs)
  }

  /** ranks orders the given blocks so that every edge out of them goes up. */
  predicate Ranks(fn: Function, blocks: set<nat>, ranks: seq<nat>) {
    |ranks| == |fn.blocks| &&
    forall b, s | b in blocks && b < |fn.blocks| && s in fn.blocks[b].succs && s < |fn.blocks| :: ranks[b] < ranks[s]
  }

  // ---- Running --------------------------------------------------------------

  /** A location: an instance of an allocation and a path beneath it. */
  datatype Cell = Cell(alloc: nat, instance: nat, path: Path)

  /** The values computed, the memory, and how often each allocation ran. */
  datatype Machine = Machine(env: map<nat, Value>, heap: map<Cell, Value>, runs: map<nat, nat>)

  const START := Machine(map[], map[], map[])

  function Runs(m: Machine, alloc: nat): nat {
    if alloc in m.runs then m.runs[alloc] else 0
  }

  /** A location nothing was stored to holds the zero value. */
  function Read(m: Machine, cell: Cell): Value {
    if cell in m.heap then m.heap[cell] else NilValue
  }

  predicate Has(m: Machine, operand: Operand) {
    operand.Ref? ==> operand.value in m.env
  }

  function Eval(m: Machine, operand: Operand): Value
    requires Has(m, operand)
  {
    match operand
    case NilConst => NilValue
    case Ref(v) => m.env[v]
  }

  function CellOf(address: Value): Cell
    requires address.Address?
  {
    Cell(address.alloc, address.instance, address.path)
  }

  function StepFrom(address: Value, step: Step): Value
    requires address.Address?
  {
    address.(path := address.path + [step])
  }

  function Define(m: Machine, result: nat, value: Value): Machine {
    m.(env := m.env[result := value])
  }

  /** One instruction runs; edge is the predecessor the block was entered by. A
  nil or out-of-range access faults, so nothing follows it. */
  ghost predicate Executes(fn: Function, instr: Instr, edge: nat, m: Machine, n: Machine) {
    match instr
    case Alloc(r) =>
      n == Define(m, r, Address(r, Runs(m, r), [])).(runs := m.runs[r := Runs(m, r) + 1])
    case Alias(r, source) => Has(m, source) && n == Define(m, r, Eval(m, source))
    case FieldAddr(r, base, field) =>
      Has(m, base) && Eval(m, base).Address? && n == Define(m, r, StepFrom(Eval(m, base), Field(field)))
    case ConstIndexAddr(r, base, position) =>
      Has(m, base) && Eval(m, base).Address? && n == Define(m, r, StepFrom(Eval(m, base), Index(position)))
    case DynamicIndexAddr(r, base) =>
      base.Ref? && base.value in m.env && NamesType(fn, base.value) && Eval(m, base).Address? &&
      exists k :: 0 <= k < ArrayLength(StorageOf(fn, base.value)) &&
        n == Define(m, r, StepFrom(Eval(m, base), Index(k)))
    case Load(r, address) =>
      Has(m, address) && Eval(m, address).Address? && n == Define(m, r, Read(m, CellOf(Eval(m, address))))
    case Store(address, written) =>
      Has(m, address) && Has(m, written) && Eval(m, address).Address? &&
      n == m.(heap := m.heap[CellOf(Eval(m, address)) := Eval(m, written)])
    case Phi(r, edges) => edge < |edges| && Has(m, edges[edge]) && n == Define(m, r, Eval(m, edges[edge]))
  }

  function ArrayLength(storage: Type): nat {
    if storage.Array? then storage.length else 0
  }

  /** A point of a run: about to execute instruction index of the block. */
  datatype Config = Config(block: nat, index: nat, edge: nat, machine: Machine)

  predicate Placed(fn: Function, c: Config) {
    c.block < |fn.blocks| && c.index <= |fn.blocks[c.block].instrs|
  }

  ghost predicate Steps(fn: Function, c: Config, d: Config)
    requires Placed(fn, c)
  {
    if c.index < |fn.blocks[c.block].instrs| then
      d.block == c.block && d.index == c.index + 1 && d.edge == c.edge &&
      Executes(fn, InstrAt(fn, c.block, c.index), c.edge, c.machine, d.machine)
    else
      d.block in fn.blocks[c.block].succs && d.block < |fn.blocks| && d.index == 0 && d.machine == c.machine &&
      d.edge < |fn.blocks[d.block].preds| && fn.blocks[d.block].preds[d.edge] == c.block
  }

  /** A run from the entry to some point. */
  ghost predicate IsRun(fn: Function, run: seq<Config>) {
    && run != [] && run[0] == Config(0, 0, 0, START)
    && (forall i | 0 <= i < |run| :: Placed(fn, run[i]))
    && forall i | 0 < i < |run| :: Steps(fn, run[i - 1], run[i])
  }
}
