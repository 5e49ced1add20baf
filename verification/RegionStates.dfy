/** The memory state at one program point: what a slot holds, how a store
settles into the state, and how two states meet at a join. */
module RegionStates {
  import opened SlotPaths
  import opened PointeeSets

  datatype EscapeKind = ToCall | ToAsync | ToGlobal | ToField | ToSend

  datatype StepKey = SelfKey | LastKey(step: Step)

  datatype State = State(
    contents: map<Slot, Pointees>,
    clobbered: map<Slot, int>,
    epoch: int,
    reachEpoch: int,
    stepEpochs: map<StepKey, int>,
    escaped: set<Region>,
    escapes: map<Slot, set<EscapeKind>>
  )

  const EMPTY_STATE := State(map[], map[], 0, 0, map[], {}, map[])

  function KeyOf(path: Path): StepKey {
    if path == [] then SelfKey else LastKey(path[|path| - 1])
  }

  // ---- Reading a slot -------------------------------------------------------

  /** An escape that puts an object within reach of code the graph did not follow. */
  predicate Reached(state: State, region: Region) {
    var target := Slot(region, []);
    target in state.escapes && exists kind <- state.escapes[target] :: kind != ToField
  }

  predicate ForeignWithinReach(state: State, region: Region)
    decreases region
  {
    match region
    case Site(_) => region in state.escaped
    case External(_, isGlobal) => isGlobal || Reached(state, region)
    case Opaque(_) => true
    case Placeholder(source, _) => Reached(state, region) || ForeignWithinReach(state, source.region)
    case Closure(_) => Reached(state, region)
    case NilRegion => false
    case UnknownRegion => false
  }

  function StampOf(state: State, target: Slot): Stamp {
    Stamp(if ForeignWithinReach(state, target.region) then state.reachEpoch else state.epoch,
          if KeyOf(target.path) in state.stepEpochs then state.stepEpochs[KeyOf(target.path)] else 0)
  }

  /** The longest clobbered prefix of a path, counted in steps. */
  function ClobberDepth(clobbered: map<Slot, int>, region: Region, path: Path): (depth: int)
    ensures -1 <= depth <= |path|
    ensures depth >= 0 ==> Slot(region, path[..depth]) in clobbered
    ensures forall k | depth < k <= |path| :: Slot(region, path[..k]) !in clobbered
  {
    if Slot(region, path) in clobbered then
      assert path[..|path|] == path;
      |path|
    else if path == [] then -1
    else
      var depth := ClobberDepth(clobbered, region, Parent(path));
      assert forall k | 0 <= k < |path| :: Parent(path)[..k] == path[..k];
      assert path[..|path|] == path;
      depth
  }

  predicate ClobberedBeneath(state: State, target: Slot) {
    ClobberDepth(state.clobbered, target.region, target.path) >= 0
  }

  function ClobberStamp(state: State, target: Slot): int
    requires ClobberedBeneath(state, target)
  {
    state.clobbered[Slot(target.region, target.path[..ClobberDepth(state.clobbered, target.region, target.path)])]
  }

  /** What a slot the function did not write holds. */
  function Unwritten(state: State, target: Slot): Pointees {
    if ClobberedBeneath(state, target) then
      map[Slot(Placeholder(target, Stamp(ClobberStamp(state, target), 0)), []) := false]
    else match target.region
      case Site(_) => map[NIL := false]
      case NilRegion => map[UNKNOWN := false]
      case UnknownRegion => map[UNKNOWN := false]
      case _ => map[Slot(Placeholder(target, StampOf(state, target)), []) := false]
  }

  function StarSlot(target: Slot): Slot {
    Slot(target.region, Parent(target.path) + [AnyIndex])
  }

  /** The element entries beneath the same array, the wildcard's own included. */
  predicate IsSibling(other: Slot, target: Slot) {
    other.region == target.region && EndsInIndex(other.path) && Parent(other.path) == Parent(target.path)
  }

  function Siblings(contents: map<Slot, Pointees>, target: Slot): set<Slot> {
    set other | other in contents && IsSibling(other, target)
  }

  function HeldBy(contents: map<Slot, Pointees>, slots: set<Slot>): set<Slot>
    requires slots <= contents.Keys
  {
    set s, t | s in slots && t in contents[s] :: t
  }

  /** The union of several entries, in no particular order. */
  function JoinOver(contents: map<Slot, Pointees>, slots: set<Slot>): Pointees
    requires slots <= contents.Keys
  {
    if exists s <- slots :: IsUnknown(contents[s]) then
      map[UNKNOWN := exists s <- slots :: StaleIn(contents[s], UNKNOWN)]
    else
      map t | t in HeldBy(contents, slots) :: exists s <- slots :: StaleIn(contents[s], t)
  }

  function Entry(contents: map<Slot, Pointees>, target: Slot): Pointees {
    if target in contents then contents[target] else map[]
  }

  /** What one slot holds in the state. */
  function Content(state: State, target: Slot): Pointees {
    if target.region == UnknownRegion then map[target := false]
    else if target.region == NilRegion then map[NIL := false]
    else if EndsInStar(target.path) then
      Join(JoinOver(state.contents, Siblings(state.contents, target)), Unwritten(state, target))
    else
      var own := Entry(state.contents, target);
      var star := if EndsInIndex(target.path) then Entry(state.contents, StarSlot(target)) else map[];
      var written := Join(own, star);
      if written != map[] then written else Unwritten(state, target)
  }

  predicate NormalContents(contents: map<Slot, Pointees>) {
    forall t | t in contents :: Normal(contents[t])
  }

  // ---- Writing a slot -------------------------------------------------------

  function BoundSet(pts: Pointees): Pointees {
    if |pts| <= POINTEE_LIMIT then pts else map[UNKNOWN := false]
  }

  predicate Beneath(other: Slot, target: Slot) {
    other.region == target.region && target.path <= other.path
  }

  predicate StrictlyAbove(other: Slot, target: Slot) {
    other.region == target.region && other.path < target.path
  }

  function ForgetStoredSubtree(state: State, target: Slot): State {
    state.(contents := map t | t in state.contents && !Beneath(t, target) :: state.contents[t])
  }

  function ClearSubtree(state: State, target: Slot): State {
    ForgetStoredSubtree(state, target).(
      clobbered := map t | t in state.clobbered && !Beneath(t, target) :: state.clobbered[t])
  }

  function ForgetWholeAbove(state: State, target: Slot): State {
    state.(contents := map t | t in state.contents && !StrictlyAbove(t, target) :: state.contents[t])
  }

  /** A store through an unknown index: the wildcard and every known element
  gain the value. */
  function WeakElementStore(state: State, target: Slot, value: Pointees): State {
    var forgot := ForgetWholeAbove(state, target);
    var star := if target in forgot.contents then forgot.contents[target] else Content(forgot, target);
    var entries := forgot.contents[target := star];
    forgot.(contents := map t | t in entries ::
      if t == target || IsSibling(t, target) then BoundSet(Join(entries[t], value)) else entries[t])
  }

  /** Updates one selected scalar slot. */
  function StoreSlot(state: State, target: Slot, value: Pointees, strong: bool): State {
    if EndsInStar(target.path) then WeakElementStore(state, target, value)
    else
      var forgot := ForgetWholeAbove(state, target);
      if strong then
        var cleared := ClearSubtree(forgot, target);
        cleared.(contents := cleared.contents[target := value])
      else
        var existing := if target in forgot.contents then forgot.contents[target] else Content(forgot, target);
        forgot.(contents := forgot.contents[target := BoundSet(Join(existing, value))])
  }

  // ---- Joining two states ---------------------------------------------------

  /** Marks the pointees created inside the loop a back edge closes. */
  function Restale(pts: Pointees, loopMade: set<Region>): Pointees {
    map t | t in pts :: pts[t] || t.region in loopMade
  }

  /** A slot only one side wrote takes the other side's implicit content. */
  function EntryOrContent(state: State, target: Slot): Pointees {
    if target in state.contents then state.contents[target] else Content(state, target)
  }

  function MergeContents(a: State, b: State, loopMade: set<Region>): map<Slot, Pointees> {
    map t | t in a.contents.Keys + b.contents.Keys ::
      BoundSet(Join(EntryOrContent(a, t), Restale(EntryOrContent(b, t), loopMade)))
  }

  function MergeClobbered(a: State, b: State, block: int): map<Slot, int> {
    map t | t in a.clobbered.Keys + b.clobbered.Keys ::
      if t !in b.clobbered then a.clobbered[t]
      else if t !in a.clobbered || a.clobbered[t] == b.clobbered[t] then b.clobbered[t]
      else block
  }

  function MergeSteps(a: State, b: State, block: int): map<StepKey, int> {
    map k | k in a.stepEpochs.Keys + b.stepEpochs.Keys ::
      if k in a.stepEpochs && k in b.stepEpochs && a.stepEpochs[k] == b.stepEpochs[k] then a.stepEpochs[k] else block
  }

  function Merge(a: State, b: State, loopMade: set<Region>, block: int): State {
    State(
      MergeContents(a, b, loopMade),
      MergeClobbered(a, b, block),
      if a.epoch == b.epoch then a.epoch else block,
      if a.reachEpoch == b.reachEpoch then a.reachEpoch else block,
      MergeSteps(a, b, block),
      a.escaped + b.escaped,
      map t | t in a.escapes.Keys + b.escapes.Keys ::
        (if t in a.escapes then a.escapes[t] else {}) + (if t in b.escapes then b.escapes[t] else {}))
  }

  // ---- Run-time values ------------------------------------------------------

  /** A pointer value of the running program: nil, the address of a location in
  one instance of a local allocation, or something outside the function. */
  datatype Value = NilValue | Address(alloc: nat, instance: nat, path: Path) | Outside(object: nat)

  /** A placeholder stands for content the function did not write, so it admits
  every value. */
  predicate Denotes(target: Slot, value: Value) {
    match target.region
    case NilRegion => value.NilValue?
    case UnknownRegion => true
    case Site(alloc) => value.Address? && value.alloc == alloc && Matches(target.path, value.path)
    case Placeholder(_, _) => true
    case External(_, _) => value.Outside?
    case Opaque(_) => value.Outside?
    case Closure(_) => value.Outside?
  }

  predicate Covers(pts: Pointees, value: Value) {
    exists t <- pts.Keys :: Denotes(t, value)
  }

  predicate AdmitsAnything(pts: Pointees) {
    exists t <- pts.Keys :: t.region.UnknownRegion? || t.region.Placeholder?
  }

  lemma CoversJoin(a: Pointees, b: Pointees, value: Value)
    requires Normal(a) && Normal(b)
    ensures Covers(Join(a, b), value) <==> Covers(a, value) || Covers(b, value)
  {
    if IsUnknown(a) || IsUnknown(b) {
      assert Denotes(UNKNOWN, value);
      assert UNKNOWN in Join(a, b);
    } else {
      assert Join(a, b).Keys == a.Keys + b.Keys;
    }
  }

  lemma CoversBound(a: Pointees, value: Value)
    requires Covers(a, value)
    ensures Covers(BoundSet(a), value)
  {
    assert Denotes(UNKNOWN, value);
  }

  lemma AdmitsAnythingExactly(pts: Pointees)
    ensures AdmitsAnything(pts) <==> forall value :: Covers(pts, value)
  {
    if t :| t in pts.Keys && (t.region.UnknownRegion? || t.region.Placeholder?) {
      assert forall value :: Denotes(t, value);
    } else {
      var unused := UnusedAlloc(pts.Keys);
      var value := Address(unused, 0, []);
      assert !Covers(pts, value);
    }
  }

  /** An allocation that no slot of the set belongs to. */
  ghost function UnusedAlloc(slots: set<Slot>): (unused: nat)
    ensures forall t | t in slots && t.region.Site? :: t.region.alloc < unused
  {
    if slots == {} then 0
    else
      var t :| t in slots;
      var rest := UnusedAlloc(slots - {t});
      assert forall s | s in slots :: s == t || s in slots - {t};
      if t.region.Site? && t.region.alloc >= rest then t.region.alloc + 1 else rest
  }
}
