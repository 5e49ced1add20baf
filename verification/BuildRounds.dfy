/** The rounds of a graph build. On an acyclic function whose blocks come in
reverse postorder, the first round computes the graph and the second finds it
unchanged. */
module BuildRounds {
  import opened Options
  import opened SlotPaths
  import opened PointeeSets
  import opened RegionStates
  import opened MemoryPrograms
  import opened AbstractMemory
  import opened MemorySoundness
  import opened Fixpoint

  /** The graph under construction; widened records that a value's pointees
  outgrew the limit and were collapsed. */
  datatype Build = Build(values: Values, entry: map<nat, State>, out: map<nat, State>, widened: bool)

  const NO_BUILD := Build(map[], map[], map[], false)

  /** The build inside a block: the values so far and the current state. */
  datatype Line = Line(values: Values, state: State, widened: bool)

  /** Records the pointees of a value, growing them across rounds. */
  function Give(line: Line, result: nat, pts: Pointees): Line {
    if result !in line.values then line.(values := line.values[result := pts])
    else
      var grown := Join(line.values[result], pts);
      line.(values := line.values[result := BoundSet(grown)], widened := line.widened || |grown| > POINTEE_LIMIT)
  }

  /** The first pointees are recorded as they are, later ones joined to them; the
  build is marked widened exactly when more than that had to be recorded. */
  lemma GiveExactly(line: Line, result: nat, pts: Pointees)
    ensures var all := if result in line.values then Join(line.values[result], pts) else pts;
            var after := Give(line, result, pts);
            && result in after.values
            && (after.values[result] == all || (result in line.values && IsUnknown(after.values[result])))
            && (after.widened <==> line.widened || after.values[result] != all)
  {
    if result in line.values {
      var all := Join(line.values[result], pts);
      var unknown: Pointees := map[UNKNOWN := false];
      assert unknown.Keys == {UNKNOWN} && |unknown| == |unknown.Keys|;
      assert UNKNOWN in unknown;
    }
  }

  /** What an instruction defines, and the state after it. The rounds only rely
  on its looking at nothing but the operands and the state. */
  type Effect = (Values, State, Instr) -> (Pointees, State)

  /** Marks the places where a proof looks at what the transfer computes. */
  ghost predicate Looked(values: Values, state: State, instr: Instr) {
    true
  }

  ghost predicate IsTransfer(effect: Effect) {
    forall values, state, instr {:trigger Looked(values, state, instr)} ::
      Looked(values, state, instr) ==>
      effect(values, state, instr) == (Defined(values, state, instr), NextState(values, state, instr))
  }

  lemma TransferExists()
    ensures exists effect: Effect :: IsTransfer(effect)
  {
    var transfer: Effect :=
      (values: Values, state: State, instr: Instr) => (Defined(values, state, instr), NextState(values, state, instr));
    assert IsTransfer(transfer);
  }

  /** The transfer of the fragment. */
  ghost function TransferEffect(): (effect: Effect)
    ensures IsTransfer(effect)
  {
    TransferExists();
    var effect: Effect :| IsTransfer(effect);
    effect
  }

  lemma EffectIs(values: Values, state: State, instr: Instr)
    ensures TransferEffect()(values, state, instr) == (Defined(values, state, instr), NextState(values, state, instr))
  {
    assert Looked(values, state, instr);
  }

  function StepLine(effect: Effect, line: Line, instr: Instr): Line {
    var (defined, next) := effect(line.values, line.state, instr);
    (if instr.Store? then line else Give(line, instr.result, defined)).(state := next)
  }

  function RunTo(effect: Effect, line: Line, instrs: seq<Instr>, count: nat): Line
    requires count <= |instrs|
  {
    if count == 0 then line else StepLine(effect, RunTo(effect, line, instrs, count - 1), instrs[count - 1])
  }

  function EntryOf(fn: Function, out: map<nat, State>, block: nat): Option<State>
    requires block < |fn.blocks|
  {
    if block == 0 then Some(EMPTY_STATE) else MergePreds(out, fn.blocks[block].preds, block)
  }

  function Process(effect: Effect, fn: Function, build: Build, block: nat): Build
    requires block < |fn.blocks|
  {
    var start := EntryOf(fn, build.out, block);
    if start.None? then build
    else
      var instrs := fn.blocks[block].instrs;
      var end := RunTo(effect, Line(build.values, start.value, build.widened), instrs, |instrs|);
      Build(end.values, build.entry[block := start.value], build.out[block := end.state], end.widened)
  }

  predicate BlocksOf(fn: Function, order: seq<nat>) {
    forall k | 0 <= k < |order| :: order[k] < |fn.blocks|
  }

  function ProcessTo(effect: Effect, fn: Function, build: Build, order: seq<nat>, count: nat): Build
    requires count <= |order| && BlocksOf(fn, order)
  {
    if count == 0 then build else Process(effect, fn, ProcessTo(effect, fn, build, order, count - 1), order[count - 1])
  }

  function Round(effect: Effect, fn: Function, build: Build, order: seq<nat>): Build
    requires BlocksOf(fn, order)
  {
    ProcessTo(effect, fn, build, order, |order|)
  }

  // ---- The order a build relies on ------------------------------------------

  predicate Uses(instr: Instr, v: nat) {
    match instr
    case Alloc(_) => false
    case Alias(_, source) => source == Ref(v)
    case FieldAddr(_, base, _) => base == Ref(v)
    case ConstIndexAddr(_, base, _) => base == Ref(v)
    case DynamicIndexAddr(_, base) => base == Ref(v)
    case Load(_, address) => address == Ref(v)
    case Store(address, written) => address == Ref(v) || written == Ref(v)
    case Phi(_, edges) => Ref(v) in edges
  }

  /** v is defined before instruction index of the k-th block of the order. */
  ghost predicate DefinedBefore(fn: Function, order: seq<nat>, k: nat, index: nat, v: nat)
    requires k < |order|
  {
    forall c: nat, j: nat | Defines(fn, c, j, v) :: c in order[..k] || (c == order[k] && j < index)
  }

  /** The entry comes first, predecessors and definitions before their uses, and
  every successor is listed. */
  ghost predicate Scheduled(fn: Function, order: seq<nat>) {
    && BlocksOf(fn, order) && order != [] && order[0] == 0
    && (forall j, k | 0 <= j < k < |order| :: order[j] != order[k])
    && (forall k, p | 0 <= k < |order| && p in fn.blocks[order[k]].preds :: p in order[..k])
    && (forall k, s | 0 <= k < |order| && s in fn.blocks[order[k]].succs :: s in order)
    && (forall k: nat, i: nat, v: nat | k < |order| && At(fn, order[k], i) && Uses(InstrAt(fn, order[k], i), v) ::
          DefinedBefore(fn, order, k, i, v))
    && (forall k | 0 < k < |order| :: fn.blocks[order[k]].preds != [])
  }

  // ---- Blocks that are already settled --------------------------------------

  /** The state before instruction count, replayed under fixed values. */
  function ReplayTo(effect: Effect, values: Values, state: State, instrs: seq<Instr>, count: nat): State
    requires count <= |instrs|
  {
    if count == 0 then state
    else effect(values, ReplayTo(effect, values, state, instrs, count - 1), instrs[count - 1]).1
  }

  ghost predicate ExactAt(effect: Effect, values: Values, state: State, instrs: seq<Instr>, i: nat)
    requires i < |instrs|
  {
    !instrs[i].Store? ==>
      instrs[i].result in values &&
      values[instrs[i].result] == effect(values, ReplayTo(effect, values, state, instrs, i), instrs[i]).0
  }

  /** The recorded facts about a block are what one more pass would compute. */
  ghost predicate Exact(effect: Effect, fn: Function, build: Build, block: nat)
    requires block < |fn.blocks|
  {
    var instrs := fn.blocks[block].instrs;
    && block in build.entry && block in build.out
    && EntryOf(fn, build.out, block) == Some(build.entry[block])
    && build.out[block] == ReplayTo(effect, build.values, build.entry[block], instrs, |instrs|)
    && forall i | 0 <= i < |instrs| :: ExactAt(effect, build.values, build.entry[block], instrs, i)
  }

  /** The two value maps give the same pointees to what an instruction uses. */
  predicate Agree(a: Values, b: Values, instr: Instr) {
    match instr
    case Alloc(_) => true
    case Alias(_, source) => PointeesOf(a, source) == PointeesOf(b, source)
    case FieldAddr(_, base, _) => PointeesOf(a, base) == PointeesOf(b, base)
    case ConstIndexAddr(_, base, _) => PointeesOf(a, base) == PointeesOf(b, base)
    case DynamicIndexAddr(_, base) => PointeesOf(a, base) == PointeesOf(b, base)
    case Load(_, address) => PointeesOf(a, address) == PointeesOf(b, address)
    case Store(address, written) =>
      PointeesOf(a, address) == PointeesOf(b, address) && PointeesOf(a, written) == PointeesOf(b, written)
    case Phi(_, edges) => forall i | 0 <= i < |edges| :: PointeesOf(a, edges[i]) == PointeesOf(b, edges[i])
  }

  lemma {:induction false} PhiAgrees(a: Values, b: Values, edges: seq<Operand>)
    requires forall i | 0 <= i < |edges| :: PointeesOf(a, edges[i]) == PointeesOf(b, edges[i])
    ensures PhiOf(a, edges) == PhiOf(b, edges)
    decreases |edges|
  {
    if edges != [] {
      PhiAgrees(a, b, edges[..|edges| - 1]);
    }
  }

  /** The effect looks at nothing but the operands and the state. */
  ghost predicate Local(effect: Effect) {
    forall a, b, state, instr | Agree(a, b, instr) :: effect(a, state, instr) == effect(b, state, instr)
  }

  lemma TransferIsLocal()
    ensures Local(TransferEffect())
  {
    forall a, b, state, instr | Agree(a, b, instr)
      ensures TransferEffect()(a, state, instr) == TransferEffect()(b, state, instr)
    {
      EffectIs(a, state, instr);
      EffectIs(b, state, instr);
      if instr.Phi? {
        PhiAgrees(a, b, instr.edges);
      }
    }
  }

  /** Maps that agree wherever the instruction looks agree on it. */
  lemma AgreeOnUses(a: Values, b: Values, instr: Instr)
    requires forall v | Uses(instr, v) :: PointeesOf(a, Ref(v)) == PointeesOf(b, Ref(v))
    ensures Agree(a, b, instr)
  {
    if instr.Phi? {
      forall i | 0 <= i < |instr.edges| ensures PointeesOf(a, instr.edges[i]) == PointeesOf(b, instr.edges[i]) {
        if instr.edges[i].Ref? {
          assert Uses(instr, instr.edges[i].value);
        }
      }
    }
  }

  lemma {:induction false} AgreeingReplay(effect: Effect, a: Values, b: Values, state: State, instrs: seq<Instr>,
                                          count: nat)
    requires Local(effect) && count <= |instrs| && forall i | 0 <= i < count :: Agree(a, b, instrs[i])
    ensures ReplayTo(effect, a, state, instrs, count) == ReplayTo(effect, b, state, instrs, count)
  {
    if count > 0 {
      AgreeingReplay(effect, a, b, state, instrs, count - 1);
    }
  }

  // ---- The first pass over a block ------------------------------------------

  /** The results of the first count instructions. */
  function ResultsTo(instrs: seq<Instr>, count: nat): set<nat>
    requires count <= |instrs|
  {
    if count == 0 then {}
    else ResultsTo(instrs, count - 1) + (if instrs[count - 1].Store? then {} else {instrs[count - 1].result})
  }

  lemma {:induction false} ResultsAre(instrs: seq<Instr>, count: nat)
    requires count <= |instrs|
    ensures forall v :: v in ResultsTo(instrs, count) <==> exists i :: 0 <= i < count && Result(instrs[i]) == Some(v)
  {
    if count > 0 {
      ResultsAre(instrs, count - 1);
    }
  }

  /** A block none of whose results has pointees yet: what the pass records is
  never revised within it. */
  ghost predicate FreshBlock(line: Line, instrs: seq<Instr>) {
    && (forall i | 0 <= i < |instrs| && !instrs[i].Store? :: instrs[i].result !in line.values)
    && (forall i, j | 0 <= i < j < |instrs| && !instrs[i].Store? && !instrs[j].Store? ::
      instrs[i].result != instrs[j].result)
  }

  lemma FreshResult(line: Line, instrs: seq<Instr>, k: nat)
    requires k < |instrs| && FreshBlock(line, instrs) && !instrs[k].Store?
    ensures instrs[k].result !in line.values.Keys + ResultsTo(instrs, k)
  {
    ResultsAre(instrs, k);
  }

  lemma {:induction false} FreshKeys(effect: Effect, line: Line, instrs: seq<Instr>, count: nat)
    requires count <= |instrs| && FreshBlock(line, instrs)
    ensures RunTo(effect, line, instrs, count).values.Keys == line.values.Keys + ResultsTo(instrs, count)
    ensures RunTo(effect, line, instrs, count).widened == line.widened
  {
    if count > 0 {
      FreshKeys(effect, line, instrs, count - 1);
      if !instrs[count - 1].Store? {
        FreshResult(line, instrs, count - 1);
      }
    }
  }

  /** Each instruction adds its result, or nothing. */
  lemma FreshStep(effect: Effect, line: Line, instrs: seq<Instr>, k: nat)
    requires k < |instrs| && FreshBlock(line, instrs)
    ensures var mid, next := RunTo(effect, line, instrs, k), RunTo(effect, line, instrs, k + 1);
            if instrs[k].Store? then next.values == mid.values
            else instrs[k].result !in mid.values &&
                 next.values == mid.values[instrs[k].result := effect(mid.values, mid.state, instrs[k]).0]
  {
    FreshKeys(effect, line, instrs, k);
    if !instrs[k].Store? {
      FreshResult(line, instrs, k);
    }
  }

  predicate KeepsAll(a: Values, b: Values) {
    a.Keys <= b.Keys && forall v | v in a :: b[v] == a[v]
  }

  lemma KeepsOn(a: Values, b: Values, c: Values)
    requires KeepsAll(a, b) && KeepsAll(b, c)
    ensures KeepsAll(a, c)
  {
  }

  lemma FreshGrows(effect: Effect, line: Line, instrs: seq<Instr>, k: nat)
    requires k < |instrs| && FreshBlock(line, instrs)
    ensures KeepsAll(RunTo(effect, line, instrs, k).values, RunTo(effect, line, instrs, k + 1).values)
  {
    FreshStep(effect, line, instrs, k);
  }

  /** Later instructions do not touch what an earlier map holds. */
  lemma {:induction false} FreshKeeps(effect: Effect, line: Line, instrs: seq<Instr>, held: Values, i: nat, count: nat)
    requires i <= count <= |instrs| && FreshBlock(line, instrs)
    requires KeepsAll(held, RunTo(effect, line, instrs, i).values)
    ensures KeepsAll(held, RunTo(effect, line, instrs, count).values)
    decreases count - i
  {
    if i < count {
      FreshGrows(effect, line, instrs, i);
      KeepsOn(held, RunTo(effect, line, instrs, i).values, RunTo(effect, line, instrs, i + 1).values);
      FreshKeeps(effect, line, instrs, held, i + 1, count);
    }
  }

  lemma FreshRecorded(effect: Effect, line: Line, instrs: seq<Instr>, i: nat)
    requires i < |instrs| && FreshBlock(line, instrs) && !instrs[i].Store?
    ensures var mid, end := RunTo(effect, line, instrs, i), RunTo(effect, line, instrs, |instrs|).values;
            instrs[i].result in end && end[instrs[i].result] == effect(mid.values, mid.state, instrs[i]).0
  {
    FreshStep(effect, line, instrs, i);
    FreshKeeps(effect, line, instrs, RunTo(effect, line, instrs, i + 1).values, i + 1, |instrs|);
  }

  /** No instruction uses a value the block defines at or after it. */
  ghost predicate UsesEarlier(instrs: seq<Instr>) {
    forall i, j, v: nat | 0 <= i <= j < |instrs| && Uses(instrs[i], v) :: Result(instrs[j]) != Some(v)
  }

  lemma FreshAgrees(effect: Effect, line: Line, instrs: seq<Instr>, i: nat)
    requires i < |instrs| && FreshBlock(line, instrs) && UsesEarlier(instrs)
    ensures Agree(RunTo(effect, line, instrs, i).values, RunTo(effect, line, instrs, |instrs|).values, instrs[i])
  {
    var mid, end := RunTo(effect, line, instrs, i).values, RunTo(effect, line, instrs, |instrs|).values;
    FreshKeeps(effect, line, instrs, RunTo(effect, line, instrs, i).values, i, |instrs|);
    FreshKeys(effect, line, instrs, i);
    FreshKeys(effect, line, instrs, |instrs|);
    forall v | Uses(instrs[i], v) ensures v in end ==> v in mid {
      ResultsAre(instrs, i);
      ResultsAre(instrs, |instrs|);
    }
    AgreeOnUses(mid, end, instrs[i]);
  }

  /** The pass leaves the block exact under the values it ends with. */
  lemma {:induction false} FreshReplay(effect: Effect, line: Line, instrs: seq<Instr>, count: nat)
    requires Local(effect) && count <= |instrs| && FreshBlock(line, instrs) && UsesEarlier(instrs)
    ensures RunTo(effect, line, instrs, count).state ==
            ReplayTo(effect, RunTo(effect, line, instrs, |instrs|).values, line.state, instrs, count)
  {
    if count > 0 {
      FreshReplay(effect, line, instrs, count - 1);
      FreshAgrees(effect, line, instrs, count - 1);
    }
  }

  lemma FreshExact(effect: Effect, line: Line, instrs: seq<Instr>, i: nat)
    requires Local(effect) && i < |instrs| && FreshBlock(line, instrs) && UsesEarlier(instrs)
    ensures ExactAt(effect, RunTo(effect, line, instrs, |instrs|).values, line.state, instrs, i)
  {
    var end := RunTo(effect, line, instrs, |instrs|).values;
    if !instrs[i].Store? {
      FreshRecorded(effect, line, instrs, i);
    }
    FreshReplay(effect, line, instrs, i);
    FreshAgrees(effect, line, instrs, i);
  }

  // ---- The first round ------------------------------------------------------

  ghost predicate DefinedIn(fn: Function, order: seq<nat>, count: nat, v: nat)
    requires count <= |order|
  {
    exists b: nat, i: nat :: b in order[..count] && Defines(fn, b, i, v)
  }

  lemma NotListedBefore(fn: Function, order: seq<nat>, k: nat)
    requires Scheduled(fn, order) && k < |order|
    ensures forall j | 0 <= j <= k :: order[k] !in order[..j]
  {
    assert forall m | 0 <= m < k :: order[m] != order[k];
  }

  /** After count blocks exactly those blocks and their results are recorded. */
  ghost predicate RoundKeys(fn: Function, build: Build, order: seq<nat>, count: nat)
    requires count <= |order|
  {
    && (forall b :: b in build.out <==> b in order[..count])
    && (forall b :: b in build.entry <==> b in order[..count])
    && (forall v :: v in build.values <==> DefinedIn(fn, order, count, v))
    && !build.widened
  }

  ghost predicate AllExact(effect: Effect, fn: Function, build: Build, order: seq<nat>, count: nat)
    requires BlocksOf(fn, order) && count <= |order|
  {
    forall j | 0 <= j < count :: Exact(effect, fn, build, order[j])
  }

  /** The entry state depends on the predecessors' exit states only. */
  lemma {:induction false} MergePredsLocal(a: map<nat, State>, b: map<nat, State>, preds: seq<nat>, block: nat)
    requires forall p | p in preds :: (p in a <==> p in b) && (p in a ==> a[p] == b[p])
    ensures MergePreds(a, preds, block) == MergePreds(b, preds, block)
    decreases |preds|
  {
    if preds != [] {
      MergePredsLocal(a, b, preds[..|preds| - 1], block);
      assert preds[|preds| - 1] in preds;
    }
  }

  lemma OthersEntry(fn: Function, out: map<nat, State>, c: nat, state: State, block: nat)
    requires block < |fn.blocks| && c !in fn.blocks[block].preds
    ensures EntryOf(fn, out[c := state], block) == EntryOf(fn, out, block)
  {
    MergePredsLocal(out[c := state], out, fn.blocks[block].preds, block);
  }

  /** The next block of the schedule: nothing it defines is recorded yet. */
  lemma NextIsFresh(fn: Function, build: Build, order: seq<nat>, k: nat, start: State)
    requires WellFormed(fn) && Scheduled(fn, order) && k < |order| && RoundKeys(fn, build, order, k)
    ensures FreshBlock(Line(build.values, start, build.widened), fn.blocks[order[k]].instrs)
  {
    var c, instrs := order[k], fn.blocks[order[k]].instrs;
    NotListedBefore(fn, order, k);
    forall i | 0 <= i < |instrs| && !instrs[i].Store?
      ensures Defines(fn, c, i, instrs[i].result) && instrs[i].result !in build.values
    {
      assert !DefinedIn(fn, order, k, instrs[i].result) by {
        assert Defines(fn, c, i, instrs[i].result);
      }
    }
  }

  /** It uses nothing it defines later. */
  lemma NextUsesEarlier(fn: Function, order: seq<nat>, k: nat)
    requires Scheduled(fn, order) && k < |order|
    ensures UsesEarlier(fn.blocks[order[k]].instrs)
  {
    var c, instrs := order[k], fn.blocks[order[k]].instrs;
    NotListedBefore(fn, order, k);
    forall i, j, v: nat | 0 <= i <= j < |instrs| && Uses(instrs[i], v) ensures Result(instrs[j]) != Some(v) {
      assert At(fn, c, i) && InstrAt(fn, c, i) == instrs[i];
      assert DefinedBefore(fn, order, k, i, v);
      assert !Defines(fn, c, j, v);
    }
  }

  /** Values of blocks further on are not used by an earlier block. */
  lemma EarlierAgrees(fn: Function, order: seq<nat>, j: nat, k: nat, i: nat, old_: Values, new_: Values)
    requires Scheduled(fn, order) && j < k < |order| && At(fn, order[j], i)
    requires forall v | v in old_ :: v in new_ && new_[v] == old_[v]
    requires forall v | v in new_ && v !in old_ :: exists n: nat :: Defines(fn, order[k], n, v)
    ensures Agree(old_, new_, InstrAt(fn, order[j], i))
  {
    var instr := InstrAt(fn, order[j], i);
    NotListedBefore(fn, order, k);
    assert order[j] != order[k];
    forall v | Uses(instr, v) ensures v in new_ ==> v in old_ {
      assert DefinedBefore(fn, order, j, i, v);
      assert forall n: nat :: !Defines(fn, order[k], n, v);
    }
    AgreeOnUses(old_, new_, instr);
  }

  /** Processing a later block leaves an earlier one exact. */
  lemma EarlierStaysExact(effect: Effect, fn: Function, order: seq<nat>, j: nat, k: nat, a: Build, b: Build)
    requires Local(effect) && Scheduled(fn, order) && j < k < |order|
    requires Exact(effect, fn, a, order[j])
    requires forall v | v in a.values :: v in b.values && b.values[v] == a.values[v]
    requires forall v | v in b.values && v !in a.values :: exists n: nat :: Defines(fn, order[k], n, v)
    requires order[k] in b.out && order[k] in b.entry
    requires b.out == a.out[order[k] := b.out[order[k]]] && b.entry == a.entry[order[k] := b.entry[order[k]]]
    ensures Exact(effect, fn, b, order[j])
  {
    var block := order[j];
    var instrs, start := fn.blocks[block].instrs, a.entry[block];
    NotListedBefore(fn, order, k);
    assert order[j] != order[k];
    assert order[k] !in fn.blocks[block].preds;
    OthersEntry(fn, a.out, order[k], b.out[order[k]], block);
    forall i | 0 <= i < |instrs| ensures Agree(a.values, b.values, instrs[i]) {
      assert At(fn, block, i) && InstrAt(fn, block, i) == instrs[i];
      EarlierAgrees(fn, order, j, k, i, a.values, b.values);
    }
    AgreeingReplay(effect, a.values, b.values, start, instrs, |instrs|);
    forall i | 0 <= i < |instrs| ensures ExactAt(effect, b.values, start, instrs, i) {
      assert ExactAt(effect, a.values, start, instrs, i);
      AgreeingReplay(effect, a.values, b.values, start, instrs, i);
    }
  }

  /** The pass over a fresh block makes it exact. */
  lemma FreshBlockExact(effect: Effect, fn: Function, build: Build, c: nat)
    requires Local(effect) && c < |fn.blocks| && c !in fn.blocks[c].preds
    requires EntryOf(fn, build.out, c).Some?
    requires FreshBlock(Line(build.values, EntryOf(fn, build.out, c).value, build.widened), fn.blocks[c].instrs)
    requires UsesEarlier(fn.blocks[c].instrs)
    ensures var next := Process(effect, fn, build, c);
            && Exact(effect, fn, next, c)
            && next.values.Keys == build.values.Keys + ResultsTo(fn.blocks[c].instrs, |fn.blocks[c].instrs|)
            && (forall v | v in build.values :: next.values[v] == build.values[v])
            && next.widened == build.widened
            && next.out == build.out[c := next.out[c]] && next.entry == build.entry[c := next.entry[c]]
  {
    var start, instrs := EntryOf(fn, build.out, c).value, fn.blocks[c].instrs;
    var line, next := Line(build.values, start, build.widened), Process(effect, fn, build, c);
    FreshKeys(effect, line, instrs, |instrs|);
    FreshKeeps(effect, line, instrs, line.values, 0, |instrs|);
    FreshReplay(effect, line, instrs, |instrs|);
    forall i | 0 <= i < |instrs| ensures ExactAt(effect, next.values, start, instrs, i) {
      FreshExact(effect, line, instrs, i);
    }
    OthersEntry(fn, build.out, c, next.out[c], c);
  }

  /** The next block of the schedule becomes exact. */
  lemma RoundStep(effect: Effect, fn: Function, build: Build, order: seq<nat>, k: nat)
    requires Local(effect) && WellFormed(fn) && Scheduled(fn, order) && k < |order|
    requires RoundKeys(fn, build, order, k)
    ensures var c := order[k];
            var next := Process(effect, fn, build, c);
            && Exact(effect, fn, next, c)
            && next.values.Keys == build.values.Keys + ResultsTo(fn.blocks[c].instrs, |fn.blocks[c].instrs|)
            && (forall v | v in build.values :: next.values[v] == build.values[v])
            && !next.widened
            && next.out == build.out[c := next.out[c]] && next.entry == build.entry[c := next.entry[c]]
  {
    NextIsFresh(fn, build, order, k, EntryOf(fn, build.out, order[k]).value);
    NextUsesEarlier(fn, order, k);
    FreshBlockExact(effect, fn, build, order[k]);
  }

  lemma KeysStep(fn: Function, build: Build, next: Build, order: seq<nat>, k: nat)
    requires k < |order| && order[k] < |fn.blocks| && RoundKeys(fn, build, order, k)
    requires next.values.Keys == build.values.Keys + ResultsTo(fn.blocks[order[k]].instrs, |fn.blocks[order[k]].instrs|)
    requires order[k] in next.out && order[k] in next.entry && !next.widened
    requires next.out == build.out[order[k] := next.out[order[k]]] &&
             next.entry == build.entry[order[k] := next.entry[order[k]]]
    ensures RoundKeys(fn, next, order, k + 1)
    ensures forall v | v in next.values && v !in build.values :: exists n: nat :: Defines(fn, order[k], n, v)
  {
    assert order[..k + 1] == order[..k] + [order[k]];
    forall v ensures v in next.values <==> DefinedIn(fn, order, k + 1, v) {
      ResultsDefined(fn, order[k], v);
    }
    forall v | v in next.values && v !in build.values ensures exists n: nat :: Defines(fn, order[k], n, v) {
      ResultsDefined(fn, order[k], v);
    }
  }

  lemma ResultsDefined(fn: Function, c: nat, v: nat)
    requires c < |fn.blocks|
    ensures v in ResultsTo(fn.blocks[c].instrs, |fn.blocks[c].instrs|) <==> exists n: nat :: Defines(fn, c, n, v)
  {
    var instrs := fn.blocks[c].instrs;
    ResultsAre(instrs, |instrs|);
    if v in ResultsTo(instrs, |instrs|) {
      var i :| 0 <= i < |instrs| && Result(instrs[i]) == Some(v);
      assert Defines(fn, c, i, v);
    }
  }

  lemma ExactStep(effect: Effect, fn: Function, build: Build, order: seq<nat>, k: nat)
    requires Local(effect) && WellFormed(fn) && Scheduled(fn, order) && k < |order|
    requires RoundKeys(fn, build, order, k) && AllExact(effect, fn, build, order, k)
    ensures var next := Process(effect, fn, build, order[k]);
            RoundKeys(fn, next, order, k + 1) && AllExact(effect, fn, next, order, k + 1)
  {
    var next := Process(effect, fn, build, order[k]);
    RoundStep(effect, fn, build, order, k);
    KeysStep(fn, build, next, order, k);
    forall j | 0 <= j < k ensures Exact(effect, fn, next, order[j]) {
      EarlierStaysExact(effect, fn, order, j, k, build, next);
    }
  }

  /** The first round leaves every block exact. */
  lemma {:induction false} FirstRoundExact(effect: Effect, fn: Function, order: seq<nat>, count: nat)
    requires Local(effect) && WellFormed(fn) && Scheduled(fn, order) && count <= |order|
    ensures var build := ProcessTo(effect, fn, NO_BUILD, order, count);
            RoundKeys(fn, build, order, count) && AllExact(effect, fn, build, order, count)
  {
    if count == 0 {
      NothingExact(effect, fn, order);
    } else {
      FirstRoundExact(effect, fn, order, count - 1);
      ExactStep(effect, fn, ProcessTo(effect, fn, NO_BUILD, order, count - 1), order, count - 1);
    }
  }

  lemma NothingExact(effect: Effect, fn: Function, order: seq<nat>)
    requires BlocksOf(fn, order)
    ensures RoundKeys(fn, NO_BUILD, order, 0) && AllExact(effect, fn, NO_BUILD, order, 0)
  {
  }

  // ---- The second round -----------------------------------------------------

  ghost predicate NormalValues(values: Values) {
    forall v | v in values :: Normal(values[v])
  }

  /** A pass over an exact block changes nothing, unless it widens a value. */
  lemma {:induction false} ExactRun(effect: Effect, line: Line, instrs: seq<Instr>, count: nat)
    requires count <= |instrs| && NormalValues(line.values)
    requires forall i | 0 <= i < |instrs| :: ExactAt(effect, line.values, line.state, instrs, i)
    ensures var end := RunTo(effect, line, instrs, count);
            && (line.widened ==> end.widened)
            && (end.widened || end == Line(line.values, ReplayTo(effect, line.values, line.state, instrs, count),
                                           line.widened))
  {
    if count > 0 {
      ExactRun(effect, line, instrs, count - 1);
      var mid, instr := RunTo(effect, line, instrs, count - 1), instrs[count - 1];
      assert ExactAt(effect, line.values, line.state, instrs, count - 1);
      if !mid.widened && !instr.Store? {
        GiveAgain(mid, instr.result, effect(mid.values, mid.state, instr).0);
      }
    }
  }

  lemma GiveAgain(line: Line, result: nat, pts: Pointees)
    requires result in line.values && line.values[result] == pts && Normal(pts)
    ensures Give(line, result, pts).widened || Give(line, result, pts) == line
  {
    JoinLaws(pts, pts, pts);
    assert line.values[result := pts] == line.values;
  }

  lemma ExactUnchanged(effect: Effect, fn: Function, build: Build, block: nat)
    requires block < |fn.blocks| && Exact(effect, fn, build, block) && NormalValues(build.values)
    ensures var next := Process(effect, fn, build, block);
            (build.widened ==> next.widened) && (next.widened || next == build)
  {
    var instrs := fn.blocks[block].instrs;
    ExactRun(effect, Line(build.values, build.entry[block], build.widened), instrs, |instrs|);
    assert build.entry[block := build.entry[block]] == build.entry;
    assert build.out[block := build.out[block]] == build.out;
  }

  /** A round over exact blocks changes nothing, unless it widens a value. */
  lemma {:induction false} SecondRoundUnchanged(effect: Effect, fn: Function, build: Build, order: seq<nat>, count: nat)
    requires BlocksOf(fn, order) && count <= |order| && NormalValues(build.values)
    requires forall j | 0 <= j < |order| :: Exact(effect, fn, build, order[j])
    ensures var next := ProcessTo(effect, fn, build, order, count); next.widened || next == build
  {
    if count > 0 {
      SecondRoundUnchanged(effect, fn, build, order, count - 1);
      var mid := ProcessTo(effect, fn, build, order, count - 1);
      if mid == build {
        ExactUnchanged(effect, fn, build, order[count - 1]);
      } else {
        WidenedStays(effect, fn, mid, order[count - 1]);
      }
    }
  }

  lemma WidenedStays(effect: Effect, fn: Function, build: Build, block: nat)
    requires block < |fn.blocks| && build.widened
    ensures Process(effect, fn, build, block).widened
  {
    var start := EntryOf(fn, build.out, block);
    if start.Some? {
      WidenedRun(effect, Line(build.values, start.value, true), fn.blocks[block].instrs, |fn.blocks[block].instrs|);
    }
  }

  lemma {:induction false} WidenedRun(effect: Effect, line: Line, instrs: seq<Instr>, count: nat)
    requires count <= |instrs| && line.widened
    ensures RunTo(effect, line, instrs, count).widened
  {
    if count > 0 {
      WidenedRun(effect, line, instrs, count - 1);
    }
  }
}
