/** Building the points-to graph of one function: the rounds as the engine runs
them, and the graph they leave behind. */
module GraphBuild {
  import opened Options
  import opened SlotPaths
  import opened PointeeSets
  import opened RegionStates
  import opened MemoryPrograms
  import opened AbstractMemory
  import opened MemorySoundness
  import opened Fixpoint
  import opened TargetOrders
  import opened BuildRounds
  import opened SettledRounds
  import opened TransferExactness
  import opened RunSoundness
  import opened Graphs
  import opened ReversePostorder

  datatype BuildReason = Complete | BudgetExhausted | StateLimit | FixpointLimit

  const FIXPOINT_ROUNDS: nat := 6

  // ---- Typed builds ---------------------------------------------------------

  ghost predicate BuildOk(fn: Function, build: Build) {
    match build
    case Build(values, entry, out, _) =>
      && ValuesOk(fn, values)
      && (forall b | b in entry :: b < |fn.blocks| && StateOk(fn, entry[b]))
      && (forall b | b in out :: b in entry && StateOk(fn, out[b]))
  }

  ghost predicate InstrOk(fn: Function, instr: Instr) {
    InstrTyped(fn, instr) && forall step | SelectsBy(instr, step) :: Selects(fn, step)
  }

  lemma GiveOk(fn: Function, line: Line, result: nat, pts: Pointees)
    requires ValuesOk(fn, line.values) && NamesType(fn, result) && SetOk(fn, pts, fn.pointee[result])
    ensures ValuesOk(fn, Give(line, result, pts).values) && Give(line, result, pts).state == line.state
  {
    if result in line.values {
      JoinOk(fn, line.values[result], pts, fn.pointee[result]);
    }
  }

  lemma InstrIsOk(fn: Function, b: nat, i: nat)
    requires WellFormed(fn) && At(fn, b, i)
    ensures InstrOk(fn, InstrAt(fn, b, i))
  {
    forall step | SelectsBy(InstrAt(fn, b, i), step) ensures Selects(fn, step) {
      assert At(fn, b, i);
    }
  }

  lemma MergeOk(fn: Function, a: State, b: State, block: int)
    requires StateOk(fn, a) && StateOk(fn, b)
    ensures StateOk(fn, Merge(a, b, {}, block))
  {
    MergeTyped(fn, a, b, block);
    var merged := MergeContents(a, b, {});
    forall t | t in merged
      ensures PathDrawn(fn, t.path) && SetDrawn(fn, merged[t]) && (EndsInStar(t.path) ==> merged[t] != map[])
    {
      MergedEntryOk(fn, a, b, t);
    }
  }

  lemma MergedEntryOk(fn: Function, a: State, b: State, t: Slot)
    requires StateOk(fn, a) && StateOk(fn, b) && (t in a.contents || t in b.contents)
    ensures PathDrawn(fn, t.path) && SetDrawn(fn, MergeContents(a, b, {})[t])
    ensures EndsInStar(t.path) ==> MergeContents(a, b, {})[t] != map[]
  {
    MergedEntryTyped(fn, a, b, t);
    ContentOk(fn, a, t);
    ContentOk(fn, b, t);
    var mine, theirs := EntryOrContent(a, t), EntryOrContent(b, t);
    MergedIs(a, b, t);
    JoinOk(fn, mine, theirs, LeafName(fn, t));
    if EndsInStar(t.path) {
      ReadFine(fn, a, t);
      GainTyped(fn, mine, theirs, LeafName(fn, t));
    }
  }

  lemma MergedIs(a: State, b: State, t: Slot)
    requires t in a.contents || t in b.contents
    ensures MergeContents(a, b, {})[t] == BoundSet(Join(EntryOrContent(a, t), EntryOrContent(b, t)))
  {
    RestaleNothing(EntryOrContent(b, t));
  }

  lemma RestaleNothing(pts: Pointees)
    ensures Restale(pts, {}) == pts
  {
  }

  lemma {:induction false} MergePredsOk(fn: Function, out: map<nat, State>, preds: seq<nat>, block: nat)
    requires forall p | p in out :: StateOk(fn, out[p])
    ensures MergePreds(out, preds, block).Some? ==> StateOk(fn, MergePreds(out, preds, block).value)
    decreases |preds|
  {
    if preds != [] {
      var last := preds[|preds| - 1];
      MergePredsOk(fn, out, preds[..|preds| - 1], block);
      var rest := MergePreds(out, preds[..|preds| - 1], block);
      if last in out && rest.Some? {
        MergeOk(fn, rest.value, out[last], -(block + 1));
      }
    }
  }

  lemma EntryOk(fn: Function, build: Build, block: nat)
    requires BuildOk(fn, build) && block < |fn.blocks|
    ensures EntryOf(fn, build.out, block).Some? ==> StateOk(fn, EntryOf(fn, build.out, block).value)
  {
    MergePredsOk(fn, build.out, fn.blocks[block].preds, block);
  }

  // ---- One pass over a block ------------------------------------------------

  lemma NextLineOk(fn: Function, line: Line, block: nat, index: nat, next: State)
    requires WellFormed(fn) && At(fn, block, index) && ValuesOk(fn, line.values) && StateOk(fn, line.state)
    requires Transfers(line.values, InstrAt(fn, block, index), line.state, next)
    ensures var after := NextLine(line, InstrAt(fn, block, index), next);
            ValuesOk(fn, after.values) && StateOk(fn, next) && SameOutside(fn, block, line.values, after.values)
  {
    var instr := InstrAt(fn, block, index);
    InstrIsOk(fn, block, index);
    TransferOk(fn, line.values, line.state, instr, next);
    if !instr.Store? {
      DefinedOk(fn, line.values, line.state, instr);
      GiveOk(fn, line, instr.result, Defined(line.values, line.state, instr));
      GiveAdmits(line, instr.result, Defined(line.values, line.state, instr));
      assert Defines(fn, block, index, instr.result);
    }
  }

  /** Where no store's targets clash, that is the line of the specification. */
  lemma OneNextLine(fn: Function, line: Line, block: nat, index: nat, next: State)
    requires WellFormed(fn) && At(fn, block, index) && ValuesOk(fn, line.values) && StateOk(fn, line.state)
    requires Transfers(line.values, InstrAt(fn, block, index), line.state, next)
    requires !MixedStore(fn, line.values, InstrAt(fn, block, index))
    ensures NextLine(line, InstrAt(fn, block, index), next) ==
            StepLine(TransferEffect(), line, InstrAt(fn, block, index))
  {
    var instr := InstrAt(fn, block, index);
    EffectIs(line.values, line.state, instr);
    TransferIsNextState(fn, line.values, line.state, instr, next);
  }

  /** Where a pass is before an instruction of the block: states is a replay so
  far under the values so far, which differ from the first in the block's own
  results only. */
  ghost predicate AlongBlock(fn: Function, block: nat, first: Line, states: seq<State>, i: nat, here: Line)
    requires block < |fn.blocks|
  {
    && ValuesOk(fn, here.values) && StateOk(fn, here.state) && SameOutside(fn, block, first.values, here.values)
    && PartReplay(here.values, fn.blocks[block].instrs, states, i)
    && states[0] == first.state && states[i] == here.state
  }

  lemma OutsideOn(fn: Function, block: nat, a: Values, b: Values, c: Values)
    requires SameOutside(fn, block, a, b) && SameOutside(fn, block, b, c)
    ensures SameOutside(fn, block, a, c)
  {
  }

  lemma AlongFollows(fn: Function, block: nat, first: Line, states: seq<State>, i: nat, here: Line, next: State)
    requires WellFormed(fn) && At(fn, block, i) && InOrder(fn.blocks[block].instrs)
    requires AlongBlock(fn, block, first, states, i, here)
    requires Transfers(here.values, InstrAt(fn, block, i), here.state, next)
    ensures AlongBlock(fn, block, first, states + [next], i + 1, NextLine(here, InstrAt(fn, block, i), next))
  {
    NextLineOk(fn, here, block, i, next);
    ReplayGoesOn(here, fn.blocks[block].instrs, states, i, next);
    OutsideOn(fn, block, first.values, here.values, NextLine(here, InstrAt(fn, block, i), next).values);
  }

  /** Some store's recorded targets clash or are unknown. */
  ghost predicate ClashRecorded(fn: Function, values: Values) {
    exists b: nat, i: nat :: At(fn, b, i) && ClashAt(fn, values, InstrAt(fn, b, i))
  }

  predicate ClashAt(fn: Function, values: Values, instr: Instr) {
    instr.Store? && (IsUnknown(PointeesOf(values, instr.address)) || Mixed(fn, PointeesOf(values, instr.address)))
  }

  /** Targets that clash go on clashing as a value's pointees grow. */
  lemma MixedStays(fn: Function, line: Line, result: nat, pts: Pointees)
    requires ClashRecorded(fn, line.values)
    ensures Give(line, result, pts).widened || ClashRecorded(fn, Give(line, result, pts).values)
  {
    var after := Give(line, result, pts);
    var b: nat, i: nat :| At(fn, b, i) && ClashAt(fn, line.values, InstrAt(fn, b, i));
    var address := InstrAt(fn, b, i).address;
    if !after.widened && PointeesOf(after.values, address) != PointeesOf(line.values, address) {
      var before, now := line.values[result], Join(line.values[result], pts);
      assert result in line.values by {
        assert result !in line.values ==> PointeesOf(line.values, address) == map[];
      }
      if !IsUnknown(now) {
        assert before.Keys <= now.Keys;
        var x, y :| x in before && y in before && Clash(fn, x, y);
        assert x in now && y in now;
      }
    }
    assert after.widened || ClashAt(fn, after.values, InstrAt(fn, b, i));
  }

  // ---- What a pass did ------------------------------------------------------

  ghost predicate LineStep(a: Line, instr: Instr, b: Line) {
    Transfers(a.values, instr, a.state, b.state) && b == NextLine(a, instr, b.state)
  }

  /** lines are the build before each of the first count instructions and after
  the last. */
  ghost predicate LineTrace(instrs: seq<Instr>, lines: seq<Line>, count: nat) {
    count <= |instrs| && |lines| == count + 1 && forall m | 0 <= m < count ::
      LineStep(lines[m], instrs[m], lines[m + 1])
  }

  /** A store on the way met targets that clash. */
  ghost predicate MetClash(fn: Function, instrs: seq<Instr>, lines: seq<Line>, count: nat)
    requires count <= |instrs| && count < |lines|
  {
    exists m :: 0 <= m < count && MixedStore(fn, lines[m].values, instrs[m])
  }

  ghost predicate Pass(fn: Function, block: nat, first: Line, end: Line, met: bool)
    requires block < |fn.blocks|
  {
    var instrs := fn.blocks[block].instrs;
    exists lines ::
      LineTrace(instrs, lines, |instrs|) && lines[0] == first && lines[|instrs|] == end &&
      (met <==> MetClash(fn, instrs, lines, |instrs|))
  }

  /** A clash shows in the recorded targets, unless a value was widened; and the
  function indexes arrays both ways. */
  ghost predicate Shows(fn: Function, met: bool, line: Line) {
    met ==> (line.widened || ClashRecorded(fn, line.values)) && !OneIndexing(fn)
  }

  lemma ClashStays(fn: Function, a: Line, instr: Instr, b: Line)
    requires LineStep(a, instr, b) && (a.widened || ClashRecorded(fn, a.values))
    ensures b.widened || ClashRecorded(fn, b.values)
  {
    if !a.widened && !instr.Store? {
      MixedStays(fn, a, instr.result, Defined(a.values, a.state, instr));
    }
  }

  lemma ClashShows(fn: Function, line: Line, block: nat, index: nat)
    requires At(fn, block, index) && ValuesOk(fn, line.values) && MixedStore(fn, line.values, InstrAt(fn, block, index))
    ensures ClashRecorded(fn, line.values) && !OneIndexing(fn)
  {
    MixedIndexesBoth(fn, line.values, InstrAt(fn, block, index));
    assert ClashAt(fn, line.values, InstrAt(fn, block, index));
  }

  /** What holds along a pass that starts typed. */
  ghost predicate PassHolds(fn: Function, block: nat, first: Line, states: seq<State>, i: nat, here: Line, met: bool)
    requires block < |fn.blocks| && i <= |fn.blocks[block].instrs|
  {
    && AlongBlock(fn, block, first, states, i, here) && Shows(fn, met, here)
    && (first.widened || ClashRecorded(fn, first.values) ==> here.widened || ClashRecorded(fn, here.values))
    && (!met ==> here == RunTo(TransferEffect(), first, fn.blocks[block].instrs, i))
  }

  lemma ShowsOn(fn: Function, block: nat, i: nat, here: Line, met: bool, last: Line)
    requires At(fn, block, i) && LineStep(here, InstrAt(fn, block, i), last) && ValuesOk(fn, here.values)
    requires Shows(fn, met, here)
    ensures Shows(fn, met || MixedStore(fn, here.values, InstrAt(fn, block, i)), last)
    ensures here.widened || ClashRecorded(fn, here.values) ==> last.widened || ClashRecorded(fn, last.values)
  {
    var instr := InstrAt(fn, block, i);
    if MixedStore(fn, here.values, instr) {
      ClashShows(fn, here, block, i);
    }
    if here.widened || ClashRecorded(fn, here.values) {
      ClashStays(fn, here, instr, last);
    }
  }

  lemma PassStep(fn: Function, block: nat, first: Line, states: seq<State>, i: nat, here: Line, met: bool, last: Line)
    requires WellFormed(fn) && At(fn, block, i) && InOrder(fn.blocks[block].instrs)
    requires PassHolds(fn, block, first, states, i, here, met) && LineStep(here, InstrAt(fn, block, i), last)
    ensures PassHolds(fn, block, first, states + [last.state], i + 1, last,
                      met || MixedStore(fn, here.values, InstrAt(fn, block, i)))
  {
    AlongFollows(fn, block, first, states, i, here, last.state);
    ShowsOn(fn, block, i, here, met, last);
    if !MixedStore(fn, here.values, InstrAt(fn, block, i)) {
      OneNextLine(fn, here, block, i, last.state);
    }
  }

  lemma {:induction false} PassSoFar(fn: Function, block: nat, lines: seq<Line>, count: nat)
    returns (states: seq<State>)
    requires WellFormed(fn) && block < |fn.blocks| && InOrder(fn.blocks[block].instrs)
    requires LineTrace(fn.blocks[block].instrs, lines, count)
    requires ValuesOk(fn, lines[0].values) && StateOk(fn, lines[0].state)
    ensures PassHolds(fn, block, lines[0], states, count, lines[count],
                      MetClash(fn, fn.blocks[block].instrs, lines, count))
    decreases count
  {
    var instrs := fn.blocks[block].instrs;
    if count == 0 {
      states := [lines[0].state];
    } else {
      var front, here, last := lines[..count], lines[count - 1], lines[count];
      TraceFront(instrs, lines, count);
      var before := PassSoFar(fn, block, front, count - 1);
      states := before + [last.state];
      PassStep(fn, block, lines[0], before, count - 1, here, MetClash(fn, instrs, front, count - 1), last);
      MetBefore(fn, instrs, lines, count);
    }
  }

  lemma TraceFront(instrs: seq<Instr>, lines: seq<Line>, count: nat)
    requires count > 0 && LineTrace(instrs, lines, count)
    ensures LineTrace(instrs, lines[..count], count - 1) && lines[..count][0] == lines[0]
    ensures lines[..count][count - 1] == lines[count - 1] && LineStep(lines[count - 1], instrs[count - 1], lines[count])
  {
    var front := lines[..count];
    forall m | 0 <= m < count - 1 ensures LineStep(front[m], instrs[m], front[m + 1]) {
      assert LineStep(lines[m], instrs[m], lines[m + 1]);
    }
  }

  lemma MetBefore(fn: Function, instrs: seq<Instr>, lines: seq<Line>, count: nat)
    requires 0 < count <= |instrs| && count < |lines|
    ensures MetClash(fn, instrs, lines, count) <==>
            MetClash(fn, instrs, lines[..count], count - 1) ||
              MixedStore(fn, lines[count - 1].values, instrs[count - 1])
  {
    if m :| 0 <= m < count && MixedStore(fn, lines[m].values, instrs[m]) {
      assert m < count - 1 ==> lines[..count][m] == lines[m];
    }
    if m :| 0 <= m < count - 1 && MixedStore(fn, lines[..count][m].values, instrs[m]) {
      assert lines[..count][m] == lines[m];
    }
  }

  /** A pass stays typed, replays the block under the values it ends with, is
  the specified one unless targets clashed, and shows it if they did. */
  lemma PassOk(fn: Function, block: nat, first: Line, end: Line, met: bool)
    requires WellFormed(fn) && block < |fn.blocks| && InOrder(fn.blocks[block].instrs)
    requires ValuesOk(fn, first.values) && StateOk(fn, first.state) && Pass(fn, block, first, end, met)
    ensures ValuesOk(fn, end.values) && StateOk(fn, end.state) && SameOutside(fn, block, first.values, end.values)
    ensures BlockReplayed(end.values, fn.blocks[block].instrs, first.state, end.state)
    ensures !met ==> end == RunTo(TransferEffect(), first, fn.blocks[block].instrs, |fn.blocks[block].instrs|)
    ensures Shows(fn, met, end)
    ensures first.widened || ClashRecorded(fn, first.values) ==> end.widened || ClashRecorded(fn, end.values)
  {
    var instrs := fn.blocks[block].instrs;
    var lines :| LineTrace(instrs, lines, |instrs|) && lines[0] == first && lines[|instrs|] == end &&
                 (met <==> MetClash(fn, instrs, lines, |instrs|));
    var states := PassSoFar(fn, block, lines, |instrs|);
  }

  // ---- What a round did -----------------------------------------------------

  ghost predicate BlockStep(fn: Function, before: Build, block: nat, after: Build, met: bool)
    requires block < |fn.blocks|
  {
    var start := EntryOf(fn, before.out, block);
    if start.None? then after == before && !met
    else
      exists end: Line ::
        Pass(fn, block, Line(before.values, start.value, before.widened), end, met) &&
        after == Build(end.values, before.entry[block := start.value], before.out[block := end.state], end.widened)
  }

  /** builds are the builds before each of the first count blocks and after the
  last; mets tells which blocks met targets that clash. */
  ghost predicate RoundTrace(fn: Function, order: seq<nat>, builds: seq<Build>, mets: seq<bool>, count: nat)
    requires BlocksOf(fn, order)
  {
    && count <= |order| && |builds| == count + 1 && |mets| == count
    && forall j | 0 <= j < count :: BlockStep(fn, builds[j], order[j], builds[j + 1], mets[j])
  }

  predicate Moved(builds: seq<Build>) {
    exists j :: 0 < j < |builds| && builds[j].out != builds[j - 1].out
  }

  ghost predicate RoundDone(fn: Function, order: seq<nat>, before: Build, after: Build, met: bool, changed: bool)
    requires BlocksOf(fn, order)
  {
    exists builds, mets ::
      RoundTrace(fn, order, builds, mets, |order|) && builds[0] == before && builds[|order|] == after &&
      (met <==> true in mets) && (changed <==> Moved(builds))
  }

  /** A typed block step with an entry state: it stays typed and is done. */
  lemma BlockStepOk(fn: Function, order: seq<nat>, k: nat, before: Build, after: Build, met: bool)
    requires WellFormed(fn) && Scheduled(fn, order) && k < |order| && BuildOk(fn, before) &&
             DoneTo(fn, before, order, k)
    requires BlockStep(fn, before, order[k], after, met)
    ensures BuildOk(fn, after) && DoneTo(fn, after, order, k + 1)
    ensures !met ==> after == Process(TransferEffect(), fn, before, order[k])
    ensures Shows(fn, met, LineOf(after))
    ensures before.widened || ClashRecorded(fn, before.values) ==> after.widened || ClashRecorded(fn, after.values)
  {
    var c := order[k];
    HasEntry(fn, order, k, before);
    BlockInOrder(fn, order, k);
    EntryOk(fn, before, c);
    var start := EntryOf(fn, before.out, c).value;
    var first := Line(before.values, start, before.widened);
    var end: Line :| Pass(fn, c, first, end, met) &&
                     after == Build(end.values, before.entry[c := start], before.out[c := end.state], end.widened);
    PassOk(fn, c, first, end, met);
    BlockStepTyped(fn, before, after, c, start, end.state);
    RoundGoesOn(fn, order, k, before, after);
  }

  function LineOf(build: Build): Line {
    Line(build.values, EMPTY_STATE, build.widened)
  }

  lemma BlockStepTyped(fn: Function, before: Build, after: Build, block: nat, start: State, end: State)
    requires block < |fn.blocks| && BuildOk(fn, before) && ValuesOk(fn, after.values)
    requires StateOk(fn, start) && StateOk(fn, end)
    requires after.entry == before.entry[block := start] && after.out == before.out[block := end]
    ensures BuildOk(fn, after)
  {
  }

  /** What holds along a round that starts typed. */
  lemma {:induction false} RoundSoFar(fn: Function, order: seq<nat>, builds: seq<Build>, mets: seq<bool>, count: nat)
    requires WellFormed(fn) && Scheduled(fn, order) && RoundTrace(fn, order, builds, mets, count)
    requires BuildOk(fn, builds[0]) && forall b | b in builds[0].entry :: b in order
    ensures BuildOk(fn, builds[count]) && DoneTo(fn, builds[count], order, count)
    ensures Shows(fn, true in mets, LineOf(builds[count]))
    ensures builds[0].widened || ClashRecorded(fn, builds[0].values) ==>
              builds[count].widened || ClashRecorded(fn, builds[count].values)
    ensures true !in mets ==>
              builds[count] == ProcessTo(TransferEffect(), fn, builds[0], order, count) &&
              (Moved(builds) <==> ExitMoves(fn, builds[0], order, count))
    decreases count
  {
    if count > 0 {
      var here, next, met := builds[count - 1], builds[count], mets[count - 1];
      RoundFront(fn, order, builds, mets, count);
      RoundSoFar(fn, order, builds[..count], mets[..count - 1], count - 1);
      BlockStepOk(fn, order, count - 1, here, next, met);
      ProcessMore(fn, order, builds[0], count, here, next, met);
    }
  }

  lemma RoundFront(fn: Function, order: seq<nat>, builds: seq<Build>, mets: seq<bool>, count: nat)
    requires BlocksOf(fn, order) && count > 0 && RoundTrace(fn, order, builds, mets, count)
    ensures RoundTrace(fn, order, builds[..count], mets[..count - 1], count - 1)
    ensures BlockStep(fn, builds[count - 1], order[count - 1], builds[count], mets[count - 1])
    ensures true in mets <==> true in mets[..count - 1] || mets[count - 1]
    ensures Moved(builds) <==> Moved(builds[..count]) || builds[count].out != builds[count - 1].out
  {
    var front, earlier := builds[..count], mets[..count - 1];
    assert mets == earlier + [mets[count - 1]] && builds == front + [builds[count]];
    forall j | 0 <= j < count - 1 ensures BlockStep(fn, front[j], order[j], front[j + 1], earlier[j]) {
      assert BlockStep(fn, builds[j], order[j], builds[j + 1], mets[j]);
    }
    MovedMore(front, builds[count]);
  }

  lemma ProcessMore(fn: Function, order: seq<nat>, start: Build, count: nat, here: Build, next: Build, met: bool)
    requires BlocksOf(fn, order) && 0 < count <= |order|
    requires !met ==> next == Process(TransferEffect(), fn, here, order[count - 1])
    ensures !met && here == ProcessTo(TransferEffect(), fn, start, order, count - 1) ==>
              next == ProcessTo(TransferEffect(), fn, start, order, count) &&
              (ExitMoves(fn, start, order, count) <==> ExitMoves(fn, start, order, count - 1) || next.out != here.out)
  {
  }

  lemma MovedMore(builds: seq<Build>, last: Build)
    requires builds != []
    ensures Moved(builds + [last]) <==> Moved(builds) || last.out != builds[|builds| - 1].out
  {
    var more, n := builds + [last], |builds|;
    if j :| 0 < j < |more| && more[j].out != more[j - 1].out {
      assert j < n ==> builds[j].out != builds[j - 1].out;
    }
    if j :| 0 < j < n && builds[j].out != builds[j - 1].out {
      assert more[j].out != more[j - 1].out;
    }
    if last.out != builds[n - 1].out {
      assert more[n].out != more[n - 1].out;
    }
  }

  /** What a whole round leaves: every block done; the specified build unless
  targets clashed. */
  lemma RoundOk(fn: Function, order: seq<nat>, before: Build, after: Build, met: bool, changed: bool)
    requires WellFormed(fn) && Scheduled(fn, order) && RoundDone(fn, order, before, after, met, changed)
    requires BuildOk(fn, before) && forall b | b in before.entry :: b in order
    ensures BuildOk(fn, after) && DoneTo(fn, after, order, |order|)
    ensures Shows(fn, met, LineOf(after))
    ensures before.widened || ClashRecorded(fn, before.values) ==> after.widened || ClashRecorded(fn, after.values)
    ensures !met ==>
              after == ProcessTo(TransferEffect(), fn, before, order, |order|) &&
              (changed <==> ExitMoves(fn, before, order, |order|))
  {
    var builds, mets :| RoundTrace(fn, order, builds, mets, |order|) && builds[0] == before &&
      builds[|order|] == after &&
                        (met <==> true in mets) && (changed <==> Moved(builds));
    RoundSoFar(fn, order, builds, mets, |order|);
  }

  // ---- Two rounds -----------------------------------------------------------

  /** What holds between rounds, unless a value was widened: nothing is built
  before the first, and every block is exact after it. */
  ghost predicate RoundState(fn: Function, order: seq<nat>, round: nat, build: Build)
    requires BlocksOf(fn, order)
  {
    && (round == 0 ==> build == NO_BUILD)
    && (round == 1 ==> build == Round(TransferEffect(), fn, NO_BUILD, order))
    && (round > 1 ==> build.widened)
  }

  lemma NormalOk(fn: Function, values: Values)
    requires ValuesOk(fn, values)
    ensures NormalValues(values)
  {
  }

  /** In the second round no block changes unless a value is widened. */
  lemma SecondRoundStill(fn: Function, order: seq<nat>, build: Build, count: nat)
    requires WellFormed(fn) && Scheduled(fn, order) && RoundState(fn, order, 1, build) && count <= |order|
    requires ValuesOk(fn, build.values)
    ensures var next := ProcessTo(TransferEffect(), fn, build, order, count); next.widened || next == build
  {
    TransferIsLocal();
    FirstRoundExact(TransferEffect(), fn, order, |order|);
    NormalOk(fn, build.values);
    SecondRoundUnchanged(TransferEffect(), fn, build, order, count);
  }

  /** Whether some block's exit state changed among the first count of a round. */
  ghost predicate ExitMoves(fn: Function, start: Build, order: seq<nat>, count: nat)
    requires BlocksOf(fn, order) && count <= |order|
  {
    count > 0 &&
    (ExitMoves(fn, start, order, count - 1) ||
     ProcessTo(TransferEffect(), fn, start, order, count).out !=
       ProcessTo(TransferEffect(), fn, start, order, count - 1).out)
  }

  /** The first round always changes some exit state. */
  lemma FirstRoundMoves(fn: Function, order: seq<nat>)
    requires WellFormed(fn) && Scheduled(fn, order)
    ensures ExitMoves(fn, NO_BUILD, order, |order|)
  {
    TransferIsLocal();
    FirstRoundExact(TransferEffect(), fn, order, 0);
    FirstRoundExact(TransferEffect(), fn, order, 1);
    assert order[0] in order[..1];
    MovesOn(fn, NO_BUILD, order, 1, |order|);
  }

  lemma {:induction false} MovesOn(fn: Function, start: Build, order: seq<nat>, count: nat, more: nat)
    requires BlocksOf(fn, order) && count <= more <= |order| && ExitMoves(fn, start, order, count)
    ensures ExitMoves(fn, start, order, more)
    decreases more
  {
    if count < more {
      MovesOn(fn, start, order, count, more - 1);
    }
  }

  /** Every prefix of the round leaves the build as it was, or widens a value. */
  ghost predicate Still(fn: Function, order: seq<nat>, start: Build)
    requires BlocksOf(fn, order)
  {
    forall k: nat | k <= |order| ::
      ProcessTo(TransferEffect(), fn, start, order, k).widened ||
        ProcessTo(TransferEffect(), fn, start, order, k) == start
  }

  lemma SecondRoundIsStill(fn: Function, order: seq<nat>, start: Build)
    requires WellFormed(fn) && Scheduled(fn, order) && RoundState(fn, order, 1, start) && ValuesOk(fn, start.values)
    ensures Still(fn, order, start)
  {
    forall k: nat | k <= |order|
      ensures ProcessTo(TransferEffect(), fn, start, order, k).widened ||
              ProcessTo(TransferEffect(), fn, start, order, k) == start
    {
      SecondRoundStill(fn, order, start, k);
    }
  }

  /** A still round moves no exit state, unless it widens a value. */
  lemma {:induction false} StillRoundNoMoves(fn: Function, order: seq<nat>, start: Build, count: nat)
    requires BlocksOf(fn, order) && Still(fn, order, start) && count <= |order|
    requires !ProcessTo(TransferEffect(), fn, start, order, count).widened
    ensures !ExitMoves(fn, start, order, count)
  {
    if count > 0 {
      var before := ProcessTo(TransferEffect(), fn, start, order, count - 1);
      if before.widened {
        WidenedStays(TransferEffect(), fn, before, order[count - 1]);
      }
      StillRoundNoMoves(fn, order, start, count - 1);
    }
  }

  lemma {:induction false} WidenedRound(fn: Function, build: Build, order: seq<nat>, count: nat)
    requires BlocksOf(fn, order) && count <= |order| && build.widened
    ensures ProcessTo(TransferEffect(), fn, build, order, count).widened
  {
    if count > 0 {
      WidenedRound(fn, build, order, count - 1);
      WidenedStays(TransferEffect(), fn, ProcessTo(TransferEffect(), fn, build, order, count - 1), order[count - 1]);
    }
  }

  lemma TypedGraph(fn: Function, build: Build)
    requires BuildOk(fn, build)
    ensures GraphTyped(fn, GraphOf(build))
  {
  }

  /** What a whole round leaves: the first changes something, and the second
  nothing, unless it widens. */
  lemma RoundEnds(fn: Function, order: seq<nat>, round: nat, start: Build, end: Build, changed: bool)
    requires WellFormed(fn) && Scheduled(fn, order) && RoundState(fn, order, round, start) && ValuesOk(fn, start.values)
    requires end == ProcessTo(TransferEffect(), fn, start, order, |order|)
    requires changed <==> ExitMoves(fn, start, order, |order|)
    ensures round == 0 || end.widened ==> RoundState(fn, order, round + 1, end)
    ensures round == 0 ==> changed
    ensures round > 1 ==> end.widened
    ensures round == 1 && !end.widened ==> end == start && !changed
  {
    if round == 0 {
      FirstRoundMoves(fn, order);
    } else if round == 1 {
      SecondRoundStill(fn, order, start, |order|);
      if !end.widened {
        SecondRoundIsStill(fn, order, start);
        StillRoundNoMoves(fn, order, start, |order|);
      }
    } else {
      WidenedRound(fn, start, order, |order|);
    }
  }

  // ---- Several rounds -------------------------------------------------------

  /** What several rounds leave that all changed something; met tells whether
  targets clashed in one of them. */
  ghost predicate RoundsLeave(fn: Function, order: seq<nat>, count: nat, build: Build, met: bool)
    requires BlocksOf(fn, order)
  {
    && BuildOk(fn, build) && (forall b | b in build.entry :: b in order)
    && Shows(fn, met, LineOf(build)) && (met || RoundState(fn, order, count, build))
  }

  /** One more round, from what the earlier ones leave. */
  lemma RoundMore(fn: Function, order: seq<nat>, count: nat, before: Build, metBefore: bool, after: Build, metNow: bool,
                  changed: bool)
    requires WellFormed(fn) && Scheduled(fn, order) && RoundsLeave(fn, order, count, before, metBefore)
    requires RoundDone(fn, order, before, after, metNow, changed)
    ensures BuildOk(fn, after) && DoneTo(fn, after, order, |order|) && Shows(fn, metBefore || metNow, LineOf(after))
    ensures !metBefore && !metNow && (changed || after.widened) ==> RoundState(fn, order, count + 1, after)
    ensures !metBefore && !metNow && !changed ==> after.widened || count == 1
  {
    RoundOk(fn, order, before, after, metNow, changed);
    if !metBefore && !metNow {
      RoundEnds(fn, order, count, before, after, changed);
    }
  }

  /** What a build that was not stopped leaves. */
  ghost predicate Built(fn: Function, order: seq<nat>, reason: BuildReason, rounds: nat, build: Build, mixed: bool) {
    && Shows(fn, mixed, LineOf(build))
    && (build.widened || mixed || (reason.Complete? && rounds <= 2 && Precise(fn, GraphOf(build))))
    && (reason.Complete? ==>
          Settled(fn, GraphOf(build)) && GraphTyped(fn, GraphOf(build)) && forall b :: b in build.entry <==> b in order)
  }

  /** A round that changes nothing ends the build: it is settled and typed, and
  it is the second one unless something was widened or targets clashed. */
  lemma LastRound(fn: Function, order: seq<nat>, count: nat, before: Build, metBefore: bool, after: Build, metNow: bool)
    requires WellFormed(fn) && Scheduled(fn, order) && RoundsLeave(fn, order, count, before, metBefore)
    requires RoundDone(fn, order, before, after, metNow, false)
    ensures Built(fn, order, Complete, count + 1, after, metBefore || metNow)
  {
    RoundMore(fn, order, count, before, metBefore, after, metNow, false);
    RoundSettles(fn, order, after);
    TypedGraph(fn, after);
    if !after.widened && !metBefore && !metNow {
      StillIsPrecise(fn, order, before, after, metNow);
    }
  }

  /** A round over the first round's build that changes nothing leaves exactly
  what the instructions define. */
  lemma StillIsPrecise(fn: Function, order: seq<nat>, before: Build, after: Build, met: bool)
    requires WellFormed(fn) && Scheduled(fn, order) && RoundsLeave(fn, order, 1, before, false)
    requires RoundDone(fn, order, before, after, met, false) && !met && !after.widened
    ensures Precise(fn, GraphOf(after))
  {
    RoundOk(fn, order, before, after, met, false);
    RoundEnds(fn, order, 1, before, after, false);
    TransferIsLocal();
    FirstRoundExact(TransferEffect(), fn, order, |order|);
    ExactIsPrecise(fn, order, after);
  }

  /** Either way a round that was not stopped goes. */
  lemma RoundLeft(fn: Function, order: seq<nat>, rounds: nat, before: Build, metBefore: bool, after: Build,
                  metNow: bool, changed: bool)
    requires WellFormed(fn) && Scheduled(fn, order) && RoundsLeave(fn, order, rounds, before, metBefore)
    requires RoundDone(fn, order, before, after, metNow, changed)
    ensures changed ==> RoundsLeave(fn, order, rounds + 1, after, metBefore || metNow)
    ensures !changed ==> Built(fn, order, Complete, rounds + 1, after, metBefore || metNow)
  {
    if changed {
      RoundMore(fn, order, rounds, before, metBefore, after, metNow, true);
    } else {
      LastRound(fn, order, rounds, before, metBefore, after, metNow);
    }
  }

  lemma LimitReached(fn: Function, order: seq<nat>, rounds: nat, build: Build, met: bool)
    requires BlocksOf(fn, order) && rounds > 1 && RoundsLeave(fn, order, rounds, build, met)
    ensures Built(fn, order, FixpointLimit, rounds, build, met)
  {
  }

  // ---- The builder ----------------------------------------------------------

  lemma {:induction false} StoreEachThen(state: State, done: seq<Slot>, t: Slot, value: Pointees, strong: bool)
    ensures var before := StoreEach(state, done, value, strong);
            StoreEach(state, done + [t], value, strong) ==
            if t.region == NilRegion then before else StoreSlot(before, t, value, strong)
    decreases |done|
  {
    if done == [] {
      assert done + [t] == [t] && [t][1..] == [];
    } else {
      assert (done + [t])[1..] == done[1..] + [t];
      StoreEachThen(if done[0].region == NilRegion then state else StoreSlot(state, done[0], value, strong),
                    done[1..], t, value, strong);
    }
  }

  /** What a budget has left when it pays as far as it can. */
  function Left(budget: nat, cost: nat): nat {
    if cost <= budget then budget - cost else 0
  }

  /** The entries copied to process a block: its entry state is kept and copied. */
  function CopyCost(fn: Function, sizeOf: State -> nat, exit: map<nat, State>, block: nat): nat
    requires block < |fn.blocks|
  {
    var start := EntryOf(fn, exit, block);
    if start.None? then 0 else 2 * sizeOf(start.value)
  }

  function RunCost(fn: Function, exit: map<nat, State>, block: nat): nat
    requires block < |fn.blocks|
  {
    if EntryOf(fn, exit, block).None? then 0 else |fn.blocks[block].instrs|
  }

  /** The instructions of the first count blocks of the order. */
  function InstrCount(fn: Function, order: seq<nat>, count: nat): nat
    requires BlocksOf(fn, order) && count <= |order|
  {
    if count == 0 then 0 else InstrCount(fn, order, count - 1) + |fn.blocks[order[count - 1]].instrs|
  }

  lemma {:induction false} CountGrows(fn: Function, order: seq<nat>, count: nat)
    requires BlocksOf(fn, order) && count <= |order|
    ensures InstrCount(fn, order, count) <= InstrCount(fn, order, |order|)
    decreases |order| - count
  {
    if count < |order| {
      CountGrows(fn, order, count + 1);
    }
  }

  /** The entries are no more than so many copies of a state of the function
  can have. */
  ghost predicate CopiesHold(fn: Function, sizeOf: State -> nat, copies: nat, entries: nat) {
    forall n: nat | SizesWithin(fn, sizeOf, n) :: entries <= n * copies
  }

  ghost predicate SizesWithin(fn: Function, sizeOf: State -> nat, n: nat) {
    forall state | StateOk(fn, state) :: sizeOf(state) <= n
  }

  lemma CopiesAdd(fn: Function, sizeOf: State -> nat, a: nat, x: nat, b: nat, y: nat)
    requires CopiesHold(fn, sizeOf, a, x) && CopiesHold(fn, sizeOf, b, y)
    ensures CopiesHold(fn, sizeOf, a + b, x + y)
  {
    forall n: nat | SizesWithin(fn, sizeOf, n) ensures x + y <= n * (a + b) {
      assert n * (a + b) == n * a + n * b;
    }
  }

  lemma CopiesNone(fn: Function, sizeOf: State -> nat, a: nat)
    ensures CopiesHold(fn, sizeOf, a, 0)
  {
  }

  lemma CopiesGrow(fn: Function, sizeOf: State -> nat, a: nat, b: nat)
    requires a <= b
    ensures forall x: nat | CopiesHold(fn, sizeOf, a, x) :: CopiesHold(fn, sizeOf, b, x)
  {
    forall n: nat ensures n * a <= n * b {
    }
  }

  /** What the next block of a round costs. */
  lemma RoundCosts(fn: Function, sizeOf: State -> nat, order: seq<nat>, builds: seq<Build>, mets: seq<bool>, k: nat)
    requires WellFormed(fn) && Scheduled(fn, order) && k < |order| && RoundTrace(fn, order, builds, mets, k)
    requires BuildOk(fn, builds[0]) && forall b | b in builds[0].entry :: b in order
    ensures RunCost(fn, builds[k].out, order[k]) == |fn.blocks[order[k]].instrs|
    ensures CopiesHold(fn, sizeOf, 2, CopyCost(fn, sizeOf, builds[k].out, order[k]))
  {
    RoundSoFar(fn, order, builds, mets, k);
    BlockCosts(fn, sizeOf, order, k, builds[k]);
  }

  lemma CountNext(fn: Function, order: seq<nat>, k: nat)
    requires BlocksOf(fn, order) && k < |order|
    ensures InstrCount(fn, order, k + 1) == InstrCount(fn, order, k) + |fn.blocks[order[k]].instrs|
    ensures InstrCount(fn, order, k + 1) <= InstrCount(fn, order, |order|)
  {
    CountGrows(fn, order, k + 1);
  }

  /** What the first k blocks of a round have cost. */
  ghost predicate RoundPaid(fn: Function, sizeOf: State -> nat, order: seq<nat>, k: nat, ran: int, copied: int)
    requires BlocksOf(fn, order) && k <= |order|
  {
    ran == InstrCount(fn, order, k) && 0 <= copied && CopiesHold(fn, sizeOf, 2 * k, copied)
  }

  lemma RoundPays(fn: Function, sizeOf: State -> nat, order: seq<nat>, builds: seq<Build>, mets: seq<bool>, k: nat,
                  ran: int, copied: int)
    requires WellFormed(fn) && Scheduled(fn, order) && k < |order| && RoundTrace(fn, order, builds, mets, k)
    requires BuildOk(fn, builds[0]) && forall b | b in builds[0].entry :: b in order
    requires RoundPaid(fn, sizeOf, order, k, ran, copied)
    ensures var run, copy := RunCost(fn, builds[k].out, order[k]), CopyCost(fn, sizeOf, builds[k].out, order[k]);
            && RoundPaid(fn, sizeOf, order, k + 1, ran + run, copied + copy)
            && ran + run <= InstrCount(fn, order, |order|) && CopiesHold(fn, sizeOf, 2 * |order|, copied + copy)
  {
    RoundCosts(fn, sizeOf, order, builds, mets, k);
    PaidMore(fn, sizeOf, order, k, ran, copied, CopyCost(fn, sizeOf, builds[k].out, order[k]));
  }

  lemma PaidMore(fn: Function, sizeOf: State -> nat, order: seq<nat>, k: nat, ran: int, copied: int, copy: nat)
    requires BlocksOf(fn, order) && k < |order| && RoundPaid(fn, sizeOf, order, k, ran, copied)
    requires CopiesHold(fn, sizeOf, 2, copy)
    ensures var run := |fn.blocks[order[k]].instrs|;
            && RoundPaid(fn, sizeOf, order, k + 1, ran + run, copied + copy)
            && ran + run <= InstrCount(fn, order, |order|) && CopiesHold(fn, sizeOf, 2 * |order|, copied + copy)
  {
    CountNext(fn, order, k);
    CopiesAdd(fn, sizeOf, 2 * k, copied, 2, copy);
    CopiesGrow(fn, sizeOf, 2 * (k + 1), 2 * |order|);
  }

  lemma TraceMore(fn: Function, order: seq<nat>, builds: seq<Build>, mets: seq<bool>, k: nat, next: Build, met: bool)
    requires BlocksOf(fn, order) && k < |order| && RoundTrace(fn, order, builds, mets, k)
    requires BlockStep(fn, builds[k], order[k], next, met)
    ensures RoundTrace(fn, order, builds + [next], mets + [met], k + 1)
    ensures true in mets + [met] <==> true in mets || met
  {
    var more, all := builds + [next], mets + [met];
    forall j | 0 <= j < k + 1 ensures BlockStep(fn, more[j], order[j], more[j + 1], all[j]) {
      if j < k {
        assert BlockStep(fn, builds[j], order[j], builds[j + 1], mets[j]);
      }
    }
    assert all[k] == met;
  }

  lemma BlockCosts(fn: Function, sizeOf: State -> nat, order: seq<nat>, k: nat, build: Build)
    requires WellFormed(fn) && Scheduled(fn, order) && k < |order| && BuildOk(fn, build) && DoneTo(fn, build, order, k)
    ensures RunCost(fn, build.out, order[k]) == |fn.blocks[order[k]].instrs|
    ensures CopiesHold(fn, sizeOf, 2, CopyCost(fn, sizeOf, build.out, order[k]))
  {
    HasEntry(fn, order, k, build);
    EntryOk(fn, build, order[k]);
  }

  /** The cost of so many rounds. */
  function Times(rounds: nat, cost: nat): nat {
    if rounds == 0 then 0 else Times(rounds - 1, cost) + cost
  }

  lemma {:induction false} MoreRounds(rounds: nat, more: nat, cost: nat)
    requires rounds <= more
    ensures Times(rounds, cost) <= Times(more, cost)
    decreases more
  {
    if rounds < more {
      MoreRounds(rounds, more - 1, cost);
    }
  }

  /** What whole rounds have cost. */
  ghost predicate RoundsPaid(fn: Function, sizeOf: State -> nat, order: seq<nat>, rounds: nat, ran: int, copied: int)
    requires BlocksOf(fn, order)
  {
    && ran == Times(rounds, InstrCount(fn, order, |order|))
    && 0 <= copied && CopiesHold(fn, sizeOf, Times(rounds, 2 * |order|), copied)
  }

  lemma NothingPaid(fn: Function, sizeOf: State -> nat, order: seq<nat>)
    requires BlocksOf(fn, order)
    ensures RoundsPaid(fn, sizeOf, order, 0, 0, 0)
  {
    CopiesNone(fn, sizeOf, 0);
  }

  /** One more round, or the copies it made before it was stopped. */
  lemma RoundsPay(fn: Function, sizeOf: State -> nat, order: seq<nat>, rounds: nat, ran: int, copied: int, more: int)
    requires BlocksOf(fn, order) && rounds < FIXPOINT_ROUNDS && RoundsPaid(fn, sizeOf, order, rounds, ran, copied)
    requires 0 <= more && CopiesHold(fn, sizeOf, 2 * |order|, more)
    ensures RoundsPaid(fn, sizeOf, order, rounds + 1, ran + InstrCount(fn, order, |order|), copied + more)
    ensures ran + InstrCount(fn, order, |order|) <= Times(FIXPOINT_ROUNDS, InstrCount(fn, order, |order|))
    ensures CopiesHold(fn, sizeOf, Times(FIXPOINT_ROUNDS, 2 * |order|), copied + more)
  {
    var twice, count := 2 * |order|, InstrCount(fn, order, |order|);
    CopiesAdd(fn, sizeOf, Times(rounds, twice), copied, twice, more);
    MoreRounds(rounds + 1, FIXPOINT_ROUNDS, twice);
    MoreRounds(rounds + 1, FIXPOINT_ROUNDS, count);
    CopiesGrow(fn, sizeOf, Times(rounds + 1, twice), Times(FIXPOINT_ROUNDS, twice));
  }

  /** A whole round pays for its instructions and two copies of each entry state;
  one that is stopped could not. */
  ghost predicate RoundBilled(fn: Function, sizeOf: State -> nat, order: seq<nat>, stopped: Option<BuildReason>,
                              budget: nat, stateBudget: nat, budgetLeft: nat, statesLeft: nat)
    requires BlocksOf(fn, order)
  {
    match stopped
    case None =>
      && budget == budgetLeft + InstrCount(fn, order, |order|)
      && statesLeft <= stateBudget && CopiesHold(fn, sizeOf, 2 * |order|, stateBudget - statesLeft)
    case Some(BudgetExhausted) => budgetLeft == 0 && budget < InstrCount(fn, order, |order|)
    case Some(StateLimit) => statesLeft == 0 && CopiesHold(fn, sizeOf, 2 * |order|, stateBudget + 1)
    case _ => false
  }

  /** A budget that stopped the build is spent, and was too small for all the
  rounds there can be. */
  ghost predicate StoppedShort(fn: Function, sizeOf: State -> nat, order: seq<nat>, reason: BuildReason, budget: nat,
                               stateBudget: nat, budgetLeft: nat, statesLeft: nat)
    requires BlocksOf(fn, order)
  {
    match reason
    case BudgetExhausted => budgetLeft == 0 && budget < Times(FIXPOINT_ROUNDS, InstrCount(fn, order, |order|))
    case StateLimit =>
      statesLeft == 0 && CopiesHold(fn, sizeOf, Times(FIXPOINT_ROUNDS, 2 * |order|), stateBudget + 1)
    case _ => true
  }

  /** From the bill of one more round to that of the build. */
  lemma RoundAdds(fn: Function, sizeOf: State -> nat, order: seq<nat>, rounds: nat, stopped: Option<BuildReason>,
                  budget: nat, stateBudget: nat, budgetThen: nat, statesThen: nat, budgetLeft: nat, statesLeft: nat)
    requires BlocksOf(fn, order) && rounds < FIXPOINT_ROUNDS
    requires RoundsPaid(fn, sizeOf, order, rounds, budget - budgetThen, stateBudget - statesThen)
    requires RoundBilled(fn, sizeOf, order, stopped, budgetThen, statesThen, budgetLeft, statesLeft)
    ensures stopped.None? ==> RoundsPaid(fn, sizeOf, order, rounds + 1, budget - budgetLeft, stateBudget - statesLeft)
    ensures stopped.Some? ==>
              (stopped.value.BudgetExhausted? || stopped.value.StateLimit?) &&
              StoppedShort(fn, sizeOf, order, stopped.value, budget, stateBudget, budgetLeft, statesLeft)
  {
    var ran, copied := budget - budgetThen, stateBudget - statesThen;
    if stopped.None? {
      RoundsPay(fn, sizeOf, order, rounds, ran, copied, statesThen - statesLeft);
    } else if stopped.value.StateLimit? {
      RoundsPay(fn, sizeOf, order, rounds, ran, copied, statesThen + 1);
    } else {
      CopiesNone(fn, sizeOf, 2 * |order|);
      RoundsPay(fn, sizeOf, order, rounds, ran, copied, 0);
    }
  }

  /** The points-to graph as its builder mutates it. budget is spent by
  instructions and stateBudget by the states kept, sizeOf being how the entries
  of one are counted; mixed records that a store met targets that clash. */
  class RegionGraph {
    const fn: Function
    const sizeOf: State -> nat
    var values: Values
    var entry: map<nat, State>
    var exit: map<nat, State>
    var widened: bool
    var budget: nat
    var stateBudget: nat
    ghost var mixed: bool

    constructor (fn: Function, budget: nat, stateBudget: nat, sizeOf: State -> nat)
      ensures this.fn == fn && this.sizeOf == sizeOf && this.budget == budget && this.stateBudget == stateBudget
      ensures Current() == NO_BUILD && !mixed
    {
      this.fn, this.sizeOf, this.budget, this.stateBudget := fn, sizeOf, budget, stateBudget;
      values, entry, exit, widened, mixed := map[], map[], map[], false, false;
    }

    ghost function Current(): Build
      reads this
    {
      Build(values, entry, exit, widened)
    }

    /** Records a value's pointees. */
    method SetValue(value: nat, pts: Pointees)
      modifies this`values, this`widened
      ensures forall state :: Line(values, state, widened) == Give(old(Line(values, state, widened)), value, pts)
    {
      if value !in values {
        values := values[value := pts];
      } else {
        var grown := Join(values[value], pts);
        if |grown| > POINTEE_LIMIT {
          widened := true;
          values := values[value := map[UNKNOWN := false]];
        } else {
          values := values[value := grown];
        }
      }
    }

    /** Stores into every target, visiting them in an arbitrary order. */
    method StoreInto(state: State, targets: Pointees, value: Pointees, strong: bool) returns (next: State)
      ensures exists order :: ListsSlots(order, targets) && next == StoreEach(state, order, value, strong)
    {
      next := state;
      ghost var order: seq<Slot> := [];
      var remaining := targets.Keys;
      while remaining != {}
        invariant remaining <= targets.Keys && forall t :: t in order <==> t in targets && t !in remaining
        invariant forall i, j | 0 <= i < j < |order| :: order[i] != order[j]
        invariant next == StoreEach(state, order, value, strong)
        decreases remaining
      {
        var target :| target in remaining;
        StoreEachThen(state, order, target, value, strong);
        if target.region != NilRegion {
          next := StoreSlot(next, target, value, strong);
        }
        order := order + [target];
        remaining := remaining - {target};
      }
      assert ListsSlots(order, targets);
    }

    /** Moves the state across one instruction and records what it defines. */
    method Transfer(state: State, instr: Instr) returns (next: State)
      modifies this`values, this`widened, this`mixed
      ensures Transfers(old(values), instr, state, next)
      ensures Line(values, next, widened) == NextLine(old(Line(values, state, widened)), instr, next)
      ensures mixed <==> old(mixed) || MixedStore(fn, old(values), instr)
    {
      next := state;
      mixed := mixed || MixedStore(fn, values, instr);
      if instr.Store? {
        var targets, value := PointeesOf(values, instr.address), PointeesOf(values, instr.written);
        if !IsUnknown(targets) {
          next := StoreInto(state, targets, value, StrongStore(targets));
        }
      } else {
        SetValue(instr.result, Defined(values, state, instr));
        if instr.Alloc? {
          next := ClearSubtree(state, Slot(Site(instr.result), []));
        }
      }
    }

    /** Transforms one block's entry state, or stops when the budget runs out. */
    method TransferBlock(block: nat, start: State) returns (end: State, complete: bool, ghost met: bool)
      requires block < |fn.blocks|
      modifies this`values, this`widened, this`mixed, this`budget
      ensures complete ==> Pass(fn, block, old(Line(values, start, widened)), Line(values, end, widened), met)
      ensures complete ==> (mixed <==> old(mixed) || met)
      ensures complete <==> |fn.blocks[block].instrs| <= old(budget)
      ensures budget == Left(old(budget), |fn.blocks[block].instrs|)
    {
      end, complete, met := start, true, false;
      var instrs := fn.blocks[block].instrs;
      ghost var lines := [Line(values, start, widened)];
      var i := 0;
      while i < |instrs|
        invariant 0 <= i <= |instrs| && LineTrace(instrs, lines, i)
        invariant lines[0] == old(Line(values, start, widened)) && lines[i] == Line(values, end, widened)
        invariant (met <==> MetClash(fn, instrs, lines, i)) && (mixed <==> old(mixed) || met)
        invariant i <= old(budget) && budget == old(budget) - i
      {
        if budget == 0 {
          return end, false, met;
        }
        budget := budget - 1;
        met := met || MixedStore(fn, values, instrs[i]);
        end := Transfer(end, instrs[i]);
        lines := lines + [Line(values, end, widened)];
        i := i + 1;
        assert lines[..i] == lines[..|lines| - 1];
        MetBefore(fn, instrs, lines, i);
      }
    }

    /** Spends the state budget for the entries copied. */
    method ChargeStates(entries: nat) returns (ok: bool)
      modifies this`stateBudget
      ensures ok <==> entries <= old(stateBudget)
      ensures stateBudget == Left(old(stateBudget), entries)
    {
      ok := entries <= stateBudget;
      stateBudget := if ok then stateBudget - entries else 0;
    }

    /** Processes one block: merges its predecessors, charges for the entry state
    and its copy, transforms the copy, and reports whether the exit state
    changed, or what stopped it. */
    method ProcessBlock(block: nat) returns (changed: bool, stopped: Option<BuildReason>, ghost met: bool)
      requires block < |fn.blocks|
      modifies this
      ensures stopped.None? ==> BlockStep(fn, old(Current()), block, Current(), met) && (mixed <==> old(mixed) || met)
      ensures stopped.None? ==> (changed <==> exit != old(exit))
      ensures var copied, run := CopyCost(fn, sizeOf, old(exit), block), RunCost(fn, old(exit), block);
              && stateBudget == Left(old(stateBudget), copied)
              && budget == (if copied <= old(stateBudget) then Left(old(budget), run) else old(budget))
              && stopped == (if copied > old(stateBudget) then Some(StateLimit)
                             else if run > old(budget) then Some(BudgetExhausted) else None)
    {
      changed, stopped, met := false, None, false;
      var start := EntryOf(fn, exit, block);
      if start.Some? {
        entry := entry[block := start.value];
        var charged := ChargeStates(2 * sizeOf(start.value));
        if !charged {
          return false, Some(StateLimit), met;
        }
        var end, complete;
        end, complete, met := TransferBlock(block, start.value);
        if !complete {
          return false, Some(BudgetExhausted), met;
        }
        changed := block !in exit || exit[block] != end;
        ExitMoved(exit, block, end);
        exit := exit[block := end];
      }
    }

    /** One round over the blocks, reporting whether any exit state changed. */
    method RunRound(order: seq<nat>) returns (changed: bool, stopped: Option<BuildReason>, ghost met: bool)
      requires WellFormed(fn) && Scheduled(fn, order)
      requires BuildOk(fn, Current()) && forall b | b in entry :: b in order
      modifies this
      ensures stopped.None? ==> RoundDone(fn, order, old(Current()), Current(), met, changed)
      ensures stopped.None? ==> (mixed <==> old(mixed) || met)
      ensures RoundBilled(fn, sizeOf, order, stopped, old(budget), old(stateBudget), budget, stateBudget)
    {
      changed, stopped, met := false, None, false;
      ghost var builds, mets: seq<bool> := [Current()], [];
      var k := 0;
      while k < |order|
        invariant 0 <= k <= |order| && stopped.None? && RoundTrace(fn, order, builds, mets, k)
        invariant builds[0] == old(Current()) && builds[k] == Current()
        invariant (met <==> true in mets) && (mixed <==> old(mixed) || met) && (changed <==> Moved(builds))
        invariant RoundPaid(fn, sizeOf, order, k, old(budget) - budget, old(stateBudget) - stateBudget)
      {
        RoundPays(fn, sizeOf, order, builds, mets, k, old(budget) - budget, old(stateBudget) - stateBudget);
        var blockChanged;
        ghost var blockMet;
        blockChanged, stopped, blockMet := ProcessBlock(order[k]);
        if stopped.Some? {
          return;
        }
        changed, met := changed || blockChanged, met || blockMet;
        MovedMore(builds, Current());
        TraceMore(fn, order, builds, mets, k, Current(), blockMet);
        builds, mets := builds + [Current()], mets + [blockMet];
        k := k + 1;
      }
    }

    /** One more round, and whether it ends the build; budgetFirst and statesFirst
    are what the build began with. */
    method AnotherRound(order: seq<nat>, rounds: nat, ghost budgetFirst: nat, ghost statesFirst: nat)
      returns (ended: Option<BuildReason>)
      requires WellFormed(fn) && Scheduled(fn, order) && rounds < FIXPOINT_ROUNDS
      requires RoundsLeave(fn, order, rounds, Current(), mixed)
      requires RoundsPaid(fn, sizeOf, order, rounds, budgetFirst - budget, statesFirst - stateBudget)
      modifies this
      ensures match ended
              case None =>
                RoundsLeave(fn, order, rounds + 1, Current(), mixed) &&
                RoundsPaid(fn, sizeOf, order, rounds + 1, budgetFirst - budget, statesFirst - stateBudget)
              case Some(reason) =>
                StoppedShort(fn, sizeOf, order, reason, budgetFirst, statesFirst, budget, stateBudget) &&
                (reason.BudgetExhausted? || reason.StateLimit? ||
                 (reason.Complete? && Built(fn, order, reason, rounds + 1, Current(), mixed)))
    {
      ghost var start, was, before, held := Current(), mixed, budget, stateBudget;
      var changed, stopped;
      ghost var met;
      changed, stopped, met := RunRound(order);
      RoundAdds(fn, sizeOf, order, rounds, stopped, budgetFirst, statesFirst, before, held, budget, stateBudget);
      if stopped.Some? {
        return stopped;
      }
      RoundLeft(fn, order, rounds, start, was, Current(), met, changed);
      ended := if changed then None else Some(Complete);
    }

    /** Runs the rounds until no exit state changes. A build that completes is
    settled and typed, whatever order its stores visited their targets in and
    whatever was widened. Unless something was widened or a store's targets
    clash, an acyclic function completes in the second round, and what is
    recorded is exactly what the instructions define. */
    method Fixpoint(order: seq<nat>) returns (reason: BuildReason, rounds: nat)
      requires WellFormed(fn) && Scheduled(fn, order) && Current() == NO_BUILD && !mixed
      modifies this
      ensures reason.BudgetExhausted? || reason.StateLimit? || Built(fn, order, reason, rounds, Current(), mixed)
      ensures StoppedShort(fn, sizeOf, order, reason, old(budget), old(stateBudget), budget, stateBudget)
    {
      rounds := 0;
      NothingPaid(fn, sizeOf, order);
      while rounds < FIXPOINT_ROUNDS
        invariant rounds <= FIXPOINT_ROUNDS && RoundsLeave(fn, order, rounds, Current(), mixed)
        invariant RoundsPaid(fn, sizeOf, order, rounds, old(budget) - budget, old(stateBudget) - stateBudget)
        decreases FIXPOINT_ROUNDS - rounds
      {
        var ended := AnotherRound(order, rounds, old(budget), old(stateBudget));
        if ended.Some? {
          return ended.value, if ended.value.Complete? then rounds + 1 else rounds;
        }
        rounds := rounds + 1;
      }
      LimitReached(fn, order, rounds, Current(), mixed);
      reason := FixpointLimit;
    }
  }

  lemma ExitMoved(exit: map<nat, State>, block: nat, end: State)
    ensures exit[block := end] != exit <==> block !in exit || exit[block] != end
  {
    assert block in exit && exit[block] == end ==> exit[block := end] == exit;
    assert exit[block := end][block] == end;
  }
}
