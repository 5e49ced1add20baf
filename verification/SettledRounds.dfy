/** Why a whole round over an acyclic function leaves a fixpoint, whatever order
each store visited its targets in and whatever was recorded before. */
module SettledRounds {
  import opened Options
  import opened SlotPaths
  import opened PointeeSets
  import opened RegionStates
  import opened MemoryPrograms
  import opened AbstractMemory
  import opened Fixpoint
  import opened BuildRounds

  // ---- Inside one block -----------------------------------------------------

  /** The recorded pointees admit what the instruction defines. */
  predicate Kept(values: Values, instr: Instr, state: State) {
    Result(instr).Some? ==>
      Result(instr).value in values && Admits(values[Result(instr).value], Defined(values, state, instr))
  }

  /** states replays the first count instructions under the values. */
  ghost predicate PartReplay(values: Values, instrs: seq<Instr>, states: seq<State>, count: nat) {
    && count <= |instrs| && |states| == count + 1
    && forall m | 0 <= m < count ::
         Transfers(values, instrs[m], states[m], states[m + 1]) && Kept(values, instrs[m], states[m])
  }

  /** The line after an instruction, for the state the transfer led to. */
  function NextLine(line: Line, instr: Instr, next: State): Line {
    (if instr.Store? then line else Give(line, instr.result, Defined(line.values, line.state, instr))).(state := next)
  }

  lemma DefinedAgree(a: Values, b: Values, instr: Instr, state: State)
    requires Agree(a, b, instr)
    ensures Defined(a, state, instr) == Defined(b, state, instr)
    ensures forall next :: Transfers(a, instr, state, next) <==> Transfers(b, instr, state, next)
  {
    if instr.Phi? {
      PhiAgrees(a, b, instr.edges);
    }
  }

  lemma GiveAdmits(line: Line, result: nat, pts: Pointees)
    ensures result in Give(line, result, pts).values && Admits(Give(line, result, pts).values[result], pts)
    ensures forall v | v != result ::
              (v in Give(line, result, pts).values <==> v in line.values) &&
              (v in line.values ==> Give(line, result, pts).values[v] == line.values[v])
  {
    assert UNKNOWN in map[UNKNOWN := false];
    if result in line.values {
      var grown := Join(line.values[result], pts);
      if IsUnknown(line.values[result]) || IsUnknown(pts) {
        assert UNKNOWN in grown;
      } else {
        assert pts.Keys <= grown.Keys;
      }
    }
  }

  /** Results are distinct, and no instruction uses its own or a later one. */
  ghost predicate InOrder(instrs: seq<Instr>) {
    && UsesEarlier(instrs)
    && forall i, j | 0 <= i < j < |instrs| && Result(instrs[i]).Some? :: Result(instrs[i]) != Result(instrs[j])
  }

  lemma UnusedAgrees(line: Line, instrs: seq<Instr>, m: nat, i: nat, next: State)
    requires InOrder(instrs) && m <= i < |instrs|
    ensures Agree(line.values, NextLine(line, instrs[i], next).values, instrs[m])
  {
    var instr, after := instrs[i], NextLine(line, instrs[i], next).values;
    if !instr.Store? {
      GiveAdmits(line, instr.result, Defined(line.values, line.state, instr));
      forall v: nat | Uses(instrs[m], v) ensures PointeesOf(line.values, Ref(v)) == PointeesOf(after, Ref(v)) {
        assert Result(instrs[i]) != Some(v);
      }
    }
    AgreeOnUses(line.values, after, instrs[m]);
  }

  lemma EarlierKept(line: Line, instrs: seq<Instr>, m: nat, i: nat, next: State, state: State)
    requires InOrder(instrs) && m < i < |instrs| && Kept(line.values, instrs[m], state)
    ensures Kept(NextLine(line, instrs[i], next).values, instrs[m], state)
  {
    UnusedAgrees(line, instrs, m, i, next);
    DefinedAgree(line.values, NextLine(line, instrs[i], next).values, instrs[m], state);
    if !instrs[i].Store? {
      GiveAdmits(line, instrs[i].result, Defined(line.values, line.state, instrs[i]));
    }
  }

  lemma LastKept(line: Line, instrs: seq<Instr>, i: nat, next: State)
    requires InOrder(instrs) && i < |instrs|
    ensures Kept(NextLine(line, instrs[i], next).values, instrs[i], line.state)
  {
    UnusedAgrees(line, instrs, i, i, next);
    DefinedAgree(line.values, NextLine(line, instrs[i], next).values, instrs[i], line.state);
    if !instrs[i].Store? {
      GiveAdmits(line, instrs[i].result, Defined(line.values, line.state, instrs[i]));
    }
  }

  /** One more instruction: what was replayed still is, under the new values. */
  lemma ReplayGoesOn(line: Line, instrs: seq<Instr>, states: seq<State>, i: nat, next: State)
    requires InOrder(instrs) && i < |instrs| && PartReplay(line.values, instrs, states, i) && states[i] == line.state
    requires Transfers(line.values, instrs[i], line.state, next)
    ensures PartReplay(NextLine(line, instrs[i], next).values, instrs, states + [next], i + 1)
  {
    var after, longer := NextLine(line, instrs[i], next).values, states + [next];
    forall m | 0 <= m < i + 1
      ensures Transfers(after, instrs[m], longer[m], longer[m + 1]) && Kept(after, instrs[m], longer[m])
    {
      UnusedAgrees(line, instrs, m, i, next);
      DefinedAgree(line.values, after, instrs[m], longer[m]);
      if m < i {
        EarlierKept(line, instrs, m, i, next, states[m]);
      } else {
        LastKept(line, instrs, i, next);
      }
    }
  }

  // ---- From block to block --------------------------------------------------

  ghost predicate BlockReplayed(values: Values, instrs: seq<Instr>, start: State, end: State) {
    exists states :: PartReplay(values, instrs, states, |instrs|) && states[0] == start && states[|instrs|] == end
  }

  /** What is recorded of the block fits its predecessors and the values. */
  ghost predicate BlockDone(fn: Function, build: Build, block: nat)
    requires block < |fn.blocks|
  {
    && block in build.entry && block in build.out
    && EntryOf(fn, build.out, block) == Some(build.entry[block])
    && BlockReplayed(build.values, fn.blocks[block].instrs, build.entry[block], build.out[block])
  }

  ghost predicate DoneTo(fn: Function, build: Build, order: seq<nat>, count: nat)
    requires BlocksOf(fn, order) && count <= |order|
  {
    && (forall j | 0 <= j < count :: BlockDone(fn, build, order[j]))
    && (forall b | b in build.entry :: b in order)
  }

  /** The values differ at results of the block only. */
  ghost predicate SameOutside(fn: Function, block: nat, a: Values, b: Values) {
    forall v | (forall n: nat :: !Defines(fn, block, n, v)) :: (v in a <==> v in b) && (v in a ==> a[v] == b[v])
  }

  lemma BlockInOrder(fn: Function, order: seq<nat>, k: nat)
    requires WellFormed(fn) && Scheduled(fn, order) && k < |order|
    ensures InOrder(fn.blocks[order[k]].instrs)
  {
    var c, instrs := order[k], fn.blocks[order[k]].instrs;
    NextUsesEarlier(fn, order, k);
    forall i, j | 0 <= i < j < |instrs| && Result(instrs[i]).Some? ensures Result(instrs[i]) != Result(instrs[j]) {
      assert Defines(fn, c, i, Result(instrs[i]).value);
      assert Result(instrs[j]) == Result(instrs[i]) ==> Defines(fn, c, j, Result(instrs[i]).value);
    }
  }

  lemma LaterUnused(fn: Function, order: seq<nat>, j: nat, k: nat, i: nat, a: Values, b: Values)
    requires WellFormed(fn) && Scheduled(fn, order) && j < k < |order| && At(fn, order[j], i)
    requires SameOutside(fn, order[k], a, b)
    ensures Agree(a, b, InstrAt(fn, order[j], i))
    ensures var result := Result(InstrAt(fn, order[j], i));
            result.Some? ==> (result.value in a <==> result.value in b) &&
                             (result.value in a ==> a[result.value] == b[result.value])
  {
    var instr := InstrAt(fn, order[j], i);
    NotListedBefore(fn, order, k);
    assert order[j] != order[k];
    forall v | Uses(instr, v) ensures PointeesOf(a, Ref(v)) == PointeesOf(b, Ref(v)) {
      assert DefinedBefore(fn, order, j, i, v);
      assert forall n: nat :: !Defines(fn, order[k], n, v);
    }
    AgreeOnUses(a, b, instr);
    if Result(instr).Some? {
      assert Defines(fn, order[j], i, Result(instr).value);
      assert forall n: nat :: !Defines(fn, order[k], n, Result(instr).value);
    }
  }

  lemma StepStays(fn: Function, order: seq<nat>, j: nat, k: nat, i: nat, a: Values, b: Values, state: State,
                  next: State)
    requires WellFormed(fn) && Scheduled(fn, order) && j < k < |order| && At(fn, order[j], i)
    requires SameOutside(fn, order[k], a, b)
    requires Transfers(a, InstrAt(fn, order[j], i), state, next) && Kept(a, InstrAt(fn, order[j], i), state)
    ensures Transfers(b, InstrAt(fn, order[j], i), state, next) && Kept(b, InstrAt(fn, order[j], i), state)
  {
    LaterUnused(fn, order, j, k, i, a, b);
    DefinedAgree(a, b, InstrAt(fn, order[j], i), state);
  }

  lemma ReplayStays(fn: Function, order: seq<nat>, j: nat, k: nat, a: Values, b: Values, start: State, end: State)
    requires WellFormed(fn) && Scheduled(fn, order) && j < k < |order| && SameOutside(fn, order[k], a, b)
    requires BlockReplayed(a, fn.blocks[order[j]].instrs, start, end)
    ensures BlockReplayed(b, fn.blocks[order[j]].instrs, start, end)
  {
    var instrs := fn.blocks[order[j]].instrs;
    var states :| PartReplay(a, instrs, states, |instrs|) && states[0] == start && states[|instrs|] == end;
    forall m | 0 <= m < |instrs|
      ensures Transfers(b, instrs[m], states[m], states[m + 1]) && Kept(b, instrs[m], states[m])
    {
      assert At(fn, order[j], m) && InstrAt(fn, order[j], m) == instrs[m];
      StepStays(fn, order, j, k, m, a, b, states[m], states[m + 1]);
    }
    assert PartReplay(b, instrs, states, |instrs|);
  }

  /** The next block of the round is done, and the earlier ones stay done. */
  lemma RoundGoesOn(fn: Function, order: seq<nat>, k: nat, a: Build, b: Build)
    requires WellFormed(fn) && Scheduled(fn, order) && k < |order| && DoneTo(fn, a, order, k)
    requires SameOutside(fn, order[k], a.values, b.values)
    requires order[k] in b.entry && order[k] in b.out
    requires EntryOf(fn, a.out, order[k]) == Some(b.entry[order[k]])
    requires BlockReplayed(b.values, fn.blocks[order[k]].instrs, b.entry[order[k]], b.out[order[k]])
    requires b.out == a.out[order[k] := b.out[order[k]]] && b.entry == a.entry[order[k] := b.entry[order[k]]]
    ensures DoneTo(fn, b, order, k + 1)
  {
    var c := order[k];
    NotListedBefore(fn, order, k);
    OthersEntry(fn, a.out, c, b.out[c], c);
    forall j | 0 <= j < k ensures BlockDone(fn, b, order[j]) {
      assert order[j] != c && BlockDone(fn, a, order[j]);
      assert c !in fn.blocks[order[j]].preds;
      OthersEntry(fn, a.out, c, b.out[c], order[j]);
      ReplayStays(fn, order, j, k, a.values, b.values, a.entry[order[j]], a.out[order[j]]);
    }
  }

  /** A block whose predecessors are done has an entry state. */
  lemma HasEntry(fn: Function, order: seq<nat>, k: nat, build: Build)
    requires Scheduled(fn, order) && k < |order| && DoneTo(fn, build, order, k)
    ensures EntryOf(fn, build.out, order[k]).Some?
  {
    var preds := fn.blocks[order[k]].preds;
    if order[k] != 0 {
      assert k > 0 && preds != [];
      assert preds[|preds| - 1] in order[..k];
      var j :| 0 <= j < k && order[j] == preds[|preds| - 1];
      assert BlockDone(fn, build, order[j]);
    }
  }

  function GraphOf(build: Build): Graph {
    Graph(build.values, build.entry, build.out)
  }

  lemma DoneReplays(fn: Function, build: Build, block: nat)
    requires block < |fn.blocks| && BlockDone(fn, build, block)
    ensures ExitReplayed(fn, GraphOf(build), block)
    ensures forall i: nat | At(fn, block, i) :: Recorded(fn, GraphOf(build), block, i)
  {
    var instrs, graph := fn.blocks[block].instrs, GraphOf(build);
    var states :| PartReplay(build.values, instrs, states, |instrs|) &&
                  states[0] == build.entry[block] && states[|instrs|] == build.out[block];
    assert IsReplay(fn, graph, block, states);
    forall i: nat | At(fn, block, i) ensures Recorded(fn, graph, block, i) {
      var part := states[..i + 1];
      assert IsReplay(fn, graph, block, part) && |part| == i + 1 && part[i] == states[i];
      assert Kept(build.values, instrs[i], states[i]);
    }
  }

  lemma AllDone(fn: Function, order: seq<nat>, build: Build, b: nat)
    requires BlocksOf(fn, order) && DoneTo(fn, build, order, |order|) && b in order
    ensures b < |fn.blocks| && BlockDone(fn, build, b)
  {
    var j :| 0 <= j < |order| && order[j] == b;
    assert BlockDone(fn, build, order[j]);
  }

  /** When every block of the order is done the graph is a fixpoint. */
  lemma RoundSettles(fn: Function, order: seq<nat>, build: Build)
    requires WellFormed(fn) && Scheduled(fn, order) && DoneTo(fn, build, order, |order|)
    ensures Settled(fn, GraphOf(build)) && forall b :: b in build.entry <==> b in order
  {
    AllDone(fn, order, build, order[0]);
    forall b | b in order ensures b in build.entry {
      AllDone(fn, order, build, b);
    }
    forall b | b in build.entry
      ensures b < |fn.blocks| && BlockDone(fn, build, b) && ExitReplayed(fn, GraphOf(build), b)
      ensures forall i: nat | At(fn, b, i) :: Recorded(fn, GraphOf(build), b, i)
    {
      AllDone(fn, order, build, b);
      DoneReplays(fn, build, b);
    }
    forall b, s | b in build.entry && s in fn.blocks[b].succs ensures s in build.entry {
      SuccListed(fn, order, b, s);
    }
  }

  lemma SuccListed(fn: Function, order: seq<nat>, b: nat, s: nat)
    requires Scheduled(fn, order) && b in order && b < |fn.blocks| && s in fn.blocks[b].succs
    ensures s in order
  {
    var j :| 0 <= j < |order| && order[j] == b;
  }
}
