/** From a function to its points-to graph to the promise the graph makes. */
module MemoryTheorem {
  import opened SlotPaths
  import opened PointeeSets
  import opened RegionStates
  import opened MemoryPrograms
  import opened AbstractMemory
  import opened Graphs
  import opened ReversePostorder
  import opened Fixpoint
  import opened BuildRounds
  import opened SettledRounds
  import opened TransferExactness
  import opened GraphBuild
  import opened RunSoundness

  function SuccsOf(fn: Function): (succs: Successors)
    ensures |succs| == |fn.blocks| && forall b | 0 <= b < |succs| :: succs[b] == fn.blocks[b].succs
  {
    seq(|fn.blocks|, b requires 0 <= b < |fn.blocks| => fn.blocks[b].succs)
  }

  function Flow(fn: Function): (int, int) -> bool {
    FlowEdge(SuccsOf(fn))
  }

  /** Every path from the entry to the target passes the block. */
  ghost predicate Dominates(fn: Function, block: int, target: int) {
    forall path | PathFrom<int>(Flow(fn), path, 0, target) :: block in path
  }

  /** A definition comes before its uses on every path; a phi uses an operand at
  the end of the predecessor it flows from. */
  ghost predicate SsaDominance(fn: Function) {
    && (forall b: nat, i: nat, v: nat, c: nat, j: nat |
          At(fn, b, i) && !InstrAt(fn, b, i).Phi? && Uses(InstrAt(fn, b, i), v) && Defines(fn, c, j, v) ::
          (c == b && j < i) || (c != b && Dominates(fn, c, b)))
    && (forall b: nat, i: nat, e: nat, c: nat, j: nat |
          At(fn, b, i) && InstrAt(fn, b, i).Phi? && e < |InstrAt(fn, b, i).edges| && e < |fn.blocks[b].preds| &&
          InstrAt(fn, b, i).edges[e].Ref? && Defines(fn, c, j, InstrAt(fn, b, i).edges[e].value) ::
          Dominates(fn, c, fn.blocks[b].preds[e]))
  }

  /** The builder has removed unreachable blocks from the predecessor lists. */
  ghost predicate PredsReachable(fn: Function) {
    forall b, p | 0 <= b < |fn.blocks| && p in fn.blocks[b].preds && Reaches<int>(Flow(fn), 0, b) ::
      Reaches<int>(Flow(fn), 0, p)
  }

  ghost predicate Analyzable(fn: Function) {
    WellFormed(fn) && Acyclic(SuccsOf(fn)) && SsaDominance(fn) && PredsReachable(fn)
  }

  /** The block order the depth-first walk produced. */
  ghost predicate WalkOrder(fn: Function, order: seq<nat>) {
    && order != [] && order[0] == 0 && Distinct(order) && BlocksOf(fn, order)
    && (forall k | 0 <= k < |order| :: Reaches<int>(Flow(fn), 0, order[k]))
    && (forall b: nat | Reaches<int>(Flow(fn), 0, b) :: b in order)
    && ReverseOrdered(SuccsOf(fn), order)
  }

  lemma EdgeForward(fn: Function, order: seq<nat>, i: nat, j: nat)
    requires Acyclic(SuccsOf(fn)) && WalkOrder(fn, order)
    requires i < |order| && j < |order| && order[j] in fn.blocks[order[i]].succs
    ensures i < j
  {
    AcyclicOrder(SuccsOf(fn), order, i, j);
  }

  lemma SuccInRange(fn: Function, b: nat, s: nat)
    requires WellFormed(fn) && b < |fn.blocks| && s in fn.blocks[b].succs
    ensures s < |fn.blocks|
  {
  }

  lemma ReachedBlock(fn: Function, a: int, b: int)
    requires WellFormed(fn) && Reaches<int>(Flow(fn), a, b) && a != b
    ensures exists p :: 0 <= p < |fn.blocks| && Flow(fn)(p, b) && Reaches<int>(Flow(fn), a, p)
    ensures 0 <= b < |fn.blocks|
  {
    var path: seq<int> :| PathFrom<int>(Flow(fn), path, a, b);
    var n := |path|;
    assert Flow(fn)(path[n - 2], path[n - 1]);
    assert PathFrom<int>(Flow(fn), path[..n - 1], a, path[n - 2]);
    var p := path[n - 2];
    var x :| 0 <= x < |fn.blocks[p].succs| && fn.blocks[p].succs[x] == b;
    SuccInRange(fn, p, fn.blocks[p].succs[x]);
  }

  lemma PredsFirst(fn: Function, order: seq<nat>, k: nat, p: nat)
    requires WellFormed(fn) && Acyclic(SuccsOf(fn)) && PredsReachable(fn) && WalkOrder(fn, order)
    requires k < |order| && p in fn.blocks[order[k]].preds
    ensures p in order[..k]
  {
    assert p in order;
    var m :| 0 <= m < |order| && order[m] == p;
    EdgeForward(fn, order, m, k);
  }

  lemma SuccsListed(fn: Function, order: seq<nat>, k: nat, s: nat)
    requires WellFormed(fn) && WalkOrder(fn, order)
    requires k < |order| && s in fn.blocks[order[k]].succs
    ensures s in order
  {
    EdgeReaches<int>(Flow(fn), order[k], s);
    ReachesTransitive<int>(Flow(fn), 0, order[k], s);
  }

  lemma HasPreds(fn: Function, order: seq<nat>, k: nat)
    requires WellFormed(fn) && WalkOrder(fn, order) && 0 < k < |order|
    ensures fn.blocks[order[k]].preds != []
  {
    assert order[0] != order[k];
    ReachedBlock(fn, 0, order[k]);
    var p :| 0 <= p < |fn.blocks| && Flow(fn)(p, order[k]) && Reaches<int>(Flow(fn), 0, p);
    assert p in fn.blocks[order[k]].preds;
  }

  /** Positions rise along a path. */
  lemma {:induction false} PathRises(fn: Function, order: seq<nat>, path: seq<int>, i: nat, j: nat)
    requires WellFormed(fn) && Acyclic(SuccsOf(fn)) && WalkOrder(fn, order)
    requires IsPath<int>(Flow(fn), path) && i < |order| && j < |order|
    requires path[0] == order[i] && path[|path| - 1] == order[j]
    ensures if |path| == 1 then i == j else i < j
    decreases |path|
  {
    if |path| > 1 {
      var n := |path|;
      var front := path[..n - 1];
      assert IsPath<int>(Flow(fn), front) && Flow(fn)(path[n - 2], path[n - 1]);
      assert PathFrom<int>(Flow(fn), front, order[i], path[n - 2]);
      ReachesTransitive<int>(Flow(fn), 0, order[i], path[n - 2]);
      assert path[n - 2] in order;
      var m :| 0 <= m < |order| && order[m] == path[n - 2];
      PathRises(fn, order, front, i, m);
      EdgeForward(fn, order, m, j);
    }
  }

  /** A dominator of a listed block is listed no later. */
  lemma DominatorFirst(fn: Function, order: seq<nat>, c: nat, m: nat)
    requires WellFormed(fn) && Acyclic(SuccsOf(fn)) && WalkOrder(fn, order)
    requires m < |order| && Dominates(fn, c, order[m])
    ensures c in order[..m + 1]
    ensures c != order[m] ==> c in order[..m]
  {
    var path: seq<int> :| PathFrom<int>(Flow(fn), path, 0, order[m]);
    var i :| 0 <= i < |path| && path[i] == c;
    var front, rest := path[..i + 1], path[i..];
    assert PathFrom<int>(Flow(fn), front, 0, c);
    assert c in order;
    var n :| 0 <= n < |order| && order[n] == c;
    assert IsPath<int>(Flow(fn), rest) by {
      forall t | 0 < t < |rest| ensures Flow(fn)(rest[t - 1], rest[t]) {
        assert rest[t] == path[i + t] && rest[t - 1] == path[i + t - 1];
      }
    }
    assert rest[|rest| - 1] == path[|path| - 1];
    PathRises(fn, order, rest, n, m);
    assert order[n] in order[..m + 1];
  }

  lemma UsesDefined(fn: Function, order: seq<nat>, k: nat, i: nat, v: nat)
    requires WellFormed(fn) && Acyclic(SuccsOf(fn)) && SsaDominance(fn) && PredsReachable(fn) && WalkOrder(fn, order)
    requires k < |order| && At(fn, order[k], i) && Uses(InstrAt(fn, order[k], i), v)
    ensures DefinedBefore(fn, order, k, i, v)
  {
    var b, instr := order[k], InstrAt(fn, order[k], i);
    forall c: nat, j: nat | Defines(fn, c, j, v) ensures c in order[..k] || (c == b && j < i) {
      if instr.Phi? {
        var e :| 0 <= e < |instr.edges| && instr.edges[e] == Ref(v);
        var p := fn.blocks[b].preds[e];
        assert Dominates(fn, c, p);
        PredsFirst(fn, order, k, p);
        var m :| 0 <= m < k && order[m] == p;
        DominatorFirst(fn, order, c, m);
        assert order[..m + 1] <= order[..k];
      } else if !(c == b && j < i) {
        DominatorFirst(fn, order, c, k);
      }
    }
  }

  /** The depth-first order schedules the build. */
  lemma OrderSchedules(fn: Function, order: seq<nat>)
    requires Analyzable(fn) && WalkOrder(fn, order)
    ensures Scheduled(fn, order)
  {
    forall k, p | 0 <= k < |order| && p in fn.blocks[order[k]].preds ensures p in order[..k] {
      PredsFirst(fn, order, k, p);
    }
    forall k, s | 0 <= k < |order| && s in fn.blocks[order[k]].succs ensures s in order {
      SuccsListed(fn, order, k, s);
    }
    forall k: nat, i: nat, v: nat | k < |order| && At(fn, order[k], i) && Uses(InstrAt(fn, order[k], i), v)
      ensures DefinedBefore(fn, order, k, i, v)
    {
      UsesDefined(fn, order, k, i, v);
    }
    forall k | 0 < k < |order| ensures fn.blocks[order[k]].preds != [] {
      HasPreds(fn, order, k);
    }
  }

  /** The position of a block in the order, zero when it is not listed. */
  ghost function Position(order: seq<nat>, block: nat): (p: nat)
    ensures block in order ==> p < |order| && order[p] == block
  {
    if block in order then
      var p :| 0 <= p < |order| && order[p] == block; p
    else 0
  }

  ghost function Positions(fn: Function, order: seq<nat>): (ranks: seq<nat>)
    ensures |ranks| == |fn.blocks| && forall b | 0 <= b < |ranks| :: ranks[b] == Position(order, b)
  {
    seq(|fn.blocks|, b requires 0 <= b < |fn.blocks| => Position(order, b))
  }

  lemma OrderRanks(fn: Function, order: seq<nat>, blocks: set<nat>)
    requires WellFormed(fn) && Acyclic(SuccsOf(fn)) && WalkOrder(fn, order) && forall b :: b in blocks <==> b in order
    ensures Ranks(fn, blocks, Positions(fn, order))
  {
    var ranks := Positions(fn, order);
    forall b, s | b in blocks && b < |fn.blocks| && s in fn.blocks[b].succs && s < |fn.blocks|
      ensures ranks[b] < ranks[s]
    {
      SuccsListed(fn, order, Position(order, b), s);
      EdgeForward(fn, order, Position(order, b), Position(order, s));
    }
  }

  lemma SuccsInRange(fn: Function)
    requires WellFormed(fn)
    ensures InRange(SuccsOf(fn))
  {
    forall b: nat, i: nat | b < |fn.blocks| && i < |fn.blocks[b].succs| ensures fn.blocks[b].succs[i] < |fn.blocks| {
      SuccInRange(fn, b, fn.blocks[b].succs[i]);
    }
  }

  /** What a completed graph promises: if no store's address is unknown it covers
  every point of every run; and, there being no loop, no pointee is marked as of
  an earlier round of one. */
  ghost predicate Promised(fn: Function, graph: Graph) {
    && (forall v, t | v in graph.values && t in graph.values[v] :: !graph.values[v][t])
    && (StoresKnown(fn, graph) ==>
          exists ranks ::
            Premises(fn, graph, ranks) &&
            forall run, i: nat | IsRun(fn, run) && i < |run| :: Covered(fn, graph, ranks, run[i]))
  }

  /** It gains nothing: just what the instructions define is recorded, and a load
  right behind a store through the same exact address, not of an array element,
  has exactly the stored pointees. */
  ghost predicate Tight(fn: Function, graph: Graph) {
    Precise(fn, graph) &&
    forall b: nat, i: nat, t | b in graph.entry && StoreThenLoad(fn, graph, b, i, t) && !EndsInIndex(t.path) ::
      var result := InstrAt(fn, b, i + 1).result;
      result in graph.values && graph.values[result] == PointeesOf(graph.values, InstrAt(fn, b, i).written)
  }

  /** Builds the points-to graph of an acyclic, call-free function over local
  memory. If the build completes and no store's address is unknown, the graph
  covers every point of every run. It completes by its second round unless a
  budget runs out, a value's pointees outgrow the limit, or a store meets a
  wildcard together with an element of its array; such targets show in what was
  recorded, and never meet in a function that indexes arrays in one way only.
  Then it also gains nothing: what is recorded is exactly what the instructions
  define, and a load reads back what was just stored. A budget only stops a build
  it could not pay for. */
  method BuildGraph(fn: Function, budget: nat, stateBudget: nat, sizeOf: State -> nat)
    returns (graph: RegionGraph, reason: BuildReason, rounds: nat)
    requires Analyzable(fn)
    ensures graph.fn == fn
    ensures reason.BudgetExhausted? || reason.StateLimit? || graph.widened || graph.mixed ||
            (reason.Complete? && rounds <= 2 && Tight(fn, GraphOf(graph.Current())))
    ensures reason.BudgetExhausted? || reason.StateLimit? || Shows(fn, graph.mixed, LineOf(graph.Current()))
    ensures exists order ::
      WalkOrder(fn, order) &&
      StoppedShort(fn, sizeOf, order, reason, budget, stateBudget, graph.budget, graph.stateBudget)
    ensures reason.Complete? ==> Promised(fn, GraphOf(graph.Current()))
  {
    SuccsInRange(fn);
    var found := ReversePostorderOf(SuccsOf(fn));
    assert forall k | 0 <= k < |found| :: found[k] in found;
    var order: seq<nat> := found;
    assert WalkOrder(fn, order);
    OrderSchedules(fn, order);
    graph := new RegionGraph(fn, budget, stateBudget, sizeOf);
    reason, rounds := graph.Fixpoint(order);
    if reason.Complete? {
      CompletePromises(fn, order, GraphOf(graph.Current()));
      if !graph.widened && !graph.mixed {
        PreciseIsTight(fn, GraphOf(graph.Current()));
      }
    }
  }

  lemma CompletePromises(fn: Function, order: seq<nat>, graph: Graph)
    requires Analyzable(fn) && WalkOrder(fn, order)
    requires Settled(fn, graph) && GraphTyped(fn, graph) && forall b :: b in graph.entry <==> b in order
    ensures Promised(fn, graph)
  {
    if StoresKnown(fn, graph) {
      RunsCovered(fn, order, graph);
    }
  }

  lemma RunsCovered(fn: Function, order: seq<nat>, graph: Graph)
    requires Analyzable(fn) && WalkOrder(fn, order) && StoresKnown(fn, graph)
    requires Settled(fn, graph) && GraphTyped(fn, graph) && forall b :: b in graph.entry <==> b in order
    ensures exists ranks ::
              Premises(fn, graph, ranks) &&
              forall run, i: nat | IsRun(fn, run) && i < |run| :: Covered(fn, graph, ranks, run[i])
  {
    var ranks := Positions(fn, order);
    OrderRanks(fn, order, graph.entry.Keys);
    assert Premises(fn, graph, ranks);
    forall run, i: nat | IsRun(fn, run) && i < |run| ensures Covered(fn, graph, ranks, run[i]) {
      EveryRunCovered(fn, graph, ranks, run, i);
    }
  }

  lemma PreciseIsTight(fn: Function, graph: Graph)
    requires Precise(fn, graph) && GraphTyped(fn, graph)
    ensures Tight(fn, graph)
  {
    forall b: nat, i: nat, t | b in graph.entry && StoreThenLoad(fn, graph, b, i, t) && !EndsInIndex(t.path)
      ensures var result := InstrAt(fn, b, i + 1).result;
              result in graph.values && graph.values[result] == PointeesOf(graph.values, InstrAt(fn, b, i).written)
    {
      LoadReadsStored(fn, graph, b, i, t);
    }
  }
}
