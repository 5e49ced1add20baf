/** Whether a store can run after an observation of the same cell: a cell
declared in a loop is a new one each time its allocation runs. */
module StoreOrder {
  import opened Graphs
  import opened Budgets
  import opened Sites

  type Successors = seq<seq<nat>>

  predicate InRange(succs: Successors) {
    forall b, k | 0 <= b < |succs| && 0 <= k < |succs[b]| :: succs[b][k] < |succs|
  }

  function Edge(succs: Successors): (nat, nat) -> bool {
    (a: nat, b: nat) => a < |succs| && b in succs[a]
  }

  /** Edges that do not enter the block. */
  function Avoiding(succs: Successors, block: nat): (nat, nat) -> bool {
    (a: nat, b: nat) => a < |succs| && b in succs[a] && b != block
  }

  /** Whether the store can run on the observed cell after the observation. */
  ghost predicate LaterOnSameCell(succs: Successors, alloc: nat, obs: Site, store: Site) {
    (obs.block == store.block && obs.index <= store.index) ||
    ReachesOn(Avoiding(succs, alloc), obs.block, store.block)
  }

  // ---- The search -----------------------------------------------------------

  /** What was seen is reached, but for the allocation's block; what follows it
  is seen or queued, but for the target, which was not met. */
  ghost predicate Searched(succs: Successors, alloc: nat, start: nat, target: nat, seen: set<nat>, queue: seq<nat>) {
    && alloc in seen && (forall b: nat | b in seen && b != alloc :: b != target && b < |succs|)
    && (forall b: nat | b in seen && b != alloc :: ReachesOn(Avoiding(succs, alloc), start, b))
    && (forall b: nat | b in queue && b != alloc :: b < |succs| && ReachesOn(Avoiding(succs, alloc), start, b))
    && forall a: nat, b: nat | (a == start || (a in seen && a != alloc)) && Avoiding(succs, alloc)(a, b) ::
      b in seen || b in queue
  }

  lemma StartsSearched(succs: Successors, alloc: nat, start: nat, target: nat)
    requires InRange(succs) && start < |succs|
    ensures Searched(succs, alloc, start, target, {alloc}, succs[start])
  {
    forall b: nat | b in succs[start] && b != alloc ensures b < |succs| && ReachesOn(Avoiding(succs, alloc), start, b) {
      var k :| 0 <= k < |succs[start]| && succs[start][k] == b;
      EdgeReaches(Avoiding(succs, alloc), start, b);
    }
  }

  lemma VisitSearched(succs: Successors, alloc: nat, start: nat, target: nat, seen: set<nat>, queue: seq<nat>)
    requires InRange(succs) && Searched(succs, alloc, start, target, seen, queue)
    requires queue != [] && queue[0] !in seen && queue[0] != target
    ensures queue[0] < |succs|
    ensures Searched(succs, alloc, start, target, seen + {queue[0]}, queue[1..] + succs[queue[0]])
  {
    var block := queue[0];
    assert queue == [block] + queue[1..] && block in queue;
    NextReached(succs, alloc, start, block);
  }

  lemma NextReached(succs: Successors, alloc: nat, start: nat, block: nat)
    requires InRange(succs) && block < |succs| && ReachesOn(Avoiding(succs, alloc), start, block)
    ensures forall b: nat | b in succs[block] && b != alloc ::
              b < |succs| && ReachesOn(Avoiding(succs, alloc), start, b)
  {
    var edge := Avoiding(succs, alloc);
    forall b: nat | b in succs[block] && b != alloc ensures b < |succs| && ReachesOn(edge, start, b) {
      var k :| 0 <= k < |succs[block]| && succs[block][k] == b;
      EdgeReaches(edge, block, b);
      ReachesTransitive(edge, start, block, b);
    }
  }

  /** With nothing left to visit the target is out of reach. */
  lemma NeverReached(succs: Successors, alloc: nat, start: nat, target: nat, seen: set<nat>)
    requires Searched(succs, alloc, start, target, seen, [])
    ensures !ReachesOn(Avoiding(succs, alloc), start, target)
  {
    var edge, closed := Avoiding(succs, alloc), seen - {alloc};
    FirstEdge(edge, start, target);
    forall b: nat | edge(start, b) ensures !Reaches(edge, b, target) {
      if Reaches(edge, b, target) {
        ClosedReach(edge, closed, b, target);
      }
    }
  }

  /** The queue search between different blocks. */
  method SearchFrom(succs: Successors, alloc: nat, start: nat, target: nat, budget: SearchBudget) returns (found: bool)
    requires InRange(succs) && start < |succs| && budget.Valid()
    modifies budget
    ensures budget.Valid() && (old(budget.exhausted) ==> budget.exhausted)
    ensures found ==> ReachesOn(Avoiding(succs, alloc), start, target)
    ensures !found ==> (budget.bounded && budget.exhausted) || !ReachesOn(Avoiding(succs, alloc), start, target)
  {
    var seen: set<nat>, queue := {alloc}, succs[start];
    StartsSearched(succs, alloc, start, target);
    while queue != []
      invariant Searched(succs, alloc, start, target, seen, queue)
      invariant budget.Valid() && (old(budget.exhausted) ==> budget.exhausted)
      decreases UpTo(|succs|) - seen, |queue|
    {
      var ok := budget.Spend();
      if !ok {
        return false;
      }
      var block := queue[0];
      assert block in queue;
      if block in seen {
        queue := queue[1..];
      } else if block == target {
        return true;
      } else {
        VisitSearched(succs, alloc, start, target, seen, queue);
        seen, queue := seen + {block}, queue[1..] + succs[block];
      }
    }
    NeverReached(succs, alloc, start, target, seen);
    found := false;
  }

  /** The order test: in one block the textual order, otherwise a way on that
  does not enter the allocation's block. */
  ghost predicate OrderTest(succs: Successors, alloc: nat, obs: Site, store: Site) {
    if obs.block == store.block then obs.index <= store.index
    else ReachesOn(Avoiding(succs, alloc), obs.block, store.block)
  }

  /** The engine's answer to the order test. True is always evidence that the
  store runs again on the observed cell; false misses exactly a store earlier
  in the observation's own block, on a cycle outside the allocation's. */
  method StoreMayFollow(succs: Successors, alloc: nat, obs: Site, store: Site, budget: SearchBudget)
    returns (follows: bool)
    requires InRange(succs) && obs.block < |succs| && budget.Valid()
    modifies budget
    ensures budget.Valid() && (!budget.bounded ==> !budget.exhausted)
    ensures follows ==> OrderTest(succs, alloc, obs, store) && LaterOnSameCell(succs, alloc, obs, store)
    ensures !follows ==> budget.exhausted || !OrderTest(succs, alloc, obs, store)
    ensures !follows && !budget.exhausted ==>
              (LaterOnSameCell(succs, alloc, obs, store) <==>
               obs.block == store.block && ReachesOn(Avoiding(succs, alloc), obs.block, store.block))
  {
    var ok := budget.Spend();
    if !ok {
      return false;
    }
    if obs.block == store.block {
      ok := budget.SpendAll(obs.index + store.index + 2);
      return ok && !budget.exhausted && obs.index <= store.index;
    }
    follows := SearchFrom(succs, alloc, obs.block, store.block, budget);
  }

  // ---- What the answer means ------------------------------------------------

  /** A run of the store after the observation that stays on the cell: the path
  between them does not enter the allocation's block again. */
  ghost predicate StaysOnCell(succs: Successors, alloc: nat, path: seq<nat>) {
    IsPath(Edge(succs), path) && |path| > 1 && alloc !in path[1..]
  }

  lemma AvoidingPath(succs: Successors, alloc: nat, path: seq<nat>)
    requires |path| > 1
    ensures IsPath(Avoiding(succs, alloc), path) <==> StaysOnCell(succs, alloc, path)
  {
    if IsPath(Avoiding(succs, alloc), path) {
      forall i | 0 < i < |path| ensures Edge(succs)(path[i - 1], path[i]) && path[i] != alloc {
        assert Avoiding(succs, alloc)(path[i - 1], path[i]);
      }
    }
    if StaysOnCell(succs, alloc, path) {
      forall i | 0 < i < |path| ensures Avoiding(succs, alloc)(path[i - 1], path[i]) {
        assert Edge(succs)(path[i - 1], path[i]);
        assert path[1..][i - 1] == path[i];
      }
    }
  }

  /** In different blocks: every path on from the observation to the store runs
  the allocation again exactly when the store cannot follow on the cell. */
  lemma FreshOtherwise(succs: Successors, alloc: nat, obs: Site, store: Site)
    requires obs.block != store.block
    ensures LaterOnSameCell(succs, alloc, obs, store) <==>
            exists path :: StaysOnCell(succs, alloc, path) && path[0] == obs.block && path[|path| - 1] == store.block
  {
    var edge := Avoiding(succs, alloc);
    if ReachesOn(edge, obs.block, store.block) {
      var path :| PathFrom(edge, path, obs.block, store.block) && |path| > 1;
      AvoidingPath(succs, alloc, path);
    }
    if path :| StaysOnCell(succs, alloc, path) && path[0] == obs.block && path[|path| - 1] == store.block {
      AvoidingPath(succs, alloc, path);
      assert PathFrom(edge, path, obs.block, store.block);
    }
  }

  lemma CycleEverywhere(succs: Successors, alloc: nat, block: nat)
    requires ReachesOn(Avoiding(succs, alloc), block, block)
    ensures block != alloc && ReachesOn(Edge(succs), block, block)
  {
    var path :| PathFrom(Avoiding(succs, alloc), path, block, block) && |path| > 1;
    assert Avoiding(succs, alloc)(path[|path| - 2], path[|path| - 1]);
    AvoidingPath(succs, alloc, path);
    assert PathFrom(Edge(succs), path, block, block);
  }

  /** Why the caller looks for a cycle too: a store that neither passes the
  order test nor lies on a cycle outside the allocation's block does not change
  the observed cell later, wherever it stands. */
  method StableAgainst(succs: Successors, alloc: nat, obs: Site, store: Site, inCycle: bool, budget: SearchBudget)
    returns (stable: bool)
    requires InRange(succs) && obs.block < |succs| && budget.Valid()
    requires inCycle <==> ReachesOn(Edge(succs), store.block, store.block)
    modifies budget
    ensures budget.Valid()
    ensures stable ==> !LaterOnSameCell(succs, alloc, obs, store)
    ensures !stable ==>
              budget.exhausted || LaterOnSameCell(succs, alloc, obs, store) || (inCycle && store.block != alloc)
  {
    var follows := StoreMayFollow(succs, alloc, obs, store, budget);
    if budget.exhausted {
      return false;
    }
    stable := !follows && !(inCycle && store.block != alloc);
    if stable && obs.block == store.block && ReachesOn(Avoiding(succs, alloc), obs.block, store.block) {
      CycleEverywhere(succs, alloc, store.block);
    }
  }

  const STORE_THEN_READ: Successors := [[1], [1]]

  /** A loop whose one block stores, then observes, a cell declared before it:
  the store runs again, but the order test says it does not follow. */
  lemma StoreThenReadExample()
    ensures LaterOnSameCell(STORE_THEN_READ, 0, Site(1, 1), Site(1, 0))
    ensures !OrderTest(STORE_THEN_READ, 0, Site(1, 1), Site(1, 0))
  {
    EdgeReaches(Avoiding(STORE_THEN_READ, 0), 1, 1);
  }
}
