/** Whether a call completes its target on every return whose result matches a
condition: a walk over blocks that merges paths into states. */
module ConditionalCoverage {
  import opened Options
  import opened Graphs
  import opened Budgets

  /** A local the target maps to, and whether the callee a return forwards to
  completes it under the same condition. */
  datatype MappedLocal = MappedLocal(exact: bool, whole: bool, completes: bool, cost: nat)

  /** How a return stands to the condition: the result does not exist, the
  value contradicts it, the value is a call's result, or none of these. */
  datatype Return = MissingResult | Contradicts | Forwards(locals: seq<MappedLocal>) | Opaque

  datatype Role = Ordinary | Terminates | Returns(returned: Return)

  /** completes is whether the instruction runs the completion, as recognized
  at the given cost. */
  datatype Instr = Instr(completes: bool, cost: nat, role: Role)

  /** feasible names the successors a path may take that came from the given
  predecessor. Block 0 is the entry. */
  datatype Function = Function(blocks: seq<seq<Instr>>, feasible: (nat, Option<nat>) -> seq<nat>, effort: nat)

  ghost predicate WellFormed(fn: Function) {
    fn.blocks != [] && forall b, p, k: nat | k < |fn.feasible(b, p)| :: fn.feasible(b, p)[k] < |fn.blocks|
  }

  // ---- One block ------------------------------------------------------------

  /** How control leaves a block. */
  datatype Exit = Stops | Leaves(completed: bool) | Ends(returned: Return, completed: bool)

  function ExitOf(instrs: seq<Instr>, completed: bool): Exit
    decreases |instrs|
  {
    if instrs == [] then Leaves(completed)
    else
      var now := completed || instrs[0].completes;
      match instrs[0].role
      case Terminates => Stops
      case Returns(returned) => Ends(returned, now)
      case Ordinary => ExitOf(instrs[1..], now)
  }

  predicate Relevant(returned: Return) {
    !returned.Contradicts?
  }

  predicate Forwarded(locals: seq<MappedLocal>) {
    exists i :: 0 <= i < |locals| && locals[i].exact && locals[i].whole && locals[i].completes
  }

  /** A relevant return is covered by an earlier completion, or by forwarding to
  a call that completes an exact local; never if the result does not exist. */
  predicate Covered(returned: Return, completed: bool) {
    match returned
    case MissingResult => false
    case Contradicts => true
    case Forwards(locals) => completed || Forwarded(locals)
    case Opaque => completed
  }

  // ---- Paths ----------------------------------------------------------------

  function PredOf(path: seq<nat>): Option<nat> {
    if |path| > 1 then Some(path[|path| - 2]) else None
  }

  /** Whether a completing instruction ran in the blocks before the last. */
  function CompletedBefore(fn: Function, path: seq<nat>): bool
    requires forall i | 0 <= i < |path| :: path[i] < |fn.blocks|
    decreases |path|
  {
    |path| > 1 &&
    var front := path[..|path| - 1];
    var exit := ExitOf(fn.blocks[path[|path| - 2]], CompletedBefore(fn, front));
    exit.Leaves? && exit.completed
  }

  /** A path from the entry that control can follow. */
  ghost predicate FeasiblePath(fn: Function, path: seq<nat>)
    decreases |path|
  {
    path != [] && (forall i | 0 <= i < |path| :: path[i] < |fn.blocks|) &&
    if |path| == 1 then path[0] == 0
    else
      var front := path[..|path| - 1];
      FeasiblePath(fn, front) && path[|path| - 1] in fn.feasible(path[|path| - 2], PredOf(front)) &&
      ExitOf(fn.blocks[path[|path| - 2]], CompletedBefore(fn, front)).Leaves?
  }

  ghost function PathExit(fn: Function, path: seq<nat>): Exit
    requires FeasiblePath(fn, path)
  {
    ExitOf(fn.blocks[path[|path| - 1]], CompletedBefore(fn, path))
  }

  ghost predicate EndsRelevant(fn: Function, path: seq<nat>) {
    FeasiblePath(fn, path) && PathExit(fn, path).Ends? && Relevant(PathExit(fn, path).returned)
  }

  /** Some path reaches a matching return, and every path that does completed
  first or forwards to a call that completes. */
  ghost predicate EveryMatchingReturnCovered(fn: Function) {
    (exists path :: EndsRelevant(fn, path)) &&
    forall path | EndsRelevant(fn, path) :: Covered(PathExit(fn, path).returned, PathExit(fn, path).completed)
  }

  // ---- States ---------------------------------------------------------------

  /** What the walk keeps of a path. */
  datatype State = State(block: nat, predecessor: Option<nat>, completed: bool)

  const INITIAL := State(0, None, false)

  predicate InFunction(fn: Function, s: State) {
    s.block < |fn.blocks| && (s.predecessor.Some? ==> s.predecessor.value < |fn.blocks|)
  }

  function StateExit(fn: Function, s: State): Exit {
    if s.block < |fn.blocks| then ExitOf(fn.blocks[s.block], s.completed) else Stops
  }

  function Next(fn: Function): (State, State) -> bool {
    (s: State, t: State) =>
      StateExit(fn, s).Leaves? && t.block in fn.feasible(s.block, s.predecessor) &&
      t.predecessor == Some(s.block) && t.completed == StateExit(fn, s).completed
  }

  predicate RelevantState(fn: Function, s: State) {
    StateExit(fn, s).Ends? && Relevant(StateExit(fn, s).returned)
  }

  predicate UncoveredState(fn: Function, s: State) {
    RelevantState(fn, s) && !Covered(StateExit(fn, s).returned, StateExit(fn, s).completed)
  }

  function StateOf(fn: Function, path: seq<nat>): State
    requires path != [] && forall i | 0 <= i < |path| :: path[i] < |fn.blocks|
  {
    State(path[|path| - 1], PredOf(path), CompletedBefore(fn, path))
  }

  /** A feasible path ends in a reachable state. */
  lemma {:induction false} PathReaches(fn: Function, path: seq<nat>)
    requires FeasiblePath(fn, path)
    ensures Reaches(Next(fn), INITIAL, StateOf(fn, path))
    decreases |path|
  {
    if |path| == 1 {
      ReachesSelf(Next(fn), INITIAL);
    } else {
      var front := path[..|path| - 1];
      PathReaches(fn, front);
      assert front[|front| - 1] == path[|path| - 2];
      var s, t := StateOf(fn, front), StateOf(fn, path);
      assert t.completed == StateExit(fn, s).completed;
      EdgeReaches(Next(fn), s, t);
      ReachesTransitive(Next(fn), INITIAL, s, t);
    }
  }

  /** A reachable state is the end of a feasible path. */
  lemma {:induction false} StatePath(fn: Function, states: seq<State>) returns (path: seq<nat>)
    requires WellFormed(fn) && IsPath(Next(fn), states) && states[0] == INITIAL
    ensures FeasiblePath(fn, path) && StateOf(fn, path) == states[|states| - 1]
    decreases |states|
  {
    if |states| == 1 {
      path := [0];
    } else {
      var n := |states|;
      var front := StatePath(fn, states[..n - 1]);
      assert Next(fn)(states[n - 2], states[n - 1]);
      var s, t := states[n - 2], states[n - 1];
      var k :| 0 <= k < |fn.feasible(s.block, s.predecessor)| && fn.feasible(s.block, s.predecessor)[k] == t.block;
      path := front + [t.block];
      assert path[..|path| - 1] == front;
    }
  }

  /** Coverage of paths is coverage of the states they end in. */
  lemma StatesDecide(fn: Function)
    requires WellFormed(fn)
    ensures EveryMatchingReturnCovered(fn) <==>
            (exists s :: Reaches(Next(fn), INITIAL, s) && RelevantState(fn, s)) &&
            (forall s | Reaches(Next(fn), INITIAL, s) :: !UncoveredState(fn, s))
  {
    forall path | EndsRelevant(fn, path)
      ensures Reaches(Next(fn), INITIAL, StateOf(fn, path)) && RelevantState(fn, StateOf(fn, path))
    {
      PathReaches(fn, path);
    }
    forall s | Reaches(Next(fn), INITIAL, s) && RelevantState(fn, s)
      ensures exists path :: EndsRelevant(fn, path) && StateOf(fn, path) == s
    {
      var states :| PathFrom(Next(fn), states, INITIAL, s);
      var path := StatePath(fn, states);
      assert EndsRelevant(fn, path);
    }
  }

  // ---- The walk -------------------------------------------------------------

  function Preds(n: nat): set<Option<nat>> {
    {None} + set b | b in UpTo(n) :: Some(b)
  }

  function AllStates(fn: Function): set<State> {
    set b, p, c | b in UpTo(|fn.blocks|) && p in Preds(|fn.blocks|) && c in {false, true} :: State(b, p, c)
  }

  lemma InAllStates(fn: Function, s: State)
    requires InFunction(fn, s)
    ensures s in AllStates(fn)
  {
    assert s == State(s.block, s.predecessor, s.completed);
    assert s.predecessor.Some? ==> s.predecessor.value in UpTo(|fn.blocks|);
  }

  /** What was expanded is reached; what follows it is expanded or queued. */
  ghost predicate Walked(fn: Function, expanded: set<State>, queue: seq<State>) {
    && (forall s | s in expanded || s in queue :: Reaches(Next(fn), INITIAL, s) && InFunction(fn, s))
    && (INITIAL in expanded || INITIAL in queue)
    && forall s, t | s in expanded && Next(fn)(s, t) :: t in expanded || t in queue
  }

  ghost predicate FlagsExact(fn: Function, expanded: set<State>, matched: bool, failed: bool) {
    (matched <==> exists s :: s in expanded && RelevantState(fn, s)) &&
    (failed <==> exists s :: s in expanded && UncoveredState(fn, s))
  }

  ghost predicate Follows(fn: Function, s: State, next: seq<State>) {
    (forall t | t in next :: Next(fn)(s, t)) && forall t | Next(fn)(s, t) :: t in next
  }

  lemma StepWalked(fn: Function, expanded: set<State>, queue: seq<State>, next: seq<State>)
    requires WellFormed(fn) && Walked(fn, expanded, queue) && queue != [] && Follows(fn, queue[0], next)
    ensures Walked(fn, expanded + {queue[0]}, queue[1..] + next)
  {
    var s := queue[0];
    assert queue == [s] + queue[1..] && s in queue;
    forall t | t in next ensures Reaches(Next(fn), INITIAL, t) && InFunction(fn, t) {
      assert Next(fn)(s, t);
      var feasible := fn.feasible(s.block, s.predecessor);
      var k :| 0 <= k < |feasible| && feasible[k] == t.block;
      EdgeReaches(Next(fn), s, t);
      ReachesTransitive(Next(fn), INITIAL, s, t);
    }
  }

  /** With nothing queued every reachable state was expanded. */
  lemma AllWalked(fn: Function, expanded: set<State>)
    requires Walked(fn, expanded, [])
    ensures forall s :: s in expanded <==> Reaches(Next(fn), INITIAL, s)
  {
    forall s | Reaches(Next(fn), INITIAL, s) ensures s in expanded {
      ClosedReach(Next(fn), expanded, INITIAL, s);
    }
  }

  /** The walk's flags and the budget its questions share. */
  class CoverageWalk {
    const fn: Function
    const budget: SearchBudget
    var matched: bool
    var failed: bool

    constructor (fn: Function, budget: SearchBudget)
      ensures this.fn == fn && this.budget == budget && !matched && !failed
    {
      this.fn, this.budget, matched, failed := fn, budget, false, false;
    }

    predicate Live()
      reads this, budget
    {
      budget.Valid() && !budget.exhausted
    }

    /** Whether a return is covered and whether it matters. */
    method ConditionalReturn(returned: Return, completed: bool) returns (covered: bool, relevant: bool)
      requires budget.Valid()
      modifies budget
      ensures budget.Valid() && (old(budget.exhausted) ==> budget.exhausted)
      ensures !budget.bounded && !old(budget.exhausted) ==> !budget.exhausted
      ensures !budget.exhausted ==> covered == Covered(returned, completed) && relevant == Relevant(returned)
    {
      match returned
      case MissingResult => return false, true;
      case Contradicts => return true, false;
      case Opaque => return completed, true;
      case Forwards(locals) =>
        if completed {
          return true, true;
        }
        var i := 0;
        while i < |locals|
          invariant i <= |locals| && budget.Valid() && (old(budget.exhausted) ==> budget.exhausted)
          invariant !budget.bounded && !old(budget.exhausted) ==> !budget.exhausted
          invariant !budget.exhausted ==>
                      forall j | 0 <= j < i :: !(locals[j].exact && locals[j].whole && locals[j].completes)
        {
          if locals[i].exact && locals[i].whole {
            var ok := budget.SpendAll(locals[i].cost);
            if ok && locals[i].completes {
              return true, true;
            }
          }
          i := i + 1;
        }
        return false, true;
    }

    /** Runs one state's block; no successors if control ends there, and stop
    once a matching return is uncovered or nothing is left to spend. */
    method Step(s: State) returns (next: seq<State>, go: bool)
      requires WellFormed(fn) && InFunction(fn, s) && Live() && !failed
      modifies this, budget
      ensures budget.Valid()
      ensures !budget.bounded ==> !budget.exhausted
      ensures !budget.exhausted ==> go == !failed && (go ==> Follows(fn, s, next))
      ensures !budget.exhausted ==> matched == (old(matched) || RelevantState(fn, s)) && failed == UncoveredState(fn, s)
    {
      var instrs, completed := fn.blocks[s.block], s.completed;
      var i := 0;
      while i < |instrs|
        invariant i <= |instrs| && budget.Valid() && matched == old(matched) && !failed
        invariant !budget.bounded ==> !budget.exhausted
        invariant !budget.exhausted ==> ExitOf(instrs[i..], completed) == StateExit(fn, s)
      {
        var ok := budget.Spend();
        if !ok {
          failed := true;
          return [], false;
        }
        ok := budget.SpendAll(1 + instrs[i].cost);
        completed := completed || (ok && instrs[i].completes);
        if instrs[i].role.Terminates? {
          return [], true;
        }
        if instrs[i].role.Returns? {
          var covered, relevant := ConditionalReturn(instrs[i].role.returned, completed);
          matched := matched || relevant;
          failed := failed || (relevant && !covered);
          return [], !failed;
        }
        assert instrs[i..][1..] == instrs[i + 1..];
        i := i + 1;
      }
      next := Successors(s, completed);
      go := !failed;
    }

    method Successors(s: State, completed: bool) returns (next: seq<State>)
      requires budget.Valid() && InFunction(fn, s) && !failed
      requires !budget.exhausted ==> StateExit(fn, s) == Leaves(completed)
      modifies this, budget
      ensures budget.Valid() && matched == old(matched) && (failed ==> budget.exhausted)
      ensures old(budget.exhausted) ==> budget.exhausted
      ensures !budget.bounded && !old(budget.exhausted) ==> !budget.exhausted
      ensures !budget.exhausted ==> Follows(fn, s, next)
    {
      next := [];
      var ok := budget.SpendAll(fn.effort);
      if !ok {
        return;
      }
      var successors := fn.feasible(s.block, s.predecessor);
      var k := 0;
      while k < |successors|
        invariant k <= |successors| && budget.Valid() && matched == old(matched) && !failed
        invariant old(budget.exhausted) ==> budget.exhausted
        invariant !budget.bounded && !old(budget.exhausted) ==> !budget.exhausted
        invariant |next| == k && forall j | 0 <= j < k :: next[j] == State(successors[j], Some(s.block), completed)
      {
        ok := budget.Spend();
        if !ok {
          failed := true;
          return [];
        }
        next := next + [State(successors[k], Some(s.block), completed)];
        k := k + 1;
      }
    }

    /** The whole search. True is always evidence; while the budget lasts, false
    is too. */
    method Covers() returns (covered: bool)
      requires WellFormed(fn) && Live() && !matched && !failed
      modifies this, budget
      ensures covered ==> EveryMatchingReturnCovered(fn)
      ensures !budget.exhausted ==> (covered <==> EveryMatchingReturnCovered(fn))
    {
      var queue, expanded: set<State> := [INITIAL], {};
      ReachesSelf(Next(fn), INITIAL);
      StatesDecide(fn);
      while queue != []
        invariant Live() && !failed && Walked(fn, expanded, queue) && FlagsExact(fn, expanded, matched, failed)
        decreases AllStates(fn) - expanded, |queue|
      {
        var ok := budget.Spend();
        if !ok {
          return false;
        }
        var s := queue[0];
        assert s in queue;
        if s in expanded {
          queue := queue[1..];
        } else {
          InAllStates(fn, s);
          var next, go := Step(s);
          if budget.exhausted {
            return false;
          }
          if !go {
            return false;
          }
          StepWalked(fn, expanded, queue, next);
          expanded, queue := expanded + {s}, queue[1..] + next;
        }
      }
      AllWalked(fn, expanded);
      return matched && !failed;
    }
  }
}
