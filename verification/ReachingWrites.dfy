/** What a local storage cell holds at an observation: a backward search over
the control flow for the write that reaches it, and the shortcut for a sole
dominating write. */
module ReachingWrites {
  import opened Options
  import opened Graphs
  import opened Budgets

  type Value = nat

  /** What matters to one location: the allocation that owns it, and the stores
  that overlap it. A full write covers it; projected is what its operand
  projects to, if that was proved, at the cost of a nested query. */
  datatype Instr = Plain | Alloc | Partial | Full(projected: Option<Value>, cost: nat)

  datatype Block = Block(instrs: seq<Instr>, preds: seq<nat>)

  datatype Function = Function(blocks: seq<Block>)

  datatype Reason = NoReachingWrite | WriteInCycle | PartialWrite | ConflictingWrites | NotProjected | BudgetExhausted
                  | AddressEscapes | WriteThroughAlias

  datatype Answer = Proven(value: Value) | Unknown(reason: Reason)

  /** The equality oracle and what asking it costs. */
  datatype Query = Query(fn: Function, same: (Value, Value) -> bool, sameCost: (Value, Value) -> nat)

  /** The entry is block 0 and has no predecessor. */
  predicate WellFormed(fn: Function) {
    && fn.blocks != [] && fn.blocks[0].preds == []
    && forall b, k | 0 <= b < |fn.blocks| && 0 <= k < |fn.blocks[b].preds| :: fn.blocks[b].preds[k] < |fn.blocks|
  }

  function Edge(fn: Function): (nat, nat) -> bool {
    (a: nat, b: nat) => b < |fn.blocks| && a in fn.blocks[b].preds
  }

  predicate InFunction(fn: Function, block: nat, index: nat) {
    block < |fn.blocks| && index <= |fn.blocks[block].instrs|
  }

  function Length(fn: Function, block: nat): nat
    requires block < |fn.blocks|
  {
    |fn.blocks[block].instrs|
  }

  // ---- What the answer means ------------------------------------------------

  /** The last instruction before the index that matters, if any. */
  function Scan(instrs: seq<Instr>, index: nat): Option<Instr>
    requires index <= |instrs|
  {
    if index == 0 then None
    else if !instrs[index - 1].Plain? then Some(instrs[index - 1])
    else Scan(instrs, index - 1)
  }

  /** The last instruction that mattered on a path into the index. */
  ghost function LastBefore(fn: Function, path: seq<nat>, index: nat): Option<Instr>
    requires path != [] && (forall i | 0 <= i < |path| :: path[i] < |fn.blocks|) &&
             index <= Length(fn, path[|path| - 1])
    decreases |path|
  {
    var found := Scan(fn.blocks[path[|path| - 1]].instrs, index);
    if found.Some? || |path| == 1 then found
    else LastBefore(fn, path[..|path| - 1], Length(fn, path[|path| - 2]))
  }

  predicate Holds(meaning: Value -> int, found: Option<Instr>, value: Value) {
    found.Some? && found.value.Full? && found.value.projected.Some? &&
      meaning(found.value.projected.value) == meaning(value)
  }

  ghost predicate EntryPath(fn: Function, path: seq<nat>, block: nat) {
    PathFrom(Edge(fn), path, 0, block) && forall i | 0 <= i < |path| :: path[i] < |fn.blocks|
  }

  /** On every path from the entry the last thing that happened to the location
  before the index is a full write of the value; so it happened after the last
  run of the allocation. */
  ghost predicate AlwaysHolds(fn: Function, meaning: Value -> int, block: nat, index: nat, value: Value)
    requires InFunction(fn, block, index)
  {
    forall path | EntryPath(fn, path, block) :: Holds(meaning, LastBefore(fn, path, index), value)
  }

  ghost predicate Sound(q: Query, meaning: Value -> int) {
    forall a, b | q.same(a, b) :: meaning(a) == meaning(b)
  }

  // ---- The search -----------------------------------------------------------

  function Inactive(fn: Function, active: set<nat>): nat {
    |UpTo(|fn.blocks|) - active|
  }

  lemma InactiveShrinks(fn: Function, active: set<nat>, block: nat)
    requires block < |fn.blocks| && block !in active
    ensures Inactive(fn, active + {block}) < Inactive(fn, active)
  {
    assert UpTo(|fn.blocks|) - (active + {block}) == UpTo(|fn.blocks|) - active - {block};
  }

  function Projected(write: Instr): Answer
    requires write.Full?
  {
    if write.projected.Some? then Proven(write.projected.value) else Unknown(NotProjected)
  }

  /** The search with nothing to spend: the answer at an index of a block, given
  the blocks the search is already inside. */
  function Search(q: Query, block: nat, index: nat, active: set<nat>): Answer
    requires WellFormed(q.fn) && InFunction(q.fn, block, index)
    decreases Inactive(q.fn, active), 0
  {
    if block in active then Unknown(WriteInCycle)
    else
      var found := Scan(q.fn.blocks[block].instrs, index);
      if found.None? then
        InactiveShrinks(q.fn, active, block);
        Agreed(q, block, 0, active + {block}, None)
      else match found.value
        case Alloc => Unknown(NoReachingWrite)
        case Partial => Unknown(PartialWrite)
        case Full(_, _) => Projected(found.value)
        case Plain => Unknown(NoReachingWrite)
  }

  /** The one value all predecessors from the k-th on agree on. */
  function Agreed(q: Query, block: nat, k: nat, active: set<nat>, agreed: Option<Value>): Answer
    requires WellFormed(q.fn) && block < |q.fn.blocks| && k <= |q.fn.blocks[block].preds|
    decreases Inactive(q.fn, active), 1 + |q.fn.blocks[block].preds| - k
  {
    var preds := q.fn.blocks[block].preds;
    if k == |preds| then
      if agreed.Some? then Proven(agreed.value) else Unknown(NoReachingWrite)
    else
      var pred := preds[k];
      var incoming := Search(q, pred, Length(q.fn, pred), active);
      if incoming.Unknown? then incoming
      else if agreed.Some? && !q.same(agreed.value, incoming.value) then Unknown(ConflictingWrites)
      else Agreed(q, block, k + 1, active, Some(incoming.value))
  }

  /** A budget cut may turn the answer into unknown and nothing else. */
  predicate CutOf(answer: Answer, whole: Answer, exhausted: bool) {
    answer == whole || (exhausted && answer.Unknown?)
  }

  class ReachingStorage {
    const q: Query
    const budget: SearchBudget
    var active: set<nat>

    constructor (q: Query, budget: SearchBudget)
      ensures this.q == q && this.budget == budget && active == {}
    {
      this.q, this.budget, active := q, budget, {};
    }

    method Project(write: Instr) returns (answer: Answer)
      requires budget.Valid() && write.Full?
      modifies budget
      ensures budget.Valid() && (old(budget.exhausted) ==> budget.exhausted) && (!budget.bounded ==> !budget.exhausted)
      ensures CutOf(answer, Projected(write), budget.exhausted)
    {
      var ok := budget.SpendAll(write.cost);
      answer := if !ok then Unknown(BudgetExhausted)
                else if write.projected.Some? then Proven(write.projected.value)
                else Unknown(NotProjected);
    }

    /** Whether the oracle proves the values equal within the budget. */
    method Same(a: Value, b: Value) returns (proven: bool)
      requires budget.Valid()
      modifies budget
      ensures budget.Valid() && (old(budget.exhausted) ==> budget.exhausted) && (!budget.bounded ==> !budget.exhausted)
      ensures proven ==> q.same(a, b)
      ensures !proven && q.same(a, b) ==> budget.exhausted
    {
      var ok := budget.SpendAll(q.sameCost(a, b));
      proven := ok && q.same(a, b);
    }

    /** The backward scan of one block. */
    method ScanBack(block: nat, index: nat) returns (found: Option<Instr>, ok: bool)
      requires budget.Valid() && InFunction(q.fn, block, index)
      modifies budget
      ensures budget.Valid() && (old(budget.exhausted) ==> budget.exhausted) && (!budget.bounded ==> !budget.exhausted)
      ensures ok ==> found == Scan(q.fn.blocks[block].instrs, index)
      ensures !ok ==> budget.exhausted
    {
      var instrs := q.fn.blocks[block].instrs;
      var i := index;
      while i > 0
        invariant 0 <= i <= index && Scan(instrs, i) == Scan(instrs, index)
        invariant budget.Valid() && (old(budget.exhausted) ==> budget.exhausted) &&
                  (!budget.bounded ==> !budget.exhausted)
      {
        ok := budget.Spend();
        if !ok {
          return None, false;
        }
        if !instrs[i - 1].Plain? {
          return Some(instrs[i - 1]), true;
        }
        i := i - 1;
      }
      return None, true;
    }

    /** The search itself; active holds the blocks on the recursion stack. It
    ends on any control flow, and its answer is the unbudgeted one unless the
    budget cut it short. */
    method Before(block: nat, index: nat) returns (answer: Answer)
      requires WellFormed(q.fn) && InFunction(q.fn, block, index) && budget.Valid()
      modifies this, budget
      ensures active == old(active) && budget.Valid()
      ensures (old(budget.exhausted) ==> budget.exhausted) && (!budget.bounded ==> !budget.exhausted)
      ensures CutOf(answer, Search(q, block, index, active), budget.exhausted)
      decreases Inactive(q.fn, active), 0
    {
      if block in active {
        return Unknown(WriteInCycle);
      }
      var ok := budget.Spend();
      if !ok {
        return Unknown(BudgetExhausted);
      }
      InactiveShrinks(q.fn, active, block);
      active := active + {block};
      var found;
      found, ok := ScanBack(block, index);
      if !ok {
        answer := Unknown(BudgetExhausted);
      } else if found.None? {
        answer := Merge(block);
      } else if found.value.Full? {
        answer := Project(found.value);
      } else {
        answer := Unknown(if found.value.Partial? then PartialWrite else NoReachingWrite);
      }
      active := active - {block};
    }

    /** The loop over the predecessors of a block nothing was found in. */
    method Merge(block: nat) returns (answer: Answer)
      requires WellFormed(q.fn) && block < |q.fn.blocks| && budget.Valid() && block in active
      modifies this, budget
      ensures active == old(active) && budget.Valid()
      ensures (old(budget.exhausted) ==> budget.exhausted) && (!budget.bounded ==> !budget.exhausted)
      ensures CutOf(answer, Agreed(q, block, 0, active, None), budget.exhausted)
      decreases Inactive(q.fn, active), 1
    {
      var preds := q.fn.blocks[block].preds;
      var agreed: Option<Value> := None;
      var k := 0;
      while k < |preds|
        invariant k <= |preds| && active == old(active) && budget.Valid()
        invariant (old(budget.exhausted) ==> budget.exhausted) && (!budget.bounded ==> !budget.exhausted)
        invariant Agreed(q, block, k, active, agreed) == Agreed(q, block, 0, active, None)
      {
        var incoming := Before(preds[k], |q.fn.blocks[preds[k]].instrs|);
        if incoming.Unknown? {
          return incoming;
        }
        if agreed.Some? {
          var same := Same(agreed.value, incoming.value);
          if !same {
            return Unknown(if budget.exhausted then BudgetExhausted else ConflictingWrites);
          }
        }
        agreed := Some(incoming.value);
        k := k + 1;
      }
      return if agreed.Some? then Proven(agreed.value) else Unknown(NoReachingWrite);
    }
  }

  // ---- What a proven answer promises ----------------------------------------

  ghost predicate Placed(fn: Function, path: seq<nat>, index: nat) {
    path != [] && (forall i | 0 <= i < |path| :: path[i] < |fn.blocks|) && index <= Length(fn, path[|path| - 1])
  }

  /** Walking the path backwards meets a full write of the value before it
  meets anything else that matters, and before any block of avoid or any
  block twice. */
  ghost predicate Clean(fn: Function, meaning: Value -> int, path: seq<nat>, index: nat, avoid: set<nat>, value: Value)
    requires Placed(fn, path, index)
    decreases |path|
  {
    var n := |path|;
    path[n - 1] !in avoid &&
    var found := Scan(fn.blocks[path[n - 1]].instrs, index);
    if found.Some? then Holds(meaning, found, value)
    else n > 1 && Clean(fn, meaning, path[..n - 1], Length(fn, path[n - 2]), avoid + {path[n - 1]}, value)
  }

  lemma {:induction false} CleanHolds(fn: Function, meaning: Value -> int, path: seq<nat>, index: nat, avoid: set<nat>,
                                      value: Value)
    requires Placed(fn, path, index) && Clean(fn, meaning, path, index, avoid, value)
    ensures Holds(meaning, LastBefore(fn, path, index), value)
    decreases |path|
  {
    if Scan(fn.blocks[path[|path| - 1]].instrs, index).None? {
      CleanHolds(fn, meaning, path[..|path| - 1], Length(fn, path[|path| - 2]), avoid + {path[|path| - 1]}, value);
    }
  }

  lemma {:induction false} CleanSame(fn: Function, meaning: Value -> int, path: seq<nat>, index: nat, avoid: set<nat>,
                                     v: Value, w: Value)
    requires Placed(fn, path, index) && Clean(fn, meaning, path, index, avoid, v) && meaning(v) == meaning(w)
    ensures Clean(fn, meaning, path, index, avoid, w)
    decreases |path|
  {
    if Scan(fn.blocks[path[|path| - 1]].instrs, index).None? {
      CleanSame(fn, meaning, path[..|path| - 1], Length(fn, path[|path| - 2]), avoid + {path[|path| - 1]}, v, w);
    }
  }

  /** Every predecessor agreed with the answer. */
  lemma {:induction false} AgreedGives(q: Query, meaning: Value -> int, block: nat, k: nat, active: set<nat>,
                                       agreed: Option<Value>, j: nat)
    requires WellFormed(q.fn) && Sound(q, meaning) && block < |q.fn.blocks|
    requires k <= |q.fn.blocks[block].preds| && Agreed(q, block, k, active, agreed).Proven?
    ensures var preds := q.fn.blocks[block].preds;
            var v := Agreed(q, block, k, active, agreed).value;
            && (agreed.Some? ==> meaning(agreed.value) == meaning(v))
            && (k <= j < |preds| ==>
                  var incoming := Search(q, preds[j], Length(q.fn, preds[j]), active);
                  incoming.Proven? && meaning(incoming.value) == meaning(v))
    decreases |q.fn.blocks[block].preds| - k
  {
    var preds := q.fn.blocks[block].preds;
    if k < |preds| {
      var incoming := Search(q, preds[k], Length(q.fn, preds[k]), active);
      AgreedGives(q, meaning, block, k + 1, active, Some(incoming.value), j);
    }
  }

  lemma {:induction false} SearchClean(q: Query, meaning: Value -> int, block: nat, index: nat, active: set<nat>,
                                       path: seq<nat>)
    requires WellFormed(q.fn) && Sound(q, meaning) && InFunction(q.fn, block, index)
    requires Search(q, block, index, active).Proven? && EntryPath(q.fn, path, block)
    ensures Clean(q.fn, meaning, path, index, active, Search(q, block, index, active).value)
    decreases |path|
  {
    var n, v := |path|, Search(q, block, index, active).value;
    if Scan(q.fn.blocks[block].instrs, index).None? {
      var active' := active + {block};
      if n > 1 {
        var preds := q.fn.blocks[block].preds;
        assert Edge(q.fn)(path[n - 2], path[n - 1]);
        var j :| 0 <= j < |preds| && preds[j] == path[n - 2];
        AgreedGives(q, meaning, block, 0, active', None, j);
        var front := path[..n - 1];
        assert EntryPath(q.fn, front, preds[j]);
        SearchClean(q, meaning, preds[j], Length(q.fn, preds[j]), active', front);
        CleanSame(q.fn, meaning, front, Length(q.fn, preds[j]), active',
                  Search(q, preds[j], Length(q.fn, preds[j]), active').value, v);
      }
    }
  }

  /** If the search proves a value, then on every path from the entry a full
  write of that value is the last thing that happened to the location. */
  lemma SearchSound(q: Query, meaning: Value -> int, block: nat, index: nat, active: set<nat>)
    requires WellFormed(q.fn) && Sound(q, meaning) && InFunction(q.fn, block, index)
    requires Search(q, block, index, active).Proven?
    ensures AlwaysHolds(q.fn, meaning, block, index, Search(q, block, index, active).value)
  {
    var v := Search(q, block, index, active).value;
    forall path | EntryPath(q.fn, path, block) ensures Holds(meaning, LastBefore(q.fn, path, index), v) {
      SearchClean(q, meaning, block, index, active, path);
      CleanHolds(q.fn, meaning, path, index, active, v);
    }
  }

  // ---- Exactly when the search proves a value -------------------------------

  ghost predicate Exact(q: Query, meaning: Value -> int) {
    forall a, b :: q.same(a, b) <==> meaning(a) == meaning(b)
  }

  ghost predicate Walk(fn: Function, path: seq<nat>, block: nat) {
    IsPath(Edge(fn), path) && path[|path| - 1] == block && forall i | 0 <= i < |path| :: path[i] < |fn.blocks|
  }

  function IndexAt(fn: Function, path: seq<nat>, i: nat, index: nat): nat
    requires i < |path| && path[i] < |fn.blocks|
  {
    if i == |path| - 1 then index else Length(fn, path[i])
  }

  /** Nothing matters on the walk but perhaps in its first block. */
  ghost predicate Open(fn: Function, path: seq<nat>, index: nat)
    requires Placed(fn, path, index)
  {
    forall i | 0 < i < |path| :: Scan(fn.blocks[path[i]].instrs, IndexAt(fn, path, i, index)).None?
  }

  /** An open walk does not come back to its first block, and there it finds a
  full write of the value or more predecessors. */
  ghost predicate WalkOk(fn: Function, meaning: Value -> int, path: seq<nat>, index: nat, avoid: set<nat>, value: Value)
    requires Placed(fn, path, index)
  {
    Open(fn, path, index) ==>
      path[0] !in avoid && path[0] !in path[1..] &&
      var found := Scan(fn.blocks[path[0]].instrs, IndexAt(fn, path, 0, index));
      if found.Some? then Holds(meaning, found, value) else fn.blocks[path[0]].preds != []
  }

  ghost predicate AllWalksOk(fn: Function, meaning: Value -> int, block: nat, index: nat, avoid: set<nat>, value: Value)
    requires InFunction(fn, block, index)
  {
    forall path | Walk(fn, path, block) :: WalkOk(fn, meaning, path, index, avoid, value)
  }

  lemma OpenExtends(fn: Function, front: seq<nat>, block: nat, index: nat)
    requires InFunction(fn, block, index) && front != [] && forall i | 0 <= i < |front| :: front[i] < |fn.blocks|
    ensures var pred := front[|front| - 1];
            Open(fn, front + [block], index) <==>
            Open(fn, front, Length(fn, pred)) && Scan(fn.blocks[block].instrs, index).None?
  {
    var path, pred := front + [block], front[|front| - 1];
    forall i | 0 < i < |front| ensures IndexAt(fn, path, i, index) == IndexAt(fn, front, i, Length(fn, pred)) {
    }
    assert path[|front|] == block;
    if Open(fn, front, Length(fn, pred)) && Scan(fn.blocks[block].instrs, index).None? {
      forall i | 0 < i < |path| ensures Scan(fn.blocks[path[i]].instrs, IndexAt(fn, path, i, index)).None? {
        assert i < |front| ==> path[i] == front[i];
      }
    }
    if Open(fn, path, index) {
      forall i | 0 < i < |front| ensures Scan(fn.blocks[front[i]].instrs,
                                              IndexAt(fn, front, i, Length(fn, pred))).None? {
        assert path[i] == front[i];
      }
    }
  }

  lemma WalkLonger(fn: Function, meaning: Value -> int, front: seq<nat>, block: nat, index: nat, avoid: set<nat>,
                   w: Value, v: Value)
    requires InFunction(fn, block, index) && front != [] && forall i | 0 <= i < |front| :: front[i] < |fn.blocks|
    requires WalkOk(fn, meaning, front, Length(fn, front[|front| - 1]), avoid + {block}, w) && meaning(w) == meaning(v)
    ensures WalkOk(fn, meaning, front + [block], index, avoid, v)
  {
    OpenExtends(fn, front, block, index);
    assert (front + [block])[1..] == front[1..] + [block];
  }

  lemma {:induction false} ProvenWalks(q: Query, meaning: Value -> int, block: nat, index: nat, active: set<nat>,
                                       path: seq<nat>)
    requires WellFormed(q.fn) && Sound(q, meaning) && InFunction(q.fn, block, index)
    requires Search(q, block, index, active).Proven? && Walk(q.fn, path, block)
    ensures WalkOk(q.fn, meaning, path, index, active, Search(q, block, index, active).value)
    decreases |path|
  {
    var n := |path|;
    if n > 1 && Open(q.fn, path, index) {
      var front, preds, active' := path[..n - 1], q.fn.blocks[block].preds, active + {block};
      assert path == front + [block];
      assert Edge(q.fn)(path[n - 2], path[n - 1]);
      var j :| 0 <= j < |preds| && preds[j] == path[n - 2];
      OpenExtends(q.fn, front, block, index);
      AgreedGives(q, meaning, block, 0, active', None, j);
      ProvenWalks(q, meaning, preds[j], Length(q.fn, preds[j]), active', front);
      WalkLonger(q.fn, meaning, front, block, index, active, Search(q, preds[j], Length(q.fn, preds[j]), active').value,
                 Search(q, block, index, active).value);
    }
  }

  /** When every predecessor's search proves the value, so does their merge. */
  lemma {:induction false} AgreedProven(q: Query, meaning: Value -> int, block: nat, k: nat, active: set<nat>,
                                        agreed: Option<Value>, v: Value)
    requires WellFormed(q.fn) && Exact(q, meaning) && block < |q.fn.blocks| && k <= |q.fn.blocks[block].preds|
    requires if agreed.Some? then meaning(agreed.value) == meaning(v) else k < |q.fn.blocks[block].preds|
    requires forall j | k <= j < |q.fn.blocks[block].preds| ::
               var pred := q.fn.blocks[block].preds[j];
               var incoming := Search(q, pred, Length(q.fn, pred), active);
               incoming.Proven? && meaning(incoming.value) == meaning(v)
    ensures var answer := Agreed(q, block, k, active, agreed); answer.Proven? && meaning(answer.value) == meaning(v)
    decreases |q.fn.blocks[block].preds| - k
  {
    var preds := q.fn.blocks[block].preds;
    if k < |preds| {
      AgreedProven(q, meaning, block, k + 1, active, Some(Search(q, preds[k], Length(q.fn, preds[k]), active).value),
                   v);
    }
  }

  lemma {:induction false} WalksProve(q: Query, meaning: Value -> int, block: nat, index: nat, active: set<nat>,
                                      v: Value)
    requires WellFormed(q.fn) && Exact(q, meaning) && InFunction(q.fn, block, index)
    requires AllWalksOk(q.fn, meaning, block, index, active, v)
    ensures var answer := Search(q, block, index, active); answer.Proven? && meaning(answer.value) == meaning(v)
    decreases Inactive(q.fn, active)
  {
    assert Walk(q.fn, [block], block);
    assert WalkOk(q.fn, meaning, [block], index, active, v) && Open(q.fn, [block], index);
    if Scan(q.fn.blocks[block].instrs, index).None? {
      InactiveShrinks(q.fn, active, block);
      var preds, active' := q.fn.blocks[block].preds, active + {block};
      forall j | 0 <= j < |preds|
        ensures var incoming := Search(q, preds[j], Length(q.fn, preds[j]), active');
                incoming.Proven? && meaning(incoming.value) == meaning(v)
      {
        PredWalks(q, meaning, block, index, active, v, j);
        WalksProve(q, meaning, preds[j], Length(q.fn, preds[j]), active', v);
      }
      AgreedProven(q, meaning, block, 0, active', None, v);
    }
  }

  lemma PredWalks(q: Query, meaning: Value -> int, block: nat, index: nat, active: set<nat>, v: Value, j: nat)
    requires WellFormed(q.fn) && InFunction(q.fn, block, index) && Scan(q.fn.blocks[block].instrs, index).None?
    requires AllWalksOk(q.fn, meaning, block, index, active, v) && j < |q.fn.blocks[block].preds|
    ensures var pred := q.fn.blocks[block].preds[j];
            AllWalksOk(q.fn, meaning, pred, Length(q.fn, pred), active + {block}, v)
  {
    var pred := q.fn.blocks[block].preds[j];
    forall front | Walk(q.fn, front, pred)
      ensures WalkOk(q.fn, meaning, front, Length(q.fn, pred), active + {block}, v)
    {
      var path := front + [block];
      assert Walk(q.fn, path, block);
      assert WalkOk(q.fn, meaning, path, index, active, v);
      OpenExtends(q.fn, front, block, index);
      assert path[1..] == front[1..] + [block];
    }
  }

  /** With nothing cut short and an exact oracle, the search proves the value
  exactly when no backward walk cycles or runs out before it meets a write, and
  every write met first is a full write of the value. */
  lemma SearchExactly(q: Query, meaning: Value -> int, block: nat, index: nat, v: Value)
    requires WellFormed(q.fn) && Exact(q, meaning) && InFunction(q.fn, block, index)
    ensures (var answer := Search(q, block, index, {}); answer.Proven? && meaning(answer.value) == meaning(v)) <==>
            AllWalksOk(q.fn, meaning, block, index, {}, v)
  {
    if AllWalksOk(q.fn, meaning, block, index, {}, v) {
      WalksProve(q, meaning, block, index, {}, v);
    }
    var answer := Search(q, block, index, {});
    if answer.Proven? && meaning(answer.value) == meaning(v) {
      forall path | Walk(q.fn, path, block) ensures WalkOk(q.fn, meaning, path, index, {}, v) {
        ProvenWalks(q, meaning, block, index, {}, path);
      }
    }
  }
}
