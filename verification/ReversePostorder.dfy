/** The block order of the fixpoint. */
module ReversePostorder {
  import opened Graphs

  type Successors = seq<seq<int>>

  predicate InRange(succs: Successors) {
    forall b, i | 0 <= b < |succs| && 0 <= i < |succs[b]| :: 0 <= succs[b][i] < |succs|
  }

  function FlowEdge(succs: Successors): (int, int) -> bool {
    (a: int, b: int) => 0 <= a < |succs| && b in succs[a]
  }

  predicate Distinct(order: seq<int>) {
    forall i, j | 0 <= i < j < |order| :: order[i] != order[j]
  }

  function Elements(order: seq<int>): set<int> {
    set b | b in order
  }

  /** An edge out of a finished block leads to an earlier one, or to a block
  that reaches it. */
  ghost predicate PostOrdered(succs: Successors, order: seq<int>) {
    forall i, v | 0 <= i < |order| && 0 <= order[i] < |succs| && v in succs[order[i]] ::
      v in order[..i] || Reaches(FlowEdge(succs), v, order[i])
  }

  /** v comes before u across an edge u to v only when v reaches u. */
  ghost predicate ReverseOrdered(succs: Successors, order: seq<int>) {
    forall i, j | 0 <= j < i < |order| && 0 <= order[i] < |succs| && order[j] in succs[order[i]] ::
      Reaches(FlowEdge(succs), order[j], order[i])
  }

  function Reversed(order: seq<int>): (r: seq<int>)
    ensures |r| == |order| && forall i | 0 <= i < |order| :: r[i] == order[|order| - 1 - i]
  {
    seq(|order|, i requires 0 <= i < |order| => order[|order| - 1 - i])
  }

  /** The state of the walk; active holds the blocks on the recursion stack. */
  ghost predicate WalkOk(succs: Successors, seen: set<int>, order: seq<int>, active: set<int>) {
    && InRange(succs) && seen <= UpTo(|succs|)
    && seen == active + Elements(order) && active !! Elements(order)
    && Distinct(order)
    && (forall b, v | b in order && 0 <= b < |succs| && v in succs[b] :: v in seen)
    && PostOrdered(succs, order)
  }

  /** Every block of the set reaches the block. */
  ghost predicate AllReach(succs: Successors, group: set<int>, block: int) {
    forall a | a in group :: Reaches(FlowEdge(succs), a, block)
  }

  ghost predicate AllReachedFrom(succs: Successors, block: int, group: set<int>) {
    forall a | a in group :: Reaches(FlowEdge(succs), block, a)
  }

  /** The blocks met so far, and those finished, in order. */
  datatype Progress = Progress(seen: set<int>, order: seq<int>)

  function Unseen(succs: Successors, seen: set<int>): nat {
    |UpTo(|succs|) - seen|
  }

  predicate AllInRange(succs: Successors, list: seq<int>) {
    forall i | 0 <= i < |list| :: 0 <= list[i] < |succs|
  }

  lemma UnseenShrinks(succs: Successors, seen: set<int>, more: set<int>)
    requires seen <= more
    ensures Unseen(succs, more) <= Unseen(succs, seen)
    ensures forall b | 0 <= b < |succs| && b in more && b !in seen :: Unseen(succs, more) < Unseen(succs, seen)
  {
    var big, small := UpTo(|succs|) - seen, UpTo(|succs|) - more;
    assert big == small + (big - small);
    assert |big| == |small| + |big - small|;
    forall b | 0 <= b < |succs| && b in more && b !in seen ensures |small| < |big| {
      assert b in big - small;
    }
  }

  /** The depth-first walk from one block. */
  function VisitOne(succs: Successors, p: Progress, block: int): (r: Progress)
    requires InRange(succs) && 0 <= block < |succs|
    ensures p.seen <= r.seen && block in r.seen
    decreases Unseen(succs, p.seen), 0
  {
    if block in p.seen then p
    else
      UnseenShrinks(succs, p.seen, p.seen + {block});
      var inner := VisitAll(succs, p.(seen := p.seen + {block}), succs[block]);
      inner.(order := inner.order + [block])
  }

  function VisitAll(succs: Successors, p: Progress, list: seq<int>): (r: Progress)
    requires InRange(succs) && AllInRange(succs, list)
    ensures p.seen <= r.seen
    decreases Unseen(succs, p.seen), 1 + |list|
  {
    if list == [] then p
    else
      var mid := VisitOne(succs, p, list[0]);
      UnseenShrinks(succs, p.seen, mid.seen);
      VisitAll(succs, mid, list[1..])
  }

  ghost predicate ProgressOk(succs: Successors, p: Progress, active: set<int>) {
    WalkOk(succs, p.seen, p.order, active)
  }

  /** Everything newly met is reached from the block, which finishes last. */
  lemma {:induction false} VisitOneOk(succs: Successors, p: Progress, active: set<int>, block: int)
    requires ProgressOk(succs, p, active) && 0 <= block < |succs| && AllReach(succs, active, block)
    ensures var r := VisitOne(succs, p, block);
            ProgressOk(succs, r, active) && AllReachedFrom(succs, block, r.seen - p.seen) &&
            (block !in p.seen ==> r.order != [] && r.order[|r.order| - 1] == block)
    decreases Unseen(succs, p.seen), 0
  {
    if block !in p.seen {
      EnterOk(succs, p.seen, p.order, active, block);
      UnseenShrinks(succs, p.seen, p.seen + {block});
      var entered := p.(seen := p.seen + {block});
      var inner := VisitAll(succs, entered, succs[block]);
      VisitAllOk(succs, entered, active + {block}, block, succs[block]);
      FinishOk(succs, inner.seen, inner.order, active, block);
      ReachesSelf(FlowEdge(succs), block);
      assert inner.seen - p.seen <= (inner.seen - entered.seen) + {block};
    }
  }

  lemma {:induction false} VisitAllOk(succs: Successors, p: Progress, active: set<int>, block: int, list: seq<int>)
    requires ProgressOk(succs, p, active) && 0 <= block < |succs| && AllReach(succs, active, block)
    requires forall i | 0 <= i < |list| :: list[i] in succs[block]
    ensures AllInRange(succs, list)
    ensures var r := VisitAll(succs, p, list);
            ProgressOk(succs, r, active) && AllReachedFrom(succs, block, r.seen - p.seen) &&
            forall i | 0 <= i < |list| :: list[i] in r.seen
    decreases Unseen(succs, p.seen), 1 + |list|
  {
    if list != [] {
      var mid := VisitOne(succs, p, list[0]);
      assert list[0] in succs[block];
      StepOk(succs, active, block, list[0]);
      VisitOneOk(succs, p, active, list[0]);
      UnseenShrinks(succs, p.seen, mid.seen);
      VisitAllOk(succs, mid, active, block, list[1..]);
      var r := VisitAll(succs, p, list);
      StepBack(succs, p.seen, mid.seen, r.seen, block, list[0]);
      forall i | 0 <= i < |list| ensures list[i] in r.seen {
        if i > 0 { assert list[i] == list[1..][i - 1]; }
      }
    }
  }

  /** The walk as the engine runs it, updating its map and list in place. */
  class Walk {
    const succs: Successors
    var seen: set<int>
    var order: seq<int>

    constructor (succs: Successors)
      ensures this.succs == succs && seen == {} && order == []
    {
      this.succs := succs;
      seen, order := {}, [];
    }

    /** Visits a block and everything newly reached from it. */
    method Visit(block: int)
      requires InRange(succs) && 0 <= block < |succs|
      modifies this
      ensures Progress(seen, order) == VisitOne(succs, old(Progress(seen, order)), block)
      decreases Unseen(succs, seen)
    {
      if block in seen { return; }
      UnseenShrinks(succs, seen, seen + {block});
      seen := seen + {block};
      ghost var entered := Progress(seen, order);
      var i := 0;
      while i < |succs[block]|
        invariant 0 <= i <= |succs[block]| && entered.seen <= seen
        invariant VisitAll(succs, entered, succs[block]) == VisitAll(succs, Progress(seen, order), succs[block][i..])
      {
        UnseenShrinks(succs, entered.seen, seen);
        assert succs[block][i..][1..] == succs[block][i + 1..];
        Visit(succs[block][i]);
        i := i + 1;
      }
      order := order + [block];
    }
  }

  lemma EnterOk(succs: Successors, seen: set<int>, order: seq<int>, active: set<int>, block: int)
    requires WalkOk(succs, seen, order, active) && 0 <= block < |succs| && block !in seen
    requires AllReach(succs, active, block)
    ensures WalkOk(succs, seen + {block}, order, active + {block})
    ensures AllReach(succs, active + {block}, block) && AllReachedFrom(succs, block, seen + {block} - seen)
  {
    ReachesSelf(FlowEdge(succs), block);
  }

  lemma StepOk(succs: Successors, active: set<int>, block: int, next: int)
    requires 0 <= block < |succs| && next in succs[block] && AllReach(succs, active, block)
    ensures AllReach(succs, active, next)
  {
    var edge := FlowEdge(succs);
    EdgeReaches(edge, block, next);
    forall a | a in active ensures Reaches(edge, a, next) {
      ReachesTransitive(edge, a, block, next);
    }
  }

  lemma StepBack(succs: Successors, first: set<int>, before: set<int>, seen: set<int>, block: int, next: int)
    requires 0 <= block < |succs| && next in succs[block]
    requires AllReachedFrom(succs, block, seen - before) && AllReachedFrom(succs, next, before - first)
    ensures AllReachedFrom(succs, block, seen - first)
  {
    var edge := FlowEdge(succs);
    EdgeReaches(edge, block, next);
    forall a | a in seen - first ensures Reaches(edge, block, a) {
      if a in before {
        ReachesTransitive(edge, block, next, a);
      }
    }
  }

  lemma FinishOk(succs: Successors, seen: set<int>, order: seq<int>, active: set<int>, block: int)
    requires WalkOk(succs, seen, order, active + {block}) && 0 <= block < |succs| && block !in active
    requires AllReach(succs, active + {block}, block)
    requires forall j | 0 <= j < |succs[block]| :: succs[block][j] in seen
    ensures WalkOk(succs, seen, order + [block], active)
  {
    FinishKeepsOrder(succs, order, active + {block}, seen, block);
    assert Elements(order + [block]) == Elements(order) + {block};
    assert block !in Elements(order);
  }

  /** Appending a block whose successors were all met keeps the order. */
  lemma FinishKeepsOrder(succs: Successors, order: seq<int>, active: set<int>, seen: set<int>, block: int)
    requires PostOrdered(succs, order) && 0 <= block < |succs|
    requires forall v | v in succs[block] :: v in seen
    requires seen == active + Elements(order)
    requires forall a | a in active :: Reaches(FlowEdge(succs), a, block)
    ensures PostOrdered(succs, order + [block])
  {
    var longer := order + [block];
    forall i, v | 0 <= i < |longer| && 0 <= longer[i] < |succs| && v in succs[longer[i]]
      ensures v in longer[..i] || Reaches(FlowEdge(succs), v, longer[i])
    {
      if i < |order| {
        assert longer[..i] == order[..i];
      } else {
        assert v in succs[block] && v in seen;
        assert longer[..i] == order;
      }
    }
  }

  /** Lists each block reachable from the entry once, the entry first, and puts
  the target of an edge before its source only if the target reaches it. */
  method ReversePostorderOf(succs: Successors) returns (order: seq<int>)
    requires InRange(succs) && succs != []
    ensures order != [] && order[0] == 0 && Distinct(order)
    ensures forall b :: b in order <==> Reaches(FlowEdge(succs), 0, b)
    ensures forall b | b in order :: 0 <= b < |succs|
    ensures ReverseOrdered(succs, order)
  {
    var walk := new Walk(succs);
    walk.Visit(0);
    VisitOneOk(succs, Progress({}, []), {}, 0);
    order := Reversed(walk.order);
    ReversedElements(walk.order);
    assert walk.seen == Elements(walk.order);
    forall b | Reaches(FlowEdge(succs), 0, b) ensures b in walk.seen {
      ClosedReach(FlowEdge(succs), walk.seen, 0, b);
    }
  }

  lemma ReversedElements(order: seq<int>)
    ensures forall b :: b in Reversed(order) <==> b in order
    ensures Distinct(order) ==> Distinct(Reversed(order))
  {
    var r := Reversed(order);
    forall b | b in order ensures b in r {
      var i :| 0 <= i < |order| && order[i] == b;
      assert r[|order| - 1 - i] == b;
    }
  }

  /** No block reaches itself. */
  ghost predicate Acyclic(succs: Successors) {
    forall b | 0 <= b < |succs| :: !ReachesOn(FlowEdge(succs), b, b)
  }

  /** On an acyclic function every predecessor comes first. */
  lemma AcyclicOrder(succs: Successors, order: seq<int>, i: int, j: int)
    requires Acyclic(succs) && ReverseOrdered(succs, order)
    requires 0 <= i < |order| && 0 <= j < |order| && 0 <= order[i] < |succs| && order[j] in succs[order[i]]
    ensures i < j
  {
    var edge := FlowEdge(succs);
    EdgeReaches(edge, order[i], order[j]);
    if j < i {
      ReachesTransitive(edge, order[i], order[j], order[i]);
    }
    assert i != j;
  }
}
