/** Whether a local object may be known outside its function: the recorded
escapes, and what exported values reach through stored contents. */
module EscapeQuery {
  import opened Options
  import opened SlotPaths
  import opened PointeeSets
  import opened RegionStates
  import opened StateEffects
  import opened Graphs
  import opened Budgets

  datatype Scope = WholeFunction | BodyOnly

  datatype Destination = ToResult | ToGlobalScope | ToFieldStore | ToChannel | ToCallee | ToGoroutine | ToRepresentation

  datatype Outcome = Unknown | Local | Observed

  datatype Reason =
    | Unavailable | IdentityUnknown | RecordedEscape | NothingEscapes | OpaqueCall
    | ReachabilityUnknown | BudgetExhausted | RepresentationUnknown

  datatype Event = Event(destination: Destination, at: Instruction)

  /** What the walk reads of a state: stored contents, and the slots that have
  a backing copy. */
  datatype View = View(contents: Contents, backing: set<Slot>)

  /** A value an instruction hands out; view is absent when the state before
  the instruction is not known. */
  datatype Export = Export(destination: Destination, tracked: bool, roots: Pointees, view: Option<View>)

  datatype Instr = Instr(at: Instruction, exports: seq<Export>)

  /** Blocks the fixpoint never entered are not reached. */
  datatype Block = Block(reached: bool, instrs: seq<Instr>)

  datatype Graph = Graph(blocks: seq<Block>, origins: map<Origin, Instruction>)

  // ---- What confinement means -----------------------------------------------

  predicate Overlap(a: Slot, b: Slot) {
    a.region == b.region && (a.path <= b.path || b.path <= a.path)
  }

  /** Two slots overlap exactly when some slot lies within both. */
  lemma OverlapExactly(a: Slot, b: Slot)
    ensures Overlap(a, b) <==> exists inner :: Beneath(inner, a) && Beneath(inner, b)
  {
    if inner :| Beneath(inner, a) && Beneath(inner, b) {
      if |a.path| <= |b.path| {
        assert a.path == inner.path[..|a.path|] == b.path[..|a.path|];
      } else {
        assert b.path == inner.path[..|b.path|] == a.path[..|b.path|];
      }
    }
    if Overlap(a, b) {
      assert Beneath(a, a) && Beneath(b, b);
    }
  }

  /** The walk goes on from objects of this function, but not past the target. */
  predicate GoesOn(a: Slot, target: Slot) {
    (a.region.Site? || a.region.Closure?) && !Overlap(a, target)
  }

  function Child(view: View, target: Slot): (Slot, Slot) -> bool {
    (a: Slot, b: Slot) => GoesOn(a, target) && exists t <- view.contents.Keys :: Beneath(t, a) && b in view.contents[t]
  }

  ghost predicate Exposes(view: View, roots: Pointees, target: Slot, t: Slot) {
    exists root <- roots.Keys :: Reaches(Child(view, target), root, t)
  }

  /** An exported value leads, through stored contents, to a slot that overlaps
  the target. */
  ghost predicate Leads(view: View, roots: Pointees, target: Slot) {
    exists t :: Exposes(view, roots, target, t) && Overlap(t, target)
  }

  predicate HasBacking(view: View, region: Region) {
    exists s <- view.backing :: s.region == region
  }

  predicate HoldsStale(view: View, a: Slot) {
    exists t <- view.contents.Keys :: Beneath(t, a) && exists p <- view.contents[t].Keys :: view.contents[t][p]
  }

  /** What a slot holds is all there: it is the target's or nil, or an object
  of this function without a backing copy that holds nothing stale. */
  predicate SlotKnown(view: View, target: Slot, t: Slot) {
    Overlap(t, target) || t.region.NilRegion? ||
    ((t.region.Site? || t.region.Closure?) && !HasBacking(view, t.region) && !HoldsStale(view, t))
  }

  predicate NoneStale(roots: Pointees) {
    forall root | root in roots :: !roots[root]
  }

  /** Nothing on the way is foreign, stale or backed by another copy. */
  ghost predicate AllKnown(view: View, roots: Pointees, target: Slot) {
    NoneStale(roots) && forall t | Exposes(view, roots, target, t) :: SlotKnown(view, target, t)
  }

  predicate InScope(handed: Export, scope: Scope) {
    handed.tracked && !(scope.BodyOnly? && handed.destination.ToResult?)
  }

  ghost predicate ExportConfined(handed: Export, target: Slot) {
    handed.view.Some? && AllKnown(handed.view.value, handed.roots, target) &&
      !Leads(handed.view.value, handed.roots, target)
  }

  predicate Exports(graph: Graph, scope: Scope, handed: Export, at: Instruction) {
    exists b, i :: 0 <= b < |graph.blocks| && graph.blocks[b].reached && 0 <= i < |graph.blocks[b].instrs| &&
      graph.blocks[b].instrs[i].at == at && handed in graph.blocks[b].instrs[i].exports && InScope(handed, scope)
  }

  /** Some reached instruction hands the value out. */
  predicate HandsOut(graph: Graph, handed: Export, at: Instruction) {
    exists b, i :: 0 <= b < |graph.blocks| && graph.blocks[b].reached && 0 <= i < |graph.blocks[b].instrs| &&
      graph.blocks[b].instrs[i].at == at && handed in graph.blocks[b].instrs[i].exports
  }

  /** A query about the body alone passes over what is returned, and no query
  looks at a value that holds no pointer; nothing else is passed over. */
  lemma BodyOnlyExactly(graph: Graph, handed: Export, at: Instruction)
    ensures Exports(graph, WholeFunction, handed, at) <==> handed.tracked && HandsOut(graph, handed, at)
    ensures Exports(graph, BodyOnly, handed, at) <==>
            Exports(graph, WholeFunction, handed, at) && handed.destination != ToResult
  {
  }

  ghost predicate NoOrigin(graph: Graph, target: Slot) {
    forall o | o in graph.origins :: !Overlap(o.target, target)
  }

  /** No recorded escape overlaps the object, and no value handed out leads to it. */
  ghost predicate Confined(graph: Graph, scope: Scope, target: Slot) {
    NoOrigin(graph, target) && forall e, at | Exports(graph, scope, e, at) :: ExportConfined(e, target)
  }

  // ---- The reachability walk ------------------------------------------------

  ghost predicate Explored(view: View, roots: Pointees, target: Slot, seen: set<Slot>, queue: seq<Slot>) {
    && (forall t | t in seen || t in queue :: t in AllSlots(view.contents, roots) && Exposes(view, roots, target, t))
    && (forall root | root in roots :: root in seen || root in queue)
    && forall t, s | t in seen && Child(view, target)(t, s) :: s in seen || s in queue
  }

  predicate KnownSoFar(view: View, roots: Pointees, target: Slot, seen: set<Slot>) {
    NoneStale(roots) && forall t | t in seen :: SlotKnown(view, target, t)
  }

  predicate FoundAmong(seen: set<Slot>, target: Slot) {
    exists t <- seen :: Overlap(t, target)
  }

  ghost predicate Children(view: View, target: Slot, a: Slot, next: seq<Slot>) {
    forall s :: s in next <==> Child(view, target)(a, s)
  }

  lemma ExploreStep(view: View, roots: Pointees, target: Slot, seen: set<Slot>, queue: seq<Slot>, next: seq<Slot>)
    requires Explored(view, roots, target, seen, queue) && queue != [] && Children(view, target, queue[0], next)
    ensures Explored(view, roots, target, seen + {queue[0]}, queue[1..] + next)
  {
    var current, edge := queue[0], Child(view, target);
    assert queue == [current] + queue[1..] && current in queue;
    forall s | s in next ensures s in AllSlots(view.contents, roots) && Exposes(view, roots, target, s) {
      var root :| root in roots.Keys && Reaches(edge, root, current);
      EdgeReaches(edge, current, s);
      ReachesTransitive(edge, root, current, s);
    }
  }

  lemma ExploreEnds(view: View, roots: Pointees, target: Slot, seen: set<Slot>)
    requires Explored(view, roots, target, seen, [])
    ensures forall t :: t in seen <==> Exposes(view, roots, target, t)
  {
    forall t | Exposes(view, roots, target, t) ensures t in seen {
      var root :| root in roots.Keys && Reaches(Child(view, target), root, t);
      ClosedReach(Child(view, target), seen, root, t);
    }
  }

  /** The slots held beneath one, and whether all are known: no stale entry, no
  backing copy, nothing left to spend. */
  method EscapeChildren(view: View, current: Slot, budget: SearchBudget) returns (next: seq<Slot>, complete: bool)
    requires budget.Valid()
    modifies budget
    ensures budget.Valid() && (old(budget.exhausted) ==> budget.exhausted)
    ensures !budget.exhausted ==>
              complete == (!HasBacking(view, current.region) && !HoldsStale(view, current)) &&
              forall s :: s in next <==> exists t <- view.contents.Keys :: Beneath(t, current) && s in view.contents[t]
    ensures budget.exhausted && !old(budget.exhausted) ==> !complete
    ensures forall s | s in next :: exists t <- view.contents.Keys :: Beneath(t, current) && s in view.contents[t]
  {
    next, complete := [], true;
    var backed := view.backing;
    while backed != {}
      invariant backed <= view.backing && budget.Valid() && budget.exhausted == old(budget.exhausted)
      invariant complete == !exists s <- view.backing - backed :: s.region == current.region
    {
      var ok := budget.Spend();
      if !ok {
        return [], false;
      }
      var held :| held in backed;
      if held.region == current.region {
        complete := false;
      }
      backed := backed - {held};
    }
    var slots := view.contents.Keys;
    while slots != {}
      invariant slots <= view.contents.Keys && budget.Valid() && budget.exhausted == old(budget.exhausted)
      invariant complete == (!HasBacking(view, current.region) &&
                !StaleAmong(view, current, view.contents.Keys - slots))
      invariant forall s :: s in next <==>
                exists t <- view.contents.Keys - slots :: Beneath(t, current) && s in view.contents[t]
    {
      var ok := budget.Spend();
      if !ok {
        return next, false;
      }
      var held :| held in slots;
      assert view.contents.Keys - (slots - {held}) == view.contents.Keys - slots + {held};
      if Beneath(held, current) {
        var children, known := Listed(view.contents[held]);
        next, complete := next + children, complete && known;
      }
      slots := slots - {held};
    }
  }

  predicate StaleAmong(view: View, a: Slot, slots: set<Slot>)
    requires slots <= view.contents.Keys
  {
    exists t <- slots :: Beneath(t, a) && exists p <- view.contents[t].Keys :: view.contents[t][p]
  }

  method Listed(held: Pointees) returns (children: seq<Slot>, known: bool)
    ensures forall s :: s in children <==> s in held
    ensures known <==> !exists p <- held.Keys :: held[p]
  {
    children, known := [], true;
    var rest := held.Keys;
    while rest != {}
      invariant rest <= held.Keys && (forall s :: s in children <==> s in held.Keys - rest)
      invariant known <==> !exists p <- held.Keys - rest :: held[p]
    {
      var p :| p in rest;
      children, known := children + [p], known && !held[p];
      rest := rest - {p};
    }
  }

  /** One slot of the walk: whether it overlaps the target, what follows it, and
  whether that is known. */
  method Visit(view: View, current: Slot, target: Slot, budget: SearchBudget)
    returns (hit: bool, next: seq<Slot>, known: bool)
    requires budget.Valid()
    modifies budget
    ensures budget.Valid() && (old(budget.exhausted) ==> budget.exhausted)
    ensures hit == Overlap(current, target)
    ensures !budget.exhausted ==> known == SlotKnown(view, target, current) && Children(view, target, current, next)
    ensures budget.exhausted && !old(budget.exhausted) ==> !known
  {
    hit, next, known := Overlap(current, target), [], true;
    if hit || current.region.NilRegion? {
      return;
    }
    if !(current.region.Site? || current.region.Closure?) {
      return hit, [], false;
    }
    next, known := EscapeChildren(view, current, budget);
  }

  /** One turn of the walk; it stops when nothing is left to spend. */
  method Advance(view: View, roots: Pointees, target: Slot, seen: set<Slot>, queue: seq<Slot>, found: bool,
                 complete: bool, budget: SearchBudget)
    returns (go: bool, later: set<Slot>, left: seq<Slot>, hit: bool, known: bool)
    requires WalkHolds(view, roots, target, seen, queue, found, complete) && queue != [] && budget.Valid()
    modifies budget
    ensures budget.Valid() && (old(budget.exhausted) ==> budget.exhausted) && (go <==> !budget.exhausted)
    ensures go ==> WalkHolds(view, roots, target, later, left, hit, known)
    ensures go ==> (later == seen && |left| < |queue|) || (later == seen + {queue[0]} && queue[0] !in seen)
    ensures !go ==> hit == found && (old(budget.exhausted) || !known)
  {
    var ok := budget.Spend();
    if !ok {
      return false, seen, queue, found, false;
    }
    var current := queue[0];
    if current in seen {
      WalkSkips(view, roots, target, seen, queue, found, complete);
      return true, seen, queue[1..], found, complete;
    }
    var overlaps, next, all := Visit(view, current, target, budget);
    if budget.exhausted {
      return false, seen, queue, found, complete && all;
    }
    WalkTurns(view, roots, target, seen, queue, found, complete, next);
    return true, seen + {current}, queue[1..] + next, found || overlaps, complete && all;
  }

  /** Whether a slot reached from the pointees overlaps the target, and whether
  the walk saw all there is: a found overlap is always real, and a complete
  walk that finds none leaves none. */
  method EscapeReachability(view: View, roots: Pointees, target: Slot, budget: SearchBudget)
    returns (found: bool, complete: bool)
    requires budget.Valid()
    modifies budget
    ensures budget.Valid() && (old(budget.exhausted) ==> budget.exhausted)
    ensures budget.exhausted && !old(budget.exhausted) ==> !complete
    ensures found ==> Leads(view, roots, target)
    ensures !budget.exhausted ==>
              (found <==> Leads(view, roots, target)) && (complete <==> AllKnown(view, roots, target))
  {
    var queue, known := Listed(roots);
    var seen: set<Slot> := {};
    found, complete := false, known;
    ExploreBegins(view, roots, target, queue);
    while queue != []
      invariant budget.Valid() && budget.exhausted == old(budget.exhausted)
      invariant WalkHolds(view, roots, target, seen, queue, found, complete)
      decreases AllSlots(view.contents, roots) - seen, |queue|
    {
      QueuedSlot(view, roots, target, seen, queue, found, complete);
      var go;
      go, seen, queue, found, complete := Advance(view, roots, target, seen, queue, found, complete, budget);
      if !go {
        return;
      }
    }
    WalkEnds(view, roots, target, seen, found, complete);
  }

  /** The walk's flags say what was seen so far. */
  ghost predicate WalkHolds(view: View, roots: Pointees, target: Slot, seen: set<Slot>, queue: seq<Slot>, found: bool,
                            complete: bool)
  {
    && Explored(view, roots, target, seen, queue)
    && found == FoundAmong(seen, target) && complete == KnownSoFar(view, roots, target, seen)
  }

  lemma QueuedSlot(view: View, roots: Pointees, target: Slot, seen: set<Slot>, queue: seq<Slot>, found: bool,
                   complete: bool)
    requires WalkHolds(view, roots, target, seen, queue, found, complete) && queue != []
    ensures queue[0] in AllSlots(view.contents, roots)
  {
    assert queue[0] in queue;
  }

  lemma WalkTurns(view: View, roots: Pointees, target: Slot, seen: set<Slot>, queue: seq<Slot>, found: bool,
                  complete: bool, next: seq<Slot>)
    requires WalkHolds(view, roots, target, seen, queue, found, complete)
    requires queue != [] && Children(view, target, queue[0], next)
    ensures WalkHolds(view, roots, target, seen + {queue[0]}, queue[1..] + next, found || Overlap(queue[0], target),
                      complete && SlotKnown(view, target, queue[0]))
  {
    ExploreStep(view, roots, target, seen, queue, next);
  }

  lemma WalkSkips(view: View, roots: Pointees, target: Slot, seen: set<Slot>, queue: seq<Slot>, found: bool,
                  complete: bool)
    requires WalkHolds(view, roots, target, seen, queue, found, complete) && queue != [] && queue[0] in seen
    ensures WalkHolds(view, roots, target, seen, queue[1..], found, complete)
  {
  }

  lemma WalkEnds(view: View, roots: Pointees, target: Slot, seen: set<Slot>, found: bool, complete: bool)
    requires WalkHolds(view, roots, target, seen, [], found, complete)
    ensures (found <==> Leads(view, roots, target)) && (complete <==> AllKnown(view, roots, target))
  {
    ExploreEnds(view, roots, target, seen);
  }

  lemma ExploreBegins(view: View, roots: Pointees, target: Slot, queue: seq<Slot>)
    requires forall s :: s in queue <==> s in roots
    ensures Explored(view, roots, target, {}, queue)
  {
    forall t | t in queue ensures Exposes(view, roots, target, t) {
      ReachesSelf(Child(view, target), t);
    }
  }

  // ---- The proof and the query ----------------------------------------------

  /** Which destination stands for a recorded way out. */
  predicate SentAs(kind: EscapeKind, destination: Destination) {
    || (kind.ToGlobal? && destination.ToGlobalScope?)
    || (kind.ToField? && destination.ToFieldStore?)
    || (kind.ToSend? && destination.ToChannel?)
    || (kind.ToAsync? && destination.ToGoroutine?)
    || (kind.ToCall? && destination.ToCallee?)
  }

  function DestinationOf(kind: EscapeKind): (destination: Destination)
    ensures forall other :: SentAs(kind, other) <==> other == destination
  {
    match kind
    case ToGlobal => ToGlobalScope
    case ToField => ToFieldStore
    case ToSend => ToChannel
    case ToAsync => ToGoroutine
    case ToCall => ToCallee
  }

  /** An event stands for an overlapping recorded escape, or for a value handed
  out that leads to the target. */
  ghost predicate Real(graph: Graph, scope: Scope, target: Slot, event: Event) {
    || (exists o <- graph.origins.Keys ::
          Overlap(o.target, target) && SentAs(o.kind, event.destination) && graph.origins[o] == event.at)
    || (exists e :: Exports(graph, scope, e, event.at) && LeadsOut(e, target) && e.destination == event.destination)
  }

  ghost predicate LeadsOut(e: Export, target: Slot) {
    e.view.Some? && Leads(e.view.value, e.roots, target)
  }

  /** What the value handed out holds is not all known. */
  ghost predicate Gap(e: Export, target: Slot) {
    e.view.None? || !AllKnown(e.view.value, e.roots, target)
  }

  /** What becomes of the object there cannot be followed. */
  predicate Untold(destination: Destination) {
    destination.ToCallee? || destination.ToRepresentation?
  }

  /** Some way out cannot be followed, or some value in scope is not all known. */
  ghost predicate Open(graph: Graph, scope: Scope, target: Slot) {
    || (exists event :: Real(graph, scope, target, event) && Untold(event.destination))
    || (exists e, at :: Exports(graph, scope, e, at) && Gap(e, target))
  }

  lemma RealNotConfined(graph: Graph, scope: Scope, target: Slot, event: Event)
    requires Real(graph, scope, target, event)
    ensures !Confined(graph, scope, target)
  {
    if e :| Exports(graph, scope, e, event.at) && LeadsOut(e, target) {
      assert !ExportConfined(e, target);
    }
  }

  /** An object is confined exactly when nothing is open and no event is real. */
  lemma ConfinedExactly(graph: Graph, scope: Scope, target: Slot)
    ensures Confined(graph, scope, target) <==>
            !Open(graph, scope, target) && forall event :: !Real(graph, scope, target, event)
  {
    if event :| Real(graph, scope, target, event) {
      RealNotConfined(graph, scope, target, event);
    } else {
      forall o | o in graph.origins ensures !Overlap(o.target, target) {
        assert !Real(graph, scope, target, Event(DestinationOf(o.kind), graph.origins[o]));
      }
      forall e, at | Exports(graph, scope, e, at) ensures !LeadsOut(e, target) {
        assert !Real(graph, scope, target, Event(e.destination, at));
      }
      if e, at :| Exports(graph, scope, e, at) && Gap(e, target) {
        assert !ExportConfined(e, target);
      }
    }
  }

  // ---- The proof so far -----------------------------------------------------

  type Handed = (Export, Instruction)

  /** The event stands for one of the escapes or the values judged so far. */
  ghost predicate Shown(graph: Graph, target: Slot, origins: set<Origin>, handed: set<Handed>, event: Event)
    requires origins <= graph.origins.Keys
  {
    || (exists o <- origins ::
          Overlap(o.target, target) && SentAs(o.kind, event.destination) && graph.origins[o] == event.at)
    || (exists e: Export :: (e, event.at) in handed && LeadsOut(e, target) && e.destination == event.destination)
  }

  ghost predicate Unfollowed(events: seq<Event>, target: Slot, handed: set<Handed>) {
    (exists event <- events :: Untold(event.destination)) || exists h <- handed :: Gap(h.0, target)
  }

  ghost function Verdict(events: seq<Event>, target: Slot, handed: set<Handed>): Outcome {
    if Unfollowed(events, target, handed) then Unknown else if events == [] then Local else Observed
  }

  ghost predicate Fits(graph: Graph, target: Slot, origins: set<Origin>, handed: set<Handed>, events: seq<Event>,
                       outcome: Outcome)
    requires origins <= graph.origins.Keys
  {
    && (forall event :: event in events <==> Shown(graph, target, origins, handed, event))
    && outcome == Verdict(events, target, handed)
  }

  /** The reason given for the outcome holds. */
  ghost predicate Grounded(outcome: Outcome, reason: Reason, events: seq<Event>, target: Slot, handed: set<Handed>) {
    match outcome
    case Local => reason.NothingEscapes?
    case Observed => reason.RecordedEscape?
    case Unknown =>
      || (reason.OpaqueCall? && exists event <- events :: event.destination.ToCallee?)
      || (reason.RepresentationUnknown? && exists event <- events :: event.destination.ToRepresentation?)
      || (reason.ReachabilityUnknown? && exists h <- handed :: Gap(h.0, target))
  }

  /** The outcome once an event is added. */
  function Lowered(outcome: Outcome, event: Event): Outcome {
    if Untold(event.destination) then Unknown else if outcome.Local? then Observed else outcome
  }

  /** The value is handed out by an instruction before the i-th of block b. */
  predicate HandedBefore(graph: Graph, scope: Scope, b: nat, i: nat, e: Export, at: Instruction) {
    exists c, j :: 0 <= c < |graph.blocks| && graph.blocks[c].reached && 0 <= j < |graph.blocks[c].instrs| &&
      (c < b || (c == b && j < i)) &&
      graph.blocks[c].instrs[j].at == at && e in graph.blocks[c].instrs[j].exports && InScope(e, scope)
  }

  ghost predicate AllBefore(graph: Graph, scope: Scope, b: nat, i: nat, handed: set<Handed>) {
    forall e: Export, at: Instruction :: (e, at) in handed <==> HandedBefore(graph, scope, b, i, e, at)
  }

  /** What the first count values of an instruction add. */
  ghost function HandedBy(instr: Instr, scope: Scope, count: nat): set<Handed>
    requires count <= |instr.exports|
  {
    set k | 0 <= k < count && InScope(instr.exports[k], scope) :: (instr.exports[k], instr.at)
  }

  class EscapeProof {
    const scope: Scope
    var outcome: Outcome
    var reason: Reason
    var events: seq<Event>

    constructor (scope: Scope, outcome: Outcome, reason: Reason)
      ensures this.scope == scope && this.outcome == outcome && this.reason == reason && events == []
    {
      this.scope, this.outcome, this.reason, events := scope, outcome, reason, [];
    }

    /** Events are real. */
    ghost predicate Sound(graph: Graph, target: Slot)
      reads this
    {
      forall event | event in events :: Real(graph, scope, target, event)
    }

    /** The events are those of what was judged so far, and the outcome follows. */
    ghost predicate Judged(graph: Graph, target: Slot, origins: set<Origin>, handed: set<Handed>)
      requires origins <= graph.origins.Keys
      reads this
    {
      Fits(graph, target, origins, handed, events, outcome) && Grounded(outcome, reason, events, target, handed)
    }

    /** Adds an event once; an event that cannot be followed makes the outcome
    unknown, and another one ends that nothing is. */
    method Add(destination: Destination, at: Instruction)
      modifies this
      ensures var event := Event(destination, at);
              if event in old(events) then events == old(events) && outcome == old(outcome) && reason == old(reason)
              else
                && events == old(events) + [event]
                && outcome == Lowered(old(outcome), event)
                && reason == (if destination.ToCallee? then OpaqueCall
                              else if destination.ToRepresentation? then RepresentationUnknown
                              else if old(outcome).Local? then RecordedEscape else old(reason))
    {
      if Event(destination, at) in events {
        return;
      }
      events := events + [Event(destination, at)];
      match destination
      case ToCallee => outcome, reason := Unknown, OpaqueCall;
      case ToRepresentation => outcome, reason := Unknown, RepresentationUnknown;
      case _ =>
        if outcome.Local? {
          outcome, reason := Observed, RecordedEscape;
        }
    }

    /** Judges one value an instruction hands out. */
    method ExportEscape(graph: Graph, target: Slot, e: Export, at: Instruction, budget: SearchBudget,
                        ghost origins: set<Origin>, ghost handed: set<Handed>)
      requires budget.Valid() && Sound(graph, target) && origins <= graph.origins.Keys
      requires if budget.exhausted then outcome.Unknown? else Judged(graph, target, origins, handed)
      requires InScope(e, scope) ==> Exports(graph, scope, e, at)
      modifies this, budget
      ensures budget.Valid() && Sound(graph, target) && (old(budget.exhausted) ==> budget.exhausted)
      ensures if budget.exhausted then outcome.Unknown?
              else Judged(graph, target, origins, handed + if InScope(e, scope) then {(e, at)} else {})
    {
      if !InScope(e, scope) {
        return;
      }
      if e.view.None? {
        HandedFits(graph, target, origins, handed, events, outcome, e, at);
        outcome, reason := Unknown, ReachabilityUnknown;
        return;
      }
      var found, complete := EscapeReachability(e.view.value, e.roots, target, budget);
      HandedFits(graph, target, origins, handed, events, outcome, e, at);
      if found {
        assert LeadsOut(e, target);
        Add(e.destination, at);
      }
      if !complete {
        outcome, reason := Unknown, if budget.exhausted then BudgetExhausted else ReachabilityUnknown;
      }
    }

    /** Judges every value one instruction hands out. */
    method InstrEscapes(graph: Graph, target: Slot, b: nat, i: nat, budget: SearchBudget, ghost origins: set<Origin>,
                        ghost handed: set<Handed>)
      requires b < |graph.blocks| && graph.blocks[b].reached && i < |graph.blocks[b].instrs|
      requires budget.Valid() && Sound(graph, target) && origins <= graph.origins.Keys
      requires if budget.exhausted then outcome.Unknown? else Judged(graph, target, origins, handed)
      modifies this, budget
      ensures budget.Valid() && Sound(graph, target) && (old(budget.exhausted) ==> budget.exhausted)
      ensures var instr := graph.blocks[b].instrs[i];
              if budget.exhausted then outcome.Unknown?
              else Judged(graph, target, origins, handed + HandedBy(instr, scope, |instr.exports|))
    {
      var instr := graph.blocks[b].instrs[i];
      var k := 0;
      assert handed + HandedBy(instr, scope, 0) == handed;
      while k < |instr.exports|
        invariant k <= |instr.exports| && budget.Valid() && Sound(graph, target)
        invariant old(budget.exhausted) ==> budget.exhausted
        invariant if budget.exhausted then outcome.Unknown?
                  else Judged(graph, target, origins, handed + HandedBy(instr, scope, k))
      {
        HandedNext(instr, scope, k, handed);
        ExportEscape(graph, target, instr.exports[k], instr.at, budget, origins, handed + HandedBy(instr, scope, k));
        k := k + 1;
      }
    }

    /** Judges every value handed out in a reached block, within the scope. */
    method ResultEscapeEvents(graph: Graph, target: Slot, budget: SearchBudget, ghost origins: set<Origin>)
      returns (ghost handed: set<Handed>)
      requires budget.Valid() && !budget.exhausted && Sound(graph, target) && origins <= graph.origins.Keys
      requires Judged(graph, target, origins, {})
      modifies this, budget
      ensures Sound(graph, target)
      ensures if budget.exhausted then outcome.Unknown?
              else Judged(graph, target, origins, handed) && AllBefore(graph, scope, |graph.blocks|, 0, handed)
    {
      handed := {};
      var b := 0;
      while b < |graph.blocks|
        invariant b <= |graph.blocks| && budget.Valid() && Sound(graph, target)
        invariant if budget.exhausted then outcome.Unknown?
                  else Judged(graph, target, origins, handed) && AllBefore(graph, scope, b, 0, handed)
      {
        var block := graph.blocks[b];
        var i := 0;
        while block.reached && i < |block.instrs|
          invariant i <= |block.instrs| && budget.Valid() && Sound(graph, target)
          invariant if budget.exhausted then outcome.Unknown?
                    else Judged(graph, target, origins, handed) && AllBefore(graph, scope, b, i, handed)
        {
          var ok := budget.Spend();
          if !ok {
            outcome, reason := Unknown, BudgetExhausted;
            return;
          }
          BeforeNext(graph, scope, b, i, handed);
          InstrEscapes(graph, target, b, i, budget, origins, handed);
          handed := handed + HandedBy(block.instrs[i], scope, |block.instrs[i].exports|);
          i := i + 1;
        }
        BlockBefore(graph, scope, b, i, handed);
        b := b + 1;
      }
    }
  }

  function WithEvent(events: seq<Event>, event: Event): seq<Event> {
    if event in events then events else events + [event]
  }

  /** What judging one more value does to the events and the outcome. */
  lemma HandedFits(graph: Graph, target: Slot, origins: set<Origin>, handed: set<Handed>, events: seq<Event>,
                   outcome: Outcome, e: Export, at: Instruction)
    requires origins <= graph.origins.Keys
    ensures var event, more := Event(e.destination, at), handed + {(e, at)};
            Fits(graph, target, origins, handed, events, outcome) ==>
              if LeadsOut(e, target) then
                Fits(graph, target, origins, more, WithEvent(events, event),
                     if Gap(e, target) then Unknown else if event in events then outcome else Lowered(outcome, event))
              else Fits(graph, target, origins, more, events, if Gap(e, target) then Unknown else outcome)
  {
    if Fits(graph, target, origins, handed, events, outcome) {
      HandedShows(graph, target, origins, handed, e, at);
      HandedHides(events, target, handed, e, at);
      if LeadsOut(e, target) {
        EventHides(events, target, handed + {(e, at)}, Event(e.destination, at));
      }
    }
  }

  lemma HandedShows(graph: Graph, target: Slot, origins: set<Origin>, handed: set<Handed>, e: Export, at: Instruction)
    requires origins <= graph.origins.Keys
    ensures forall event ::
              Shown(graph, target, origins, handed + {(e, at)}, event) <==>
              Shown(graph, target, origins, handed, event) ||
              (LeadsOut(e, target) && event == Event(e.destination, at))
  {
    var more := handed + {(e, at)};
    forall event
      ensures Shown(graph, target, origins, more, event) <==>
              Shown(graph, target, origins, handed, event) ||
              (LeadsOut(e, target) && event == Event(e.destination, at))
    {
      assert LeadsOut(e, target) && event == Event(e.destination, at) ==> (e, event.at) in more;
    }
  }

  lemma HandedHides(events: seq<Event>, target: Slot, handed: set<Handed>, e: Export, at: Instruction)
    ensures Unfollowed(events, target, handed + {(e, at)}) <==> Unfollowed(events, target, handed) || Gap(e, target)
  {
    var h := (e, at);
    assert h in handed + {h} && h.0 == e;
  }

  lemma EventHides(events: seq<Event>, target: Slot, handed: set<Handed>, event: Event)
    ensures var more := WithEvent(events, event);
            && (Unfollowed(more, target, handed) <==> Unfollowed(events, target, handed) || Untold(event.destination))
            && more != [] && forall other :: other in more <==> other in events || other == event
  {
    var more := WithEvent(events, event);
    assert event in more;
  }

  lemma HandedNext(instr: Instr, scope: Scope, k: nat, handed: set<Handed>)
    requires k < |instr.exports|
    ensures handed + HandedBy(instr, scope, k + 1) ==
            handed + HandedBy(instr, scope, k) +
            if InScope(instr.exports[k], scope) then {(instr.exports[k], instr.at)} else {}
  {
  }

  lemma BeforeNext(graph: Graph, scope: Scope, b: nat, i: nat, handed: set<Handed>)
    requires b < |graph.blocks| && graph.blocks[b].reached && i < |graph.blocks[b].instrs|
    ensures var instr := graph.blocks[b].instrs[i];
            AllBefore(graph, scope, b, i, handed) ==>
            AllBefore(graph, scope, b, i + 1, handed + HandedBy(instr, scope, |instr.exports|))
  {
  }

  lemma BlockBefore(graph: Graph, scope: Scope, b: nat, i: nat, handed: set<Handed>)
    requires b < |graph.blocks| && (graph.blocks[b].reached ==> i == |graph.blocks[b].instrs|)
    ensures AllBefore(graph, scope, b, i, handed) ==> AllBefore(graph, scope, b + 1, 0, handed)
  {
  }

  const QUERY_BUDGET := 1000

  /** One exact slot of a local allocation. */
  predicate ExactSite(pts: Pointees, target: Slot) {
    pts.Keys == {target} && target.region.Site? && !EndsInStar(target.path)
  }

  /** What the query says of an exact target while its budget lasts: the events
  are the real ones, local means confined, and observed means let out by ways
  that can all be followed, with nothing in scope unknown. */
  ghost predicate Exactly(graph: Graph, scope: Scope, target: Slot, outcome: Outcome, reason: Reason,
                          events: seq<Event>)
  {
    && (forall event :: event in events <==> Real(graph, scope, target, event))
    && Explained(graph, scope, target, outcome, reason)
    && (outcome.Local? <==> Confined(graph, scope, target))
    && (outcome.Observed? <==> !Open(graph, scope, target) && exists event :: Real(graph, scope, target, event))
  }

  /** The reason given for the outcome is there in the graph. */
  ghost predicate Explained(graph: Graph, scope: Scope, target: Slot, outcome: Outcome, reason: Reason) {
    match outcome
    case Local => reason.NothingEscapes?
    case Observed => reason.RecordedEscape?
    case Unknown =>
      || (reason.OpaqueCall? && exists at :: Real(graph, scope, target, Event(ToCallee, at)))
      || (reason.RepresentationUnknown? && exists at :: Real(graph, scope, target, Event(ToRepresentation, at)))
      || (reason.ReachabilityUnknown? && exists e, at :: Exports(graph, scope, e, at) && Gap(e, target))
  }

  lemma AllJudged(graph: Graph, scope: Scope, target: Slot, handed: set<Handed>, outcome: Outcome, reason: Reason,
                  events: seq<Event>)
    requires AllBefore(graph, scope, |graph.blocks|, 0, handed)
    requires Fits(graph, target, graph.origins.Keys, handed, events, outcome)
    requires Grounded(outcome, reason, events, target, handed)
    ensures Exactly(graph, scope, target, outcome, reason, events)
  {
    forall e: Export, at: Instruction ensures (e, at) in handed <==> Exports(graph, scope, e, at) {
      assert HandedBefore(graph, scope, |graph.blocks|, 0, e, at) <==> Exports(graph, scope, e, at);
    }
    assert forall event :: event in events <==> Real(graph, scope, target, event);
    assert Unfollowed(events, target, handed) <==> Open(graph, scope, target);
    ConfinedExactly(graph, scope, target);
    assert events != [] ==> events[0] in events;
    forall event | event in events ensures Real(graph, scope, target, Event(event.destination, event.at)) {
      assert event == Event(event.destination, event.at);
    }
  }

  /** The query about a value's pointees, and whether its budget cut it short.
  Otherwise what it says of an exact slot is exact, and of any other it says
  nothing. A cut query is unknown, but its events are real. */
  method QueryEscape(graph: Graph, pts: Option<Pointees>, scope: Scope) returns (proof: EscapeProof, cut: bool)
    ensures forall target | pts.Some? && ExactSite(pts.value, target) ::
              if cut then proof.outcome.Unknown? && proof.Sound(graph, target)
              else Exactly(graph, scope, target, proof.outcome, proof.reason, proof.events)
    ensures (pts.None? || !exists target :: ExactSite(pts.value, target)) ==>
              !cut && proof.outcome.Unknown? && proof.events == [] &&
              proof.reason == if pts.None? then Unavailable else IdentityUnknown
    ensures proof.scope == scope
  {
    cut := false;
    if pts.None? {
      proof := new EscapeProof(scope, Unknown, Unavailable);
      return;
    }
    if |pts.value.Keys| != 1 {
      assert forall target | pts.value.Keys == {target} :: |{target}| == 1;
      proof := new EscapeProof(scope, Unknown, IdentityUnknown);
      return;
    }
    SingletonKey(pts.value);
    var target :| target in pts.value.Keys;
    if !target.region.Site? || EndsInStar(target.path) {
      proof := new EscapeProof(scope, Unknown, IdentityUnknown);
      return;
    }
    assert ExactSite(pts.value, target);
    proof := new EscapeProof(scope, Local, NothingEscapes);
    var budget := new SearchBudget(true, QUERY_BUDGET, None);
    var rest := graph.origins.Keys;
    while rest != {}
      invariant rest <= graph.origins.Keys && budget.Valid() && !budget.exhausted
      invariant fresh(proof) && fresh(budget) && proof.scope == scope
      invariant proof.Sound(graph, target) && proof.Judged(graph, target, graph.origins.Keys - rest, {})
    {
      var ok := budget.Spend();
      if !ok {
        proof := new EscapeProof(scope, Unknown, BudgetExhausted);
        cut := true;
        return;
      }
      var o :| o in rest;
      OriginFits(graph, target, graph.origins.Keys - rest, proof.events, proof.outcome, o);
      assert graph.origins.Keys - (rest - {o}) == graph.origins.Keys - rest + {o};
      if Overlap(o.target, target) {
        assert Real(graph, scope, target, Event(DestinationOf(o.kind), graph.origins[o]));
        proof.Add(DestinationOf(o.kind), graph.origins[o]);
      }
      rest := rest - {o};
    }
    ghost var handed := proof.ResultEscapeEvents(graph, target, budget, graph.origins.Keys);
    cut := budget.exhausted;
    if !cut {
      AllJudged(graph, scope, target, handed, proof.outcome, proof.reason, proof.events);
    }
  }

  /** What one more recorded escape does to the events and the outcome. */
  lemma OriginFits(graph: Graph, target: Slot, origins: set<Origin>, events: seq<Event>, outcome: Outcome, o: Origin)
    requires origins <= graph.origins.Keys && o in graph.origins
    requires Fits(graph, target, origins, {}, events, outcome)
    ensures var event := Event(DestinationOf(o.kind), graph.origins[o]);
            if Overlap(o.target, target) then
              Fits(graph, target, origins + {o}, {}, WithEvent(events, event),
                   if event in events then outcome else Lowered(outcome, event))
            else Fits(graph, target, origins + {o}, {}, events, outcome)
  {
    OriginShows(graph, target, origins, o);
    EventHides(events, target, {}, Event(DestinationOf(o.kind), graph.origins[o]));
  }

  lemma OriginShows(graph: Graph, target: Slot, origins: set<Origin>, o: Origin)
    requires origins <= graph.origins.Keys && o in graph.origins
    ensures forall event ::
              Shown(graph, target, origins + {o}, {}, event) <==>
              Shown(graph, target, origins, {}, event) ||
              (Overlap(o.target, target) && event == Event(DestinationOf(o.kind), graph.origins[o]))
  {
  }
}
