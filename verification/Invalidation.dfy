/** The invalidation worklist, run to its end by one analyzer. */
module Invalidation {
  import opened Options
  import opened GraphCache
  import opened SummaryRegistry
  import opened RegionGraphs
  import opened Graphs

  // ---- What a consistent cache is -------------------------------------------

  /** The function's cached graph consulted the callee. */
  predicate CallerOf(c: Cache, caller: Func, callee: Func) {
    caller in c.slots && Consults(c.entries, c.slots[caller], callee)
  }

  predicate EntryCurrent(c: Cache, r: Registry, e: EntryId, k: Func) {
    Consults(c.entries, e, k) ==> c.entries[e].graph.value.consulted[k] == Generation(r, k)
  }

  /** Every cached graph consulted only current generations. */
  ghost predicate AllCurrent(c: Cache, r: Registry) {
    forall e, k: Func :: EntryCurrent(c, r, e, k)
  }

  /** The summary held on demand is what the function's cached graph projects. */
  predicate FromCachedGraph(c: Cache, r: Registry, f: Func) {
    OnDemand(r, f) ==>
      f in c.slots && Published(c.entries, c.slots[f]) &&
      c.entries[c.slots[f]].graph.value.projection == Some(r.entries[f].summary)
  }

  ghost predicate AllFromCachedGraphs(c: Cache, r: Registry) {
    forall f :: FromCachedGraph(c, r, f)
  }

  ghost predicate Consistent(c: Cache, r: Registry) {
    Valid(c) && AllCurrent(c, r) && AllFromCachedGraphs(c, r)
  }

  /** Consistent but for functions whose generation moved and whose callers'
  graphs were not evicted yet. */
  ghost predicate ConsistentBut(c: Cache, r: Registry, moved: set<Func>) {
    && Valid(c) && AllFromCachedGraphs(c, r)
    && (forall k | k in moved :: !OnDemand(r, k))
    && forall e, k: Func :: k !in moved ==> EntryCurrent(c, r, e, k)
  }

  lemma NothingMoved(c: Cache, r: Registry)
    ensures ConsistentBut(c, r, {}) <==> Consistent(c, r)
  {
  }

  /** One step of derivation: a caller's graph consulted a callee that changed,
  the start or a function whose on-demand summary came from its own graph. */
  function Derives(c: Cache, r: Registry, start: Func): (Func, Func) -> bool {
    (callee: Func, caller: Func) => (callee == start || OnDemand(r, callee)) && CallerOf(c, caller, callee)
  }

  // ---- The worklist invariant -----------------------------------------------

  /** What was changed so far: gone entries were evicted, notified functions
  are the start and those whose on-demand summary was dropped. */
  datatype Work = Work(gone: set<EntryId>, notified: set<Func>)

  /** The registry lost exactly the on-demand summaries of the notified. */
  ghost predicate Dropped(r0: Registry, r: Registry, start: Func, notified: set<Func>) {
    forall k :: SameOrDropped(r0, r, start, notified, k)
  }

  predicate SameOrDropped(r0: Registry, r: Registry, start: Func, notified: set<Func>, k: Func) {
    if k in notified && k != start then
      OnDemand(r0, k) && k !in r.entries && Generation(r, k) == Generation(r0, k) + 1
    else
      (k in r.entries <==> k in r0.entries) && (k in r.entries ==> r.entries[k] == r0.entries[k]) &&
      Generation(r, k) == Generation(r0, k)
  }

  /** Everything evicted or dropped is derived from the start. */
  ghost predicate OnlyDerived(c0: Cache, r0: Registry, start: Func, work: Work) {
    && (forall e | e in work.gone ::
          Published(c0.entries, e) && ReachesOn(Derives(c0, r0, start), start, c0.entries[e].owner))
    && start in work.notified
    && forall k | k in work.notified && k != start :: OnDemand(r0, k) && ReachesOn(Derives(c0, r0, start), start, k)
  }

  /** A notified function is pending or has no caller left. */
  ghost predicate Discharged(entries: Entries, notified: set<Func>, pending: seq<Func>) {
    (forall k | k in pending :: k in notified) &&
    forall k, e | k in notified && k !in pending :: !Consults(entries, e, k)
  }

  /** The owner of an evicted graph has been asked to forget, or is waiting. */
  ghost predicate Asked(c0: Cache, r0: Registry, work: Work, waiting: seq<Func>) {
    forall e | e in work.gone && e in c0.entries && OnDemand(r0, c0.entries[e].owner) ::
      c0.entries[e].owner in work.notified || c0.entries[e].owner in waiting
  }

  ghost predicate Progress(c0: Cache, r0: Registry, start: Func, c: Cache, r: Registry, work: Work, pending: seq<Func>,
                           waiting: seq<Func>)
  {
    && Valid(c) && c.entries == AllMarked(c0.entries, work.gone)
    && Dropped(r0, r, start, work.notified)
    && OnlyDerived(c0, r0, start, work)
    && Discharged(c.entries, work.notified, pending)
    && Asked(c0, r0, work, waiting)
    && (forall f | f in waiting :: ReachesOn(Derives(c0, r0, start), start, f))
  }

  // ---- Evicting one function's dependents -----------------------------------

  /** A graph still cached that consulted a notified function is derived. */
  lemma CallerDerived(c0: Cache, r0: Registry, start: Func, work: Work, e: EntryId, k: Func)
    requires Valid(c0) && OnlyDerived(c0, r0, start, work) && k in work.notified && Consults(c0.entries, e, k)
    ensures ReachesOn(Derives(c0, r0, start), start, c0.entries[e].owner)
  {
    var edge, owner := Derives(c0, r0, start), c0.entries[e].owner;
    assert c0.slots[owner] == e && edge(k, owner);
    EdgeReaches(edge, k, owner);
    if k != start {
      var path :| PathFrom(edge, path, start, k) && |path| > 1;
      ReachesTransitive(edge, start, k, owner);
    }
  }

  lemma TakeProgress(c0: Cache, r0: Registry, start: Func, c: Cache, r: Registry, work: Work, pending: seq<Func>,
                     list: seq<EntryId>)
    requires Valid(c0) && Progress(c0, r0, start, c, r, work, pending, []) && pending != []
    requires (forall i | 0 <= i < |list| :: list[i] in c.entries) && Members(list) == Dependents(c, pending[0])
    ensures Progress(c0, r0, start, DependentsEvicted(c, pending[0], list), r,
                     Work(work.gone + Members(list), work.notified), pending[1..], Owners(c.entries, list))
  {
    var next, d, all := pending[0], DependentsEvicted(c, pending[0], list), Members(list);
    DependentsEvictedExact(c, next, list);
    assert AllMarked(c.entries, all) == AllMarked(c0.entries, work.gone + all);
    TakenDerived(c0, r0, start, c, work, next, all);
    TakenDischarged(c.entries, work.notified, pending, all);
    TakenAsked(c0, r0, c, work, list);
    TakenWaiting(c0, r0, start, c, list);
  }

  lemma TakenDischarged(entries: Entries, notified: set<Func>, pending: seq<Func>, all: set<EntryId>)
    requires Discharged(entries, notified, pending) && pending != []
    requires forall e :: !Consults(AllMarked(entries, all), e, pending[0])
    ensures Discharged(AllMarked(entries, all), notified, pending[1..])
  {
    forall k, e | k in notified && k !in pending[1..] ensures !Consults(AllMarked(entries, all), e, k) {
      assert k != pending[0] ==> k !in pending;
      assert k != pending[0] ==> !Consults(entries, e, k);
    }
  }

  lemma TakenWaiting(c0: Cache, r0: Registry, start: Func, c: Cache, list: seq<EntryId>)
    requires forall i | 0 <= i < |list| :: list[i] in c.entries
    requires forall e | e in Members(list) ::
               e in c.entries && ReachesOn(Derives(c0, r0, start), start, c.entries[e].owner)
    ensures forall f | f in Owners(c.entries, list) :: ReachesOn(Derives(c0, r0, start), start, f)
  {
    forall f | f in Owners(c.entries, list) ensures ReachesOn(Derives(c0, r0, start), start, f) {
      var i :| 0 <= i < |list| && c.entries[list[i]].owner == f;
      assert list[i] in Members(list);
    }
  }

  lemma TakenDerived(c0: Cache, r0: Registry, start: Func, c: Cache, work: Work, next: Func, all: set<EntryId>)
    requires Valid(c0) && Valid(c) && c.entries == AllMarked(c0.entries, work.gone) && next in work.notified
    requires OnlyDerived(c0, r0, start, work) && all == Dependents(c, next)
    ensures OnlyDerived(c0, r0, start, Work(work.gone + all, work.notified))
    ensures forall e | e in all :: e in c.entries && ReachesOn(Derives(c0, r0, start), start, c.entries[e].owner)
  {
    DependentsConsult(c, next);
    forall e | e in all
      ensures Published(c0.entries, e) && ReachesOn(Derives(c0, r0, start), start, c0.entries[e].owner)
    {
      assert Consults(c.entries, e, next);
      CallerDerived(c0, r0, start, work, e, next);
    }
  }

  lemma TakenAsked(c0: Cache, r0: Registry, c: Cache, work: Work, list: seq<EntryId>)
    requires c.entries == AllMarked(c0.entries, work.gone) && Asked(c0, r0, work, [])
    requires forall i | 0 <= i < |list| :: list[i] in c.entries
    ensures Asked(c0, r0, Work(work.gone + Members(list), work.notified), Owners(c.entries, list))
  {
    var owners := Owners(c.entries, list);
    forall e | e in Members(list) ensures e in c0.entries && c0.entries[e].owner in owners {
      var i :| 0 <= i < |list| && list[i] == e;
      assert owners[i] == c0.entries[e].owner;
    }
  }

  // ---- Forgetting one on-demand summary -------------------------------------

  lemma ForgetProgress(c0: Cache, r0: Registry, start: Func, c: Cache, r: Registry, work: Work, pending: seq<Func>,
                       waiting: seq<Func>)
    requires Progress(c0, r0, start, c, r, work, pending, waiting) && waiting != [] && !OnDemand(r0, start)
    ensures var f, drop := waiting[0], OnDemand(r, waiting[0]);
            Progress(c0, r0, start, c, Forgotten(r, f),
                     Work(work.gone, if drop then work.notified + {f} else work.notified),
                     if drop then pending + [f] else pending, waiting[1..])
  {
    var f, drop := waiting[0], OnDemand(r, waiting[0]);
    assert SameOrDropped(r0, r, start, work.notified, f);
    if drop {
      var more := work.notified + {f};
      forall k ensures SameOrDropped(r0, Forgotten(r, f), start, more, k) {
        assert SameOrDropped(r0, r, start, work.notified, k);
      }
      forall k, e | k in more && k !in pending + [f] ensures !Consults(c.entries, e, k) {
        assert k !in pending && k in work.notified;
      }
    }
  }

  // ---- At the end -----------------------------------------------------------

  /** With nothing pending and no one waiting, the evicted graphs are exactly
  those derived from the start. */
  lemma EndsExact(c0: Cache, r0: Registry, start: Func, c: Cache, r: Registry, work: Work, e: EntryId)
    requires Valid(c0) && Progress(c0, r0, start, c, r, work, [], []) && Published(c0.entries, e)
    ensures e in work.gone <==> ReachesOn(Derives(c0, r0, start), start, c0.entries[e].owner)
  {
    var edge, owners := Derives(c0, r0, start), set x | x in work.gone && x in c0.entries :: c0.entries[x].owner;
    if ReachesOn(edge, start, c0.entries[e].owner) {
      forall a, b | (a == start || a in owners) && edge(a, b) ensures b in owners {
        GoneFollows(c0, r0, start, c, r, work, a, b);
        assert c0.slots[b] in work.gone;
      }
      FirstEdge(edge, start, c0.entries[e].owner);
      var b :| edge(start, b) && Reaches(edge, b, c0.entries[e].owner);
      ClosedReach(edge, owners, b, c0.entries[e].owner);
      var x :| x in work.gone && x in c0.entries && c0.entries[x].owner == c0.entries[e].owner;
      assert Published(c0.entries, x);
    }
  }

  /** The callers of what was evicted or started from were evicted. */
  lemma GoneFollows(c0: Cache, r0: Registry, start: Func, c: Cache, r: Registry, work: Work, a: Func, b: Func)
    requires Valid(c0) && Progress(c0, r0, start, c, r, work, [], []) && Derives(c0, r0, start)(a, b)
    requires a == start || exists x :: x in work.gone && x in c0.entries && c0.entries[x].owner == a
    ensures c0.slots[b] in work.gone
  {
    var e := c0.slots[b];
    assert a in work.notified;
    assert !Consults(c.entries, e, a);
  }

  /** The start is made good; other functions that moved stay owed. */
  lemma EndsConsistent(c0: Cache, r0: Registry, start: Func, c: Cache, r: Registry, work: Work, moved: set<Func>)
    requires ConsistentBut(c0, r0, moved + {start}) && Progress(c0, r0, start, c, r, work, [], [])
    ensures ConsistentBut(c, r, moved - {start})
  {
    forall e, k: Func | k !in moved - {start} ensures EntryCurrent(c, r, e, k) {
      assert SameOrDropped(r0, r, start, work.notified, k);
      assert k != start ==> EntryCurrent(c0, r0, e, k);
      assert Consults(c.entries, e, k) ==> k !in work.notified && Consults(c0.entries, e, k);
    }
    forall k | k in moved - {start} ensures !OnDemand(r, k) {
      assert SameOrDropped(r0, r, start, work.notified, k);
    }
    forall f ensures FromCachedGraph(c, r, f) {
      EndsFromCached(c0, r0, start, c, r, work, f);
    }
  }

  lemma EndsFromCached(c0: Cache, r0: Registry, start: Func, c: Cache, r: Registry, work: Work, f: Func)
    requires Valid(c0) && AllFromCachedGraphs(c0, r0) && !OnDemand(r0, start)
    requires Progress(c0, r0, start, c, r, work, [], [])
    ensures FromCachedGraph(c, r, f)
  {
    assert SameOrDropped(r0, r, start, work.notified, f) && FromCachedGraph(c0, r0, f);
    if OnDemand(r, f) {
      var e := c0.slots[f];
      assert c0.entries[e].owner == f && e !in work.gone;
      assert Published(c.entries, e) && c.entries[e].owner == f;
    }
  }

  /** The registry's line for the function is as it was. */
  predicate Untouched(r0: Registry, r: Registry, f: Func) {
    (f in r.entries <==> f in r0.entries) && (f in r.entries ==> r.entries[f] == r0.entries[f]) &&
    Generation(r, f) == Generation(r0, f)
  }

  // ---- The worklist ---------------------------------------------------------

  /** How many on-demand summaries are left. */
  function OnDemandLeft(r: Registry): nat {
    |OnDemandKeys(r)|
  }

  function OnDemandKeys(r: Registry): set<Func> {
    set f | f in r.entries && OnDemand(r, f)
  }

  lemma ForgetShrinks(r: Registry, f: Func)
    ensures OnDemand(r, f) ==> OnDemandLeft(Forgotten(r, f)) < OnDemandLeft(r)
    ensures !OnDemand(r, f) ==> Forgotten(r, f) == r
  {
    if OnDemand(r, f) {
      assert OnDemandKeys(Forgotten(r, f)) == OnDemandKeys(r) - {f};
    }
  }

  /** What the worklist leaves when it has run to its end. */
  ghost predicate Invalidated(c0: Cache, r0: Registry, start: Func, c: Cache, r: Registry) {
    exists work :: Progress(c0, r0, start, c, r, work, [], [])
  }

  /** Evicts every graph derived from the function's old summary and drops
  every summary projected from one, and nothing else; of the functions that
  moved, the start is made good. Each round either drops an on-demand summary
  or shortens the worklist, so it ends. */
  method InvalidateDependents(graphs: RegionGraphCache, summaries: Summaries, start: Func, ghost moved: set<Func>)
    requires ConsistentBut(graphs.State(), summaries.State(), moved + {start})
    modifies graphs, summaries
    ensures ConsistentBut(graphs.State(), summaries.State(), moved - {start})
    ensures Invalidated(old(graphs.State()), old(summaries.State()), start, graphs.State(), summaries.State())
    ensures forall e | Published(graphs.entries, e) ::
              e in old(graphs.entries) && graphs.entries[e] == old(graphs.entries)[e]
    ensures forall e | Published(old(graphs.entries), e) ::
              Published(graphs.entries, e) <==>
              !ReachesOn(Derives(old(graphs.State()), old(summaries.State()), start), start,
                         old(graphs.entries)[e].owner)
    ensures forall f | OnDemand(old(summaries.State()), f) ::
              OnDemand(summaries.State(), f) <==>
              !ReachesOn(Derives(old(graphs.State()), old(summaries.State()), start), start, f)
    ensures forall f | !OnDemand(old(summaries.State()), f) :: Untouched(old(summaries.State()), summaries.State(), f)
  {
    ghost var c0, r0 := graphs.State(), summaries.State();
    var pending := [start];
    ghost var work := Work({}, {start});
    while pending != []
      invariant Progress(c0, r0, start, graphs.State(), summaries.State(), work, pending, [])
      decreases OnDemandLeft(summaries.State()), |pending|
    {
      ghost var c := graphs.State();
      ghost var left := OnDemandLeft(summaries.State());
      ghost var rest := |pending|;
      var next := pending[0];
      var evicted, list := graphs.EvictDependents(next);
      TakeProgress(c0, r0, start, c, summaries.State(), work, pending, list);
      pending := pending[1..];
      work := Work(work.gone + Members(list), work.notified);
      while evicted != []
        invariant Progress(c0, r0, start, graphs.State(), summaries.State(), work, pending, evicted)
        invariant OnDemandLeft(summaries.State()) < left ||
                  (OnDemandLeft(summaries.State()) == left && |pending| < rest)
        decreases |evicted|
      {
        ForgetProgress(c0, r0, start, graphs.State(), summaries.State(), work, pending, evicted);
        ForgetShrinks(summaries.State(), evicted[0]);
        var dropped := summaries.Forget(evicted[0]);
        if dropped {
          pending := pending + [evicted[0]];
          work := Work(work.gone, work.notified + {evicted[0]});
        }
        evicted := evicted[1..];
      }
    }
    EndsConsistent(c0, r0, start, graphs.State(), summaries.State(), work, moved);
    ExactlyDerived(c0, r0, start, graphs.State(), summaries.State(), work);
  }

  lemma ExactlyDerived(c0: Cache, r0: Registry, start: Func, c: Cache, r: Registry, work: Work)
    requires Valid(c0) && AllFromCachedGraphs(c0, r0) && !OnDemand(r0, start)
    requires Progress(c0, r0, start, c, r, work, [], [])
    ensures forall e | Published(c0.entries, e) ::
              Published(c.entries, e) <==> !ReachesOn(Derives(c0, r0, start), start, c0.entries[e].owner)
    ensures forall f | OnDemand(r0, f) :: OnDemand(r, f) <==> !ReachesOn(Derives(c0, r0, start), start, f)
    ensures forall f | !OnDemand(r0, f) :: Untouched(r0, r, f)
  {
    forall f | !OnDemand(r0, f) ensures Untouched(r0, r, f) {
      assert SameOrDropped(r0, r, start, work.notified, f);
    }
    forall e | Published(c0.entries, e)
      ensures Published(c.entries, e) <==> !ReachesOn(Derives(c0, r0, start), start, c0.entries[e].owner)
    {
      EndsExact(c0, r0, start, c, r, work, e);
    }
    forall f | OnDemand(r0, f) ensures OnDemand(r, f) <==> !ReachesOn(Derives(c0, r0, start), start, f) {
      assert SameOrDropped(r0, r, start, work.notified, f) && FromCachedGraph(c0, r0, f);
      EndsExact(c0, r0, start, c, r, work, c0.slots[f]);
    }
  }

  /** Registering a summary: if it changes what the registry answers, no graph
  and no on-demand summary derived from the old answer survives. */
  method RegisterHeapSummary(graphs: RegionGraphCache, summaries: Summaries, f: Func, summary: Summary)
    requires Consistent(graphs.State(), summaries.State())
    modifies graphs, summaries
    ensures Consistent(graphs.State(), summaries.State())
    ensures Holds(summaries.State(), f, summary) ||
            (old(f !in summaries.entries) && |old(summaries.entries)| >= SUMMARY_LIMIT)
    ensures old(Changes(summaries.State(), f, summary)) ==>
              forall e | Published(old(graphs.entries), e) ::
                Published(graphs.entries, e) <==>
                !ReachesOn(Derives(old(graphs.State()), Registered(old(summaries.State()), f, summary), f), f,
                           old(graphs.entries)[e].owner)
    ensures !old(Changes(summaries.State(), f, summary)) ==> graphs.State() == old(graphs.State())
  {
    ghost var c0, r0 := graphs.State(), summaries.State();
    var changed := summaries.Register(f, summary);
    NothingMoved(c0, r0);
    RegisterBreaks(c0, r0, f, summary, {});
    NothingMoved(graphs.State(), summaries.State());
    if changed {
      ghost var r1 := summaries.State();
      InvalidateDependents(graphs, summaries, f, {});
      NothingMoved(graphs.State(), summaries.State());
      assert Untouched(r1, summaries.State(), f);
    }
  }

  /** Dropping one function's graph, as a caller does that finds it outdated: a
  registration has moved a generation it consulted and not invalidated yet. The
  function's on-demand summary goes with it, and exactly what was derived from
  that; what the registrations owe stays owed. */
  method EvictRegionGraph(graphs: RegionGraphCache, summaries: Summaries, f: Func, graph: Graph, ghost moved: set<Func>)
    requires ConsistentBut(graphs.State(), summaries.State(), moved)
    modifies graphs, summaries
    ensures ConsistentBut(graphs.State(), summaries.State(), moved)
    ensures !OnDemand(summaries.State(), f)
    ensures EvictedFrom(old(graphs.State()), old(summaries.State()), f, graph, graphs.State(), summaries.State())
    ensures forall e | Published(old(graphs.entries), e) ::
              Published(graphs.entries, e) <==>
              && !(old(graphs.entries)[e].owner == f && old(graphs.entries)[e].graph == Some(graph))
              && !LostWith(old(graphs.State()), old(summaries.State()), f, graph, old(graphs.entries)[e].owner)
    ensures forall x | OnDemand(old(summaries.State()), x) ::
              OnDemand(summaries.State(), x) <==>
              x != f && !LostWith(old(graphs.State()), old(summaries.State()), f, graph, x)
  {
    ghost var c0, r0 := graphs.State(), summaries.State();
    EvictBreaks(c0, r0, f, graph, moved);
    if f in graphs.slots {
      var e := graphs.slots[f];
      if graphs.entries[e].graph == Some(graph) {
        graphs.EvictEntry(e);
      }
    }
    var dropped := summaries.Forget(f);
    if dropped {
      InvalidateDependents(graphs, summaries, f, moved);
      assert moved - {f} == moved;
      assert Untouched(Forgotten(r0, f), summaries.State(), f);
    }
  }

  function WithoutGraph(c: Cache, f: Func, graph: Graph): Cache
    requires SlotsExact(c.entries, c.slots)
  {
    if f in c.slots && c.entries[c.slots[f]].graph == Some(graph) then Evict(c, c.slots[f]) else c
  }

  /** The function is derived from the dropped graph's on-demand summary. */
  ghost predicate LostWith(c: Cache, r: Registry, f: Func, graph: Graph, x: Func)
    requires SlotsExact(c.entries, c.slots)
  {
    OnDemand(r, f) && ReachesOn(Derives(WithoutGraph(c, f, graph), Forgotten(r, f), f), f, x)
  }

  /** What dropping the graph leaves. */
  ghost predicate EvictedFrom(c0: Cache, r0: Registry, f: Func, graph: Graph, c: Cache, r: Registry)
    requires SlotsExact(c0.entries, c0.slots)
  {
    var d, s := WithoutGraph(c0, f, graph), Forgotten(r0, f);
    if OnDemand(r0, f) then Invalidated(d, s, f, c, r) else c == d && r == s
  }

  lemma EvictBreaks(c: Cache, r: Registry, f: Func, graph: Graph, moved: set<Func>)
    requires ConsistentBut(c, r, moved)
    ensures var d, s := WithoutGraph(c, f, graph), Forgotten(r, f);
            && ConsistentBut(d, s, if OnDemand(r, f) then moved + {f} else moved)
            && (OnDemand(r, f) ==> f !in moved)
            && forall e | Published(c.entries, e) ::
                 Published(d.entries, e) <==> !(c.entries[e].owner == f && c.entries[e].graph == Some(graph))
  {
    var d, s := WithoutGraph(c, f, graph), Forgotten(r, f);
    if d != c {
      EvictValid(c, c.slots[f]);
    }
    forall e, k: Func | k !in moved && (k != f || !OnDemand(r, f)) ensures EntryCurrent(d, s, e, k) {
      assert EntryCurrent(c, r, e, k);
    }
    forall x ensures FromCachedGraph(d, s, x) {
      EvictSparesOthers(c, r, f, graph, x);
    }
    forall e | Published(c.entries, e)
      ensures Published(d.entries, e) <==> !(c.entries[e].owner == f && c.entries[e].graph == Some(graph))
    {
      assert c.slots[c.entries[e].owner] == e;
    }
  }

  lemma EvictSparesOthers(c: Cache, r: Registry, f: Func, graph: Graph, x: Func)
    requires Valid(c) && AllFromCachedGraphs(c, r) && Valid(WithoutGraph(c, f, graph))
    ensures FromCachedGraph(WithoutGraph(c, f, graph), Forgotten(r, f), x)
  {
    assert FromCachedGraph(c, r, x);
    var d := WithoutGraph(c, f, graph);
    if OnDemand(Forgotten(r, f), x) && d != c {
      assert x != f && c.slots[x] != c.slots[f];
      assert Live(d.entries, c.slots[x]);
    }
  }

  /** A registration leaves at most the callee's own generation unmatched. */
  lemma RegisterBreaks(c: Cache, r: Registry, f: Func, summary: Summary, moved: set<Func>)
    requires ConsistentBut(c, r, moved)
    ensures ConsistentBut(c, Registered(r, f, summary), if Changes(r, f, summary) then moved + {f} else moved)
  {
    var after := Registered(r, f, summary);
    forall e, k: Func | k !in moved && (k != f || !Changes(r, f, summary)) ensures EntryCurrent(c, after, e, k) {
      assert EntryCurrent(c, r, e, k);
    }
    forall x ensures FromCachedGraph(c, after, x) {
      assert FromCachedGraph(c, r, x);
    }
  }

  // ---- The other steps ------------------------------------------------------

  lemma StartStaysConsistent(c: Cache, r: Registry, e: EntryId, owner: Func, moved: set<Func>)
    requires ConsistentBut(c, r, moved) && e !in c.entries && owner !in c.slots
    ensures ConsistentBut(Start(c, e, owner), r, moved)
  {
    StartValid(c, e, owner);
    forall x, k: Func | k !in moved ensures EntryCurrent(Start(c, e, owner), r, x, k) {
      assert EntryCurrent(c, r, x, k);
    }
    forall f ensures FromCachedGraph(Start(c, e, owner), r, f) {
      assert FromCachedGraph(c, r, f);
    }
  }

  predicate StillCurrent(r: Registry, graph: Graph) {
    forall k | k in graph.consulted :: graph.consulted[k] == Generation(r, k)
  }

  /** A build that ends within capacity, published or declined, disturbs nothing. */
  lemma PublishStaysConsistent(c: Cache, r: Registry, e: EntryId, graph: Graph, moved: set<Func>)
    requires ConsistentBut(c, r, moved) && e in c.entries && c.entries[e].graph.None? && |c.order| <= CAPACITY
    ensures ConsistentBut(Publish(c, e, graph, StillCurrent(r, graph)), r, moved)
  {
    if c.entries[e].stale || !StillCurrent(r, graph) {
      DeclineStaysConsistent(c, r, e, graph, moved);
    } else {
      StoredValid(c, e, graph);
      var d := Finish(Stored(c, e, graph), e);
      assert |Without(c.order, e)| < |c.order|;
      assert Publish(c, e, graph, true) == d;
      forall x, k: Func | k !in moved ensures EntryCurrent(d, r, x, k) {
        assert EntryCurrent(c, r, x, k);
      }
      forall f ensures FromCachedGraph(d, r, f) {
        assert FromCachedGraph(c, r, f);
      }
    }
  }

  lemma DeclineStaysConsistent(c: Cache, r: Registry, e: EntryId, graph: Graph, moved: set<Func>)
    requires ConsistentBut(c, r, moved) && e in c.entries && c.entries[e].graph.None?
    ensures ConsistentBut(Finish(RemoveIndexed(c, e), e), r, moved)
  {
    var d := Finish(RemoveIndexed(c, e), e);
    DroppedValid(c, e);
    forall x, k: Func | k !in moved ensures EntryCurrent(d, r, x, k) {
      assert EntryCurrent(c, r, x, k);
    }
    forall f ensures FromCachedGraph(d, r, f) {
      assert FromCachedGraph(c, r, f);
    }
  }

  /** A projection of the function's own cached graph is kept on demand. */
  lemma ProjectionStaysConsistent(c: Cache, r: Registry, f: Func, projected: Option<Summary>, moved: set<Func>)
    requires ConsistentBut(c, r, moved) && f in c.slots && Published(c.entries, c.slots[f])
    requires c.entries[c.slots[f]].graph.value.projection == projected
    requires f in moved ==> f in r.entries && r.entries[f].Ready?
    ensures ConsistentBut(c, ProjectionEnded(r, f, projected), moved)
  {
    var s := ProjectionEnded(r, f, projected);
    forall x, k: Func | k !in moved ensures EntryCurrent(c, s, x, k) {
      assert EntryCurrent(c, r, x, k);
    }
    forall x ensures FromCachedGraph(c, s, x) {
      assert FromCachedGraph(c, r, x);
    }
  }

  lemma BeginStaysConsistent(c: Cache, r: Registry, f: Func, moved: set<Func>)
    requires ConsistentBut(c, r, moved)
    ensures ConsistentBut(c, ProjectionBegun(r, f), moved)
  {
    var s := ProjectionBegun(r, f);
    forall x, k: Func | k !in moved ensures EntryCurrent(c, s, x, k) {
      assert EntryCurrent(c, r, x, k);
    }
    forall x ensures FromCachedGraph(c, s, x) {
      assert FromCachedGraph(c, r, x);
    }
  }

  // ---- Whole runs -----------------------------------------------------------

  /** The cache, the registry, and the registrations that moved a generation
  and have not invalidated yet. */
  datatype Shared = Shared(cache: Cache, registry: Registry, owed: set<Func>)

  const FIRST := Shared(EMPTY_CACHE, EMPTY_REGISTRY, {})

  /** What is done at a time. A registration is two operations, for another
  caller may find a graph outdated in between. */
  datatype Operation =
    | StartBuild(e: EntryId, owner: Func)
    | EndBuild(e: EntryId, graph: Graph)
    | BeginProjection(f: Func)
    | EndProjection(f: Func, projected: Option<Summary>)
    | RegisterSummary(f: Func, summary: Summary)
    | InvalidateFrom(f: Func)
    | EvictOutdated(f: Func, graph: Graph)

  ghost predicate Does(s: Shared, op: Operation, t: Shared) {
    var c, r := s.cache, s.registry;
    match op
    case StartBuild(e, owner) =>
      e !in c.entries && owner !in c.slots && t == s.(cache := Start(c, e, owner))
    case EndBuild(e, graph) =>
      e in c.entries && c.entries[e].graph.None? && (forall x | x in c.order :: x in c.entries) &&
        |c.order| <= CAPACITY &&
      t == s.(cache := Publish(c, e, graph, StillCurrent(r, graph)))
    case BeginProjection(f) => t == s.(registry := ProjectionBegun(r, f))
    case EndProjection(f, projected) =>
      f in c.slots && Published(c.entries, c.slots[f]) && c.entries[c.slots[f]].graph.value.projection == projected &&
      t == s.(registry := ProjectionEnded(r, f, projected))
    case RegisterSummary(f, summary) =>
      t == s.(registry := Registered(r, f, summary), owed := if Changes(r, f, summary) then s.owed + {f} else s.owed)
    case InvalidateFrom(f) =>
      f in s.owed && Invalidated(c, r, f, t.cache, t.registry) && t.owed == s.owed - {f}
    case EvictOutdated(f, graph) =>
      SlotsExact(c.entries, c.slots) && EvictedFrom(c, r, f, graph, t.cache, t.registry) && t.owed == s.owed
  }

  ghost predicate IsRun(states: seq<Shared>, ops: seq<Operation>) {
    && |states| == |ops| + 1 && states[0] == FIRST
    && forall i | 0 <= i < |ops| :: Does(states[i], ops[i], states[i + 1])
  }

  /** What is owed was registered and still is. */
  predicate OwedRegistered(s: Shared) {
    forall k | k in s.owed :: k in s.registry.entries && s.registry.entries[k].Ready? && !s.registry.entries[k].onDemand
  }

  ghost predicate RunInvariant(s: Shared) {
    ConsistentBut(s.cache, s.registry, s.owed) && OwedRegistered(s)
  }

  lemma InvalidatedKeepsRegistered(c0: Cache, r0: Registry, start: Func, c: Cache, r: Registry, k: Func)
    requires Invalidated(c0, r0, start, c, r) && !OnDemand(r0, k)
    ensures Untouched(r0, r, k)
  {
    var work :| Progress(c0, r0, start, c, r, work, [], []);
    assert SameOrDropped(r0, r, start, work.notified, k);
  }

  lemma InvalidateKeeps(s: Shared, f: Func, t: Shared)
    requires RunInvariant(s) && Does(s, InvalidateFrom(f), t)
    ensures RunInvariant(t)
  {
    var work :| Progress(s.cache, s.registry, f, t.cache, t.registry, work, [], []);
    assert s.owed + {f} == s.owed;
    EndsConsistent(s.cache, s.registry, f, t.cache, t.registry, work, s.owed);
    forall k | k in t.owed ensures Untouched(s.registry, t.registry, k) {
      InvalidatedKeepsRegistered(s.cache, s.registry, f, t.cache, t.registry, k);
    }
  }

  lemma EvictKeeps(s: Shared, f: Func, graph: Graph, t: Shared)
    requires RunInvariant(s) && Does(s, EvictOutdated(f, graph), t)
    ensures RunInvariant(t)
  {
    var c, r := WithoutGraph(s.cache, f, graph), Forgotten(s.registry, f);
    EvictBreaks(s.cache, s.registry, f, graph, s.owed);
    if OnDemand(s.registry, f) {
      var work :| Progress(c, r, f, t.cache, t.registry, work, [], []);
      EndsConsistent(c, r, f, t.cache, t.registry, work, s.owed);
      assert s.owed - {f} == s.owed;
      forall k | k in t.owed ensures Untouched(r, t.registry, k) {
        InvalidatedKeepsRegistered(c, r, f, t.cache, t.registry, k);
      }
    }
  }

  lemma OperationKeeps(s: Shared, op: Operation, t: Shared)
    requires RunInvariant(s) && Does(s, op, t)
    ensures RunInvariant(t)
  {
    match op
    case StartBuild(e, owner) => StartStaysConsistent(s.cache, s.registry, e, owner, s.owed);
    case EndBuild(e, graph) => PublishStaysConsistent(s.cache, s.registry, e, graph, s.owed);
    case BeginProjection(f) => BeginStaysConsistent(s.cache, s.registry, f, s.owed);
    case EndProjection(f, projected) => ProjectionStaysConsistent(s.cache, s.registry, f, projected, s.owed);
    case RegisterSummary(f, summary) => RegisterBreaks(s.cache, s.registry, f, summary, s.owed);
    case InvalidateFrom(f) => InvalidateKeeps(s, f, t);
    case EvictOutdated(f, graph) => EvictKeeps(s, f, graph, t);
  }

  /** In every state of every run without eviction for capacity, every cached
  graph is current but for callees whose invalidation is owed, and every
  on-demand summary is what its function's cached graph projects; with nothing
  owed, cache and registry are consistent. */
  lemma {:induction false} EveryRunConsistent(states: seq<Shared>, ops: seq<Operation>)
    requires IsRun(states, ops)
    ensures RunInvariant(states[|states| - 1])
    ensures states[|states| - 1].owed == {} ==> Consistent(states[|states| - 1].cache, states[|states| - 1].registry)
    decreases |ops|
  {
    var n := |ops|;
    if n > 0 {
      EveryRunConsistent(states[..n], ops[..n - 1]);
      OperationKeeps(states[n - 1], ops[n - 1], states[n]);
    }
    var last := states[|states| - 1];
    NothingMoved(last.cache, last.registry);
  }
}
