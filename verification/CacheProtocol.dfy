/** The protocol between analyzers that build, publish, register and
invalidate at once. Each critical section is one step; the registry lock and
the cache lock are separate, and a publisher holds the cache lock while it
reads the registry once per callee it consulted. */
module CacheProtocol {
  import opened Options
  import opened GraphCache
  import opened SummaryRegistry

  /** A build in progress: the generations it read and the summaries the
  registry handed it. */
  datatype Build = Build(consulted: map<Func, nat>, applied: set<(Func, Summary)>)

  /** One call of the invalidation worklist: the functions whose dependents it
  has still to evict, and the owners evicted but not yet asked to forget. */
  datatype Task = Task(pending: seq<Func>, evicted: seq<Func>)

  /** Who holds the cache lock across steps. */
  datatype Publisher = NoOne | Checking(entry: EntryId, graph: Graph, unchecked: set<Func>)

  datatype World = World(
    cache: Cache,
    registry: Registry,
    builds: map<EntryId, Build>,
    tasks: map<nat, Task>,
    holder: Publisher)

  const START_WORLD := World(EMPTY_CACHE, EMPTY_REGISTRY, map[], map[], NoOne)

  datatype Action =
    | StartBuild(entry: EntryId, owner: Func)
    | ReadGeneration(entry: EntryId, callee: Func)
    | TakeSummary(entry: EntryId, callee: Func)
    | BeginPublish(entry: EntryId, projection: Option<Summary>)
    | CheckKey(callee: Func)
    | EndPublish
    | DropStale
    | RegisterSummary(task: nat, callee: Func, summary: Summary)
    | TakeDependents(task: nat, list: seq<EntryId>)
    | ForgetEvicted(task: nat)
    | EvictGraph(task: nat, owner: Func, graph: Graph)
    | ProjectBegin(callee: Func)
    | ProjectEnd(callee: Func, projected: Option<Summary>, asker: Option<EntryId>)

  /** The summaries a build has once the registry answered for the callee. */
  function Handed(build: Build, r: Registry, callee: Func): Build {
    if callee in r.entries && r.entries[callee].Ready? then
      build.(applied := build.applied + {(callee, r.entries[callee].summary)})
    else build
  }

  /** Whether the holder's check has failed: the entry was evicted while it
  was built, or some callee's generation has moved. */
  predicate Outdated(w: World)
    requires w.holder.Checking? && w.holder.entry in w.cache.entries
  {
    w.cache.entries[w.holder.entry].stale ||
    exists k :: k in w.holder.unchecked && k in w.holder.graph.consulted &&
                w.holder.graph.consulted[k] != Generation(w.registry, k)
  }

  ghost predicate Steps(w: World, a: Action, n: World) {
    match a
    case StartBuild(e, owner) =>
      w.holder.NoOne? && e !in w.cache.entries && owner !in w.cache.slots &&
      n == w.(cache := Start(w.cache, e, owner), builds := w.builds[e := Build(map[], {})])
    case ReadGeneration(e, k) =>
      e in w.builds && k !in w.builds[e].consulted &&
      n == w.(builds := w.builds[e := w.builds[e].(consulted := w.builds[e].consulted[k := Generation(w.registry, k)])])
    case TakeSummary(e, k) =>
      e in w.builds && k in w.builds[e].consulted &&
      n == w.(builds := w.builds[e := Handed(w.builds[e], w.registry, k)])
    case BeginPublish(e, projection) =>
      w.holder.NoOne? && e in w.builds &&
      n == w.(builds := w.builds - {e},
              holder := Checking(e, Graph(w.builds[e].consulted, w.builds[e].applied, projection),
                                 w.builds[e].consulted.Keys))
    case CheckKey(k) =>
      w.holder.Checking? && k in w.holder.unchecked && k in w.holder.graph.consulted &&
      w.holder.graph.consulted[k] == Generation(w.registry, k) &&
      n == w.(holder := w.holder.(unchecked := w.holder.unchecked - {k}))
    case EndPublish =>
      w.holder.Checking? && w.holder.unchecked == {} && w.holder.entry in w.cache.entries &&
      !w.cache.entries[w.holder.entry].stale && Listed(w.cache) &&
      n == w.(cache := Publish(w.cache, w.holder.entry, w.holder.graph, true), holder := NoOne)
    case DropStale =>
      w.holder.Checking? && w.holder.entry in w.cache.entries && Outdated(w) && Listed(w.cache) &&
      n == w.(cache := Publish(w.cache, w.holder.entry, w.holder.graph, false), holder := NoOne)
    case RegisterSummary(t, f, summary) =>
      t !in w.tasks &&
      n == w.(registry := Registered(w.registry, f, summary),
              tasks := if Changes(w.registry, f, summary) then w.tasks[t := Task([f], [])] else w.tasks)
    case TakeDependents(t, list) =>
      w.holder.NoOne? && t in w.tasks && w.tasks[t].evicted == [] && w.tasks[t].pending != [] &&
      Members(list) == Dependents(w.cache, w.tasks[t].pending[0]) && Members(list) <= w.cache.entries.Keys &&
      AllIn(list, w.cache.entries) &&
      n == w.(cache := DependentsEvicted(w.cache, w.tasks[t].pending[0], list),
              tasks := w.tasks[t := Task(w.tasks[t].pending[1..], Owners(w.cache.entries, list))])
    case ForgetEvicted(t) =>
      t in w.tasks && w.tasks[t].evicted != [] &&
      var f := w.tasks[t].evicted[0];
      n == w.(registry := Forgotten(w.registry, f),
              tasks := w.tasks[t := Task(w.tasks[t].pending + (if OnDemand(w.registry, f) then [f] else []),
                                         w.tasks[t].evicted[1..])])
    case EvictGraph(t, f, graph) =>
      w.holder.NoOne? && t !in w.tasks &&
      n == w.(cache := if f in w.cache.slots && w.cache.slots[f] in w.cache.entries &&
                          w.cache.entries[w.cache.slots[f]].graph == Some(graph)
                       then Evict(w.cache, w.cache.slots[f]) else w.cache,
              tasks := w.tasks[t := Task([], [f])])
    case ProjectBegin(f) =>
      n == w.(registry := ProjectionBegun(w.registry, f))
    case ProjectEnd(f, projected, asker) =>
      (asker.Some? ==> asker.value in w.builds && f in w.builds[asker.value].consulted) &&
      var r := ProjectionEnded(w.registry, f, projected);
      n == w.(registry := r,
              builds := if asker.Some? then w.builds[asker.value := Handed(w.builds[asker.value], r, f)] else w.builds)
  }

  predicate AllIn(list: seq<EntryId>, entries: Entries) {
    forall i | 0 <= i < |list| :: list[i] in entries
  }

  predicate Listed(c: Cache) {
    forall x | x in c.order :: x in c.entries
  }

  // ---- The invariant --------------------------------------------------------

  /** An invalidation of the function is still to come. */
  ghost predicate Owed(tasks: map<nat, Task>, k: Func) {
    exists t :: t in tasks && k in tasks[t].pending
  }

  ghost predicate CurrentOrOwed(r: Registry, tasks: map<nat, Task>, graph: Graph, k: Func) {
    k in graph.consulted ==> graph.consulted[k] == Generation(r, k) || Owed(tasks, k)
  }

  /** Generations were read no later than now; a summary taken under the
  generation held now is the one held now. */
  predicate HonestRead(r: Registry, consulted: map<Func, nat>, k: Func) {
    k in consulted ==> consulted[k] <= Generation(r, k)
  }

  predicate HonestUse(r: Registry, consulted: map<Func, nat>, use: (Func, Summary)) {
    use.0 in consulted && (consulted[use.0] == Generation(r, use.0) ==> Holds(r, use.0, use.1))
  }

  ghost predicate Honest(r: Registry, consulted: map<Func, nat>, applied: set<(Func, Summary)>) {
    (forall k :: HonestRead(r, consulted, k)) && forall use | use in applied :: HonestUse(r, consulted, use)
  }

  ghost predicate HonestWorld(w: World) {
    && (forall e | e in w.builds :: Honest(w.registry, w.builds[e].consulted, w.builds[e].applied))
    && (w.holder.Checking? ==> Honest(w.registry, w.holder.graph.consulted, w.holder.graph.applied))
    && (forall e | Published(w.cache.entries, e) ::
          Honest(w.registry, w.cache.entries[e].graph.value.consulted, w.cache.entries[e].graph.value.applied))
  }

  /** A running build has an entry without a graph, and one builder. */
  predicate BuildsMatch(entries: Entries, builds: map<EntryId, Build>, holder: Publisher) {
    && (forall e | e in builds :: e in entries && entries[e].graph.None? && !entries[e].finished)
    && (holder.Checking? ==>
          holder.entry in entries && entries[holder.entry].graph.None? && !entries[holder.entry].finished &&
          holder.entry !in builds && holder.unchecked <= holder.graph.consulted.Keys)
  }

  /** Every published graph saw the current generation of each callee it
  consulted, or one whose invalidation is owed; so has a publisher, of the
  callees it has checked. */
  ghost predicate Fresh(w: World) {
    && (forall e, k: Func | Published(w.cache.entries, e) ::
          CurrentOrOwed(w.registry, w.tasks, w.cache.entries[e].graph.value, k))
    && (w.holder.Checking? ==>
          forall k: Func | k !in w.holder.unchecked :: CurrentOrOwed(w.registry, w.tasks, w.holder.graph, k))
  }

  ghost predicate Inv(w: World) {
    Valid(w.cache) && BuildsMatch(w.cache.entries, w.builds, w.holder) && HonestWorld(w) && Fresh(w)
  }

  // ---- Registry writes ------------------------------------------------------

  lemma HonestKept(r: Registry, write: Write, consulted: map<Func, nat>, applied: set<(Func, Summary)>)
    requires Honest(r, consulted, applied)
    ensures Honest(After(r, write), consulted, applied)
  {
    var s := After(r, write);
    forall k ensures HonestRead(s, consulted, k) {
      assert HonestRead(r, consulted, k);
    }
    forall use | use in applied ensures HonestUse(s, consulted, use) {
      assert HonestUse(r, consulted, use) && HonestRead(r, consulted, use.0);
    }
  }

  lemma HonestWorldKept(w: World, write: Write, n: World)
    requires HonestWorld(w) && n.registry == After(w.registry, write)
    requires n.cache == w.cache && n.builds == w.builds && n.holder == w.holder
    ensures HonestWorld(n)
  {
    forall e | e in n.builds ensures Honest(n.registry, n.builds[e].consulted, n.builds[e].applied) {
      HonestKept(w.registry, write, n.builds[e].consulted, n.builds[e].applied);
    }
    if n.holder.Checking? {
      HonestKept(w.registry, write, n.holder.graph.consulted, n.holder.graph.applied);
    }
    forall e | Published(n.cache.entries, e)
      ensures Honest(n.registry, n.cache.entries[e].graph.value.consulted, n.cache.entries[e].graph.value.applied)
    {
      HonestKept(w.registry, write, n.cache.entries[e].graph.value.consulted, n.cache.entries[e].graph.value.applied);
    }
  }

  /** A write that moves only generations it owes keeps every graph fresh. */
  lemma FreshKept(w: World, n: World)
    requires Fresh(w) && n.cache == w.cache && n.holder == w.holder
    requires forall k: Func :: Generation(n.registry, k) == Generation(w.registry, k) || Owed(n.tasks, k)
    requires forall k: Func :: Owed(w.tasks, k) ==> Owed(n.tasks, k)
    ensures Fresh(n)
  {
    forall e, k: Func | Published(n.cache.entries, e)
      ensures CurrentOrOwed(n.registry, n.tasks, n.cache.entries[e].graph.value, k)
    {
      assert CurrentOrOwed(w.registry, w.tasks, w.cache.entries[e].graph.value, k);
    }
    if n.holder.Checking? {
      forall k: Func | k !in n.holder.unchecked ensures CurrentOrOwed(n.registry, n.tasks, n.holder.graph, k) {
        assert CurrentOrOwed(w.registry, w.tasks, w.holder.graph, k);
      }
    }
  }

  lemma RegisterKeeps(w: World, t: nat, f: Func, summary: Summary, n: World)
    requires Inv(w) && Steps(w, RegisterSummary(t, f, summary), n)
    ensures Inv(n)
  {
    HonestWorldKept(w, Register(f, summary), n);
    forall k: Func ensures Generation(n.registry, k) == Generation(w.registry, k) || Owed(n.tasks, k) {
      if k == f && Changes(w.registry, f, summary) {
        assert t in n.tasks && k in n.tasks[t].pending;
      }
    }
    forall k: Func | Owed(w.tasks, k) ensures Owed(n.tasks, k) {
      var u :| u in w.tasks && k in w.tasks[u].pending;
      assert u in n.tasks && n.tasks[u] == w.tasks[u];
    }
    FreshKept(w, n);
  }

  lemma ForgetKeeps(w: World, t: nat, n: World)
    requires Inv(w) && Steps(w, ForgetEvicted(t), n)
    ensures Inv(n)
  {
    var f := w.tasks[t].evicted[0];
    HonestWorldKept(w, Forget(f), n);
    forall k: Func ensures Generation(n.registry, k) == Generation(w.registry, k) || Owed(n.tasks, k) {
      if k == f && OnDemand(w.registry, f) {
        assert t in n.tasks && f in n.tasks[t].pending;
      }
    }
    forall k: Func | Owed(w.tasks, k) ensures Owed(n.tasks, k) {
      var u :| u in w.tasks && k in w.tasks[u].pending;
      assert u in n.tasks && k in n.tasks[u].pending;
    }
    FreshKept(w, n);
  }

  lemma ProjectKeeps(w: World, a: Action, n: World)
    requires Inv(w) && (a.ProjectBegin? || a.ProjectEnd?) && Steps(w, a, n)
    ensures Inv(n)
  {
    var write := if a.ProjectBegin? then BeginProjection(a.callee) else EndProjection(a.callee, a.projected);
    var mid := w.(registry := n.registry);
    HonestWorldKept(w, write, mid);
    forall k: Func ensures Generation(mid.registry, k) == Generation(w.registry, k) {
    }
    FreshKept(w, mid);
    if a.ProjectEnd? && a.asker.Some? {
      HandedKeeps(mid, a.asker.value, a.callee, n);
    }
  }

  /** A summary handed to a build that read the generation first is honest. */
  lemma HandedKeeps(w: World, e: EntryId, k: Func, n: World)
    requires Inv(w) && e in w.builds && k in w.builds[e].consulted
    requires n == w.(builds := w.builds[e := Handed(w.builds[e], w.registry, k)])
    ensures Inv(n)
  {
    var build, after := w.builds[e], n.builds[e];
    assert Honest(w.registry, build.consulted, build.applied);
    forall use | use in after.applied ensures HonestUse(w.registry, after.consulted, use) {
      assert use in build.applied ==> HonestUse(w.registry, build.consulted, use);
    }
    forall k ensures HonestRead(w.registry, after.consulted, k) {
      assert HonestRead(w.registry, build.consulted, k);
    }
  }

  lemma ReadKeeps(w: World, e: EntryId, k: Func, n: World)
    requires Inv(w) && Steps(w, ReadGeneration(e, k), n)
    ensures Inv(n)
  {
    var build, after := w.builds[e], n.builds[e];
    forall use | use in after.applied ensures HonestUse(w.registry, after.consulted, use) {
      assert HonestUse(w.registry, build.consulted, use);
    }
    forall x ensures HonestRead(w.registry, after.consulted, x) {
      assert HonestRead(w.registry, build.consulted, x);
    }
  }

  // ---- Cache steps ----------------------------------------------------------

  /** After the step every published graph was published before it, unchanged. */
  ghost predicate Shrinks(before: Entries, after: Entries) {
    forall e | Published(after, e) :: Published(before, e) && after[e].graph == before[e].graph
  }

  lemma ShrinkKeeps(w: World, n: World)
    requires HonestWorld(w) && Fresh(w) && Shrinks(w.cache.entries, n.cache.entries)
    requires n.registry == w.registry && n.builds == w.builds && n.tasks == w.tasks && n.holder == w.holder
    ensures HonestWorld(n) && Fresh(n)
  {
    forall e, k: Func | Published(n.cache.entries, e)
      ensures CurrentOrOwed(n.registry, n.tasks, n.cache.entries[e].graph.value, k)
    {
      assert CurrentOrOwed(w.registry, w.tasks, w.cache.entries[e].graph.value, k);
    }
  }

  lemma StartKeeps(w: World, e: EntryId, owner: Func, n: World)
    requires Inv(w) && Steps(w, StartBuild(e, owner), n)
    ensures Inv(n)
  {
    StartValid(w.cache, e, owner);
    var mid := w.(cache := n.cache);
    ShrinkKeeps(w, mid);
    assert Honest(w.registry, map[], {});
  }

  lemma BeginKeeps(w: World, e: EntryId, projection: Option<Summary>, n: World)
    requires Inv(w) && Steps(w, BeginPublish(e, projection), n)
    ensures Inv(n)
  {
    forall k: Func | k !in n.holder.unchecked ensures CurrentOrOwed(n.registry, n.tasks, n.holder.graph, k) {
    }
  }

  lemma CheckKeeps(w: World, k: Func, n: World)
    requires Inv(w) && Steps(w, CheckKey(k), n)
    ensures Inv(n)
  {
    forall x: Func | x !in n.holder.unchecked ensures CurrentOrOwed(n.registry, n.tasks, n.holder.graph, x) {
      assert x != k ==> CurrentOrOwed(w.registry, w.tasks, w.holder.graph, x);
    }
  }

  /** Publication adds one graph and may drop others. */
  ghost predicate Adds(before: Entries, after: Entries, e: EntryId, graph: Graph) {
    (Published(after, e) ==> after[e].graph == Some(graph)) &&
    forall x | Published(after, x) && x != e :: Published(before, x) && after[x].graph == before[x].graph
  }

  lemma PublishHonest(w: World, n: World, e: EntryId, graph: Graph)
    requires HonestWorld(w) && Adds(w.cache.entries, n.cache.entries, e, graph)
    requires n.registry == w.registry && n.builds == w.builds && n.holder.NoOne?
    requires Honest(w.registry, graph.consulted, graph.applied)
    ensures HonestWorld(n)
  {
  }

  lemma PublishFresh(w: World, n: World, e: EntryId, graph: Graph)
    requires Fresh(w) && Adds(w.cache.entries, n.cache.entries, e, graph)
    requires n.registry == w.registry && n.tasks == w.tasks && n.holder.NoOne?
    requires forall k: Func :: CurrentOrOwed(w.registry, w.tasks, graph, k)
    ensures Fresh(n)
  {
    forall x, k: Func | Published(n.cache.entries, x)
      ensures CurrentOrOwed(n.registry, n.tasks, n.cache.entries[x].graph.value, k)
    {
      assert CurrentOrOwed(w.registry, w.tasks, graph, k);
      assert x != e ==> CurrentOrOwed(w.registry, w.tasks, w.cache.entries[x].graph.value, k);
    }
  }

  /** The graph a holder publishes had every callee checked. */
  lemma PublishKeeps(w: World, n: World)
    requires Inv(w) && Steps(w, EndPublish, n)
    ensures Inv(n)
  {
    var e, graph := w.holder.entry, w.holder.graph;
    PublishAdds(w.cache, e, graph);
    PublishHonest(w, n, e, graph);
    PublishFresh(w, n, e, graph);
  }

  lemma PublishAdds(c: Cache, e: EntryId, graph: Graph)
    requires Valid(c) && e in c.entries && c.entries[e].graph.None?
    ensures var d := Publish(c, e, graph, true);
            && Valid(d) && Adds(c.entries, d.entries, e, graph) && d.entries.Keys == c.entries.Keys
            && forall x | x in c.entries && x != e && c.entries[x].graph.None? :: d.entries[x] == c.entries[x]
  {
    PublishValid(c, e, graph, true);
    PublishSpares(c, e, graph, true);
  }

  lemma DropKeeps(w: World, n: World)
    requires Inv(w) && Steps(w, DropStale, n)
    ensures Inv(n)
  {
    PublishValid(w.cache, w.holder.entry, w.holder.graph, false);
    PublishSpares(w.cache, w.holder.entry, w.holder.graph, false);
    var mid := w.(cache := n.cache);
    ShrinkKeeps(w, mid);
  }

  lemma EvictKeeps(w: World, t: nat, f: Func, graph: Graph, n: World)
    requires Inv(w) && Steps(w, EvictGraph(t, f, graph), n)
    ensures Inv(n)
  {
    if n.cache != w.cache {
      EvictValid(w.cache, w.cache.slots[f]);
    }
    var mid := w.(cache := n.cache);
    ShrinkKeeps(w, mid);
    forall k: Func | Owed(mid.tasks, k) ensures Owed(n.tasks, k) {
      var u :| u in w.tasks && k in w.tasks[u].pending;
      assert u in n.tasks && n.tasks[u] == w.tasks[u];
    }
    FreshKept(mid, n);
  }

  /** Once the dependents are evicted the function's debt is discharged. */
  lemma TakeKeeps(w: World, t: nat, list: seq<EntryId>, n: World)
    requires Inv(w) && Steps(w, TakeDependents(t, list), n)
    ensures Inv(n)
  {
    var next := w.tasks[t].pending[0];
    DependentsEvictedExact(w.cache, next, list);
    var mid := w.(cache := n.cache);
    ShrinkKeeps(w, mid);
    forall k: Func | Owed(w.tasks, k) && k != next ensures Owed(n.tasks, k) {
      var u :| u in w.tasks && k in w.tasks[u].pending;
      assert u in n.tasks && k in n.tasks[u].pending;
    }
    forall e, k: Func | Published(n.cache.entries, e)
      ensures CurrentOrOwed(n.registry, n.tasks, n.cache.entries[e].graph.value, k)
    {
      assert CurrentOrOwed(mid.registry, mid.tasks, mid.cache.entries[e].graph.value, k);
      assert !Consults(n.cache.entries, e, next);
    }
  }

  // ---- Whole runs -----------------------------------------------------------

  lemma StepKeeps(w: World, a: Action, n: World)
    requires Inv(w) && Steps(w, a, n)
    ensures Inv(n)
  {
    match a
    case StartBuild(e, owner) => StartKeeps(w, e, owner, n);
    case ReadGeneration(e, k) => ReadKeeps(w, e, k, n);
    case TakeSummary(e, k) => HandedKeeps(w, e, k, n);
    case BeginPublish(e, projection) => BeginKeeps(w, e, projection, n);
    case CheckKey(k) => CheckKeeps(w, k, n);
    case EndPublish => PublishKeeps(w, n);
    case DropStale => DropKeeps(w, n);
    case RegisterSummary(t, f, summary) => RegisterKeeps(w, t, f, summary, n);
    case TakeDependents(t, list) => TakeKeeps(w, t, list, n);
    case ForgetEvicted(t) => ForgetKeeps(w, t, n);
    case EvictGraph(t, f, graph) => EvictKeeps(w, t, f, graph, n);
    case ProjectBegin(f) => ProjectKeeps(w, a, n);
    case ProjectEnd(f, projected, asker) => ProjectKeeps(w, a, n);
  }

  /** The worlds and the actions between them. */
  ghost predicate IsRun(run: seq<World>, actions: seq<Action>) {
    run != [] && run[0] == START_WORLD && |actions| == |run| - 1 &&
    forall i | 0 <= i < |actions| :: Steps(run[i], actions[i], run[i + 1])
  }

  lemma {:induction false} EveryStateKeeps(run: seq<World>, actions: seq<Action>, i: nat)
    requires IsRun(run, actions) && i < |run|
    ensures Inv(run[i])
  {
    if i > 0 {
      EveryStateKeeps(run, actions, i - 1);
      StepKeeps(run[i - 1], actions[i - 1], run[i]);
    }
  }

  /** In every reachable state a cached graph saw, for each callee it
  consulted, the generation held now, or the invalidation is still owed. */
  lemma CachedGraphsFresh(run: seq<World>, actions: seq<Action>, i: nat, e: EntryId, k: Func)
    requires IsRun(run, actions) && i < |run|
    requires Published(run[i].cache.entries, e) && k in run[i].cache.entries[e].graph.value.consulted
    ensures var graph := run[i].cache.entries[e].graph.value;
            graph.consulted[k] == Generation(run[i].registry, k) || Owed(run[i].tasks, k)
  {
    EveryStateKeeps(run, actions, i);
    assert CurrentOrOwed(run[i].registry, run[i].tasks, run[i].cache.entries[e].graph.value, k);
  }

  /** With nothing owed, each summary a cached graph was handed by the registry
  is the one held there now. */
  lemma SettledGraphsCurrent(run: seq<World>, actions: seq<Action>, i: nat, e: EntryId, k: Func, summary: Summary)
    requires IsRun(run, actions) && i < |run| && !Owed(run[i].tasks, k)
    requires Published(run[i].cache.entries, e) && (k, summary) in run[i].cache.entries[e].graph.value.applied
    ensures Holds(run[i].registry, k, summary)
  {
    EveryStateKeeps(run, actions, i);
    var graph := run[i].cache.entries[e].graph.value;
    assert HonestUse(run[i].registry, graph.consulted, (k, summary));
    CachedGraphsFresh(run, actions, i, e, k);
  }

  /** The index, the slots and the waiters in every reachable state. */
  lemma CacheExact(run: seq<World>, actions: seq<Action>, i: nat, e: EntryId, k: Func)
    requires IsRun(run, actions) && i < |run|
    ensures var c := run[i].cache;
            && (IndexedUnder(c.dependents, k, e) <==> Consults(c.entries, e, k))
            && (Live(c.entries, e) <==>
                e in c.entries && c.entries[e].owner in c.slots && c.slots[c.entries[e].owner] == e)
            && (Live(c.entries, e) ==> (c.entries[e].finished <==> c.entries[e].graph.Some?))
  {
    EveryStateKeeps(run, actions, i);
  }

  /** What the registry's answer for a callee adds to a build: the summary held
  ready, and nothing else. */
  lemma HandedExactly(build: Build, r: Registry, callee: Func, f: Func, summary: Summary)
    ensures var after := Handed(build, r, callee);
            && after.consulted == build.consulted
            && ((f, summary) in after.applied <==>
                (f, summary) in build.applied || (f == callee && Holds(r, callee, summary)))
  {
  }

  /** The entry was evicted, or the generation of a callee has moved since. */
  ghost predicate Superseded(w: World, e: EntryId, graph: Graph)
    requires e in w.cache.entries
  {
    w.cache.entries[e].stale ||
    exists k :: k in graph.consulted && graph.consulted[k] != Generation(w.registry, k)
  }

  /** A publisher always has a next step: to publish once every callee is
  checked, to check one more, or to give the graph up; and it gives up only a
  graph that is superseded. */
  lemma PublisherMoves(run: seq<World>, actions: seq<Action>, i: nat)
    requires IsRun(run, actions) && i < |run| && run[i].holder.Checking?
    ensures var w := run[i];
            w.holder.entry in w.cache.entries &&
            exists a, n :: Steps(w, a, n) && (a.EndPublish? || a.CheckKey? || a.DropStale?)
    ensures forall n | Steps(run[i], DropStale, n) :: Superseded(run[i], run[i].holder.entry, run[i].holder.graph)
  {
    EveryStateKeeps(run, actions, i);
    var w := run[i];
    if Outdated(w) {
      assert exists n :: Steps(w, DropStale, n) by {
        assert Steps(w, DropStale, w.(cache := Publish(w.cache, w.holder.entry, w.holder.graph, false),
                                      holder := NoOne));
      }
    } else if w.holder.unchecked == {} {
      assert Steps(w, EndPublish, w.(cache := Publish(w.cache, w.holder.entry, w.holder.graph, true), holder := NoOne));
    } else {
      var k :| k in w.holder.unchecked;
      assert Steps(w, CheckKey(k), w.(holder := w.holder.(unchecked := w.holder.unchecked - {k})));
    }
  }

  /** A build whose entry was evicted ends without touching the slots, the
  order, the index or any other entry, whatever replaced it meanwhile. */
  lemma LateBuildNeverReplaces(run: seq<World>, actions: seq<Action>, i: nat)
    requires IsRun(run, actions) && i + 1 < |run| && run[i].holder.Checking? && run[i + 1].holder.NoOne?
    requires run[i].holder.entry in run[i].cache.entries && run[i].cache.entries[run[i].holder.entry].stale
    ensures var c, d, e := run[i].cache, run[i + 1].cache, run[i].holder.entry;
            && d.slots == c.slots && d.order == c.order && d.dependents == c.dependents
            && (forall x | x in c.entries && x != e :: x in d.entries && d.entries[x] == c.entries[x])
            && e in d.entries && d.entries[e].finished && d.entries[e].graph.None?
  {
    EveryStateKeeps(run, actions, i);
    LateBuildStep(run[i], actions[i], run[i + 1]);
  }

  lemma LateBuildStep(w: World, a: Action, n: World)
    requires Inv(w) && Steps(w, a, n) && w.holder.Checking? && n.holder.NoOne?
    requires w.cache.entries[w.holder.entry].stale
    ensures var e := w.holder.entry;
            n.cache == w.cache.(entries := w.cache.entries[e := w.cache.entries[e].(finished := true)])
    ensures w.cache.entries[w.holder.entry].graph.None?
  {
    assert a.DropStale?;
    LateBuildHarmless(w.cache, w.holder.entry, w.holder.graph, false);
  }
}
