/** The points-to graph cache: one slot per function, a recency list, and an
index of the published graphs by the callee summaries they consulted. */
module GraphCache {
  import opened Options

  type Func = nat
  type EntryId = nat
  type Summary = nat

  /** A finished build: the generation it read for each callee it consulted,
  the summaries it was handed from the registry, and what it projects to. */
  datatype Graph = Graph(consulted: map<Func, nat>, applied: set<(Func, Summary)>, projection: Option<Summary>)

  /** graph is absent while the build is in progress; finished is whether the
  entry's waiters have been woken. */
  datatype Entry = Entry(owner: Func, graph: Option<Graph>, stale: bool, finished: bool)

  datatype Cache = Cache(
    entries: map<EntryId, Entry>,
    slots: map<Func, EntryId>,
    order: seq<EntryId>,
    dependents: map<Func, set<EntryId>>)

  const EMPTY_CACHE := Cache(map[], map[], [], map[])

  /** How many graphs the cache keeps, unless an unfinished build is oldest. */
  const CAPACITY := 128

  // ---- What the operations do -----------------------------------------------

  function Without(order: seq<EntryId>, e: EntryId): (r: seq<EntryId>)
    ensures forall x :: x in r <==> x in order && x != e
    ensures |r| <= |order| && (e in order ==> |r| < |order|)
  {
    if order == [] then []
    else if order[0] == e then Without(order[1..], e)
    else [order[0]] + Without(order[1..], e)
  }

  function Consulted(entry: Entry): set<Func> {
    if entry.graph.Some? then entry.graph.value.consulted.Keys else {}
  }

  /** Marks the entry stale and unlinks only its own slot. */
  function RemoveIndexed(c: Cache, e: EntryId): Cache
    requires e in c.entries
  {
    var entry := c.entries[e];
    var marked := c.(entries := c.entries[e := entry.(stale := true)]);
    if entry.owner in c.slots && c.slots[entry.owner] == e then
      marked.(slots := c.slots - {entry.owner}, order := Without(c.order, e))
    else marked
  }

  function Unindexed(dependents: map<Func, set<EntryId>>, e: EntryId, keys: set<Func>): map<Func, set<EntryId>> {
    map k | k in dependents :: if k in keys then dependents[k] - {e} else dependents[k]
  }

  function Indexed(dependents: map<Func, set<EntryId>>, e: EntryId, keys: set<Func>): map<Func, set<EntryId>> {
    map k | k in dependents.Keys + keys ::
      if k in keys then (if k in dependents then dependents[k] else {}) + {e} else dependents[k]
  }

  function Evict(c: Cache, e: EntryId): Cache
    requires e in c.entries
  {
    RemoveIndexed(c, e).(dependents := Unindexed(c.dependents, e, Consulted(c.entries[e])))
  }

  function EvictEach(c: Cache, list: seq<EntryId>): (d: Cache)
    requires forall i | 0 <= i < |list| :: list[i] in c.entries
    ensures d.entries.Keys == c.entries.Keys && forall e | e in c.entries :: d.entries[e].owner == c.entries[e].owner
    decreases |list|
  {
    if list == [] then c else Evict(EvictEach(c, list[..|list| - 1]), list[|list| - 1])
  }

  /** Room for a new build of a function with no slot. */
  function Start(c: Cache, e: EntryId, owner: Func): Cache {
    c.(entries := c.entries[e := Entry(owner, None, false, false)],
       slots := c.slots[owner := e],
       order := [e] + c.order)
  }

  function Finish(c: Cache, e: EntryId): Cache
    requires e in c.entries
  {
    c.(entries := c.entries[e := c.entries[e].(finished := true)])
  }

  /** The graph is stored, moved to the front and indexed. */
  function Stored(c: Cache, e: EntryId, graph: Graph): Cache
    requires e in c.entries
  {
    var entry := c.entries[e];
    c.(entries := c.entries[e := entry.(graph := Some(graph))],
       slots := c.slots[entry.owner := e],
       order := [e] + Without(c.order, e),
       dependents := Indexed(c.dependents, e, graph.consulted.Keys))
  }

  /** Evicts from the back while the cache is over capacity, but stops at a
  build that is still running. */
  function Trim(c: Cache): Cache
    requires forall e | e in c.order :: e in c.entries
    decreases |c.order|
  {
    if |c.order| <= CAPACITY then c
    else
      var oldest := Oldest(c);
      if c.entries[oldest].graph.None? then c
      else if |Evict(c, oldest).order| < |c.order| then Trim(Evict(c, oldest)) else c
  }

  /** A build ends: published if its entry is not stale and what it consulted
  is current, dropped otherwise; either way its waiters wake. */
  function Publish(c: Cache, e: EntryId, graph: Graph, current: bool): Cache
    requires e in c.entries && forall x | x in c.order :: x in c.entries
  {
    if c.entries[e].stale || !current then Finish(RemoveIndexed(c, e), e)
    else Trim(Finish(Stored(c, e, graph), e))
  }

  // ---- The cache invariant --------------------------------------------------

  type Entries = map<EntryId, Entry>
  type Index = map<Func, set<EntryId>>

  predicate Distinct(order: seq<EntryId>) {
    order == [] || (order[0] !in order[1..] && Distinct(order[1..]))
  }

  /** The entry is the cached one for its function. */
  predicate Live(entries: Entries, e: EntryId) {
    e in entries && !entries[e].stale
  }

  predicate Published(entries: Entries, e: EntryId) {
    Live(entries, e) && entries[e].graph.Some?
  }

  /** The entry's published graph consulted the callee. */
  predicate Consults(entries: Entries, e: EntryId, k: Func) {
    Published(entries, e) && k in Consulted(entries[e])
  }

  predicate IndexedUnder(index: Index, k: Func, e: EntryId) {
    k in index && e in index[k]
  }

  /** Each entry that is not stale is the one cached for its function. */
  predicate SlotsExact(entries: Entries, slots: map<Func, EntryId>) {
    && (forall f | f in slots :: Live(entries, slots[f]) && entries[slots[f]].owner == f)
    && (forall e | e in entries :: !entries[e].stale ==> entries[e].owner in slots && slots[entries[e].owner] == e)
  }

  predicate OrderExact(entries: Entries, order: seq<EntryId>) {
    Distinct(order) && (forall e | e in order :: Live(entries, e)) &&
    forall e | e in entries :: !entries[e].stale ==> e in order
  }

  /** An entry is indexed under a callee exactly when it is cached, published
  and consulted the callee. */
  ghost predicate IndexExact(entries: Entries, index: Index) {
    forall k: Func, e: EntryId :: IndexedUnder(index, k, e) <==> Consults(entries, e, k)
  }

  /** The waiters of a published entry have been woken, and those of a cached one
  that is not have not. */
  predicate PublishedFinished(entries: Entries) {
    && (forall e | e in entries && entries[e].graph.Some? :: entries[e].finished)
    && forall e | e in entries && !entries[e].stale && entries[e].finished :: entries[e].graph.Some?
  }

  ghost predicate Valid(c: Cache) {
    SlotsExact(c.entries, c.slots) && OrderExact(c.entries, c.order) &&
    IndexExact(c.entries, c.dependents) && PublishedFinished(c.entries)
  }

  // ---- Lists without repetition ---------------------------------------------

  lemma {:induction false} WithoutDistinct(order: seq<EntryId>, e: EntryId)
    requires Distinct(order)
    ensures Distinct(Without(order, e))
  {
    if order != [] {
      WithoutDistinct(order[1..], e);
      assert order[0] != e ==> Without(order, e)[1..] == Without(order[1..], e);
    }
  }

  lemma {:induction false} WithoutNothing(order: seq<EntryId>, e: EntryId)
    requires e !in order
    ensures Without(order, e) == order
  {
    if order != [] {
      WithoutNothing(order[1..], e);
    }
  }

  // ---- A new build ----------------------------------------------------------

  function Started(entries: Entries, e: EntryId, owner: Func): Entries {
    entries[e := Entry(owner, None, false, false)]
  }

  lemma StartSlots(entries: Entries, slots: map<Func, EntryId>, e: EntryId, owner: Func)
    requires SlotsExact(entries, slots) && e !in entries && owner !in slots
    ensures SlotsExact(Started(entries, e, owner), slots[owner := e])
  {
  }

  lemma StartValid(c: Cache, e: EntryId, owner: Func)
    requires Valid(c) && e !in c.entries && owner !in c.slots
    ensures Valid(Start(c, e, owner))
  {
    StartSlots(c.entries, c.slots, e, owner);
  }

  // ---- Eviction -------------------------------------------------------------

  function Marked(entries: Entries, e: EntryId): Entries
    requires e in entries
  {
    entries[e := entries[e].(stale := true)]
  }

  /** Unlinking an entry leaves the other slots as they were. */
  lemma RemoveIndexedSlots(c: Cache, e: EntryId)
    requires SlotsExact(c.entries, c.slots) && e in c.entries
    ensures var d := RemoveIndexed(c, e);
            && d.entries == Marked(c.entries, e) && SlotsExact(d.entries, d.slots) && d.dependents == c.dependents
            && forall f | f in c.slots && c.slots[f] != e :: f in d.slots && d.slots[f] == c.slots[f]
  {
  }

  lemma RemoveIndexedOrder(c: Cache, e: EntryId)
    requires SlotsExact(c.entries, c.slots) && OrderExact(c.entries, c.order) && e in c.entries
    ensures RemoveIndexed(c, e).order == Without(c.order, e)
    ensures OrderExact(Marked(c.entries, e), Without(c.order, e))
  {
    WithoutDistinct(c.order, e);
    if c.entries[e].stale {
      WithoutNothing(c.order, e);
    }
  }

  lemma UnindexedExact(entries: Entries, index: Index, e: EntryId)
    requires IndexExact(entries, index) && e in entries
    ensures IndexExact(Marked(entries, e), Unindexed(index, e, Consulted(entries[e])))
  {
    var after := Unindexed(index, e, Consulted(entries[e]));
    forall k: Func, x: EntryId ensures IndexedUnder(after, k, x) <==> Consults(Marked(entries, e), x, k) {
      assert IndexedUnder(index, k, x) <==> Consults(entries, x, k);
      assert IndexedUnder(index, k, e) <==> Consults(entries, e, k);
    }
  }

  lemma EvictValid(c: Cache, e: EntryId)
    requires Valid(c) && e in c.entries
    ensures Valid(Evict(c, e))
    ensures Evict(c, e).entries == Marked(c.entries, e)
    ensures Evict(c, e).order == Without(c.order, e)
  {
    RemoveIndexedSlots(c, e);
    RemoveIndexedOrder(c, e);
    UnindexedExact(c.entries, c.dependents, e);
  }

  /** Marking every entry of the set stale. */
  function AllMarked(entries: Entries, all: set<EntryId>): Entries {
    map x | x in entries :: if x in all then entries[x].(stale := true) else entries[x]
  }

  function Members(list: seq<EntryId>): set<EntryId> {
    set e | e in list
  }

  /** Evicts the dependents of one function and drops its index line. */
  function DependentsEvicted(c: Cache, k: Func, list: seq<EntryId>): Cache
    requires forall i | 0 <= i < |list| :: list[i] in c.entries
  {
    var evicted := EvictEach(c, list);
    evicted.(dependents := evicted.dependents - {k})
  }

  function Dependents(c: Cache, k: Func): set<EntryId> {
    if k in c.dependents then c.dependents[k] else {}
  }

  function Owners(entries: Entries, list: seq<EntryId>): seq<Func>
    requires forall i | 0 <= i < |list| :: list[i] in entries
  {
    seq(|list|, i requires 0 <= i < |list| => entries[list[i]].owner)
  }

  lemma DependentsConsult(c: Cache, k: Func)
    requires Valid(c)
    ensures forall e | e in Dependents(c, k) :: e in c.entries && Consults(c.entries, e, k)
  {
    forall e | e in Dependents(c, k) ensures Consults(c.entries, e, k) {
      assert IndexedUnder(c.dependents, k, e);
    }
  }

  lemma EvictOneMore(c: Cache, list: seq<EntryId>, e: EntryId)
    requires (forall i | 0 <= i < |list| :: list[i] in c.entries) && e in c.entries
    ensures var longer := list + [e];
            && (forall i | 0 <= i < |longer| :: longer[i] in c.entries)
            && EvictEach(c, longer) == Evict(EvictEach(c, list), e)
            && Members(longer) == Members(list) + {e}
            && Owners(c.entries, longer) == Owners(c.entries, list) + [c.entries[e].owner]
  {
    assert (list + [e])[..|list|] == list;
  }

  /** Evicting all dependents leaves no published graph that consulted the
  function. */
  lemma DependentsEvictedExact(c: Cache, k: Func, list: seq<EntryId>)
    requires Valid(c) && (forall i | 0 <= i < |list| :: list[i] in c.entries) && Members(list) == Dependents(c, k)
    ensures var d := DependentsEvicted(c, k, list);
            Valid(d) && d.entries == AllMarked(c.entries, Members(list)) && forall e :: !Consults(d.entries, e, k)
  {
    EvictEachExact(c, list);
    var evicted, d := EvictEach(c, list), DependentsEvicted(c, k, list);
    forall e ensures !Consults(d.entries, e, k) {
      assert IndexedUnder(c.dependents, k, e) <==> Consults(c.entries, e, k);
    }
    forall x: Func, e: EntryId ensures IndexedUnder(d.dependents, x, e) <==> Consults(d.entries, e, x) {
      assert IndexedUnder(evicted.dependents, x, e) <==> Consults(evicted.entries, e, x);
    }
  }

  lemma MarkOneMore(entries: Entries, all: set<EntryId>, e: EntryId)
    requires e in entries
    ensures Marked(AllMarked(entries, all), e) == AllMarked(entries, all + {e})
  {
  }

  /** Evicting entries one by one marks exactly those stale and keeps the
  invariant, whatever the order. */
  lemma {:induction false} EvictEachExact(c: Cache, list: seq<EntryId>)
    requires Valid(c) && forall i | 0 <= i < |list| :: list[i] in c.entries
    ensures Valid(EvictEach(c, list))
    ensures EvictEach(c, list).entries == AllMarked(c.entries, Members(list))
    decreases |list|
  {
    if list != [] {
      var front, last := list[..|list| - 1], list[|list| - 1];
      EvictEachExact(c, front);
      EvictValid(EvictEach(c, front), last);
      assert Members(list) == Members(front) + {last};
      MarkOneMore(c.entries, Members(front), last);
    }
  }

  /** The entries decide the slots, the index and what the order lists. */
  lemma EntriesDecide(c: Cache, d: Cache)
    requires Valid(c) && Valid(d) && c.entries == d.entries
    ensures c.slots == d.slots && (forall e :: e in c.order <==> e in d.order)
    ensures forall k: Func, e: EntryId :: IndexedUnder(c.dependents, k, e) <==> IndexedUnder(d.dependents, k, e)
  {
    forall f ensures f in c.slots <==> f in d.slots {
      assert f in c.slots ==> Live(c.entries, c.slots[f]);
      assert f in d.slots ==> Live(d.entries, d.slots[f]);
    }
    forall k: Func, e: EntryId ensures IndexedUnder(c.dependents, k, e) <==> IndexedUnder(d.dependents, k, e) {
      assert IndexedUnder(c.dependents, k, e) <==> Consults(c.entries, e, k);
    }
  }

  // ---- Publishing -----------------------------------------------------------

  function Held(entries: Entries, e: EntryId, graph: Graph): Entries
    requires e in entries
  {
    entries[e := entries[e].(graph := Some(graph), finished := true)]
  }

  lemma IndexedMore(index: Index, e: EntryId, keys: set<Func>, k: Func)
    ensures var before := Indexed(index, e, keys);
            Indexed(index, e, keys + {k}) == before[k := (if k in before then before[k] else {}) + {e}]
  {
    var more, before := Indexed(index, e, keys + {k}), Indexed(index, e, keys);
    assert more[k] == (if k in before then before[k] else {}) + {e};
  }

  lemma IndexedExact(entries: Entries, index: Index, e: EntryId, graph: Graph)
    requires IndexExact(entries, index) && Live(entries, e) && entries[e].graph.None?
    ensures IndexExact(Held(entries, e, graph), Indexed(index, e, graph.consulted.Keys))
  {
    var after := Indexed(index, e, graph.consulted.Keys);
    forall k: Func, x: EntryId ensures IndexedUnder(after, k, x) <==> Consults(Held(entries, e, graph), x, k) {
      assert IndexedUnder(index, k, x) <==> Consults(entries, x, k);
    }
  }

  lemma FrontOrder(entries: Entries, order: seq<EntryId>, e: EntryId, graph: Graph)
    requires OrderExact(entries, order) && Live(entries, e)
    ensures OrderExact(Held(entries, e, graph), [e] + Without(order, e))
  {
    WithoutDistinct(order, e);
    var moved := [e] + Without(order, e);
    forall x | x in entries ensures !entries[x].stale ==> x in moved {
      assert moved[0] == e && moved[1..] == Without(order, e);
    }
  }

  lemma StoredValid(c: Cache, e: EntryId, graph: Graph)
    requires Valid(c) && Live(c.entries, e) && c.entries[e].graph.None?
    ensures var d := Finish(Stored(c, e, graph), e);
            Valid(d) && d.entries == Held(c.entries, e, graph) && d.order != [] && d.order[0] == e
  {
    IndexedExact(c.entries, c.dependents, e, graph);
    FrontOrder(c.entries, c.order, e, graph);
    HeldSlots(c.entries, c.slots, e, graph);
  }

  lemma HeldSlots(entries: Entries, slots: map<Func, EntryId>, e: EntryId, graph: Graph)
    requires SlotsExact(entries, slots) && PublishedFinished(entries) && Live(entries, e)
    ensures slots[entries[e].owner := e] == slots
    ensures SlotsExact(Held(entries, e, graph), slots) && PublishedFinished(Held(entries, e, graph))
  {
  }

  /** What trimming may do: evict published graphs, and nothing else. */
  predicate OnlyEvicts(before: Entries, after: Entries) {
    before.Keys == after.Keys &&
    forall x | x in before :: after[x] == before[x] || (Published(before, x) && after[x] == before[x].(stale := true))
  }

  /** The cache is within capacity, or its oldest entry is a running build. */
  predicate Trimmed(c: Cache) {
    |c.order| > CAPACITY ==> Oldest(c) in c.entries && c.entries[Oldest(c)].graph.None?
  }

  /** Trimming never reaches the front, where the new graph is. */
  lemma {:induction false} TrimValid(c: Cache)
    requires Valid(c) && c.order != []
    ensures Valid(Trim(c)) && Trimmed(Trim(c)) && OnlyEvicts(c.entries, Trim(c).entries)
    ensures Trim(c).order != [] && Trim(c).order[0] == c.order[0]
    decreases |c.order|
  {
    if |c.order| > CAPACITY {
      var oldest := Oldest(c);
      if c.entries[oldest].graph.Some? {
        EvictOldest(c);
        TrimValid(Evict(c, oldest));
      }
    }
  }

  function Oldest(c: Cache): (e: EntryId)
    requires c.order != []
    ensures e in c.order
  {
    c.order[|c.order| - 1]
  }

  lemma EvictOldest(c: Cache)
    requires Valid(c) && |c.order| > 1 && c.entries[Oldest(c)].graph.Some?
    ensures var d := Evict(c, Oldest(c));
            && Valid(d) && OnlyEvicts(c.entries, d.entries)
            && 0 < |d.order| < |c.order| && d.order[0] == c.order[0]
  {
    EvictValid(c, Oldest(c));
    assert c.order[1..][|c.order| - 2] == Oldest(c);
  }

  /** One turn of trimming: a running build stops it, else the oldest goes. */
  lemma TrimTurn(c: Cache)
    requires Valid(c) && |c.order| > CAPACITY
    ensures Oldest(c) in c.entries
    ensures if c.entries[Oldest(c)].graph.None? then Trim(c) == c
            else var d := Evict(c, Oldest(c)); Valid(d) && 0 < |d.order| < |c.order| && Trim(c) == Trim(d)
  {
    assert Live(c.entries, Oldest(c));
    if c.entries[Oldest(c)].graph.Some? {
      EvictOldest(c);
    }
  }

  lemma DroppedValid(c: Cache, e: EntryId)
    requires Valid(c) && e in c.entries && c.entries[e].graph.None?
    ensures Valid(Finish(RemoveIndexed(c, e), e))
  {
    RemoveIndexedSlots(c, e);
    RemoveIndexedOrder(c, e);
    FinishKeeps(RemoveIndexed(c, e), e);
  }

  /** Waking the waiters changes neither slots nor order. */
  lemma FinishKeeps(c: Cache, e: EntryId)
    requires SlotsExact(c.entries, c.slots) && OrderExact(c.entries, c.order) && e in c.entries
    ensures SlotsExact(Finish(c, e).entries, c.slots) && OrderExact(Finish(c, e).entries, c.order)
  {
  }

  /** The end of a build keeps the invariant, whichever way it goes, and wakes
  the entry's waiters; its graph is cached exactly when the entry was not
  evicted meanwhile and what the build consulted is current. */
  lemma PublishValid(c: Cache, e: EntryId, graph: Graph, current: bool)
    requires Valid(c) && e in c.entries && c.entries[e].graph.None?
    ensures var d := Publish(c, e, graph, current);
            && Valid(d) && e in d.entries && d.entries[e].finished
            && (Published(d.entries, e) <==> (!c.entries[e].stale && current))
            && (Published(d.entries, e) ==> d.entries[e].graph == Some(graph) && Trimmed(d))
  {
    if c.entries[e].stale || !current {
      DroppedValid(c, e);
    } else {
      StoredValid(c, e, graph);
      var stored := Finish(Stored(c, e, graph), e);
      TrimValid(stored);
      assert Trim(stored).order[0] in Trim(stored).order;
    }
  }

  /** Other entries keep their graphs; at most a published one falls out. */
  lemma PublishSpares(c: Cache, e: EntryId, graph: Graph, current: bool)
    requires Valid(c) && e in c.entries && c.entries[e].graph.None?
    ensures var d := Publish(c, e, graph, current);
            d.entries.Keys == c.entries.Keys && d.entries[e].finished && d.entries[e].owner == c.entries[e].owner &&
            forall x | x in c.entries && x != e ::
              d.entries[x] == c.entries[x] || (Published(c.entries, x) && d.entries[x] == c.entries[x].(stale := true))
  {
    if !c.entries[e].stale && current {
      StoredValid(c, e, graph);
      TrimValid(Finish(Stored(c, e, graph), e));
    }
  }

  /** A build that ends after its entry was evicted removes nothing and
  overwrites nothing: it only wakes its own waiters. */
  lemma LateBuildHarmless(c: Cache, e: EntryId, graph: Graph, current: bool)
    requires Valid(c) && e in c.entries && c.entries[e].stale
    ensures Publish(c, e, graph, current) == c.(entries := c.entries[e := c.entries[e].(finished := true)])
  {
  }
}
