/** The graph cache and the registry as the engine keeps them, updated in place. */
module RegionGraphs {
  import opened Options
  import opened GraphCache
  import opened SummaryRegistry

  class Summaries {
    var entries: map<Func, Held>
    var generations: map<Func, nat>

    function State(): Registry
      reads this
    {
      Registry(entries, generations)
    }

    constructor ()
      ensures State() == EMPTY_REGISTRY
    {
      entries, generations := map[], map[];
    }

    method Register(f: Func, summary: Summary) returns (changed: bool)
      modifies this
      ensures State() == Registered(old(State()), f, summary)
      ensures changed == Changes(old(State()), f, summary)
    {
      var known := f in entries;
      if !known && |entries| >= SUMMARY_LIMIT {
        return false;
      }
      changed := !known || !entries[f].Ready? || entries[f].summary != summary;
      entries := entries[f := Ready(summary, false)];
      if changed {
        generations := Bumped(generations, f);
      }
    }

    method Forget(f: Func) returns (dropped: bool)
      modifies this
      ensures State() == Forgotten(old(State()), f)
      ensures dropped == OnDemand(old(State()), f)
    {
      if f !in entries || !entries[f].Ready? || !entries[f].onDemand {
        return false;
      }
      entries := entries - {f};
      generations := Bumped(generations, f);
      dropped := true;
    }

    /** Whether every generation the build read is the one held now. */
    method StillCurrent(consulted: map<Func, nat>) returns (current: bool)
      ensures current <==> forall k | k in consulted :: consulted[k] == Generation(State(), k)
    {
      var rest := consulted.Keys;
      while rest != {}
        invariant rest <= consulted.Keys
        invariant forall k | k in consulted.Keys - rest :: consulted[k] == Generation(State(), k)
      {
        var k :| k in rest;
        if consulted[k] != Generation(State(), k) {
          return false;
        }
        rest := rest - {k};
      }
      current := true;
    }
  }

  class RegionGraphCache {
    var entries: map<EntryId, Entry>
    var slots: map<Func, EntryId>
    var order: seq<EntryId>
    var dependents: map<Func, set<EntryId>>

    function State(): Cache
      reads this
    {
      Cache(entries, slots, order, dependents)
    }

    constructor ()
      ensures State() == EMPTY_CACHE
    {
      entries, slots, order, dependents := map[], map[], [], map[];
    }

    method RemoveIndexedEntry(e: EntryId)
      requires e in entries
      modifies this
      ensures State() == RemoveIndexed(old(State()), e)
    {
      var entry := entries[e];
      entries := entries[e := entry.(stale := true)];
      if entry.owner in slots && slots[entry.owner] == e {
        slots := slots - {entry.owner};
        order := Without(order, e);
      }
    }

    method EvictEntry(e: EntryId)
      requires e in entries
      modifies this
      ensures State() == Evict(old(State()), e)
    {
      var graph := entries[e].graph;
      RemoveIndexedEntry(e);
      assert Unindexed(dependents, e, {}) == dependents;
      if graph.None? {
        return;
      }
      var rest := graph.value.consulted.Keys;
      while rest != {}
        invariant rest <= graph.value.consulted.Keys
        invariant entries == old(RemoveIndexed(State(), e)).entries && slots == old(RemoveIndexed(State(), e)).slots
        invariant order == old(RemoveIndexed(State(), e)).order
        invariant dependents == Unindexed(old(dependents), e, graph.value.consulted.Keys - rest)
      {
        var k :| k in rest;
        if k in dependents {
          dependents := dependents[k := dependents[k] - {e}];
        }
        rest := rest - {k};
      }
    }

    /** Evicts every graph that consulted the function; answers the owners, in
    the order the dependents came. */
    method EvictDependents(k: Func) returns (evicted: seq<Func>, ghost list: seq<EntryId>)
      requires Valid(State())
      modifies this
      ensures Members(list) == Dependents(old(State()), k) && forall i | 0 <= i < |list| :: list[i] in old(entries)
      ensures State() == DependentsEvicted(old(State()), k, list)
      ensures evicted == Owners(old(entries), list)
    {
      evicted, list := [], [];
      ghost var before := State();
      DependentsConsult(before, k);
      var rest := if k in dependents then dependents[k] else {};
      ghost var all := rest;
      while rest != {}
        invariant rest <= all <= before.entries.Keys && Members(list) == all - rest
        invariant forall i | 0 <= i < |list| :: list[i] in before.entries
        invariant State() == EvictEach(before, list) && evicted == Owners(before.entries, list)
      {
        var e :| e in rest;
        EvictOneMore(before, list, e);
        evicted := evicted + [entries[e].owner];
        EvictEntry(e);
        list := list + [e];
        rest := rest - {e};
      }
      dependents := dependents - {k};
    }

    /** A lookup that finds no slot starts a build under a new entry. */
    method StartBuild(owner: Func, e: EntryId)
      requires e !in entries && owner !in slots
      modifies this
      ensures State() == Start(old(State()), e, owner)
    {
      entries := entries[e := Entry(owner, None, false, false)];
      slots := slots[owner := e];
      order := [e] + order;
    }

    method FinishEntry(e: EntryId)
      requires e in entries
      modifies this
      ensures State() == Finish(old(State()), e)
    {
      entries := entries[e := entries[e].(finished := true)];
    }

    method IndexGraph(e: EntryId, keys: set<Func>)
      modifies this
      ensures State() == old(State()).(dependents := Indexed(old(dependents), e, keys))
    {
      var rest := keys;
      assert Indexed(dependents, e, {}) == dependents;
      while rest != {}
        invariant rest <= keys
        invariant entries == old(entries) && slots == old(slots) && order == old(order)
        invariant dependents == Indexed(old(dependents), e, keys - rest)
      {
        var k :| k in rest;
        IndexedMore(old(dependents), e, keys - rest, k);
        assert keys - (rest - {k}) == keys - rest + {k};
        if k !in dependents {
          dependents := dependents[k := {}];
        }
        dependents := dependents[k := dependents[k] + {e}];
        rest := rest - {k};
      }
    }

    method TrimToCapacity()
      requires Valid(State()) && order != []
      modifies this
      ensures State() == Trim(old(State()))
    {
      while |order| > CAPACITY
        invariant Valid(State()) && order != [] && Trim(State()) == Trim(old(State()))
        decreases |order|
      {
        var oldest := order[|order| - 1];
        TrimTurn(State());
        if entries[oldest].graph.None? {
          break;
        }
        EvictEntry(oldest);
      }
    }

    method StoreGraph(e: EntryId, graph: Graph)
      requires e in entries && if entries[e].owner in slots then slots[entries[e].owner] == e else e !in order
      modifies this
      ensures State() == Stored(old(State()), e, graph)
    {
      var entry := entries[e];
      entries := entries[e := entry.(graph := Some(graph))];
      if entry.owner in slots {
        var slot := slots[entry.owner];
        order := [slot] + Without(order, slot);
        assert slots[entry.owner := e] == slots;
      } else {
        slots := slots[entry.owner := e];
        WithoutNothing(order, e);
        order := [e] + order;
      }
      IndexGraph(e, graph.consulted.Keys);
    }

    /** The end of a build: stores the graph unless its entry was evicted while
    it ran or a summary it consulted has changed since; wakes the waiters. */
    method CacheGraph(e: EntryId, graph: Graph, summaries: Summaries)
      requires Valid(State()) && e in entries && entries[e].graph.None?
      modifies this
      ensures Valid(State())
      ensures State() == Publish(old(State()), e, graph,
                                 forall k | k in graph.consulted ::
                                   graph.consulted[k] == Generation(summaries.State(), k))
    {
      var current := summaries.StillCurrent(graph.consulted);
      PublishValid(State(), e, graph, current);
      if entries[e].stale || !current {
        RemoveIndexedEntry(e);
        FinishEntry(e);
      } else {
        StoredValid(State(), e, graph);
        StoreGraph(e, graph);
        FinishEntry(e);
        TrimToCapacity();
      }
    }
  }
}
