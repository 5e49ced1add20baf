# Proofs about gohawk's memory engine

gohawk finds resource and concurrency mistakes in Go programs. Its analyzers
share a memory engine that builds one points-to graph per function, applies the
heap summaries of callees, and answers questions such as "which value does this
cell hold here", "may these two be one object", "can anyone else see this
object" and "is the cleanup run on every matching return". This project models
that engine and proves what those answers promise.

| Files | What they prove |
|---|---|
| `GraphCache`, `SummaryRegistry`, `RegionGraphs`, `CacheProtocol` | the graph cache and the summary registry: in place, and as a protocol between analyzers with one lock each, over every interleaving |
| `Invalidation` | the invalidation worklist, one operation at a time: it ends, evicts exactly what was derived, and every run of operations keeps cache and registry consistent but for what is owed |
| `CallCycles`, `WaitProtocol` | the call-cycle cut, and the exact condition under which analyzers that wait for one another's builds never deadlock |
| `ReachingWrites`, `StorageContent`, `StorageUses`, `StoreOrder` | the backward reaching-write query, its dominance shortcut, the uses it sees, and the store-order search, over arbitrary control flow and under any budget |
| `ConditionalCoverage` | the conditional completion search over feasible paths |
| `SlotPaths`, `PointeeSets`, `RegionStates`, `StateUpdates`, `Joins`, `JoinStamps` | access paths, pointee sets, memory states, their updates in place and their joins, contents and stamps |
| `MemoryPrograms`, `AbstractMemory`, `MemorySoundness`, `RunSoundness` | a typed fragment with a concrete heap semantics, and the graph's soundness for every run |
| `TargetOrders`, `TransferExactness`, `StoreFrames` | when the order in which a store visits its targets can show, that a transfer gains nothing beyond what the instruction does, and what it leaves alone |
| `ReversePostorder`, `Fixpoint`, `BuildRounds`, `SettledRounds`, `GraphBuild`, `MemoryTheorem` | the block order, why a completed build is a fixpoint, why it takes two rounds, and the theorem from a function to its graph to its runs |
| `AliasQueries` | the may- and must-alias queries |
| `StateEffects`, `EscapeQuery` | what an unfollowed effect forgets and lets out, and the confinement query |
| `Graphs`, `Budgets`, `Options`, `Sites` | shared notions |

## How the model reads the source

* Each critical section is one step of `CacheProtocol`. The publisher keeps the
  cache lock over several steps, one registry read per consulted callee. What a
  graph consulted is fixed when its build ends.
* `WaitProtocol` keeps only the cache lock across steps. A section under the
  registry lock takes no other lock, so it cannot block and is part of a step.
* A budget is an allowance that each step spends; nested queries cost an
  arbitrary amount. Every claim holds for every allowance.
* Iteration over a Go map is an arbitrary order. Where the order could show, it
  is proved not to, or exactly when it does not.
* Summaries are taken up to the engine's own comparison. The recognizers of
  completions, feasible successors, equality of stored values, read-only
  captures and dominators are parameters, with the contracts the queries rely on.
* Packages are numbered in import order; a wrapper may have none.
* In the memory fragment an array's elements are pointers, so a dynamic index
  is a last step, and accessed leaf paths are prefix-free, as Go's types ensure.

## Where a promise needs a condition

Each of these has a concrete example and an exact condition in the model.

* A call cycle through a function that has no package is not cut, because the
  walk of such a function stops at once: `CallCycles.TestExact`,
  `CallCycles.WrapperRingExample`. Applied summaries can then form a ring, and
  one analyzer can wait for a build of its own; it cannot when there is no ring:
  `WaitProtocol.DeadlockFreeExactly`.
* A content query passes over a use of the cell's address that stands after the
  observation in the observation's own block, and every write behind it, though
  a loop can bring control back. What it proves is right exactly when each such
  write from which a quiet way leads to the observation writes the same value:
  `StorageUses.Content`. For the shortcut, exactly when none has a way round the
  store: `StorageUses.ShortcutExactly`, with `StorageUses.ReadThenWriteExample`
  and `StorageUses.LateAddressExample`. The backward search notices a later
  write in the block itself, but not one elsewhere through an address computed
  there: `StorageUses.LateAddressSearchExample`. All is well where no use on the
  way to a write is late: `StorageUses.RightWithoutLateUse`.
* The order test between a store and an observation in one block misses a store
  that comes first on a cycle: `StoreOrder.StoreMayFollow`,
  `StoreOrder.StoreThenReadExample`. The caller that asks for a cycle too misses
  nothing: `StoreOrder.StableAgainst`.
* The test for an exact slot looks at the last step of the path, so the field of
  a dynamically indexed element passes: `AliasQueries.MustSameExactly`.
* A join can lose what a single clobbered array element may hold, when only the
  other side wrote through an unknown index: `Joins.JoinCoversExactly`.
* A store whose targets are an array's wildcard and one of its elements settles
  differently in different orders, unless it is the array's only element:
  `TargetOrders.OrderFreeExactly`, `TargetOrders.MixedTargetsExample`. What
  a completed build promises does not depend on it, but that it completes in two
  rounds does: `MemoryTheorem.BuildGraph`.

Two branches of the cache are dead in every reachable state: a lookup never
finds an entry without a channel to wait on, and a build whose entry is not
stale always still has its slot. The second is kept in the model, the first is
not.

## Model

| member | source | states |
|---|---|---|
| `CacheProtocol.EveryStateKeeps` | internal/engine/heapmodel/store_regions_cache.go:122-198 | Every state of every interleaving of building, publishing, registering, invalidating, forgetting and evicting keeps the protocol invariant. |
| `CacheProtocol.CachedGraphsFresh` | internal/engine/heapmodel/store_regions_cache.go:116-152 | In every reachable state a cached graph saw, for each callee it consulted, the generation the registry holds now, or that callee is still in some invalidation worklist. |
| `CacheProtocol.SettledGraphsCurrent` | internal/engine/heapmodel/store_heap_apply.go:26-33 | With no invalidation of a callee owed, every ready summary a cached graph was handed for it is the one the registry holds now. |
| `CacheProtocol.CacheExact` | internal/engine/heapmodel/store_regions_cache.go:255-275 | In every reachable state an entry is indexed under a callee exactly when it is cached, published and consulted it; it is not stale exactly when it is the one cached for its function; a cached entry has woken its waiters exactly when it is published. |
| `CacheProtocol.PublisherMoves` | internal/engine/heapmodel/store_regions_cache.go:122-163 | In every reachable state a publisher has a next step: to check one more callee, to publish once all are checked, or to give the graph up, which it does only if the entry was evicted or the generation of a callee has moved. |
| `CacheProtocol.HandedExactly` | internal/engine/heapmodel/store_heap_apply.go:26-33 | The registry's answer for a callee adds the summary held ready to what a build applied, and nothing else. |
| `CacheProtocol.LateBuildNeverReplaces` | internal/engine/heapmodel/store_regions_cache.go:265-275 | A build whose entry was evicted meanwhile ends without changing a slot, the order, the index or any other entry, and still wakes its waiters. |
| `CacheProtocol.PublishKeeps` | internal/engine/heapmodel/store_regions_cache.go:122-152 | A publisher that checked each callee under the registry lock, one at a time, while it held the cache lock, publishes a graph each of whose callees is current or owed. |
| `CacheProtocol.TakeKeeps` | internal/engine/heapmodel/store_regions_cache.go:178-198 | Taking a function off the worklist and evicting its dependents discharges its debt: no cached graph that consulted it is left. |
| `CacheProtocol.RegisterKeeps` | internal/engine/heapmodel/store_heap_registry.go:159-179 | A registration that changes the answer moves the generation and owes an invalidation in one step, so no graph goes stale unowed. |
| `CacheProtocol.ForgetKeeps` | internal/engine/heapmodel/store_heap_registry.go:192-203 | Dropping an on-demand summary moves its generation and owes the invalidation of its callers. |
| `CacheProtocol.ProjectKeeps` | internal/engine/heapmodel/store_heap_registry.go:255-288 | A projection that finishes on demand moves no generation, never overwrites a registration that landed meanwhile, and hands its builder the summary the registry then holds. |
| `SummaryRegistry.ReadyUntilGenerationMoves` | internal/engine/heapmodel/store_heap_registry.go:183-203 | Across any sequence of registry writes by anyone, a ready summary stands until its generation moves; this is why reading the generation before the lookup is safe. |
| `SummaryRegistry.DroppedWithGeneration` | internal/engine/heapmodel/store_heap_registry.go:192-203 | An on-demand summary that leaves the registry takes its generation with it. |
| `SummaryRegistry.RegisterExactly` | internal/engine/heapmodel/store_heap_registry.go:159-176 | A registration is refused only for a new function when the registry is full; otherwise the summary is held, and the generation moves exactly when it was not held before. |
| `SummaryRegistry.ProjectionAnswers` | internal/engine/heapmodel/store_heap_registry.go:255-288 | Whatever others write while a summary is projected, the asker gets its own projection, kept on demand under the same generation, or the summary last registered if one was, or that there is none if the projection failed. |
| `GraphCache.PublishValid` | internal/engine/heapmodel/store_regions_cache.go:122-152 | The end of a build keeps the cache invariant and wakes the waiters; the graph is cached exactly when the entry was not evicted and what it consulted is current; the cache is then within capacity or its oldest entry is a running build. |
| `GraphCache.PublishSpares` | internal/engine/heapmodel/store_regions_cache.go:122-152 | Publishing changes no other entry but to evict published ones. |
| `GraphCache.LateBuildHarmless` | internal/engine/heapmodel/store_regions_cache.go:265-275 | Ending a stale build only marks its own entry finished. |
| `GraphCache.TrimValid` | internal/engine/heapmodel/store_regions_cache.go:145-151 | Trimming evicts only published graphs, never the one just moved to the front, and stops within capacity or at a running build. |
| `GraphCache.EvictValid` | internal/engine/heapmodel/store_regions_cache.go:255-263 | Eviction marks one entry stale, takes it off the order and keeps slots, order and index exact. |
| `GraphCache.EvictEachExact` | internal/engine/heapmodel/store_regions_cache.go:184-190 | Evicting a list of entries marks exactly those stale and keeps the invariant. |
| `GraphCache.EntriesDecide` | internal/engine/heapmodel/store_regions_cache.go:184-190 | The entries alone decide the slots, the index and the members of the order, so the order of evictions cannot show. |
| `GraphCache.DependentsEvictedExact` | internal/engine/heapmodel/store_regions_cache.go:184-191 | After the dependents of a function are evicted no cached graph consulted it, and the index stays exact. |
| `GraphCache.StartValid` | internal/engine/heapmodel/store_regions_cache.go:108-110 | Entering a new build for a function with no slot keeps the cache invariant. |
| `RegionGraphs.RegionGraphCache.EvictEntry` | internal/engine/heapmodel/store_regions_cache.go:255-263 | The in-place eviction, key by key, is the eviction of the specification. |
| `RegionGraphs.RegionGraphCache.RemoveIndexedEntry` | internal/engine/heapmodel/store_regions_cache.go:269-275 | Unlinks only the entry's own slot. |
| `RegionGraphs.RegionGraphCache.CacheGraph` | internal/engine/heapmodel/store_regions_cache.go:122-152 | The in-place publication is the specified one, with currency decided by the registry held at the check, and keeps the cache invariant. |
| `RegionGraphs.RegionGraphCache.EvictDependents` | internal/engine/heapmodel/store_regions_cache.go:184-191 | Evicts exactly the entries indexed under the function, in some order, and answers their owners. |
| `RegionGraphs.RegionGraphCache.TrimToCapacity` | internal/engine/heapmodel/store_regions_cache.go:145-151 | The trimming loop is the specified trimming. |
| `RegionGraphs.Summaries.Register` | internal/engine/heapmodel/store_heap_registry.go:159-176 | Registration in place: the new registry, and whether the answer changed. |
| `RegionGraphs.Summaries.Forget` | internal/engine/heapmodel/store_heap_registry.go:192-203 | Forgetting in place: the new registry, and whether there was an on-demand summary to drop. |
| `RegionGraphs.Summaries.StillCurrent` | internal/engine/heapmodel/store_regions_cache.go:156-163 | True exactly when every generation the build read is the one held now. |
| `Invalidation.InvalidateDependents` | internal/engine/heapmodel/store_regions_cache.go:178-198 | The worklist ends and makes the start good, whatever other functions moved; a cached graph survives exactly when it is not derived from the start through callee summaries projected on demand, and an on-demand summary exactly when its function is not. |
| `Invalidation.RegisterHeapSummary` | internal/engine/heapmodel/store_heap_registry.go:159-179 | A registration keeps cache and registry consistent; if it changes the answer, the graphs evicted are exactly those transitively derived from the old one. |
| `Invalidation.EvictRegionGraph` | internal/engine/heapmodel/store_regions_cache.go:230-251 | With any registrations still owing their invalidation, dropping a graph found outdated drops its on-demand summary and exactly the graphs and on-demand summaries derived from that; what was owed stays owed and nothing else goes stale. |
| `Invalidation.EndsExact` | internal/engine/heapmodel/store_regions_cache.go:178-198 | When the worklist is empty the evicted graphs are exactly those derived from the start. |
| `Invalidation.EndsConsistent` | internal/engine/heapmodel/store_regions_cache.go:178-198 | When the worklist is empty every cached graph consulted only current generations, but of functions that others still owe, and every on-demand summary comes from a graph still cached. |
| `Invalidation.PublishStaysConsistent` | internal/engine/heapmodel/store_regions_cache.go:122-144 | A build that ends within capacity, published or declined, keeps cache and registry as consistent as they were. |
| `Invalidation.ProjectionStaysConsistent` | internal/engine/heapmodel/store_heap_registry.go:264-287 | Keeping a projection of the function's own cached graph keeps cache and registry as consistent as they were. |
| `Invalidation.EveryRunConsistent` | internal/engine/heapmodel/store_regions_cache.go:176-251 | In every state of every run of builds, projections, registrations, invalidations and evictions of outdated graphs, without eviction for capacity, every cached graph is current but for callees owed, and every on-demand summary is what its function's cached graph projects; with nothing owed, all is current. |
| `CallCycles.ReachableCallees` | internal/engine/heapmodel/store_heap_registry.go:339-369 | The worklist computes exactly the functions reached by one call or more without leaving the root's package. |
| `CallCycles.HomeExactly` | internal/engine/heapmodel/store_heap_registry.go:352-361 | What a function reaches at home is of its package, and a callee of the package is reached with its caller. |
| `CallCycles.TestCallCycle` | internal/engine/heapmodel/store_heap_registry.go:312-331 | Answers whether the callee is the caller or reaches it inside the callee's package. |
| `CallCycles.TestExact` | internal/engine/heapmodel/store_heap_registry.go:310-331 | With calls never going up the import order, the cycle test is right about every call exactly when no function without a package lies on a call cycle through another function. |
| `CallCycles.TestSound` | internal/engine/heapmodel/store_heap_registry.go:312-331 | A positive cycle test is always right: the callee is the caller or can call back into it. |
| `CallCycles.HomelessEscapes` | internal/engine/heapmodel/store_heap_registry.go:355-361 | The test misses some call of every function without a package that lies on a call cycle through another function. |
| `CallCycles.CutsLeaveNoRing` | internal/engine/heapmodel/store_heap_apply.go:37-47 | Under the two conditions of the exact test, the summaries that are applied form no ring. |
| `CallCycles.AppliedFalls` | internal/engine/heapmodel/store_heap_apply.go:37-48 | Without a ring, applying a summary strictly lowers a rank, so applied summaries are well-founded. |
| `CallCycles.WrapperRingExample` | internal/engine/heapmodel/store_heap_registry.go:355-361 | A method and a wrapper without a package that call each other each apply the other's summary. |
| `WaitProtocol.DeadlockFreeExactly` | internal/engine/heapmodel/store_regions_cache.go:76-114 | In every reachable state no analyzers wait for one another and no one else, whatever others do beside them, exactly when no ring of applied summaries exists. |
| `WaitProtocol.WaitsFall` | internal/engine/heapmodel/store_regions_cache.go:87-107 | A blocked analyzer waits on exactly one other, never on itself, and along a chain of waits the awaited builds' ranks strictly fall. |
| `WaitProtocol.LookupExactly` | internal/engine/heapmodel/store_regions_cache.go:82-114 | In every state that keeps the invariant a lookup is answered by the cached build if that has ended, waits for it if it runs, and starts one only where there is none. |
| `WaitProtocol.ClosedByBuilder` | internal/engine/heapmodel/store_regions_cache.go:122-152 | An entry's waiters are woken exactly by the step in which its builder ends the build, whether the graph is published or found stale, and stay awake. |
| `WaitProtocol.ClosedOnce` | internal/engine/heapmodel/store_regions_cache.go:56-65 | No two steps of a run end the build of one entry. |
| `WaitProtocol.WaitsLeadToMove` | internal/engine/heapmodel/store_regions_cache.go:76-114 | From every busy analyzer the waits lead to one that can look up, wake, start or end a publication, or that needs but the cache lock, whose holder can end its publication. |
| `WaitProtocol.RingBlocks` | internal/engine/heapmodel/store_regions_cache.go:96-106 | Following a ring of applied summaries one analyzer comes to wait for a build of its own. |
| `WaitProtocol.StuckCannotMove` | internal/engine/heapmodel/store_regions_cache.go:96-107 | None of the analyzers that wait for one another and no one else can move. |
| `WaitProtocol.EveryStateKeeps` | internal/engine/heapmodel/store_regions_cache.go:76-152 | In every reachable state each unfinished entry is on one analyzer's stack, and stacks descend in rank. |
| `ReachingWrites.SearchSound` | internal/engine/heapmodel/store_cells.go:80-123 | If the backward search proves a value, then on every path from the entry, over any control flow, the last thing that happened to the location before the observation is a full write of that value. |
| `ReachingWrites.SearchExactly` | internal/engine/heapmodel/store_cells.go:80-123 | Uncut and with an exact oracle, the search proves a value exactly when no backward walk cycles or runs out before a write and every first write met is a full write of it. |
| `ReachingWrites.ReachingStorage.Before` | internal/engine/heapmodel/store_cells.go:80-123 | The search with its active map and budget ends on any control flow, restores the map, and answers what the uncut search answers unless the budget ran out, when it may only answer unknown. |
| `ReachingWrites.ReachingStorage.Merge` | internal/engine/heapmodel/store_cells.go:108-122 | The loop over predecessors: the agreed value of the uncut search, or unknown on a cut. |
| `ReachingWrites.ReachingStorage.ScanBack` | internal/engine/heapmodel/store_cells.go:92-107 | The backward scan of a block finds the last instruction that matters. |
| `StorageContent.ReachingContent` | internal/engine/heapmodel/store_cells.go:23-55 | Shortcut and search, given the stores collected: a proven value is what every path from the entry last wrote, whole, before the observation, of those stores; and while the budget lasts, with an exact oracle, the values proved are exactly the one a sole full store that dominates the observation writes, or else the one every backward walk meets first. |
| `StorageContent.SoleStoreReaches` | internal/engine/heapmodel/store_cells.go:36-48 | On any control flow, if the allocation dominates a sole full store that dominates the observation, no path from a run of the allocation to the observation avoids the store. |
| `StorageUses.Content` | internal/engine/heapmodel/store_model.go:221-227 | The whole query, from the uses of the address to the answer: a proven value is what the cell holds on every path exactly when every write left out, from which a way to the observation stays quiet, is a full write of it too. While the budget lasts it answers unknown for a seen use it cannot see through, then for a store whose address does not resolve, and otherwise proves exactly what reaches the observation by the stores it sees. |
| `StorageUses.Collect` | internal/engine/heapmodel/store_model.go:252-310 | The walk over the uses, nested addresses included, under any budget: it ends with exactly the stores reached through seen uses, or fails because the budget ran out or a seen use is opaque. |
| `StorageUses.CollectedExactly` | internal/engine/heapmodel/store_model.go:252-310 | A store is collected exactly when some chain of uses from the address to it passes the order test at every use. |
| `StorageUses.RightExactly` | internal/engine/heapmodel/store_model.go:252-279 | An answer right for the function as the query sees it is right for the function exactly when every exposed write left out writes that value too. |
| `StorageUses.ExposedLate` | internal/engine/heapmodel/store_model.go:260-273 | An exposed write was reached through a use at or after the observation in the observation's own block, where the uses on its chain dominate it. |
| `StorageUses.RightWithoutLateUse` | internal/engine/heapmodel/store_model.go:260-273 | Where no use on the way to a write stands at or after the observation in its block, the answer is right. |
| `StorageUses.ExposedElsewhere` | internal/engine/heapmodel/store_cells.go:80-91 | When the backward search proves a value, an exposed write is not after the observation in its block: the search notices that cycle. |
| `StorageUses.ShortcutExactly` | internal/engine/heapmodel/store_model.go:252-279 | The shortcut's store is last on every path to the observation exactly when no write left out has a way to the observation that does not run the store. |
| `StorageUses.ReadThenWriteExample` | internal/engine/heapmodel/store_cells.go:39-48 | A loop block that reads a cell and then sets it: the later store is left out, the shortcut answers the value set before the loop, and the second round holds the other. |
| `StorageUses.LateAddressExample` | internal/engine/heapmodel/store_cells.go:39-48 | A loop that reads a cell, then takes its address, and sets it through that address in another block: the store is left out and the shortcut is wrong again. |
| `StorageUses.LateAddressSearchExample` | internal/engine/heapmodel/store_cells.go:80-123 | As before, behind a store of the first value that is seen: the backward search itself proves that value, and the second round holds the other. |
| `StoreOrder.StoreMayFollow` | internal/engine/heapmodel/store_model.go:320-351 | True is always evidence that the store can run later on the same cell; false, with budget left, misses exactly a store earlier in the observation's block on a cycle that does not enter the allocation's. |
| `StoreOrder.StableAgainst` | internal/engine/heapmodel/store_alias.go:239-249 | The caller's test, which also looks for a cycle through the store's block, closes that gap: a store it passes never changes the observed cell later, in whatever block. |
| `StoreOrder.SearchFrom` | internal/engine/heapmodel/store_model.go:329-350 | The queue search is true exactly when a path of one edge or more reaches the store's block without entering the allocation's, unless the budget ran out, when only true is evidence. |
| `StoreOrder.FreshOtherwise` | internal/engine/heapmodel/store_model.go:311-319 | Between different blocks the store can follow on the same cell exactly when some path to it does not run the allocation again. |
| `StoreOrder.StoreThenReadExample` | internal/engine/heapmodel/store_model.go:326-328 | A loop block that stores and then observes a cell declared before the loop: the store does run again on it, and the order test says it does not follow. |
| `Budgets.SearchBudget.Spend` | internal/engine/proof/budget.go:74-88 | Spending succeeds exactly while the budget and the pool around it have allowance, charges both or neither, and exhaustion is for good. |
| `ConditionalCoverage.CoverageWalk.Covers` | internal/engine/lifecycle/completion_conditions.go:92-127 | True only if some feasible path reaches a matching return and every one that does completed first or forwards to a call that completes; while the budget lasts, exactly then. |
| `ConditionalCoverage.CoverageWalk.ConditionalReturn` | internal/engine/lifecycle/completion_conditions.go:129-154 | Whether a return matters to the condition and is covered, exactly, unless the budget ran out. |
| `ConditionalCoverage.CoverageWalk.Step` | internal/engine/lifecycle/completion_conditions.go:101-125 | One state's block: its exact successors, and the flags raised exactly by a relevant and by an uncovered return. |
| `ConditionalCoverage.StatesDecide` | internal/engine/lifecycle/completion_conditions.go:86-100 | Merging paths into block, predecessor and completed loses nothing: coverage of paths is coverage of reachable states. |
| `ConditionalCoverage.AllWalked` | internal/engine/ssaflow/cfg/worklist.go:26-60 | When the queue is empty the expanded states are exactly the reachable ones. |
| `MemoryTheorem.BuildGraph` | internal/engine/heapmodel/store_regions.go:340-366 | On every acyclic, call-free function of the fragment a build that completes covers every point of every run, if no store's address is unknown, whatever order its stores visited their targets in and whatever was widened; and it completes by its second round unless a budget or the pointee limit intervenes or a store meets targets that clash, which the recorded targets show and a function that indexes arrays in one way only never has. Then what it records is exactly what the instructions define, and a load right behind a store through the same exact address has exactly the stored pointees. No recorded pointee is marked as carried around a loop. A budget stops only a build it could not pay for. |
| `RunSoundness.EveryRunCovered` | internal/engine/heapmodel/store_regions_transfer.go:22-51 | At every point of every run each value's address is among its pointees, and each live location's content is covered by what the graph reads there. |
| `RunSoundness.SingleSlotExact` | internal/engine/heapmodel/query.go:349-360 | An exact-slot answer about a value is the value every run computed. |
| `RunSoundness.MustSameHolds` | internal/engine/heapmodel/query.go:336-346 | Two values called the same are equal in every run. |
| `RunSoundness.DisjointHolds` | internal/engine/heapmodel/query.go:220-249 | Two values called disjoint are never equal and non-nil in any run. |
| `RunSoundness.ContentExact` | internal/engine/heapmodel/query.go:467-478 | The exact content read through an address at an instruction is what every run's memory holds there. |
| `MemorySoundness.StrongStoreCovers` | internal/engine/heapmodel/store_regions_content.go:448-467 | After a strong store to a scalar slot each location is covered: the slot by the value, every other as before. |
| `MemorySoundness.WeakStoreCovers` | internal/engine/heapmodel/store_regions_content.go:344-366 | After a weak store, through a wildcard or not, each location still admits what it held and every location the target names admits the value. |
| `RunSoundness.WeakEachCovers` | internal/engine/heapmodel/store_regions_content.go:434-442 | Storing weakly into several targets one by one keeps every location covered. |
| `RunSoundness.LoadCovers` | internal/engine/heapmodel/store_regions_transfer.go:233-256 | What a load answers admits what the run's memory holds at the address. |
| `RunSoundness.MergePredsCovers` | internal/engine/heapmodel/store_regions.go:475-499 | The merged predecessors cover what any one of them covers. |
| `GraphBuild.RegionGraph.Fixpoint` | internal/engine/heapmodel/store_regions.go:418-460 | A build that completes is settled and typed and has an entry state for exactly the listed blocks; it completes by the second round, with nothing recorded but what is defined, unless cut, widened or met by clashing targets; a budget that cuts it is spent and was too small for all the rounds there can be. |
| `GraphBuild.RegionGraph.RunRound` | internal/engine/heapmodel/store_regions.go:427-453 | One round in place: a step for each block in turn, whether any exit state changed, whether targets clashed, and what it cost or which budget could not pay. |
| `GraphBuild.RoundOk` | internal/engine/heapmodel/store_regions.go:427-453 | From any typed build a whole round leaves every block done and the build typed; until targets clash it is the specified round and reports a change exactly when that one does. |
| `GraphBuild.RegionGraph.ProcessBlock` | internal/engine/heapmodel/store_regions.go:429-452 | One block in place: its merged predecessors are charged for and passed over, a change is reported exactly when the exit state changed, and it stops exactly when the states budget does not cover two copies of the entry state or the other not its instructions. |
| `GraphBuild.RegionGraph.TransferBlock` | internal/engine/heapmodel/store_regions.go:439-445 | A block's instructions are gone through one by one, each a transfer for one step of the budget; it is complete exactly when the budget covers them. |
| `GraphBuild.PassOk` | internal/engine/heapmodel/store_regions.go:439-445 | A pass over a block stays typed, changes the block's own results only, is a replay of the block under the values it ends with, and is the specified one unless targets clashed. |
| `GraphBuild.RegionGraph.Transfer` | internal/engine/heapmodel/store_regions_transfer.go:22-51 | One instruction in place: the recorded values, a state some order of the targets leads to, and whether targets clashed. |
| `GraphBuild.RegionGraph.StoreInto` | internal/engine/heapmodel/store_regions_content.go:434-442 | The range over the targets stores into each once, in some order. |
| `SettledRounds.RoundSettles` | internal/engine/heapmodel/store_regions.go:427-457 | When a whole round has left every block done, the graph is a fixpoint of the transfer. |
| `SettledRounds.RoundGoesOn` | internal/engine/heapmodel/store_regions.go:427-453 | Processing a block leaves the blocks done before it done, for nothing in them uses a value defined later. |
| `GraphBuild.RoundEnds` | internal/engine/heapmodel/store_regions.go:425-458 | The first round changes some exit state; the second changes nothing unless it widens. |
| `BuildRounds.GiveExactly` | internal/engine/heapmodel/store_regions_transfer.go:129-142 | The first pointees of a value are recorded as they are and later ones joined to them; the build is marked widened exactly when more than that had to be recorded. |
| `BuildRounds.FirstRoundExact` | internal/engine/heapmodel/store_regions.go:427-453 | With predecessors first and definitions before uses, the first round leaves every block with the values and states a rerun would give. |
| `BuildRounds.SecondRoundUnchanged` | internal/engine/heapmodel/store_regions.go:446-457 | A round over exact blocks changes nothing, unless it widens a value. |
| `TransferExactness.ExactStoreReplaces` | internal/engine/heapmodel/store_regions_content.go:396-467 | A store through one exact, current address replaces what the location held: it then holds what was stored, joined for an element with what its array was given at unknown indices. |
| `TransferExactness.StaleStoreAdds` | internal/engine/heapmodel/store_regions_content.go:396-467 | A store through a location of an earlier round of a loop keeps what it held admitted and gains only the value, unless there are too many pointees to keep. |
| `StoreFrames.StoreElsewhere` | internal/engine/heapmodel/store_regions_content.go:344-467 | A store, through an unknown index or not, leaves what every slot apart from its target holds, in any state. |
| `StoreFrames.PartsForgotten` | internal/engine/heapmodel/store_regions_content.go:369-376 | A store that replaces forgets what lay within its target: a part of a local reads as nil again, or as anything when an effect not followed has hit a whole around it. |
| `StoreFrames.WholeForgotten` | internal/engine/heapmodel/store_regions_content.go:269-280 | A store to a part forgets what was stored as a whole around it. |
| `StoreFrames.ElementsGainValue` | internal/engine/heapmodel/store_regions_content.go:344-366 | A store through an unknown index adds the value to the wildcard and to each known element, and takes nothing from them. |
| `StoreFrames.AllocationReadsNil` | internal/engine/heapmodel/store_regions_transfer.go:145-152 | A new object of a site outside any loop reads as nil throughout, whatever was recorded of the site before, and no other object changes. |
| `TransferExactness.LoadCoversExactly` | internal/engine/heapmodel/store_regions_transfer.go:233-256 | A load admits exactly what some addressed location admits. |
| `TransferExactness.PhiCoversExactly` | internal/engine/heapmodel/store_regions_transfer.go:267-278 | A phi admits exactly what some incoming operand admits. |
| `TransferExactness.SelectCoversExactly` | internal/engine/heapmodel/store_regions_transfer.go:154-176 | A selection admits an address exactly when the base admits the address above it and the step is the one selected. |
| `TransferExactness.LoadReadsStored` | internal/engine/heapmodel/store_regions_transfer.go:233-256 | In a graph that records just what is defined, a load right behind a store through the same exact address has exactly the stored pointees, joined for an element with what its array was given at unknown indices. |
| `TransferExactness.ExactIsPrecise` | internal/engine/heapmodel/store_regions.go:427-457 | A build each of whose blocks a rerun would leave unchanged records exactly what every instruction defines. |
| `TargetOrders.OrderFreeExactly` | internal/engine/heapmodel/store_regions_content.go:434-442 | Every order of a store's targets leaves one state, for all states and values, exactly when no wildcard is among them together with another element of its array, which has several. |
| `TargetOrders.OneOrder` | internal/engine/heapmodel/store_regions_content.go:434-442 | In every typed state, any two orders of targets that do not clash leave one state, wildcards included. |
| `TargetOrders.MixedTargetsExample` | internal/engine/heapmodel/store_regions_content.go:434-442 | A store to an array's first element or to any of its elements: the state depends on which comes first. |
| `Fixpoint.TransferIsNextState` | internal/engine/heapmodel/store_regions_transfer.go:22-51 | Unless a store's targets clash, the transfer relation has exactly one outcome. |
| `MemoryTheorem.OrderSchedules` | internal/engine/heapmodel/store_regions.go:418-460 | On an acyclic function the depth-first order puts every predecessor, and every definition of a used value, first. |
| `ReversePostorder.ReversePostorderOf` | internal/engine/heapmodel/store_regions.go:521-540 | Lists each block reachable from the entry once and no other, the entry first, and puts the target of an edge before its source only if the target reaches the source. |
| `ReversePostorder.Walk.Visit` | internal/engine/heapmodel/store_regions.go:524-533 | The recursive walk in place is the specified walk, and ends. |
| `ReversePostorder.AcyclicOrder` | internal/engine/heapmodel/store_regions.go:521-540 | On an acyclic function every edge goes forward in the order. |
| `Joins.JoinCoversExactly` | internal/engine/heapmodel/store_regions_state.go:158-191 | A join covers a local slot of both sides exactly when neither side clobbered just that element while only the other wrote the wildcard, with what the two say of the wildcard known and together within the limit. |
| `Joins.JoinKeepsHeaps` | internal/engine/heapmodel/store_regions_state.go:158-191 | Any heap of local slots covered by either incoming state, with no element clobbered by itself, is covered by the merged state. |
| `Joins.OneSideCovered` | internal/engine/heapmodel/store_regions_state.go:158-191 | The join covers one side at every local slot not hidden so: slots written on one side only, implicit nil, wildcards, clobbered prefixes and widened sets included. |
| `Joins.HiddenClobberExample` | internal/engine/heapmodel/store_regions_state.go:158-191 | An array with one clobbered element joined with one written through an unknown index: the join loses what the clobbered element may hold. |
| `Joins.EmptyEntryExample` | internal/engine/heapmodel/store_regions_content.go:40-84 | An entry present but empty reads as nil, and the join with a side that stored something forgets it; hence the premise that entries are not empty. |
| `Joins.ContentCovers` | internal/engine/heapmodel/store_regions_content.go:28-118 | Exactly which values a read of a local slot admits, by its own entry, the wildcard's and the implicit content. |
| `RegionStates.ClobberDepth` | internal/engine/heapmodel/store_regions_content.go:135-148 | The longest clobbered prefix of a path. |
| `RegionStates.AdmitsAnythingExactly` | internal/engine/heapmodel/store_regions.go:160-167 | A set admits every value exactly when it holds unknown or a placeholder. |
| `JoinStamps.EscapesJoin` | internal/engine/heapmodel/store_regions_state.go:140-150 | An object, or a way out of it, is let out after a join exactly when it was on some side. |
| `JoinStamps.WithinReachExactly` | internal/engine/heapmodel/store_regions_effects.go:151-171 | Code not followed can write an object exactly when it has that object, or one it was read out of, in hand. |
| `JoinStamps.WithinReachJoins` | internal/engine/heapmodel/store_regions_state.go:140-150 | After a join an object is within reach of such code exactly when it was on some side. |
| `JoinStamps.StepStampsJoin` | internal/engine/heapmodel/store_regions_state.go:221-230 | A step stamp stands exactly when both sides have it alike, and is the join's otherwise. |
| `JoinStamps.ClobberStampsJoin` | internal/engine/heapmodel/store_regions_state.go:206-211 | A clobber stamp stands when the sides that have it agree, and is the join's otherwise. |
| `JoinStamps.StampsJoin` | internal/engine/heapmodel/store_regions_state.go:78-84 | Where the sides agree on who may write an object, a read of its slots keeps its epoch exactly when the sides read one epoch. |
| `JoinStamps.StampExactly` | internal/engine/heapmodel/store_regions_state.go:78-84 | A read is stamped by the last effect on what unfollowed code has in hand where the object, or one it was read out of, is in hand, and by the last effect of all otherwise. |
| `JoinStamps.StaleExactly` | internal/engine/heapmodel/store_regions_state.go:158-191 | A joined entry has the pointees of both sides, each stale exactly when a side says so or it was made inside the loop the back edge closes; an unknown side or too many make it unknown. |
| `JoinStamps.ForeignReads` | internal/engine/heapmodel/store_regions_content.go:90-118 | Content of a foreign object that was not written here may be anything, and two reads of it are one exactly when no effect that could have changed it came between. |
| `JoinStamps.LocalReads` | internal/engine/heapmodel/store_regions_content.go:90-118 | An untouched slot of a local reads as nil, and as anything beneath an effect not followed. |
| `JoinStamps.StaleFromEntries` | internal/engine/heapmodel/store_regions_content.go:28-118 | What is read is stale only where some entry says so; content that was not written never is. |
| `StateUpdates.MemoryState.MergeWith` | internal/engine/heapmodel/store_regions_state.go:140-156 | The in-place join is the specified one. |
| `StateUpdates.MemoryState.MergeStored` | internal/engine/heapmodel/store_regions_state.go:158-191 | The two in-place passes over contents, the first reading the state before the join, make the joined contents. |
| `StateUpdates.MemoryState.MergeStamps` | internal/engine/heapmodel/store_regions_state.go:214-231 | Stamps that disagree, or that one side lacks, take the join's. |
| `StateUpdates.MemoryState.Store` | internal/engine/heapmodel/store_regions_content.go:448-467 | The in-place scalar store is the specified one. |
| `StateUpdates.MemoryState.StoreElement` | internal/engine/heapmodel/store_regions_content.go:344-366 | The in-place store through an unknown index is the specified one. |
| `StateUpdates.MemoryState.Clear` | internal/engine/heapmodel/store_regions_content.go:369-376 | Forgets what is stored and what was clobbered beneath a slot, and nothing else. |
| `StateUpdates.MemoryState.ForgetSubtree` | internal/engine/heapmodel/store_regions_state.go:323-334 | Forgets what is stored beneath a slot and keeps the clobber stamps. |
| `AliasQueries.ChaseExactly` | internal/engine/heapmodel/query.go:266-317 | The query says a pair may alias exactly when a chain of turns, shorter than the depth, leads to a pair that meets, or some chain is as long as the depth. A turn goes from two placeholders to their sources or from one to a placeholder it ever held; a pair meets on its face or when a placeholder ever held what touches the other. |
| `AliasQueries.SlotsMayAliasSymmetric` | internal/engine/heapmodel/query.go:266-317 | The bounded chase, through its mutual recursion, does not depend on the order of its two slots. |
| `AliasQueries.DeeperChaseRefutesMore` | internal/engine/heapmodel/query.go:251-317 | A slot pair refuted at one depth is refuted at every greater depth. |
| `AliasQueries.HeldBeforeExample` | internal/engine/heapmodel/query.go:297-311 | Content an effect may have left in a slot may be the object that was in the slot before. |
| `AliasQueries.AliasLog.ProveMayAlias` | internal/engine/heapmodel/query.go:220-249 | True exactly when a side is unavailable or some pair of slots may alias; a refutation, and only that, is recorded. |
| `AliasQueries.MustSameExactly` | internal/engine/heapmodel/query.go:336-360 | A must-answer names one location exactly when no step but the last was indexed dynamically, since the test looks at the last step only. |
| `AliasQueries.DynamicElementFieldExample` | internal/engine/heapmodel/query.go:349-360 | The field of a dynamically indexed element passes the exactness test and names two locations. |
| `AliasQueries.MustSameIs` | internal/engine/heapmodel/query.go:336-360 | Two values are the same for certain exactly when each has one pointee, the same one, known, of the current round of every loop, and no wildcard. |
| `SlotPaths.PathsMayAliasExactly` | internal/engine/heapmodel/query.go:319-333 | Two wildcard paths may alias exactly when some concrete path is an instance of both. |
| `SlotPaths.TextPathsMayAliasRendered` | internal/engine/heapmodel/query.go:319-333 | The test on rendered paths is the test on steps. |
| `SlotPaths.ConcreteExactly` | internal/engine/heapmodel/query.go:319-333 | A path names one location exactly when it has no wildcard. |
| `SlotPaths.LastStepTestExactly` | internal/engine/heapmodel/query.go:349-360 | The last-step test is exact precisely on paths with no earlier wildcard. |
| `SlotPaths.RenderInjective` | internal/engine/heapmodel/store_regions.go:543-551 | Distinct paths are rendered as distinct strings. |
| `SlotPaths.SplitJoined` | internal/engine/heapmodel/store_regions.go:543-551 | Splitting a joined path gives back its steps. |
| `SlotPaths.JoinSlotPathRendered` | internal/engine/heapmodel/store_regions.go:543-551 | Joining rendered paths renders their concatenation. |
| `SlotPaths.SlotBeneathRendered` | internal/engine/heapmodel/store_regions.go:554-556 | The textual prefix test is the prefix relation on steps. |
| `SlotPaths.LastStepRendered` | internal/engine/heapmodel/store_regions.go:559-562 | The last step and the parent can be read off the string. |
| `SlotPaths.IndexStepRendered` | internal/engine/heapmodel/store_regions.go:564-566 | The textual index test recognizes exactly the index steps. |
| `SlotPaths.TrimSlashRendered` | internal/engine/heapmodel/store_regions_content.go:248-253 | Cutting a rendered prefix and its slash off a path leaves the rendered rest. |
| `PointeeSets.AddIsRecord` | internal/engine/heapmodel/store_regions.go:100-132 | The special-cased addition is the plain one: unknown absorbs, stale bits are ORed. |
| `PointeeSets.JoinLaws` | internal/engine/heapmodel/store_regions.go:100-151 | Pointee sets form a join-semilattice in which unknown absorbs. |
| `PointeeSets.UnionIsRecordAll` | internal/engine/heapmodel/store_regions.go:134-151 | The optimized union is the fold of additions. |
| `PointeeSets.UnionIsJoin` | internal/engine/heapmodel/store_regions.go:134-151 | In every iteration order the union is the join. |
| `PointeeSets.RecordAllJoins` | internal/engine/heapmodel/store_regions.go:134-151 | Adding items one by one joins the set they make up. |
| `PointeeSets.RememberIgnoresOrder` | internal/engine/heapmodel/store_regions_content.go:323-340 | The bounded history is the same for every iteration order, though it stops at the first overfull set. |
| `PointeeSets.PointeeSet.AddSlot` | internal/engine/heapmodel/store_regions.go:100-132 | The in-place addition records exactly the one slot. |
| `PointeeSets.PointeeSet.Union` | internal/engine/heapmodel/store_regions.go:134-151 | The in-place union, over an arbitrary map order, is the join. |
| `StateEffects.RegionState.Clobber` | internal/engine/heapmodel/store_regions_effects.go:256-285 | Though it deletes contents while it walks them, empties and stamps exactly the local sites reachable in the state it was given, past no cell a closure only reads, and leaves every other object's contents. |
| `StateEffects.RegionState.Escape` | internal/engine/heapmodel/store_regions_effects.go:194-226 | Marks exactly the least slot set that has the pointees and is closed under what is held beneath, nil and unknown left out; contents stay; what first escapes in some way is recorded. |
| `StateEffects.EscapingObjects` | internal/engine/heapmodel/store_regions_effects.go:194-226 | What escapes is an object: each object that escapes on its own, and each one held beneath a slot that escapes. |
| `StateEffects.SitesExactly` | internal/engine/heapmodel/store_regions_effects.go:214-217 | Of the slots that escape, the local objects marked as let out are those with some such slot. |
| `StateEffects.RegionState.RecordEscape` | internal/engine/heapmodel/store_regions_effects.go:231-244 | Records the instruction for each way not recorded yet, and keeps what was recorded. |
| `StateEffects.UnvisitedUnchanged` | internal/engine/heapmodel/store_regions_effects.go:267-280 | Forgetting visited sites changes nothing about what an object not visited holds. |
| `EscapeQuery.QueryEscape` | internal/engine/heapmodel/escape_query.go:117-150 | While the budget lasts, of an exact local slot: the events are exactly the recorded escapes that overlap it and the values handed out in scope that lead to it; local exactly when there are none and everything in scope is known; observed exactly when there are some, each can be followed, and everything in scope is known; and the reason given is there. Of any other value unknown without events. Whether the budget ran out is returned; then the answer is unknown and its events are real. |
| `EscapeQuery.ConfinedExactly` | internal/engine/heapmodel/escape_query.go:105-116 | An object is confined exactly when no event is real and nothing is left open. |
| `EscapeQuery.OverlapExactly` | internal/engine/heapmodel/escape_query.go:206-208 | Two slots overlap exactly when some slot lies within both. |
| `EscapeQuery.BodyOnlyExactly` | internal/engine/heapmodel/escape_query.go:210-240 | A query about the body passes over returned values and nothing else. |
| `EscapeQuery.EscapeReachability` | internal/engine/heapmodel/escape_query.go:290-328 | With budget left, found exactly when a slot reachable from the pointees overlaps the target, and complete exactly when nothing on the way is foreign, stale or backed; found is evidence even when cut. |
| `EscapeQuery.EscapeChildren` | internal/engine/heapmodel/escape_query.go:330-353 | The slots held beneath one, exactly, and whether none is stale and no backing copy exists, unless the budget ran out. |
| `EscapeQuery.EscapeProof.Add` | internal/engine/heapmodel/escape_query.go:187-204 | Each event is kept once; a new one that cannot be followed makes the outcome unknown, another ends that it is local. |
| `EscapeQuery.EscapeProof.ExportEscape` | internal/engine/heapmodel/escape_query.go:265-286 | Judging one handed-out value keeps every event real and, while the budget lasts, the events, outcome and reason exactly those of everything judged so far. |
| `EscapeQuery.EscapeProof.ResultEscapeEvents` | internal/engine/heapmodel/escape_query.go:210-240 | While the budget lasts, everything handed out in a reached block and in scope is judged, and nothing else. |

## Left out

- MemoryTheorem.BuildGraph: how many rounds a build takes in which targets clash or a value is widened; how the entries of a state are counted is a parameter.
- RunSoundness.EveryRunCovered: supposes that no store's address was widened to unknown; such a store forgets only foreign objects and escaped sites, so an unescaped site it may have written keeps its contents.
- RunSoundness.EveryRunCovered: no loops, calls, deferred calls, closures, slices, maps, channels, globals, parameters, interface values or whole-aggregate loads and stores; the graph's snapshots and backing copies, its slice views and its stale marks across back edges are not part of this fragment.
- Joins.JoinCoversExactly: states without backing copies, which merge separately.
- StateUpdates.MemoryState.MergeWith: the flags for opaque effects, callbacks run and deferred calls, which a join unites, are not in the state.
- CacheProtocol.SettledGraphsCurrent: a summary a build projected privately, while another analyzer was projecting the same callee, is not one the registry handed it and is outside the claim, as is the freshness of on-demand summaries under concurrency.
- Invalidation.InvalidateDependents: one worklist at a time and no eviction for capacity; eviction for capacity drops a graph from the index and leaves its on-demand summary.
- Invalidation.EveryRunConsistent: each operation is run to its end before the next, and a projection is of the function's own cached graph; a projection of a graph the cache declined, after the bounded rebuilds, is not part of it.
- CallCycles.TestExact: static callees only, as the engine records them; instantiations of generic functions, which also stand for their origins, and the wrapper that calls its origin are not modelled.
- CallCycles.TestCallCycle: as `CallCycles.TestExact`.
- WaitProtocol.DeadlockFreeExactly: every call whose summary is applied is a recorded static call; interface dispatch, the private build for an entry without a channel, and the lock each graph holds while it replays a block are not modelled.
- StorageUses.Content: how addresses are resolved to locations, what a use does, and the search behind the order test are parameters, and the query that falls back to the points-to graph is not part of it.
- EscapeQuery.QueryEscape: the events are not sorted, and confinement is about the graph's contents, not about runs.
- Budgets.SearchBudget.Spend: nested pools count as one with the least allowance, and what other questions charge to a pool meanwhile is not modelled; nor is who is told of an exhaustion.
- AliasQueries.AliasLog.ProveMayAlias: the structural answer for identical or untracked values and the reasons given are not modelled.
- SlotPaths.RenderInjective: the steps to a map's values and keys are not among the steps.
- ConditionalCoverage.CoverageWalk.Covers: recognizing completions, returns and feasible successors is a parameter.
- Invalidation of foreign objects by step (internal/engine/heapmodel/store_regions_effects.go:92-137), deferred and defined calls, and the substitution of a summary into a caller's state.
- Whole-lifetime cell queries, write-once fields, and containment through stored contents.
- Widening of loop-carried values, and the explanation of a fixpoint that did not settle.
- Result-guarded deferred completion and everything else of the lifecycle analyzer.
- Observers, tracing, rendering, release of a program's caches, and memoization of the call-cycle walk.
- The command line, the other analyzers, the SSA builder and the Go type checker.
