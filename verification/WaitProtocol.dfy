/** Analyzers that build graphs and wait for one another's builds. */
module WaitProtocol {
  import opened Options
  import opened GraphCache
  import CallCycles
  import Graphs

  /** What an analyzer is doing: computing, about to look a graph up, blocked on
  a build's end, or publishing under the cache lock. */
  datatype Status = Running | Asking(wanted: Func) | Waiting(entry: EntryId) | Publishing

  /** The builds an analyzer has under way, innermost first. */
  datatype Thread = Thread(stack: seq<EntryId>, status: Status)

  /** lock names the analyzer that holds the cache lock across steps. */
  datatype World = World(cache: Cache, threads: map<nat, Thread>, lock: Option<nat>)

  datatype Action =
    | Ask(thread: nat, wanted: Func)
    | Lookup(thread: nat, id: EntryId)
    | Wake(thread: nat)
    | BeginPublish(thread: nat)
    | EndPublish(thread: nat, graph: Graph, current: bool)
    | EvictEntry(thread: nat, entry: EntryId)

  function Moved(w: World, t: nat, thread: Thread): map<nat, Thread> {
    w.threads[t := thread]
  }

  /** A lookup returns a finished graph, waits for a running build, or starts
  one. */
  function LookedUp(w: World, t: nat, id: EntryId): World
    requires t in w.threads && w.threads[t].status.Asking?
    requires forall f | f in w.cache.slots :: w.cache.slots[f] in w.cache.entries
  {
    var thread, f := w.threads[t], w.threads[t].status.wanted;
    if f in w.cache.slots then
      var e := w.cache.slots[f];
      if w.cache.entries[e].graph.Some? then w.(threads := Moved(w, t, thread.(status := Running)))
      else w.(threads := Moved(w, t, thread.(status := Waiting(e))))
    else
      w.(cache := Start(w.cache, id, f), threads := Moved(w, t, Thread([id] + thread.stack, Running)))
  }

  /** A build asks only for callees whose summary its function applies; a query
  with no build under way asks for anything. */
  ghost predicate MayAsk(p: CallCycles.Program, w: World, thread: Thread, f: Func) {
    thread.stack == [] ||
    (thread.stack[0] in w.cache.entries && CallCycles.Applies(p, w.cache.entries[thread.stack[0]].owner, f))
  }

  ghost predicate Steps(p: CallCycles.Program, w: World, a: Action, n: World) {
    a.thread in w.threads && Valid(w.cache) &&
    var t, thread := a.thread, w.threads[a.thread];
    match a
    case Ask(_, f) =>
      thread.status.Running? && MayAsk(p, w, thread, f) &&
      n == w.(threads := Moved(w, t, thread.(status := Asking(f))))
    case Lookup(_, id) =>
      thread.status.Asking? && w.lock.None? && id !in w.cache.entries && n == LookedUp(w, t, id)
    case Wake(_) =>
      thread.status.Waiting? && thread.status.entry in w.cache.entries &&
        w.cache.entries[thread.status.entry].finished &&
      n == w.(threads := Moved(w, t, thread.(status := Asking(w.cache.entries[thread.status.entry].owner))))
    case BeginPublish(_) =>
      thread.status.Running? && thread.stack != [] && w.lock.None? &&
      n == w.(threads := Moved(w, t, thread.(status := Publishing)), lock := Some(t))
    case EndPublish(_, graph, current) =>
      thread.status.Publishing? && thread.stack != [] && thread.stack[0] in w.cache.entries &&
      n == World(Publish(w.cache, thread.stack[0], graph, current), Moved(w, t, Thread(thread.stack[1..], Running)),
                 None)
    case EvictEntry(_, e) =>
      thread.status.Running? && w.lock.None? && e in w.cache.entries && n == w.(cache := Evict(w.cache, e))
  }

  // ---- The invariant --------------------------------------------------------

  ghost function RankOf(p: CallCycles.Program, entries: Entries, e: EntryId): nat
    requires e in entries
  {
    CallCycles.Rank(p, entries[e].owner)
  }

  predicate Unfinished(entries: Entries, e: EntryId) {
    e in entries && !entries[e].finished
  }

  /** Builds under way are unfinished, and ranks fall towards the innermost. */
  ghost predicate StackFalls(p: CallCycles.Program, entries: Entries, stack: seq<EntryId>)
    decreases |stack|
  {
    stack == [] ||
    (Unfinished(entries, stack[0]) && StackFalls(p, entries, stack[1..]) &&
     forall e | e in stack[1..] && e in entries :: RankOf(p, entries, stack[0]) < RankOf(p, entries, e))
  }

  /** What a thread asks or waits for ranks below every build it has under way. */
  ghost predicate WantsBelow(p: CallCycles.Program, entries: Entries, thread: Thread) {
    && (thread.status.Asking? ==>
          forall e | e in thread.stack && e in entries ::
            CallCycles.Rank(p, thread.status.wanted) < RankOf(p, entries, e))
    && (thread.status.Waiting? ==>
          thread.status.entry in entries &&
          forall e | e in thread.stack && e in entries ::
            RankOf(p, entries, thread.status.entry) < RankOf(p, entries, e))
  }

  ghost predicate ThreadOk(p: CallCycles.Program, entries: Entries, thread: Thread) {
    StackFalls(p, entries, thread.stack) && WantsBelow(p, entries, thread)
  }

  predicate OnStack(threads: map<nat, Thread>, t: nat, e: EntryId) {
    t in threads && e in threads[t].stack
  }

  ghost predicate HasBuilder(threads: map<nat, Thread>, e: EntryId) {
    exists t :: OnStack(threads, t, e)
  }

  predicate SameBuilder(threads: map<nat, Thread>, t: nat, u: nat, e: EntryId) {
    OnStack(threads, t, e) && OnStack(threads, u, e) ==> t == u
  }

  /** An unfinished entry has one builder. */
  ghost predicate OneBuilder(entries: Entries, threads: map<nat, Thread>) {
    && (forall e :: Unfinished(entries, e) ==> HasBuilder(threads, e))
    && forall t, u, e :: SameBuilder(threads, t, u, e)
  }

  predicate LockHeld(threads: map<nat, Thread>, lock: Option<nat>) {
    && (forall t | t in threads && threads[t].status.Publishing? :: lock == Some(t) && threads[t].stack != [])
    && (lock.Some? ==> lock.value in threads && threads[lock.value].status.Publishing?)
  }

  ghost predicate Inv(p: CallCycles.Program, w: World) {
    && Valid(w.cache)
    && (forall t | t in w.threads :: ThreadOk(p, w.cache.entries, w.threads[t]))
    && OneBuilder(w.cache.entries, w.threads)
    && LockHeld(w.threads, w.lock)
  }

  // ---- Frame lemmas ---------------------------------------------------------

  /** Entries keep their owners; those of the stack stay unfinished. */
  ghost predicate Grows(before: Entries, after: Entries, kept: set<EntryId>) {
    && (forall e | e in before :: e in after && after[e].owner == before[e].owner)
    && forall e | e in kept && Unfinished(before, e) :: Unfinished(after, e)
  }

  lemma {:induction false} StackKept(p: CallCycles.Program, before: Entries, after: Entries, stack: seq<EntryId>,
                                     kept: set<EntryId>)
    requires StackFalls(p, before, stack) && Grows(before, after, kept) && forall e | e in stack :: e in kept
    ensures StackFalls(p, after, stack)
    decreases |stack|
  {
    if stack != [] {
      StackKept(p, before, after, stack[1..], kept);
      StackUnfinished(p, before, stack[1..]);
    }
  }

  lemma {:induction false} StackUnfinished(p: CallCycles.Program, entries: Entries, stack: seq<EntryId>)
    requires StackFalls(p, entries, stack)
    ensures forall e | e in stack :: Unfinished(entries, e)
    decreases |stack|
  {
    if stack != [] {
      StackUnfinished(p, entries, stack[1..]);
    }
  }

  lemma ThreadKept(p: CallCycles.Program, before: Entries, after: Entries, thread: Thread, kept: set<EntryId>)
    requires ThreadOk(p, before, thread) && Grows(before, after, kept) && forall e | e in thread.stack :: e in kept
    ensures ThreadOk(p, after, thread)
  {
    StackKept(p, before, after, thread.stack, kept);
    StackUnfinished(p, before, thread.stack);
  }

  // ---- Steps that keep the cache --------------------------------------------

  lemma StatusKeeps(p: CallCycles.Program, w: World, t: nat, status: Status, lock: Option<nat>, n: World)
    requires Inv(p, w) && t in w.threads
    requires n == World(w.cache, Moved(w, t, w.threads[t].(status := status)), lock)
    requires WantsBelow(p, w.cache.entries, n.threads[t]) && LockHeld(n.threads, n.lock)
    ensures Inv(p, n)
  {
    StacksSame(w.cache.entries, w.threads, n.threads);
  }

  /** The builders are the same while the stacks are. */
  lemma StacksSame(entries: Entries, before: map<nat, Thread>, after: map<nat, Thread>)
    requires OneBuilder(entries, before) && before.Keys == after.Keys
    requires forall t | t in before :: after[t].stack == before[t].stack
    ensures OneBuilder(entries, after)
  {
    forall e ensures Unfinished(entries, e) ==> HasBuilder(after, e) {
      if Unfinished(entries, e) {
        assert HasBuilder(before, e);
        var t :| OnStack(before, t, e);
        assert OnStack(after, t, e);
      }
    }
    forall t, u, e ensures SameBuilder(after, t, u, e) {
      assert SameBuilder(before, t, u, e);
    }
  }

  lemma AskKeeps(p: CallCycles.Program, w: World, t: nat, f: Func, n: World)
    requires CallCycles.NoRing(p) && Inv(p, w) && Steps(p, w, Ask(t, f), n)
    ensures Inv(p, n)
  {
    var thread := w.threads[t];
    if thread.stack != [] {
      CallCycles.AppliedFalls(p, w.cache.entries[thread.stack[0]].owner, f);
      forall e | e in thread.stack && e in w.cache.entries
        ensures CallCycles.Rank(p, f) < RankOf(p, w.cache.entries, e)
      {
      }
    }
    StatusKeeps(p, w, t, Asking(f), w.lock, n);
  }

  lemma WakeKeeps(p: CallCycles.Program, w: World, t: nat, n: World)
    requires Inv(p, w) && Steps(p, w, Wake(t), n)
    ensures Inv(p, n)
  {
    StatusKeeps(p, w, t, Asking(w.cache.entries[w.threads[t].status.entry].owner), w.lock, n);
  }

  lemma BeginKeeps(p: CallCycles.Program, w: World, t: nat, n: World)
    requires Inv(p, w) && Steps(p, w, BeginPublish(t), n)
    ensures Inv(p, n)
  {
    StatusKeeps(p, w, t, Publishing, Some(t), n);
  }

  // ---- Steps that change the cache ------------------------------------------

  lemma LookupKeeps(p: CallCycles.Program, w: World, t: nat, id: EntryId, n: World)
    requires Inv(p, w) && Steps(p, w, Lookup(t, id), n)
    ensures Inv(p, n)
  {
    var f := w.threads[t].status.wanted;
    if f in w.cache.slots {
      var e := w.cache.slots[f];
      StatusKeeps(p, w, t, if w.cache.entries[e].graph.Some? then Running else Waiting(e), w.lock, n);
    } else {
      StartKeeps(p, w, t, id, n);
    }
  }

  /** The function's build is the one in the cache. */
  predicate IsCached(cache: Cache, f: Func, e: EntryId) {
    e in cache.entries && cache.entries[e].owner == f && !cache.entries[e].stale
  }

  ghost predicate BuildEnded(cache: Cache, f: Func) {
    exists e :: IsCached(cache, f, e) && cache.entries[e].finished
  }

  ghost predicate BuildRuns(cache: Cache, f: Func) {
    exists e :: IsCached(cache, f, e) && !cache.entries[e].finished
  }

  /** The slot holds the cached build, and its graph is there once it has ended. */
  lemma CachedInSlot(cache: Cache, f: Func)
    requires Valid(cache)
    ensures forall e :: IsCached(cache, f, e) <==> f in cache.slots && cache.slots[f] == e
    ensures f in cache.slots ==>
              cache.slots[f] in cache.entries &&
              (cache.entries[cache.slots[f]].finished <==> cache.entries[cache.slots[f]].graph.Some?)
  {
  }

  /** What a lookup does: it is answered by a build that has ended, waits for
  one that runs, and only starts one where there is none. */
  lemma LookupExactly(p: CallCycles.Program, w: World, t: nat, id: EntryId, n: World)
    requires Inv(p, w) && Steps(p, w, Lookup(t, id), n)
    ensures var before, after, f := w.threads[t], n.threads[t], w.threads[t].status.wanted;
            if BuildEnded(w.cache, f) then after == before.(status := Running) && n.cache == w.cache
            else if BuildRuns(w.cache, f) then
              after.stack == before.stack && after.status.Waiting? && n.cache == w.cache &&
              IsCached(w.cache, f, after.status.entry)
            else after == Thread([id] + before.stack, Running) && IsCached(n.cache, f, id) &&
                 Unfinished(n.cache.entries, id)
  {
    var f := w.threads[t].status.wanted;
    CachedInSlot(w.cache, f);
    if f in w.cache.slots {
      assert IsCached(w.cache, f, w.cache.slots[f]);
    }
  }

  lemma StartKeeps(p: CallCycles.Program, w: World, t: nat, id: EntryId, n: World)
    requires Inv(p, w) && Steps(p, w, Lookup(t, id), n) && w.threads[t].status.wanted !in w.cache.slots
    ensures Inv(p, n)
  {
    var f := w.threads[t].status.wanted;
    StartValid(w.cache, id, f);
    forall u | u in n.threads ensures ThreadOk(p, n.cache.entries, n.threads[u]) {
      StartThread(p, w.cache.entries, w.threads[u], id, f);
    }
    StartOneBuilder(p, w, t, id, f, n);
  }

  /** A new entry leaves a thread as it was; the thread that asked for it can
  take it up. */
  lemma StartThread(p: CallCycles.Program, entries: Entries, thread: Thread, id: EntryId, f: Func)
    requires ThreadOk(p, entries, thread) && id !in entries
    ensures ThreadOk(p, Started(entries, id, f), thread)
    ensures thread.status == Asking(f) ==> ThreadOk(p, Started(entries, id, f), Thread([id] + thread.stack, Running))
  {
    ThreadKept(p, entries, Started(entries, id, f), thread, entries.Keys + Members(thread.stack));
    StackUnfinished(p, entries, thread.stack);
    assert ([id] + thread.stack)[1..] == thread.stack;
  }

  lemma StartOneBuilder(p: CallCycles.Program, w: World, t: nat, id: EntryId, owner: Func, n: World)
    requires Inv(p, w) && t in w.threads && id !in w.cache.entries
    requires n.threads == Moved(w, t, Thread([id] + w.threads[t].stack, Running))
    requires n.cache.entries == Started(w.cache.entries, id, owner)
    ensures OneBuilder(n.cache.entries, n.threads)
  {
    assert n.threads[t].stack[0] == id && n.threads[t].stack[1..] == w.threads[t].stack;
    forall u, e ensures OnStack(n.threads, u, e) <==> OnStack(w.threads, u, e) || (u == t && e == id) {
    }
    forall e ensures Unfinished(n.cache.entries, e) ==> HasBuilder(n.threads, e) {
      if Unfinished(n.cache.entries, e) && e != id {
        assert Unfinished(w.cache.entries, e) && HasBuilder(w.threads, e);
        var u :| OnStack(w.threads, u, e);
        assert OnStack(n.threads, u, e);
      }
      assert OnStack(n.threads, t, id);
    }
    forall u, v, e ensures SameBuilder(n.threads, u, v, e) {
      assert SameBuilder(w.threads, u, v, e);
      NotOnStack(p, w, u, id);
      NotOnStack(p, w, v, id);
    }
  }

  /** An entry not made yet is on no stack. */
  lemma NotOnStack(p: CallCycles.Program, w: World, t: nat, id: EntryId)
    requires Inv(p, w) && id !in w.cache.entries
    ensures !OnStack(w.threads, t, id)
  {
    if t in w.threads {
      assert ThreadOk(p, w.cache.entries, w.threads[t]);
      StackUnfinished(p, w.cache.entries, w.threads[t].stack);
    }
  }

  lemma EvictKeeps(p: CallCycles.Program, w: World, t: nat, e: EntryId, n: World)
    requires Inv(p, w) && Steps(p, w, EvictEntry(t, e), n)
    ensures Inv(p, n)
  {
    EvictValid(w.cache, e);
    forall u | u in n.threads ensures ThreadOk(p, n.cache.entries, n.threads[u]) {
      ThreadKept(p, w.cache.entries, n.cache.entries, w.threads[u], Members(w.threads[u].stack));
    }
    forall x ensures Unfinished(n.cache.entries, x) ==> HasBuilder(n.threads, x) {
      assert Unfinished(w.cache.entries, x) ==> HasBuilder(w.threads, x);
    }
  }

  lemma PublishKeeps(p: CallCycles.Program, w: World, t: nat, graph: Graph, current: bool, n: World)
    requires Inv(p, w) && Steps(p, w, EndPublish(t, graph, current), n)
    ensures Inv(p, n)
  {
    var top := w.threads[t].stack[0];
    assert ThreadOk(p, w.cache.entries, w.threads[t]);
    PublishValid(w.cache, top, graph, current);
    PublishFinishes(w.cache, top, graph, current);
    forall u | u in n.threads ensures ThreadOk(p, n.cache.entries, n.threads[u]) {
      PublishThread(p, w, t, n, u);
    }
    PublishOneBuilder(p, w, t, n);
    assert LockHeld(n.threads, n.lock) by {
      forall u | u in n.threads ensures !n.threads[u].status.Publishing? {
        assert w.threads[u].status.Publishing? ==> u == t;
      }
    }
  }

  /** Only the top entry is finished. */
  predicate FinishesOnly(before: Entries, after: Entries, top: EntryId) {
    before.Keys == after.Keys &&
    forall x | x in before :: after[x].owner == before[x].owner && after[x].finished == (before[x].finished || x == top)
  }

  /** The end of a build finishes its own entry and no other. */
  lemma PublishFinishes(c: Cache, e: EntryId, graph: Graph, current: bool)
    requires Valid(c) && Unfinished(c.entries, e)
    ensures FinishesOnly(c.entries, Publish(c, e, graph, current).entries, e)
  {
    PublishSpares(c, e, graph, current);
  }

  ghost predicate Popped(w: World, t: nat, n: World) {
    && t in w.threads && w.threads[t].stack != [] && w.threads[t].status.Publishing?
    && n.threads == Moved(w, t, Thread(w.threads[t].stack[1..], Running))
    && FinishesOnly(w.cache.entries, n.cache.entries, w.threads[t].stack[0])
  }

  lemma PublishThread(p: CallCycles.Program, w: World, t: nat, n: World, u: nat)
    requires Inv(p, w) && Popped(w, t, n) && u in n.threads
    ensures ThreadOk(p, n.cache.entries, n.threads[u])
  {
    var top, thread := w.threads[t].stack[0], w.threads[u];
    assert ThreadOk(p, w.cache.entries, thread) && ThreadOk(p, w.cache.entries, w.threads[t]);
    if u == t {
      PoppedStack(p, w.cache.entries, n.cache.entries, thread.stack[1..], top);
    } else {
      assert OnStack(w.threads, t, top) && SameBuilder(w.threads, t, u, top);
      PoppedThread(p, w.cache.entries, n.cache.entries, thread, top);
    }
  }

  lemma PoppedStack(p: CallCycles.Program, before: Entries, after: Entries, stack: seq<EntryId>, top: EntryId)
    requires StackFalls(p, before, stack) && top !in stack && FinishesOnly(before, after, top)
    ensures StackFalls(p, after, stack)
  {
    StackKept(p, before, after, stack, before.Keys - {top} + Members(stack));
  }

  lemma PoppedThread(p: CallCycles.Program, before: Entries, after: Entries, thread: Thread, top: EntryId)
    requires ThreadOk(p, before, thread) && top !in thread.stack && FinishesOnly(before, after, top)
    ensures ThreadOk(p, after, thread)
  {
    ThreadKept(p, before, after, thread, before.Keys - {top} + Members(thread.stack));
  }

  lemma PoppedOnStack(w: World, t: nat, n: World, u: nat, e: EntryId)
    requires Popped(w, t, n)
    ensures OnStack(n.threads, u, e) ==> OnStack(w.threads, u, e)
    ensures OnStack(w.threads, u, e) && e != w.threads[t].stack[0] ==> OnStack(n.threads, u, e)
  {
    var stack := w.threads[t].stack;
    assert stack == [stack[0]] + stack[1..];
  }

  lemma PublishOneBuilder(p: CallCycles.Program, w: World, t: nat, n: World)
    requires OneBuilder(w.cache.entries, w.threads) && Popped(w, t, n)
    ensures OneBuilder(n.cache.entries, n.threads)
  {
    forall e ensures Unfinished(n.cache.entries, e) ==> HasBuilder(n.threads, e) {
      if Unfinished(n.cache.entries, e) {
        assert Unfinished(w.cache.entries, e) && HasBuilder(w.threads, e);
        var u :| OnStack(w.threads, u, e);
        PoppedOnStack(w, t, n, u, e);
      }
    }
    forall u, v, e ensures SameBuilder(n.threads, u, v, e) {
      assert SameBuilder(w.threads, u, v, e);
      PoppedOnStack(w, t, n, u, e);
      PoppedOnStack(w, t, n, v, e);
    }
  }

  // ---- Whole runs -----------------------------------------------------------

  lemma StepKeeps(p: CallCycles.Program, w: World, a: Action, n: World)
    requires CallCycles.NoRing(p) && Inv(p, w) && Steps(p, w, a, n)
    ensures Inv(p, n)
  {
    match a
    case Ask(t, f) => AskKeeps(p, w, t, f, n);
    case Lookup(t, id) => LookupKeeps(p, w, t, id, n);
    case Wake(t) => WakeKeeps(p, w, t, n);
    case BeginPublish(t) => BeginKeeps(p, w, t, n);
    case EndPublish(t, graph, current) => PublishKeeps(p, w, t, graph, current, n);
    case EvictEntry(t, e) => EvictKeeps(p, w, t, e, n);
  }

  /** Any number of analyzers, none of them building yet. */
  predicate IsStart(w: World) {
    w.cache == EMPTY_CACHE && w.lock.None? && forall t | t in w.threads :: w.threads[t] == Thread([], Running)
  }

  ghost predicate IsRun(p: CallCycles.Program, run: seq<World>, actions: seq<Action>) {
    run != [] && IsStart(run[0]) && |actions| == |run| - 1 &&
    forall i | 0 <= i < |actions| :: Steps(p, run[i], actions[i], run[i + 1])
  }

  lemma {:induction false} EveryStateKeeps(p: CallCycles.Program, run: seq<World>, actions: seq<Action>, i: nat)
    requires CallCycles.NoRing(p) && IsRun(p, run, actions) && i < |run|
    ensures Inv(p, run[i])
  {
    if i > 0 {
      EveryStateKeeps(p, run, actions, i - 1);
      StepKeeps(p, run[i - 1], actions[i - 1], run[i]);
    }
  }

  // ---- Waiting --------------------------------------------------------------

  /** The thread is blocked on a build another thread has under way. */
  predicate WaitsFor(w: World, t: nat, u: nat) {
    t in w.threads && u in w.threads && w.threads[t].status.Waiting? &&
    Unfinished(w.cache.entries, w.threads[t].status.entry) && w.threads[t].status.entry in w.threads[u].stack
  }

  /** No analyzer waits on its own build; a blocked analyzer has exactly one to
  wait for; and along a chain of waits the awaited builds' ranks fall. */
  lemma WaitsFall(p: CallCycles.Program, run: seq<World>, actions: seq<Action>, i: nat, t: nat)
    requires CallCycles.NoRing(p) && IsRun(p, run, actions) && i < |run|
    requires t in run[i].threads && run[i].threads[t].status.Waiting?
    requires var e := run[i].threads[t].status.entry; !(e in run[i].cache.entries && run[i].cache.entries[e].finished)
    ensures exists u :: WaitsFor(run[i], t, u)
    ensures forall u, v | WaitsFor(run[i], t, u) && WaitsFor(run[i], t, v) :: u == v != t
    ensures forall u | WaitsFor(run[i], t, u) && run[i].threads[u].status.Waiting? ::
              run[i].threads[u].status.entry in run[i].cache.entries &&
              RankOf(p, run[i].cache.entries, run[i].threads[u].status.entry) <
              RankOf(p, run[i].cache.entries, run[i].threads[t].status.entry)
  {
    EveryStateKeeps(p, run, actions, i);
    BuilderExists(p, run[i], t);
    forall u | WaitsFor(run[i], t, u)
      ensures u != t
      ensures run[i].threads[u].status.Waiting? ==>
                run[i].threads[u].status.entry in run[i].cache.entries &&
                RankOf(p, run[i].cache.entries, run[i].threads[u].status.entry) <
                RankOf(p, run[i].cache.entries, run[i].threads[t].status.entry)
    {
      assert ThreadOk(p, run[i].cache.entries, run[i].threads[t]);
      assert ThreadOk(p, run[i].cache.entries, run[i].threads[u]);
    }
    forall u, v | WaitsFor(run[i], t, u) && WaitsFor(run[i], t, v) ensures u == v {
      assert SameBuilder(run[i].threads, u, v, run[i].threads[t].status.entry);
    }
  }

  lemma BuilderExists(p: CallCycles.Program, w: World, t: nat)
    requires Inv(p, w) && t in w.threads && w.threads[t].status.Waiting?
    requires var e := w.threads[t].status.entry; !(e in w.cache.entries && w.cache.entries[e].finished)
    ensures exists u :: WaitsFor(w, t, u)
  {
    assert ThreadOk(p, w.cache.entries, w.threads[t]);
    assert Unfinished(w.cache.entries, w.threads[t].status.entry);
    assert HasBuilder(w.threads, w.threads[t].status.entry);
    var u :| OnStack(w.threads, u, w.threads[t].status.entry);
    assert WaitsFor(w, t, u);
  }

  predicate Idle(thread: Thread) {
    thread.status.Running? && thread.stack == []
  }

  /** The action moves its thread on: it looks up, wakes, starts or ends a
  publication. */
  predicate MovesOn(a: Action) {
    a.Lookup? || a.Wake? || a.BeginPublish? || a.EndPublish?
  }

  lemma {:induction false} BoundOf(s: set<nat>) returns (b: nat)
    ensures forall x | x in s :: x < b
    decreases |s|
  {
    b := 0;
    if s != {} {
      var x :| x in s;
      var c := BoundOf(s - {x});
      assert forall y | y in s :: y == x || y in s - {x};
      b := if c <= x then x + 1 else c;
    }
  }

  ghost predicate Movable(p: CallCycles.Program, w: World, t: nat) {
    exists a, n :: MovesOn(a) && a.thread == t && Steps(p, w, a, n)
  }

  function Waits(w: World): (nat, nat) -> bool {
    (t: nat, u: nat) => WaitsFor(w, t, u)
  }

  /** The analyzer's next step needs the cache lock only. */
  predicate NeedsLock(thread: Thread) {
    thread.status.Asking? || (thread.status.Running? && thread.stack != [])
  }

  lemma LockHolderMoves(p: CallCycles.Program, w: World)
    requires Inv(p, w) && w.lock.Some?
    ensures Movable(p, w, w.lock.value)
  {
    var u := w.lock.value;
    assert ThreadOk(p, w.cache.entries, w.threads[u]);
    var a := EndPublish(u, Graph(map[], {}, None), true);
    var top := w.threads[u].stack[0];
    assert Steps(p, w, a, World(Publish(w.cache, top, a.graph, true),
                                Moved(w, u, Thread(w.threads[u].stack[1..], Running)), None));
  }

  lemma FreeMoves(p: CallCycles.Program, w: World, t: nat)
    requires Inv(p, w) && w.lock.None? && t in w.threads && NeedsLock(w.threads[t])
    ensures Movable(p, w, t)
  {
    var thread := w.threads[t];
    if thread.status.Asking? {
      var id := BoundOf(w.cache.entries.Keys);
      assert Steps(p, w, Lookup(t, id), LookedUp(w, t, id));
    } else {
      assert Steps(p, w, BeginPublish(t), w.(threads := Moved(w, t, thread.(status := Publishing)), lock := Some(t)));
    }
  }

  lemma WokenMoves(p: CallCycles.Program, w: World, t: nat)
    requires Inv(p, w) && t in w.threads && w.threads[t].status.Waiting?
    requires var e := w.threads[t].status.entry; e in w.cache.entries && w.cache.entries[e].finished
    ensures Movable(p, w, t)
  {
    var thread := w.threads[t];
    var woken := thread.(status := Asking(w.cache.entries[thread.status.entry].owner));
    assert Steps(p, w, Wake(t), w.(threads := Moved(w, t, woken)));
  }

  /** From every busy analyzer the waits lead to one that can move on, or that
  needs but the cache lock, whose holder can move on. */
  lemma {:induction false} WaitsLeadToMove(p: CallCycles.Program, w: World, t: nat) returns (u: nat)
    requires Inv(p, w) && t in w.threads && !Idle(w.threads[t])
    ensures u in w.threads && Graphs.Reaches(Waits(w), t, u)
    ensures Movable(p, w, u) || (w.lock.Some? && NeedsLock(w.threads[u]) && Movable(p, w, w.lock.value))
    decreases if w.threads[t].status.Waiting? && w.threads[t].status.entry in w.cache.entries
              then 1 + RankOf(p, w.cache.entries, w.threads[t].status.entry) else 0
  {
    var thread := w.threads[t];
    assert ThreadOk(p, w.cache.entries, thread);
    Graphs.ReachesSelf(Waits(w), t);
    u := t;
    if w.lock.Some? {
      LockHolderMoves(p, w);
    }
    if NeedsLock(thread) {
      if w.lock.None? {
        FreeMoves(p, w, t);
      }
    } else if thread.status.Waiting? {
      if w.cache.entries[thread.status.entry].finished {
        WokenMoves(p, w, t);
      } else {
        BuilderExists(p, w, t);
        var v :| WaitsFor(w, t, v);
        assert ThreadOk(p, w.cache.entries, w.threads[v]);
        u := WaitsLeadToMove(p, w, v);
        Graphs.EdgeReaches(Waits(w), t, v);
        Graphs.ReachesTransitive(Waits(w), t, v, u);
      }
    }
  }

  /** Blocked on a build that has not ended. */
  predicate Blocked(w: World, t: nat) {
    t in w.threads && w.threads[t].status.Waiting? &&
    !(w.threads[t].status.entry in w.cache.entries && w.cache.entries[w.threads[t].status.entry].finished)
  }

  /** Analyzers that wait for one another and for no one else, whatever others
  do beside them. */
  ghost predicate StuckTogether(w: World, stuck: set<nat>) {
    stuck != {} && forall t | t in stuck :: Blocked(w, t) && forall u | WaitsFor(w, t, u) :: u in stuck
  }

  ghost predicate Deadlocked(w: World) {
    exists stuck :: StuckTogether(w, stuck)
  }

  /** Who waits with a stuck set waits forever: none of it can move. */
  lemma StuckCannotMove(p: CallCycles.Program, w: World, stuck: set<nat>, t: nat)
    requires StuckTogether(w, stuck) && t in stuck
    ensures !Movable(p, w, t)
  {
    assert Blocked(w, t);
  }

  lemma {:induction false} NotStuck(p: CallCycles.Program, w: World, stuck: set<nat>, t: nat)
    requires Inv(p, w) && t in stuck && Blocked(w, t)
    ensures !StuckTogether(w, stuck)
    decreases if w.threads[t].status.entry in w.cache.entries
              then 1 + RankOf(p, w.cache.entries, w.threads[t].status.entry) else 0
  {
    BuilderExists(p, w, t);
    var u :| WaitsFor(w, t, u);
    assert ThreadOk(p, w.cache.entries, w.threads[t]) && ThreadOk(p, w.cache.entries, w.threads[u]);
    if u in stuck && Blocked(w, u) {
      NotStuck(p, w, stuck, u);
    }
  }

  lemma NoDeadlock(p: CallCycles.Program, w: World)
    requires Inv(p, w)
    ensures !Deadlocked(w)
  {
    if stuck :| StuckTogether(w, stuck) {
      var t :| t in stuck;
      NotStuck(p, w, stuck, t);
    }
  }

  /** The action ends the build of the entry. */
  predicate Closes(w: World, a: Action, e: EntryId) {
    a.EndPublish? && a.thread in w.threads && w.threads[a.thread].stack != [] && w.threads[a.thread].stack[0] == e
  }

  /** An entry's waiters are woken exactly when its builder ends the build,
  whether the graph is published or found stale, and stay awake. */
  lemma ClosedByBuilder(p: CallCycles.Program, run: seq<World>, actions: seq<Action>, i: nat, e: EntryId)
    requires CallCycles.NoRing(p) && IsRun(p, run, actions) && i < |actions| && e in run[i].cache.entries
    ensures e in run[i + 1].cache.entries
    ensures run[i + 1].cache.entries[e].finished <==> run[i].cache.entries[e].finished || Closes(run[i], actions[i], e)
    ensures Closes(run[i], actions[i], e) ==> !run[i].cache.entries[e].finished
  {
    EveryStateKeeps(p, run, actions, i);
    ClosedStep(p, run[i], actions[i], run[i + 1], e);
  }

  lemma ClosedStep(p: CallCycles.Program, w: World, a: Action, n: World, e: EntryId)
    requires Inv(p, w) && Steps(p, w, a, n) && e in w.cache.entries
    ensures e in n.cache.entries
    ensures n.cache.entries[e].finished <==> w.cache.entries[e].finished || Closes(w, a, e)
    ensures Closes(w, a, e) ==> !w.cache.entries[e].finished
  {
    if a.EndPublish? {
      assert ThreadOk(p, w.cache.entries, w.threads[a.thread]);
      PublishFinishes(w.cache, w.threads[a.thread].stack[0], a.graph, a.current);
    } else if a.EvictEntry? {
      EvictValid(w.cache, a.entry);
    }
  }

  lemma {:induction false} StaysFinished(p: CallCycles.Program, run: seq<World>, actions: seq<Action>, i: nat, j: nat,
                                         e: EntryId)
    requires CallCycles.NoRing(p) && IsRun(p, run, actions) && i <= j <= |actions|
    requires e in run[i].cache.entries && run[i].cache.entries[e].finished
    ensures e in run[j].cache.entries && run[j].cache.entries[e].finished
    decreases j
  {
    if i < j {
      StaysFinished(p, run, actions, i, j - 1, e);
      ClosedByBuilder(p, run, actions, j - 1, e);
    }
  }

  /** No two steps of a run end the build of one entry. */
  lemma ClosedOnce(p: CallCycles.Program, run: seq<World>, actions: seq<Action>, i: nat, j: nat, e: EntryId)
    requires CallCycles.NoRing(p) && IsRun(p, run, actions) && i < j < |actions| && e in run[i].cache.entries
    requires Closes(run[i], actions[i], e)
    ensures !Closes(run[j], actions[j], e)
  {
    ClosedByBuilder(p, run, actions, i, e);
    StaysFinished(p, run, actions, i + 1, j, e);
    ClosedByBuilder(p, run, actions, j, e);
  }

  // ---- Exactly when no deadlock is possible ----------------------------------

  ghost predicate Reachable(p: CallCycles.Program, w: World) {
    exists run, actions :: IsRun(p, run, actions) && run[|run| - 1] == w
  }

  lemma ReachesNext(p: CallCycles.Program, w: World, a: Action, n: World)
    requires Reachable(p, w) && Steps(p, w, a, n)
    ensures Reachable(p, n)
  {
    var run, actions :| IsRun(p, run, actions) && run[|run| - 1] == w;
    var longer, more := run + [n], actions + [a];
    forall i | 0 <= i < |more| ensures Steps(p, longer[i], more[i], longer[i + 1]) {
      if i < |actions| {
        assert Steps(p, run[i], actions[i], run[i + 1]);
      }
    }
    assert IsRun(p, longer, more);
  }

  /** One analyzer, alone. */
  function Alone(cache: Cache, stack: seq<EntryId>, status: Status): World {
    World(cache, map[0 := Thread(stack, status)], None)
  }

  lemma AloneIsReachable(p: CallCycles.Program)
    ensures Reachable(p, Alone(EMPTY_CACHE, [], Running)) && Valid(EMPTY_CACHE)
  {
    assert IsRun(p, [Alone(EMPTY_CACHE, [], Running)], []);
  }

  /** It asks for a graph not cached and starts to build it. */
  lemma AloneStarts(p: CallCycles.Program, cache: Cache, stack: seq<EntryId>, f: Func, id: EntryId)
    requires Valid(cache) && Reachable(p, Alone(cache, stack, Running))
    requires MayAsk(p, Alone(cache, stack, Running), Thread(stack, Running), f) && id !in cache.entries &&
             f !in cache.slots
    ensures Valid(Start(cache, id, f)) && Reachable(p, Alone(Start(cache, id, f), [id] + stack, Running))
  {
    ReachesNext(p, Alone(cache, stack, Running), Ask(0, f), Alone(cache, stack, Asking(f)));
    ReachesNext(p, Alone(cache, stack, Asking(f)), Lookup(0, id), Alone(Start(cache, id, f), [id] + stack, Running));
    StartValid(cache, id, f);
  }

  /** It asks for a graph being built and waits. */
  lemma AloneWaits(p: CallCycles.Program, cache: Cache, stack: seq<EntryId>, f: Func, id: EntryId)
    requires Valid(cache) && Reachable(p, Alone(cache, stack, Running))
    requires MayAsk(p, Alone(cache, stack, Running), Thread(stack, Running), f)
    requires id !in cache.entries && f in cache.slots && cache.entries[cache.slots[f]].graph.None?
    ensures Reachable(p, Alone(cache, stack, Waiting(cache.slots[f])))
  {
    ReachesNext(p, Alone(cache, stack, Running), Ask(0, f), Alone(cache, stack, Asking(f)));
    ReachesNext(p, Alone(cache, stack, Asking(f)), Lookup(0, id), Alone(cache, stack, Waiting(cache.slots[f])));
  }

  /** It has a build under way for the first functions of the ring. */
  ghost predicate BuildsAlong(cache: Cache, stack: seq<EntryId>, path: seq<Func>, count: nat)
    requires 0 < count <= |path|
  {
    && Valid(cache) && (forall e | e in cache.entries :: cache.entries[e].graph.None? && !cache.entries[e].finished)
    && (forall i | 0 <= i < count :: path[i] in cache.slots)
    && stack != [] && stack[0] in cache.entries && cache.entries[stack[0]].owner == path[count - 1]
  }

  /** Following the ring it starts build after build, until it comes to a
  function it is building and waits for itself. */
  lemma {:induction false} RingBlocks(p: CallCycles.Program, path: seq<Func>, count: nat, cache: Cache,
                                      stack: seq<EntryId>)
    returns (w: World)
    requires Graphs.IsPath(CallCycles.Applied(p), path) && 0 < count < |path| && path[|path| - 1] == path[0]
    requires BuildsAlong(cache, stack, path, count) && Reachable(p, Alone(cache, stack, Running))
    ensures Reachable(p, w) && Deadlocked(w)
    decreases |path| - count
  {
    var f := path[count];
    var id := BoundOf(cache.entries.Keys);
    assert CallCycles.Applied(p)(path[count - 1], f);
    if f in cache.slots {
      AloneWaits(p, cache, stack, f, id);
      w := Alone(cache, stack, Waiting(cache.slots[f]));
      AloneStuck(p, cache, stack, cache.slots[f]);
    } else {
      AloneStarts(p, cache, stack, f, id);
      w := RingBlocks(p, path, count + 1, Start(cache, id, f), [id] + stack);
    }
  }

  lemma AloneStuck(p: CallCycles.Program, cache: Cache, stack: seq<EntryId>, e: EntryId)
    requires Unfinished(cache.entries, e)
    ensures Deadlocked(Alone(cache, stack, Waiting(e)))
  {
    assert StuckTogether(Alone(cache, stack, Waiting(e)), {0});
  }

  /** Any number of analyzers are free of deadlock in every reachable state
  exactly when no ring of applied summaries exists. */
  lemma DeadlockFreeExactly(p: CallCycles.Program)
    ensures CallCycles.NoRing(p) <==> forall w | Reachable(p, w) :: !Deadlocked(w)
  {
    if CallCycles.NoRing(p) {
      forall w | Reachable(p, w) ensures !Deadlocked(w) {
        var run, actions :| IsRun(p, run, actions) && run[|run| - 1] == w;
        EveryStateKeeps(p, run, actions, |run| - 1);
        NoDeadlock(p, w);
      }
    } else {
      RingDeadlocks(p);
    }
  }

  lemma RingDeadlocks(p: CallCycles.Program)
    requires !CallCycles.NoRing(p)
    ensures exists w :: Reachable(p, w) && Deadlocked(w)
  {
    var f :| Graphs.ReachesOn(CallCycles.Applied(p), f, f);
    var path :| Graphs.PathFrom(CallCycles.Applied(p), path, f, f) && |path| > 1;
    AloneIsReachable(p);
    AloneStarts(p, EMPTY_CACHE, [], f, 0);
    var w := RingBlocks(p, path, 1, Start(EMPTY_CACHE, 0, f), [0] + []);
  }
}
