/** The whole content query: which stores are considered, the shortcut for a
sole dominating one, and the backward search otherwise. */
module StorageContent {
  import opened Options
  import opened Graphs
  import opened Budgets
  import opened ReachingWrites
  import opened Sites

  predicate At(fn: Function, s: Site) {
    s.block < |fn.blocks| && s.index < |fn.blocks[s.block].instrs|
  }

  function InstrAt(fn: Function, s: Site): Instr
    requires At(fn, s)
  {
    fn.blocks[s.block].instrs[s.index]
  }

  predicate IsWrite(fn: Function, s: Site) {
    At(fn, s) && (InstrAt(fn, s).Full? || InstrAt(fn, s).Partial?)
  }

  predicate IsAlloc(fn: Function, s: Site) {
    At(fn, s) && InstrAt(fn, s).Alloc?
  }

  /** The owning allocation is one instruction. */
  ghost predicate OneAlloc(fn: Function, alloc: Site) {
    IsAlloc(fn, alloc) && forall s | IsAlloc(fn, s) :: s == alloc
  }

  ghost predicate BlockDominates(fn: Function, a: nat, b: nat) {
    forall path | EntryPath(fn, path, b) :: a in path
  }

  /** In one block the earlier instruction dominates; across blocks, the block. */
  ghost predicate Dominates(fn: Function, a: Site, b: Site) {
    if a.block == b.block then a.index <= b.index else BlockDominates(fn, a.block, b.block)
  }

  // ---- Where the last thing happened ----------------------------------------

  function ScanAt(instrs: seq<Instr>, index: nat): (k: Option<nat>)
    requires index <= |instrs|
    ensures k.Some? ==> k.value < index && !instrs[k.value].Plain? && Scan(instrs, index) == Some(instrs[k.value])
    ensures k.None? <==> Scan(instrs, index).None?
    ensures forall j | (if k.Some? then k.value < j else 0 <= j) && j < index :: instrs[j].Plain?
  {
    if index == 0 then None
    else if !instrs[index - 1].Plain? then Some(index - 1)
    else ScanAt(instrs, index - 1)
  }

  /** The site of the last instruction that mattered on the path. */
  ghost function LastSite(fn: Function, path: seq<nat>, index: nat): (s: Option<Site>)
    requires Placed(fn, path, index)
    ensures s.Some? ==> At(fn, s.value) && LastBefore(fn, path, index) == Some(InstrAt(fn, s.value))
    ensures s.None? <==> LastBefore(fn, path, index).None?
    decreases |path|
  {
    var n := |path|;
    var k := ScanAt(fn.blocks[path[n - 1]].instrs, index);
    if k.Some? then Some(Site(path[n - 1], k.value))
    else if n == 1 then None
    else LastSite(fn, path[..n - 1], Length(fn, path[n - 2]))
  }

  /** If the site's block is the last on the path where anything matters, and
  the site is the last there, the site is where it last happened. */
  lemma {:induction false} LastSiteIs(fn: Function, path: seq<nat>, index: nat, j: nat, k: nat)
    requires Placed(fn, path, index) && j < |path|
    requires forall i | j < i < |path| :: Scan(fn.blocks[path[i]].instrs, IndexAt(fn, path, i, index)).None?
    requires IndexAt(fn, path, j, index) <= Length(fn, path[j])
    requires ScanAt(fn.blocks[path[j]].instrs, IndexAt(fn, path, j, index)) == Some(k)
    ensures LastSite(fn, path, index) == Some(Site(path[j], k))
    decreases |path|
  {
    var n := |path|;
    if j < n - 1 {
      var front := path[..n - 1];
      assert Scan(fn.blocks[path[n - 1]].instrs, IndexAt(fn, path, n - 1, index)).None?;
      forall i | j < i < n - 1 ensures Scan(fn.blocks[front[i]].instrs,
                                            IndexAt(fn, front, i, Length(fn, path[n - 2]))).None? {
        assert Scan(fn.blocks[path[i]].instrs, IndexAt(fn, path, i, index)).None?;
      }
      LastSiteIs(fn, front, Length(fn, path[n - 2]), j, k);
    }
  }

  // ---- The shortcut ---------------------------------------------------------

  lemma PathPart(fn: Function, path: seq<nat>, b: nat, k: nat)
    requires EntryPath(fn, path, b) && k < |path|
    ensures EntryPath(fn, path[..k + 1], path[k]) && PathFrom(Edge(fn), path[k..], path[k], b)
  {
    var rest := path[k..];
    forall i | 0 < i < |rest| ensures Edge(fn)(rest[i - 1], rest[i]) {
      assert rest[i] == path[k + i] && rest[i - 1] == path[k + i - 1];
    }
  }

  lemma {:induction false} FirstAt(path: seq<nat>, b: nat) returns (i: nat)
    requires b in path
    ensures i < |path| && path[i] == b && b !in path[..i]
    decreases |path|
  {
    if path[0] == b {
      i := 0;
    } else {
      assert path == [path[0]] + path[1..];
      var k := FirstAt(path[1..], b);
      i := k + 1;
      assert path[..i] == [path[0]] + path[1..][..k];
    }
  }

  lemma {:induction false} LastAt(path: seq<nat>, b: nat) returns (i: nat)
    requires b in path
    ensures i < |path| && path[i] == b && b !in path[i + 1..]
    decreases |path|
  {
    var n := |path|;
    if path[n - 1] == b {
      i := n - 1;
    } else {
      assert path == path[..n - 1] + [path[n - 1]];
      i := LastAt(path[..n - 1], b);
      assert path[i + 1..] == path[..n - 1][i + 1..] + [path[n - 1]];
    }
  }

  lemma DominatorEarlier(fn: Function, path: seq<nat>, a: nat, b: nat, end: nat, m: nat)
    requires BlockDominates(fn, a, b) && EntryPath(fn, path, end) && m < |path| && path[m] == b
    ensures exists x :: 0 <= x <= m && path[x] == a
  {
    PathPart(fn, path, end, m);
    assert a in path[..m + 1];
  }

  /** Up to the first pass through a dominator of b there is no b. */
  lemma NoneBefore(fn: Function, path: seq<nat>, a: nat, b: nat, end: nat, i: nat)
    requires a != b && BlockDominates(fn, a, b) && EntryPath(fn, path, end)
    requires i < |path| && path[i] == a && a !in path[..i]
    ensures b !in path[..i + 1]
  {
    assert forall x | 0 <= x < i :: path[x] in path[..i];
    forall m | 0 <= m <= i ensures path[m] != b {
      if path[m] == b {
        DominatorEarlier(fn, path, a, b, end, m);
      }
    }
  }

  /** The way to the first pass through a, and on from a later one. */
  lemma AroundPath(fn: Function, path: seq<nat>, a: nat, end: nat, i: nat, k: nat) returns (around: seq<nat>)
    requires EntryPath(fn, path, end) && i <= k < |path| && path[i] == a && path[k] == a
    ensures EntryPath(fn, around, end)
    ensures forall x | x in around :: x in path[..i + 1] || x in path[k + 1..]
  {
    PathPart(fn, path, end, i);
    PathPart(fn, path, end, k);
    around := path[..i + 1] + path[k..][1..];
    JoinPaths(Edge(fn), path[..i + 1], path[k..], 0, a, end);
    assert path[k..][1..] == path[k + 1..];
  }

  /** A pass through a dominator of b after the last pass through b gives a way
  to the end that avoids b. */
  lemma WayAround(fn: Function, path: seq<nat>, a: nat, b: nat, end: nat, j: nat, k: nat)
    requires a != b && BlockDominates(fn, a, b) && EntryPath(fn, path, end)
    requires j < k < |path| && path[k] == a && b !in path[j + 1..]
    ensures !BlockDominates(fn, b, end)
  {
    var i := FirstAt(path, a);
    assert forall x | 0 <= x < i :: path[x] in path[..i];
    NoneBefore(fn, path, a, b, end, i);
    var around := AroundPath(fn, path, a, end, i, k);
    assert path[k + 1..] == path[j + 1..][k - j..];
    assert b !in around;
  }

  lemma NoneAfter(fn: Function, path: seq<nat>, a: nat, b: nat, end: nat, j: nat, k: nat)
    requires a != b && BlockDominates(fn, a, b) && BlockDominates(fn, b, end)
    requires EntryPath(fn, path, end) && j < k < |path| && b !in path[j + 1..]
    ensures path[k] != a
  {
    if path[k] == a {
      WayAround(fn, path, a, b, end, j, k);
    }
  }

  /** What the shortcut has checked, and the allocation before the store. */
  ghost predicate SoleDominating(fn: Function, alloc: Site, store: Site, obs: Site) {
    && OneAlloc(fn, alloc) && IsWrite(fn, store) && (forall s | IsWrite(fn, s) :: s == store)
    && At(fn, obs) && store != obs && Dominates(fn, alloc, store) && Dominates(fn, store, obs)
  }

  /** Where nothing but the allocation and the store matters, a block with
  neither is plain. */
  lemma OthersPlain(fn: Function, alloc: Site, store: Site, obs: Site, block: nat, index: nat)
    requires SoleDominating(fn, alloc, store, obs) && InFunction(fn, block, index)
    ensures var k := ScanAt(fn.blocks[block].instrs, index);
            k.Some? ==> Site(block, k.value) == alloc || Site(block, k.value) == store
    ensures block == store.block && store.index < index ==> ScanAt(fn.blocks[block].instrs, index) == Some(store.index)
  {
    var k := ScanAt(fn.blocks[block].instrs, index);
    if k.Some? {
      var s := Site(block, k.value);
      assert IsAlloc(fn, s) || IsWrite(fn, s);
    }
  }

  /** On any control flow, cyclic or not, no path from a run of the allocation
  to the observation avoids a sole store that dominates it. */
  lemma SoleStoreReaches(fn: Function, alloc: Site, store: Site, obs: Site, path: seq<nat>)
    requires WellFormed(fn) && SoleDominating(fn, alloc, store, obs) && EntryPath(fn, path, obs.block)
    ensures LastSite(fn, path, obs.index) == Some(store)
  {
    var n := |path|;
    if store.block == obs.block {
      OthersPlain(fn, alloc, store, obs, obs.block, obs.index);
      LastSiteIs(fn, path, obs.index, n - 1, store.index);
    } else {
      assert store.block in path;
      var j := LastAt(path, store.block);
      forall i | j < i < n ensures Scan(fn.blocks[path[i]].instrs, IndexAt(fn, path, i, obs.index)).None? {
        assert path[i] in path[j + 1..];
        if alloc.block != store.block {
          NoneAfter(fn, path, alloc.block, store.block, obs.block, j, i);
        }
        OthersPlain(fn, alloc, store, obs, path[i], IndexAt(fn, path, i, obs.index));
      }
      OthersPlain(fn, alloc, store, obs, store.block, Length(fn, store.block));
      LastSiteIs(fn, path, obs.index, j, store.index);
    }
  }

  lemma SoleStoreHolds(fn: Function, meaning: Value -> int, alloc: Site, store: Site, obs: Site, value: Value)
    requires WellFormed(fn) && SoleDominating(fn, alloc, store, obs)
    requires InstrAt(fn, store).Full? && InstrAt(fn, store).projected == Some(value)
    ensures AlwaysHolds(fn, meaning, obs.block, obs.index, value)
  {
    forall path | EntryPath(fn, path, obs.block) ensures Holds(meaning, LastBefore(fn, path, obs.index), value) {
      SoleStoreReaches(fn, alloc, store, obs, path);
    }
  }

  // ---- The query ------------------------------------------------------------

  /** writes lists the writes of the function once each. */
  ghost predicate Listed(fn: Function, writes: seq<Site>) {
    && (forall i | 0 <= i < |writes| :: IsWrite(fn, writes[i])) && (forall s | IsWrite(fn, s) :: s in writes)
    && forall i, j | 0 <= i < j < |writes| :: writes[i] != writes[j]
  }

  /** The store is the only write, and covers the location. */
  ghost predicate SoleFull(fn: Function, store: Site) {
    IsWrite(fn, store) && InstrAt(fn, store).Full? && forall s | IsWrite(fn, s) :: s == store
  }

  ghost predicate SoleFullDominates(fn: Function, store: Site, obs: Site) {
    SoleFull(fn, store) && Dominates(fn, store, obs)
  }

  /** The value that reaches the observation: a sole full store that dominates it
  writes it, or else every backward walk meets a full write of it first. */
  ghost predicate ReachesObserved(fn: Function, meaning: Value -> int, obs: Site, value: Value)
    requires At(fn, obs)
  {
    if store :| SoleFullDominates(fn, store, obs) then Holds(meaning, Some(InstrAt(fn, store)), value)
    else AllWalksOk(fn, meaning, obs.block, obs.index, {}, value)
  }

  predicate Proves(answer: Answer, meaning: Value -> int, value: Value) {
    answer.Proven? && meaning(answer.value) == meaning(value)
  }

  /** With nothing cut short and an exact oracle, the answer proves exactly the
  values that reach the observation. */
  ghost predicate AnswersExactly(answer: Answer, fn: Function, meaning: Value -> int, obs: Site)
    requires At(fn, obs)
  {
    forall value :: Proves(answer, meaning, value) <==> ReachesObserved(fn, meaning, obs, value)
  }

  lemma SoleListed(fn: Function, writes: seq<Site>)
    requires Listed(fn, writes)
    ensures (|writes| == 1 && InstrAt(fn, writes[0]).Full?) <==> exists store :: SoleFull(fn, store)
    ensures forall store | SoleFull(fn, store) :: writes == [store]
  {
    forall store | SoleFull(fn, store) ensures writes == [store] {
      assert store in writes;
      assert forall i | 0 <= i < |writes| :: writes[i] == store;
      assert writes[0] == store && writes[|writes| - 1] == store;
    }
    if |writes| == 1 && InstrAt(fn, writes[0]).Full? {
      assert SoleFull(fn, writes[0]);
    }
  }

  lemma SoleReaches(fn: Function, meaning: Value -> int, store: Site, obs: Site, value: Value)
    requires At(fn, obs) && SoleFullDominates(fn, store, obs)
    ensures ReachesObserved(fn, meaning, obs, value) <==> Holds(meaning, Some(InstrAt(fn, store)), value)
  {
    forall other | SoleFullDominates(fn, other, obs) ensures other == store {
    }
  }

  lemma ShortcutAnswers(fn: Function, meaning: Value -> int, store: Site, obs: Site)
    requires At(fn, obs) && SoleFullDominates(fn, store, obs)
    ensures AnswersExactly(Projected(InstrAt(fn, store)), fn, meaning, obs)
  {
    forall value ensures Proves(Projected(InstrAt(fn, store)), meaning, value) <==>
                         ReachesObserved(fn, meaning, obs, value)
    {
      SoleReaches(fn, meaning, store, obs, value);
    }
  }

  lemma SearchAnswers(q: Query, meaning: Value -> int, obs: Site)
    requires WellFormed(q.fn) && Exact(q, meaning) && At(q.fn, obs)
    requires forall store :: !SoleFullDominates(q.fn, store, obs)
    ensures AnswersExactly(Search(q, obs.block, obs.index, {}), q.fn, meaning, obs)
  {
    forall value ensures Proves(Search(q, obs.block, obs.index, {}), meaning, value) <==>
                         ReachesObserved(q.fn, meaning, obs, value)
    {
      SearchExactly(q, meaning, obs.block, obs.index, value);
    }
  }

  /** The value all reaching writes agree on. tree is the dominator tree, and
  writes lists the stores that overlap the location. */
  method ReachingContent(q: Query, budget: SearchBudget, writes: seq<Site>, tree: (nat, nat) -> bool, obs: Site,
                         ghost alloc: Site, ghost meaning: Value -> int)
    returns (answer: Answer)
    requires WellFormed(q.fn) && Sound(q, meaning) && At(q.fn, obs) && OneAlloc(q.fn, alloc) && budget.Valid()
    requires Listed(q.fn, writes) && obs !in writes && forall s | s in writes :: Dominates(q.fn, alloc, s)
    requires forall a: nat, b: nat :: tree(a, b) <==> BlockDominates(q.fn, a, b)
    modifies budget
    ensures answer.Proven? ==> AlwaysHolds(q.fn, meaning, obs.block, obs.index, answer.value)
    ensures Exact(q, meaning) && !budget.exhausted ==> AnswersExactly(answer, q.fn, meaning, obs)
    ensures budget.Valid() && (old(budget.exhausted) ==> budget.exhausted)
  {
    var storage := new ReachingStorage(q, budget);
    SoleListed(q.fn, writes);
    if |writes| == 1 && InstrAt(q.fn, writes[0]).Full? {
      var store := writes[0];
      var ok := budget.SpendAll(if store.block == obs.block then store.index + obs.index + 2 else 1);
      if budget.exhausted {
        return Unknown(BudgetExhausted);
      }
      if (if store.block == obs.block then store.index <= obs.index else tree(store.block, obs.block)) {
        answer := storage.Project(InstrAt(q.fn, store));
        ShortcutAnswers(q.fn, meaning, store, obs);
        if answer.Proven? {
          SoleStoreHolds(q.fn, meaning, alloc, store, obs, answer.value);
        }
        return;
      }
    }
    var ok := budget.SpendAll(obs.index + 1);
    if !ok {
      return Unknown(BudgetExhausted);
    }
    answer := storage.Before(obs.block, obs.index);
    if answer.Proven? {
      SearchSound(q, meaning, obs.block, obs.index, {});
    }
    if Exact(q, meaning) {
      SearchAnswers(q, meaning, obs);
    }
  }
}
