/** Which stores a content query sees. It follows the uses of the cell's address
and passes over a use that the order test puts after the observation, with
everything beyond it. */
module StorageUses {
  import opened Options
  import opened Graphs
  import opened Budgets
  import opened ReachingWrites
  import opened StorageContent
  import opened Sites

  /** A use of an address: a store through it; an address computed from it, with
  the uses of that; one that leaves storage alone; or one the query cannot see
  through, with the sites where storage may change because of it. */
  datatype Use = Store(site: Site)
               | Derived(site: Site, uses: seq<Use>)
               | Harmless(site: Site)
               | Opaque(site: Site, writes: set<Site>)

  /** The order test: in one block, the textual order. */
  ghost predicate MayFollow(fn: Function, before: Site, after: Site) {
    if before.block == after.block then before.index <= after.index
    else ReachesOn(Edge(fn), before.block, after.block)
  }

  ghost predicate Seen(fn: Function, obs: Site, use: Site) {
    use != obs && MayFollow(fn, use, obs)
  }

  /** The stores reached through uses the query sees. */
  ghost function Stores(fn: Function, obs: Site, uses: seq<Use>): set<Site> {
    if uses == [] then {}
    else
      var use := uses[0];
      var here := if !Seen(fn, obs, use.site) then {}
                  else if use.Store? then {use.site}
                  else if use.Derived? then Stores(fn, obs, use.uses)
                  else {};
      here + Stores(fn, obs, uses[1..])
  }

  /** Among the uses the query sees is one it cannot see through. */
  ghost predicate Blocked(fn: Function, obs: Site, uses: seq<Use>) {
    uses != [] &&
    var use := uses[0];
    || (Seen(fn, obs, use.site) && (use.Opaque? || (use.Derived? && Blocked(fn, obs, use.uses))))
    || Blocked(fn, obs, uses[1..])
  }

  /** The walk over the uses. Where it ends early, the budget is gone or a use
  it sees is opaque; otherwise it has met exactly the stores it should. */
  method Collect(fn: Function, uses: seq<Use>, obs: Site, mayFollow: Site -> bool, cost: Site -> nat,
                 budget: SearchBudget)
    returns (stores: seq<Site>, ok: bool)
    requires budget.Valid() && forall s :: mayFollow(s) <==> MayFollow(fn, s, obs)
    modifies budget
    ensures budget.Valid() && (old(budget.exhausted) ==> budget.exhausted) && (!budget.bounded ==> !budget.exhausted)
    ensures ok ==> !Blocked(fn, obs, uses) && forall s :: s in stores <==> s in Stores(fn, obs, uses)
    ensures !ok ==> budget.exhausted || Blocked(fn, obs, uses)
    decreases uses
  {
    stores := [];
    for k := 0 to |uses|
      invariant budget.Valid() && (old(budget.exhausted) ==> budget.exhausted) &&
                (!budget.bounded ==> !budget.exhausted)
      invariant Blocked(fn, obs, uses) <==> Blocked(fn, obs, uses[k..])
      invariant forall s :: s in Stores(fn, obs, uses) <==> s in stores || s in Stores(fn, obs, uses[k..])
    {
      var use := uses[k];
      assert uses[k..][0] == use && uses[k..][1..] == uses[k + 1..];
      ok := budget.Spend();
      if !ok {
        return stores, false;
      }
      if use.site != obs {
        ok := budget.SpendAll(cost(use.site));
        if budget.exhausted {
          return stores, false;
        }
        if mayFollow(use.site) {
          if use.Opaque? {
            return stores, false;
          } else if use.Store? {
            stores := stores + [use.site];
          } else if use.Derived? {
            var beyond;
            beyond, ok := Collect(fn, use.uses, obs, mayFollow, cost, budget);
            if !ok {
              return stores, false;
            }
            stores := stores + beyond;
          }
        }
      }
    }
    ok := true;
  }

  // ---- What a collected store is --------------------------------------------

  /** The uses through which the address comes to a place where the cell is
  written, that place last. */
  ghost predicate Chain(uses: seq<Use>, chain: seq<Site>, w: Site)
    decreases |chain|
  {
    chain != [] && exists use | use in uses ::
      use.site == chain[0] &&
      if |chain| == 1 then use == Store(w) || (use.Opaque? && w in use.writes)
      else use.Derived? && Chain(use.uses, chain[1..], w)
  }

  ghost predicate AllSeen(fn: Function, obs: Site, chain: seq<Site>) {
    forall s | s in chain :: Seen(fn, obs, s)
  }

  lemma {:induction false} StoresBeyond(fn: Function, obs: Site, uses: seq<Use>, use: Use)
    requires use in uses && Seen(fn, obs, use.site)
    ensures use.Store? ==> use.site in Stores(fn, obs, uses)
    ensures use.Opaque? ==> Blocked(fn, obs, uses)
    ensures use.Derived? ==> Stores(fn, obs, use.uses) <= Stores(fn, obs, uses)
    ensures use.Derived? && Blocked(fn, obs, use.uses) ==> Blocked(fn, obs, uses)
  {
    if use != uses[0] {
      StoresBeyond(fn, obs, uses[1..], use);
    }
  }

  /** A store whose every use on the way is seen is collected. */
  lemma {:induction false} SeenCollected(fn: Function, obs: Site, uses: seq<Use>, chain: seq<Site>, w: Site)
    requires Chain(uses, chain, w) && AllSeen(fn, obs, chain) && !Blocked(fn, obs, uses)
    ensures w in Stores(fn, obs, uses)
    decreases |chain|
  {
    var use :| use in uses && use.site == chain[0] &&
               if |chain| == 1 then use == Store(w) || (use.Opaque? && w in use.writes)
               else use.Derived? && Chain(use.uses, chain[1..], w);
    assert Seen(fn, obs, chain[0]);
    StoresBeyond(fn, obs, uses, use);
    if |chain| > 1 {
      SeenCollected(fn, obs, use.uses, chain[1..], w);
    }
  }

  lemma {:induction false} CollectedSeen(fn: Function, obs: Site, uses: seq<Use>, w: Site) returns (chain: seq<Site>)
    requires w in Stores(fn, obs, uses)
    ensures Chain(uses, chain, w) && AllSeen(fn, obs, chain)
    decreases uses
  {
    var use := uses[0];
    if w in Stores(fn, obs, uses[1..]) {
      chain := CollectedSeen(fn, obs, uses[1..], w);
    } else if use.Store? {
      chain := [w];
    } else {
      var beyond := CollectedSeen(fn, obs, use.uses, w);
      chain := [use.site] + beyond;
      assert chain[1..] == beyond;
    }
  }

  /** What the walk collects: the stores with a way to them that is all seen. */
  lemma CollectedExactly(fn: Function, obs: Site, uses: seq<Use>, w: Site)
    requires !Blocked(fn, obs, uses)
    ensures w in Stores(fn, obs, uses) <==> exists chain :: Chain(uses, chain, w) && AllSeen(fn, obs, chain)
  {
    if w in Stores(fn, obs, uses) {
      var chain := CollectedSeen(fn, obs, uses, w);
    }
    if chain :| Chain(uses, chain, w) && AllSeen(fn, obs, chain) {
      SeenCollected(fn, obs, uses, chain, w);
    }
  }

  // ---- Where a path last touched the cell -----------------------------------

  /** Nothing happens on the path after the position. */
  ghost predicate Quiet(fn: Function, path: seq<nat>, index: nat, j: nat, k: int)
    requires Placed(fn, path, index)
  {
    forall i: nat, x: nat | j <= i < |path| && (i == j ==> k < x) && x < IndexAt(fn, path, i, index) ::
      fn.blocks[path[i]].instrs[x].Plain?
  }

  /** The position is where something last happened on the path. */
  ghost predicate Ends(fn: Function, path: seq<nat>, index: nat, j: nat, k: nat)
    requires Placed(fn, path, index)
  {
    && j < |path| && k < IndexAt(fn, path, j, index)
    && !fn.blocks[path[j]].instrs[k].Plain?
    && Quiet(fn, path, index, j, k)
  }

  lemma EndsLast(fn: Function, path: seq<nat>, index: nat, j: nat, k: nat)
    requires Placed(fn, path, index) && Ends(fn, path, index, j, k)
    ensures LastSite(fn, path, index) == Some(Site(path[j], k))
  {
    forall i | j < i < |path| ensures Scan(fn.blocks[path[i]].instrs, IndexAt(fn, path, i, index)).None? {
      var found := ScanAt(fn.blocks[path[i]].instrs, IndexAt(fn, path, i, index));
    }
    var found := ScanAt(fn.blocks[path[j]].instrs, IndexAt(fn, path, j, index));
    LastSiteIs(fn, path, index, j, k);
  }

  lemma {:induction false} LastEnds(fn: Function, path: seq<nat>, index: nat) returns (j: nat, k: nat)
    requires Placed(fn, path, index) && LastSite(fn, path, index).Some?
    ensures Ends(fn, path, index, j, k) && LastSite(fn, path, index) == Some(Site(path[j], k))
    decreases |path|
  {
    var n := |path|;
    var found := ScanAt(fn.blocks[path[n - 1]].instrs, index);
    if found.Some? {
      j, k := n - 1, found.value;
    } else {
      var front, end := path[..n - 1], Length(fn, path[n - 2]);
      j, k := LastEnds(fn, front, end);
      forall i: nat, x: nat | j <= i < n && (i == j ==> k < x) && x < IndexAt(fn, path, i, index)
        ensures fn.blocks[path[i]].instrs[x].Plain?
      {
        if i < n - 1 {
          assert front[i] == path[i] && IndexAt(fn, front, i, end) == IndexAt(fn, path, i, index);
        }
      }
    }
  }

  /** Where something happened on a path, something last happened, there or
  later. */
  lemma {:induction false} LastAfter(fn: Function, path: seq<nat>, index: nat, m: nat, x: nat) returns (j: nat, k: nat)
    requires Placed(fn, path, index) && m < |path| && x < IndexAt(fn, path, m, index)
    requires !fn.blocks[path[m]].instrs[x].Plain?
    ensures Ends(fn, path, index, j, k) && LastSite(fn, path, index) == Some(Site(path[j], k))
    ensures m < j || (m == j && x <= k)
    decreases |path|
  {
    var n := |path|;
    var found := ScanAt(fn.blocks[path[n - 1]].instrs, index);
    if found.None? {
      var front := path[..n - 1];
      assert front[m] == path[m];
      var j', k' := LastAfter(fn, front, Length(fn, path[n - 2]), m, x);
    }
    j, k := LastEnds(fn, path, index);
    assert Quiet(fn, path, index, j, k);
  }

  // ---- The function as the query sees it ------------------------------------

  /** A write that was not collected is plain. */
  function Selected(fn: Function, stores: set<Site>): (r: Function)
    ensures |r.blocks| == |fn.blocks|
    ensures forall b | 0 <= b < |fn.blocks| ::
              r.blocks[b].preds == fn.blocks[b].preds && |r.blocks[b].instrs| == |fn.blocks[b].instrs|
    ensures forall b: nat, i: nat | b < |fn.blocks| && i < |fn.blocks[b].instrs| ::
              r.blocks[b].instrs[i] == if LeftOut(fn, stores, Site(b, i)) then Plain else fn.blocks[b].instrs[i]
  {
    Function(seq(|fn.blocks|, b requires 0 <= b < |fn.blocks| =>
      Block(seq(|fn.blocks[b].instrs|, i requires 0 <= i < |fn.blocks[b].instrs| =>
              if LeftOut(fn, stores, Site(b, i)) then Plain else fn.blocks[b].instrs[i]),
            fn.blocks[b].preds)))
  }

  predicate LeftOut(fn: Function, stores: set<Site>, w: Site) {
    IsWrite(fn, w) && w !in stores
  }

  lemma SelectedPaths(fn: Function, stores: set<Site>, path: seq<nat>, a: nat, b: nat)
    ensures PathFrom(Edge(Selected(fn, stores)), path, a, b) <==> PathFrom(Edge(fn), path, a, b)
  {
    var r := Selected(fn, stores);
    forall x: nat, y: nat ensures Edge(r)(x, y) <==> Edge(fn)(x, y) {
    }
  }

  /** A write left out reaches the observation: control comes to it, and a way
  on from it is quiet. */
  ghost predicate Exposed(fn: Function, stores: set<Site>, obs: Site, w: Site)
    requires At(fn, obs)
  {
    && LeftOut(fn, stores, w)
    && (exists into :: EntryPath(fn, into, w.block))
    && exists way :: QuietWay(fn, way, w, obs)
  }

  ghost predicate QuietWay(fn: Function, way: seq<nat>, w: Site, obs: Site)
    requires At(fn, w) && At(fn, obs)
  {
    && PathFrom(Edge(fn), way, w.block, obs.block) && (forall i | 0 <= i < |way| :: way[i] < |fn.blocks|)
    && Ends(fn, way, obs.index, 0, w.index)
  }

  lemma PathAcross(fn: Function, into: seq<nat>, way: seq<nat>, a: nat, b: nat) returns (path: seq<nat>)
    requires EntryPath(fn, into, a)
    requires PathFrom(Edge(fn), way, a, b) && forall i | 0 <= i < |way| :: way[i] < |fn.blocks|
    ensures EntryPath(fn, path, b) && path == into + way[1..] && path[|into| - 1..] == way
  {
    JoinPaths(Edge(fn), into, way, 0, a, b);
    path := into + way[1..];
    assert path[|into| - 1..] == way;
  }

  /** The end of a path is judged by its last part. */
  lemma EndsPart(fn: Function, path: seq<nat>, index: nat, m: nat, j: nat, k: nat)
    requires Placed(fn, path, index) && m <= j < |path|
    ensures Placed(fn, path[m..], index)
    ensures Ends(fn, path, index, j, k) <==> Ends(fn, path[m..], index, j - m, k)
  {
    var part := path[m..];
    forall i | m <= i < |path| ensures part[i - m] == path[i] &&
      IndexAt(fn, part, i - m, index) == IndexAt(fn, path, i, index) {
    }
    if Ends(fn, path, index, j, k) {
      forall i: nat, x: nat | j - m <= i < |part| && (i == j - m ==> k < x) && x < IndexAt(fn, part, i, index)
        ensures fn.blocks[part[i]].instrs[x].Plain?
      {
        assert part[i] == path[i + m];
      }
    }
    if Ends(fn, part, index, j - m, k) {
      forall i: nat, x: nat | j <= i < |path| && (i == j ==> k < x) && x < IndexAt(fn, path, i, index)
        ensures fn.blocks[path[i]].instrs[x].Plain?
      {
        assert part[i - m] == path[i];
      }
    }
  }

  lemma ExposedLast(fn: Function, stores: set<Site>, obs: Site, w: Site) returns (path: seq<nat>)
    requires At(fn, obs) && Exposed(fn, stores, obs, w)
    ensures EntryPath(fn, path, obs.block) && LastSite(fn, path, obs.index) == Some(w)
  {
    var into :| EntryPath(fn, into, w.block);
    var way :| QuietWay(fn, way, w, obs);
    path := PathAcross(fn, into, way, w.block, obs.block);
    EndsPart(fn, path, obs.index, |into| - 1, |into| - 1, w.index);
    EndsLast(fn, path, obs.index, |into| - 1, w.index);
  }

  /** What last happened on a path is a write left out, and then it is exposed,
  or it is what the query sees as last. */
  lemma LastSeenOrExposed(fn: Function, stores: set<Site>, obs: Site, path: seq<nat>)
    requires At(fn, obs) && EntryPath(fn, path, obs.block) && LastSite(Selected(fn, stores), path, obs.index).Some?
    ensures LastSite(fn, path, obs.index).Some?
    ensures var w := LastSite(fn, path, obs.index).value;
            if LeftOut(fn, stores, w) then Exposed(fn, stores, obs, w)
            else
              LastSite(Selected(fn, stores), path, obs.index) == Some(w) &&
              InstrAt(Selected(fn, stores), w) == InstrAt(fn, w)
  {
    var r := Selected(fn, stores);
    var j', k' := LastEnds(r, path, obs.index);
    var j, k := LastAfter(fn, path, obs.index, j', k');
    var w := Site(path[j], k);
    if LeftOut(fn, stores, w) {
      PathPart(fn, path, obs.block, j);
      EndsPart(fn, path, obs.index, j, j, k);
      assert QuietWay(fn, path[j..], w, obs);
    } else {
      assert Ends(r, path, obs.index, j, k);
      EndsLast(r, path, obs.index, j, k);
    }
  }

  /** On every path the cell holds the value exactly when every exposed write is
  a full write of it. */
  ghost predicate RightUnlessExposed(fn: Function, stores: set<Site>, meaning: Value -> int, obs: Site, value: Value)
    requires At(fn, obs)
  {
    AlwaysHolds(fn, meaning, obs.block, obs.index, value) <==>
    forall w | Exposed(fn, stores, obs, w) :: Holds(meaning, Some(InstrAt(fn, w)), value)
  }

  /** An answer right for the function as the query sees it is right for the
  function exactly when every exposed write is a full write of it too. */
  lemma RightExactly(fn: Function, stores: set<Site>, meaning: Value -> int, obs: Site, value: Value)
    requires At(fn, obs) && AlwaysHolds(Selected(fn, stores), meaning, obs.block, obs.index, value)
    ensures RightUnlessExposed(fn, stores, meaning, obs, value)
  {
    var r := Selected(fn, stores);
    if AlwaysHolds(fn, meaning, obs.block, obs.index, value) {
      forall w | Exposed(fn, stores, obs, w) ensures Holds(meaning, Some(InstrAt(fn, w)), value) {
        var path := ExposedLast(fn, stores, obs, w);
      }
    }
    if forall w | Exposed(fn, stores, obs, w) :: Holds(meaning, Some(InstrAt(fn, w)), value) {
      forall path | EntryPath(fn, path, obs.block) ensures Holds(meaning, LastBefore(fn, path, obs.index), value) {
        SelectedPaths(fn, stores, path, 0, obs.block);
        assert EntryPath(r, path, obs.block);
        assert Holds(meaning, LastBefore(r, path, obs.index), value);
        LastSeenOrExposed(fn, stores, obs, path);
      }
    }
  }

  // ---- Which writes can be exposed ------------------------------------------

  /** A write left out has on every way to it a use that is not seen; where the
  uses on a way dominate the write, an exposed one was reached through a use at
  or after the observation in the observation's own block. */
  lemma ExposedLate(fn: Function, obs: Site, uses: seq<Use>, chain: seq<Site>, w: Site)
    requires At(fn, obs) && !Blocked(fn, obs, uses) && Exposed(fn, Stores(fn, obs, uses), obs, w)
    requires Chain(uses, chain, w) && forall s | s in chain :: Dominates(fn, s, w)
    ensures exists s :: s in chain && Late(obs, s)
  {
    if AllSeen(fn, obs, chain) {
      SeenCollected(fn, obs, uses, chain, w);
    }
    var s :| s in chain && !Seen(fn, obs, s);
    if s.block != obs.block {
      UseReaches(fn, obs, Stores(fn, obs, uses), s, w);
    }
  }

  ghost predicate Late(obs: Site, use: Site) {
    use.block == obs.block && use.index >= obs.index
  }

  /** Every write is reached by uses of the address that dominate it. */
  ghost predicate Traced(fn: Function, uses: seq<Use>) {
    forall w | IsWrite(fn, w) :: exists chain :: Chain(uses, chain, w) && forall s | s in chain :: Dominates(fn, s, w)
  }

  /** Where no use on the way to a write is late, the answer is right. */
  lemma RightWithoutLateUse(fn: Function, obs: Site, uses: seq<Use>, meaning: Value -> int, value: Value)
    requires At(fn, obs) && !Blocked(fn, obs, uses) && Traced(fn, uses)
    requires forall w, chain | Chain(uses, chain, w) :: forall s | s in chain :: !Late(obs, s)
    requires AlwaysHolds(Selected(fn, Stores(fn, obs, uses)), meaning, obs.block, obs.index, value)
    ensures AlwaysHolds(fn, meaning, obs.block, obs.index, value)
  {
    var stores := Stores(fn, obs, uses);
    forall w ensures !Exposed(fn, stores, obs, w) {
      if Exposed(fn, stores, obs, w) {
        var chain :| Chain(uses, chain, w) && forall s | s in chain :: Dominates(fn, s, w);
        ExposedLate(fn, obs, uses, chain, w);
      }
    }
    RightExactly(fn, stores, meaning, obs, value);
  }

  lemma UseReaches(fn: Function, obs: Site, stores: set<Site>, s: Site, w: Site)
    requires At(fn, obs) && Exposed(fn, stores, obs, w) && Dominates(fn, s, w) && s.block != obs.block
    ensures ReachesOn(Edge(fn), s.block, obs.block)
  {
    var into :| EntryPath(fn, into, w.block);
    var way :| QuietWay(fn, way, w, obs);
    if s.block == w.block {
      assert PathFrom(Edge(fn), way, s.block, obs.block) && |way| > 1;
    } else {
      assert s.block in into;
      var i :| 0 <= i < |into| && into[i] == s.block;
      PathPart(fn, into, w.block, i);
      assert ReachesOn(Edge(fn), s.block, w.block);
      ReachesTransitive(Edge(fn), s.block, w.block, obs.block);
    }
  }

  /** A walk back over nothing to a block it must not come to is not clean. */
  lemma {:induction false} NotClean(fn: Function, meaning: Value -> int, path: seq<nat>, index: nat, m: nat,
                                    avoid: set<nat>, value: Value)
    requires Placed(fn, path, index) && m < |path|
    requires path[m] in avoid || (m < |path| - 1 && path[m] == path[|path| - 1])
    requires forall i | m < i < |path| :: Scan(fn.blocks[path[i]].instrs, IndexAt(fn, path, i, index)).None?
    ensures !Clean(fn, meaning, path, index, avoid, value)
    decreases |path|
  {
    var n := |path|;
    if m < n - 1 {
      var front, end := path[..n - 1], Length(fn, path[n - 2]);
      assert Scan(fn.blocks[path[n - 1]].instrs, IndexAt(fn, path, n - 1, index)).None?;
      forall i | m < i < n - 1 ensures Scan(fn.blocks[front[i]].instrs, IndexAt(fn, front, i, end)).None? {
        assert Scan(fn.blocks[path[i]].instrs, IndexAt(fn, path, i, index)).None?;
      }
      NotClean(fn, meaning, front, end, m, avoid + {path[n - 1]}, value);
    }
  }

  lemma QuietAsSeen(fn: Function, stores: set<Site>, path: seq<nat>, index: nat, j: nat, k: nat)
    requires Placed(fn, path, index) && Ends(fn, path, index, j, k)
    ensures var r := Selected(fn, stores);
            forall i | j < i < |path| :: Scan(r.blocks[path[i]].instrs, IndexAt(r, path, i, index)).None?
  {
    var r := Selected(fn, stores);
    forall i | j < i < |path| ensures Scan(r.blocks[path[i]].instrs, IndexAt(r, path, i, index)).None? {
      var found := ScanAt(r.blocks[path[i]].instrs, IndexAt(r, path, i, index));
    }
  }

  /** When the search has proved a value, an exposed write is not after the
  observation in its block: the search would have come to the block twice. */
  lemma ExposedElsewhere(q: Query, meaning: Value -> int, fn: Function, stores: set<Site>, obs: Site, w: Site)
    requires Sound(q, meaning) && At(fn, obs) && q.fn == Selected(fn, stores) && WellFormed(q.fn)
    requires Search(q, obs.block, obs.index, {}).Proven? && Exposed(fn, stores, obs, w)
    ensures w.block != obs.block || w.index < obs.index
  {
    if w.block == obs.block && w.index >= obs.index {
      var path, m := ExposedTwice(fn, stores, obs, w);
      SelectedPaths(fn, stores, path, 0, obs.block);
      assert EntryPath(q.fn, path, obs.block);
      SearchClean(q, meaning, obs.block, obs.index, {}, path);
      QuietAsSeen(fn, stores, path, obs.index, m, w.index);
      NotClean(q.fn, meaning, path, obs.index, m, {}, Search(q, obs.block, obs.index, {}).value);
    }
  }

  /** A path that comes to the observation's block at a write behind it, and again. */
  lemma ExposedTwice(fn: Function, stores: set<Site>, obs: Site, w: Site) returns (path: seq<nat>, m: nat)
    requires At(fn, obs) && Exposed(fn, stores, obs, w) && w.block == obs.block && w.index >= obs.index
    ensures EntryPath(fn, path, obs.block) && m < |path| - 1 && path[m] == obs.block
    ensures Ends(fn, path, obs.index, m, w.index)
  {
    var into :| EntryPath(fn, into, w.block);
    var way :| QuietWay(fn, way, w, obs);
    path := PathAcross(fn, into, way, w.block, obs.block);
    m := |into| - 1;
    EndsPart(fn, path, obs.index, m, m, w.index);
  }

  // ---- The shortcut and the writes left out ---------------------------------

  /** On every path the shortcut's store is the last thing that happened. */
  ghost predicate StoreReaches(fn: Function, store: Site, obs: Site)
    requires At(fn, obs)
  {
    forall path | EntryPath(fn, path, obs.block) :: LastSite(fn, path, obs.index) == Some(store)
  }

  /** What the shortcut has checked of the function as the query sees it. */
  ghost predicate ShortcutTaken(fn: Function, stores: set<Site>, alloc: Site, store: Site, obs: Site) {
    WellFormed(fn) && At(fn, obs) && SoleDominating(Selected(fn, stores), alloc, store, obs)
  }

  /** A way from the write to the observation that does not run the store. */
  ghost predicate WayRound(fn: Function, way: seq<nat>, w: Site, store: Site, obs: Site) {
    && PathFrom(Edge(fn), way, w.block, obs.block) && (forall i | 0 <= i < |way| :: way[i] < |fn.blocks|)
    && (|way| == 1 ==> w.index < obs.index)
    && store.block !in way[1..] && (w.block == store.block ==> store.index < w.index)
  }

  /** Control comes to the write and on to the observation round the store. */
  ghost predicate ComesRound(fn: Function, w: Site, store: Site, obs: Site) {
    (exists into :: EntryPath(fn, into, w.block)) && exists way :: WayRound(fn, way, w, store, obs)
  }

  lemma RoundNotLast(fn: Function, stores: set<Site>, w: Site, store: Site, obs: Site)
    requires At(fn, obs) && LeftOut(fn, stores, w) && ComesRound(fn, w, store, obs)
    ensures !StoreReaches(fn, store, obs)
  {
    var into :| EntryPath(fn, into, w.block);
    var way :| WayRound(fn, way, w, store, obs);
    var path := PathAcross(fn, into, way, w.block, obs.block);
    var m := |into| - 1;
    assert path[m] == w.block;
    var j, k := LastAfter(fn, path, obs.index, m, w.index);
    if j > m {
      assert path[j] == path[m..][j - m] == way[1..][j - m - 1];
    }
    assert Site(path[j], k) != store;
  }

  /** As the query sees it, nothing happens after the store's last run, so no
  later block on the path has the store ahead of the observation. */
  lemma StoreNotAgain(r: Function, path: seq<nat>, index: nat, j: nat, k: nat, store: Site, i: nat)
    requires Placed(r, path, index) && IsWrite(r, store) && Ends(r, path, index, j, k) && j < i < |path|
    requires path[i] == store.block
    ensures i == |path| - 1 && index <= store.index
  {
    assert store.index >= IndexAt(r, path, i, index);
  }

  /** What comes last on a path, if not the store, comes round it. */
  lemma LastComesRound(fn: Function, stores: set<Site>, alloc: Site, store: Site, obs: Site, path: seq<nat>)
    returns (w: Site)
    requires ShortcutTaken(fn, stores, alloc, store, obs) && EntryPath(fn, path, obs.block)
    ensures LastSite(fn, path, obs.index) == Some(w)
    ensures w != store ==> LeftOut(fn, stores, w) && ComesRound(fn, w, store, obs)
  {
    var j', k' := SeenLast(fn, stores, alloc, store, obs, path);
    var j, k := LastAfter(fn, path, obs.index, j', k');
    w := Site(path[j], k);
    if w != store {
      LaterLeftOut(fn, stores, path, obs.index, j', k', j, k);
      PathPart(fn, path, obs.block, j);
      RoundTheStore(fn, stores, alloc, store, obs, path, j', k', j, k);
    }
  }

  /** As the query sees it the store comes last. */
  lemma SeenLast(fn: Function, stores: set<Site>, alloc: Site, store: Site, obs: Site, path: seq<nat>)
    returns (j: nat, k: nat)
    requires ShortcutTaken(fn, stores, alloc, store, obs) && EntryPath(fn, path, obs.block)
    ensures Ends(Selected(fn, stores), path, obs.index, j, k) && Site(path[j], k) == store
    ensures k < IndexAt(fn, path, j, obs.index) && !fn.blocks[path[j]].instrs[k].Plain?
  {
    var r := Selected(fn, stores);
    SelectedPaths(fn, stores, path, 0, obs.block);
    assert EntryPath(r, path, obs.block);
    SoleStoreReaches(r, alloc, store, obs, path);
    j, k := LastEnds(r, path, obs.index);
  }

  /** What happens after the query's last is a write it left out. */
  lemma LaterLeftOut(fn: Function, stores: set<Site>, path: seq<nat>, index: nat, j': nat, k': nat, j: nat, k: nat)
    requires Placed(fn, path, index) && Ends(Selected(fn, stores), path, index, j', k') && Ends(fn, path, index, j, k)
    requires j' < j || (j' == j && k' < k)
    ensures LeftOut(fn, stores, Site(path[j], k))
  {
    var r := Selected(fn, stores);
    assert r.blocks[path[j]].instrs[k].Plain?;
  }

  lemma RoundTheStore(fn: Function, stores: set<Site>, alloc: Site, store: Site, obs: Site, path: seq<nat>,
                      j': nat, k': nat, j: nat, k: nat)
    requires ShortcutTaken(fn, stores, alloc, store, obs) && EntryPath(fn, path, obs.block)
    requires Ends(Selected(fn, stores), path, obs.index, j', k') && Site(path[j'], k') == store
    requires j < |path| && k < IndexAt(fn, path, j, obs.index) && (j' < j || (j' == j && k' < k))
    ensures WayRound(fn, path[j..], Site(path[j], k), store, obs)
  {
    var r, way := Selected(fn, stores), path[j..];
    PathPart(fn, path, obs.block, j);
    assert store.block == obs.block ==> store.index < obs.index;
    forall i | 0 < i < |way| ensures way[i] != store.block {
      if way[i] == store.block {
        StoreNotAgain(r, path, obs.index, j', k', store, j + i);
      }
    }
    if path[j] == store.block && j' < j {
      StoreNotAgain(r, path, obs.index, j', k', store, j);
    }
  }

  /** The shortcut's store is the last thing that happened, on every path to
  the observation, exactly when no write left out comes round the store to it. */
  lemma ShortcutExactly(fn: Function, stores: set<Site>, alloc: Site, store: Site, obs: Site)
    requires ShortcutTaken(fn, stores, alloc, store, obs)
    ensures StoreReaches(fn, store, obs) <==> forall w | LeftOut(fn, stores, w) :: !ComesRound(fn, w, store, obs)
  {
    if StoreReaches(fn, store, obs) {
      forall w | LeftOut(fn, stores, w) ensures !ComesRound(fn, w, store, obs) {
        if ComesRound(fn, w, store, obs) {
          RoundNotLast(fn, stores, w, store, obs);
        }
      }
    } else {
      var path :| EntryPath(fn, path, obs.block) && LastSite(fn, path, obs.index) != Some(store);
      var w := LastComesRound(fn, stores, alloc, store, obs, path);
    }
  }

  // ---- The query ------------------------------------------------------------

  lemma SelectedFits(fn: Function, stores: set<Site>, alloc: Site)
    requires WellFormed(fn) && OneAlloc(fn, alloc)
    ensures var r := Selected(fn, stores);
            && WellFormed(r) && OneAlloc(r, alloc)
            && (forall s :: IsWrite(r, s) <==> IsWrite(fn, s) && s in stores)
            && (forall a: nat, b: nat :: BlockDominates(r, a, b) <==> BlockDominates(fn, a, b))
  {
    var r := Selected(fn, stores);
    forall a: nat, b: nat ensures BlockDominates(r, a, b) <==> BlockDominates(fn, a, b) {
      forall path ensures EntryPath(r, path, b) <==> EntryPath(fn, path, b) {
        SelectedPaths(fn, stores, path, 0, b);
      }
    }
    forall s ensures IsWrite(r, s) <==> IsWrite(fn, s) && s in stores {
      assert At(fn, s) ==> r.blocks[s.block].instrs[s.index] == InstrAt(r, s);
    }
    forall s | IsAlloc(r, s) ensures IsAlloc(fn, s) {
      assert r.blocks[s.block].instrs[s.index] == InstrAt(r, s);
    }
  }

  lemma {:induction false} StoresSeen(fn: Function, obs: Site, uses: seq<Use>, s: Site)
    requires s in Stores(fn, obs, uses)
    ensures Seen(fn, obs, s)
    decreases uses
  {
    if s in Stores(fn, obs, uses[1..]) {
      StoresSeen(fn, obs, uses[1..], s);
    } else if uses[0].Derived? {
      StoresSeen(fn, obs, uses[0].uses, s);
    }
  }

  /** The function as the query sees it, and the writes it lists, are what the
  search asks for. */
  lemma SeenFits(fn: Function, obs: Site, uses: seq<Use>, alloc: Site, writes: seq<Site>)
    requires WellFormed(fn) && At(fn, obs) && OneAlloc(fn, alloc)
    requires forall s | IsWrite(fn, s) :: Dominates(fn, alloc, s)
    requires forall s :: s in writes <==> s in Stores(fn, obs, uses) && IsWrite(fn, s)
    requires forall i, j | 0 <= i < j < |writes| :: writes[i] != writes[j]
    ensures var r := Selected(fn, Stores(fn, obs, uses));
            && WellFormed(r) && At(r, obs) && OneAlloc(r, alloc) && Listed(r, writes) && obs !in writes
            && (forall s | s in writes :: Dominates(r, alloc, s))
            && (forall a: nat, b: nat :: BlockDominates(r, a, b) <==> BlockDominates(fn, a, b))
  {
    SelectedFits(fn, Stores(fn, obs, uses), alloc);
    if obs in Stores(fn, obs, uses) {
      StoresSeen(fn, obs, uses, obs);
    }
  }

  /** The address of every store resolves. */
  predicate AllLocated(located: Site -> bool, stores: set<Site>) {
    forall s | s in stores :: located(s)
  }

  /** Of the collected stores, those that overlap the location, if every store's
  address resolves. */
  method Relevant(fn: Function, collected: seq<Site>, located: Site -> bool, cost: Site -> nat, budget: SearchBudget)
    returns (writes: seq<Site>, ok: bool)
    requires budget.Valid()
    modifies budget
    ensures budget.Valid() && (old(budget.exhausted) ==> budget.exhausted)
    ensures ok ==> forall s :: s in writes <==> s in collected && IsWrite(fn, s)
    ensures ok ==> forall i, j | 0 <= i < j < |writes| :: writes[i] != writes[j]
    ensures ok ==> AllLocated(located, set s | s in collected)
    ensures !ok ==> budget.exhausted || !AllLocated(located, set s | s in collected)
  {
    writes := [];
    for k := 0 to |collected|
      invariant budget.Valid() && (old(budget.exhausted) ==> budget.exhausted)
      invariant forall s :: s in writes <==> s in collected[..k] && IsWrite(fn, s)
      invariant forall i, j | 0 <= i < j < |writes| :: writes[i] != writes[j]
      invariant forall s | s in collected[..k] :: located(s)
    {
      assert collected[..k + 1] == collected[..k] + [collected[k]];
      ok := budget.SpendAll(cost(collected[k]));
      if !ok || !located(collected[k]) {
        return writes, false;
      }
      if IsWrite(fn, collected[k]) && collected[k] !in writes {
        writes := writes + [collected[k]];
      }
    }
    assert collected[..|collected|] == collected;
    ok := true;
  }

  /** The value the cell holds at the observation. Given the uses of its
  address, an answer is right exactly when every write that is left out and
  exposed writes the value too; and while the budget lasts, the answer proves
  exactly what reaches the observation by the stores the query sees, if it sees
  through every use and every store's address resolves. located tells which
  addresses resolve; tree is the dominator tree. */
  method Content(q: Query, uses: seq<Use>, obs: Site, located: Site -> bool, mayFollow: Site -> bool,
                 cost: Site -> nat, tree: (nat, nat) -> bool, budget: SearchBudget,
                 ghost alloc: Site, ghost meaning: Value -> int)
    returns (answer: Answer)
    requires WellFormed(q.fn) && Sound(q, meaning) && At(q.fn, obs) && budget.Valid()
    requires OneAlloc(q.fn, alloc) && forall s | IsWrite(q.fn, s) :: Dominates(q.fn, alloc, s)
    requires forall s :: mayFollow(s) <==> MayFollow(q.fn, s, obs)
    requires forall a: nat, b: nat :: tree(a, b) <==> BlockDominates(q.fn, a, b)
    modifies budget
    ensures budget.Valid() && (old(budget.exhausted) ==> budget.exhausted)
    ensures answer.Proven? ==> !Blocked(q.fn, obs, uses)
    ensures answer.Proven? ==> RightUnlessExposed(q.fn, Stores(q.fn, obs, uses), meaning, obs, answer.value)
    ensures !budget.exhausted ==>
              if Blocked(q.fn, obs, uses) then answer == Unknown(AddressEscapes)
              else if !AllLocated(located, Stores(q.fn, obs, uses)) then answer == Unknown(WriteThroughAlias)
              else Exact(q, meaning) ==> AnswersExactly(answer, Selected(q.fn, Stores(q.fn, obs, uses)), meaning, obs)
  {
    var collected, ok := Collect(q.fn, uses, obs, mayFollow, cost, budget);
    if !ok {
      return Unknown(if budget.exhausted then BudgetExhausted else AddressEscapes);
    }
    var stores := set s | s in collected;
    assert stores == Stores(q.fn, obs, uses);
    var writes;
    writes, ok := Relevant(q.fn, collected, located, cost, budget);
    if !ok {
      return Unknown(if budget.exhausted then BudgetExhausted else WriteThroughAlias);
    }
    SeenFits(q.fn, obs, uses, alloc, writes);
    answer := ReachingContent(q.(fn := Selected(q.fn, stores)), budget, writes, tree, obs, alloc, meaning);
    if answer.Proven? {
      RightExactly(q.fn, stores, meaning, obs, answer.value);
    }
  }

  // ---- Three loops the query is wrong about ---------------------------------

  /** A cell is set to 1 and then read at the head of a loop. */
  function Loop(head: seq<Instr>, tail: seq<Instr>): Function {
    Function([Block([Alloc, Full(Some(1), 0)], []), Block(head, [0, 2]), Block(tail, [1])])
  }

  const READ := Site(1, 0)

  const INIT := Site(0, 1)

  const TWO := Full(Some(2), 0)

  lemma LoopOrder(head: seq<Instr>, tail: seq<Instr>, s: Site)
    ensures s.block == 0 || s.block == 2 ==> Seen(Loop(head, tail), READ, s)
    ensures s.block == 1 && s.index > 0 ==> !Seen(Loop(head, tail), READ, s)
  {
    var edge := Edge(Loop(head, tail));
    EdgeReaches(edge, 0, 1);
    EdgeReaches(edge, 2, 1);
  }

  lemma LoopSeen(fn: Function, stores: set<Site>, head: seq<Instr>, tail: seq<Instr>)
    requires |fn.blocks| == 3 && fn == Loop(fn.blocks[1].instrs, fn.blocks[2].instrs) && INIT in stores
    requires |head| == |fn.blocks[1].instrs| && |tail| == |fn.blocks[2].instrs|
    requires forall i: nat | i < |head| ::
               head[i] == if LeftOut(fn, stores, Site(1, i)) then Plain else fn.blocks[1].instrs[i]
    requires forall i: nat | i < |tail| ::
               tail[i] == if LeftOut(fn, stores, Site(2, i)) then Plain else fn.blocks[2].instrs[i]
    ensures Selected(fn, stores) == Loop(head, tail)
  {
    var r := Selected(fn, stores);
    assert r.blocks[0].instrs == [Alloc, Full(Some(1), 0)];
    assert r.blocks[1].instrs == head;
    assert r.blocks[2].instrs == tail;
    assert r.blocks == Loop(head, tail).blocks;
  }

  /** In a loop that does nothing the shortcut is taken. */
  lemma LoopShortcut(head: seq<Instr>, tail: seq<Instr>)
    requires head != [] && (forall i | 0 <= i < |head| :: head[i].Plain?) && forall i | 0 <= i < |tail| ::
               tail[i].Plain?
    ensures var fn := Loop(head, tail); WellFormed(fn) && SoleDominating(fn, Site(0, 0), INIT, READ)
  {
    var fn := Loop(head, tail);
    assert BlockDominates(fn, 0, 1) by {
      forall path | EntryPath(fn, path, 1) ensures 0 in path {
        assert path[0] == 0;
      }
    }
    forall s | At(fn, s) && !InstrAt(fn, s).Plain? ensures s == Site(0, 0) || s == INIT {
      assert s.block == 0 || s.block == 1 || s.block == 2;
    }
  }

  /** A write of 2 that comes last before the second reading. */
  lemma LoopWrong(head: seq<Instr>, tail: seq<Instr>, meaning: Value -> int, w: Site)
    requires var fn := Loop(head, tail); head != [] && At(fn, w) && w.block > 0
    requires var fn := Loop(head, tail); InstrAt(fn, w) == TWO && meaning(1) != meaning(2) && w != READ
    requires forall i | w.index < i < |Loop(head, tail).blocks[w.block].instrs| ::
               Loop(head, tail).blocks[w.block].instrs[i].Plain?
    requires w.block == 1 ==> forall i | 0 <= i < |tail| :: tail[i].Plain?
    ensures !AlwaysHolds(Loop(head, tail), meaning, 1, 0, 1)
  {
    var fn, path := Loop(head, tail), [0, 1, 2, 1];
    assert EntryPath(fn, path, 1);
    EndsLast(fn, path, 0, w.block, w.index);
  }

  lemma OneSeen(fn: Function, seen: Use, late: Use)
    requires seen.Store? && Seen(fn, READ, seen.site) && !Seen(fn, READ, late.site)
    ensures !Blocked(fn, READ, [seen, late]) && Stores(fn, READ, [seen, late]) == {seen.site}
  {
    assert [seen, late][1..] == [late] && [late][1..] == [];
    assert Stores(fn, READ, [late]) == {} && !Blocked(fn, READ, [late]);
  }

  lemma TwoSeen(fn: Function, first: Use, seen: Use, late: Use)
    requires first.Store? && Seen(fn, READ, first.site)
    requires seen.Store? && Seen(fn, READ, seen.site) && !Seen(fn, READ, late.site)
    ensures !Blocked(fn, READ, [first, seen, late]) && Stores(fn, READ, [first, seen, late]) == {first.site, seen.site}
  {
    OneSeen(fn, seen, late);
    assert [first, seen, late][1..] == [seen, late];
  }

  /** The cell is set again later in the block that reads it. */
  lemma ReadThenWriteExample(meaning: Value -> int)
    requires meaning(1) != meaning(2)
    ensures var fn, uses := Loop([Plain, TWO], []), [Store(INIT), Store(Site(1, 1))];
            && !Blocked(fn, READ, uses) && Stores(fn, READ, uses) == {INIT}
            && ShortcutTaken(fn, {INIT}, Site(0, 0), INIT, READ)
            && !AlwaysHolds(fn, meaning, 1, 0, 1)
  {
    LoopOrder([Plain, TWO], [], INIT);
    LoopOrder([Plain, TWO], [], Site(1, 1));
    OneSeen(Loop([Plain, TWO], []), Store(INIT), Store(Site(1, 1)));
    LoopSeen(Loop([Plain, TWO], []), {INIT}, [Plain, Plain], []);
    LoopShortcut([Plain, Plain], []);
    LoopWrong([Plain, TWO], [], meaning, Site(1, 1));
  }

  /** The cell is set again in another block, through an address computed later
  in the block that reads it. */
  lemma LateAddressExample(meaning: Value -> int)
    requires meaning(1) != meaning(2)
    ensures var fn, uses := Loop([Plain, Plain], [TWO]), [Store(INIT), Derived(Site(1, 1), [Store(Site(2, 0))])];
            && !Blocked(fn, READ, uses) && Stores(fn, READ, uses) == {INIT}
            && ShortcutTaken(fn, {INIT}, Site(0, 0), INIT, READ)
            && !AlwaysHolds(fn, meaning, 1, 0, 1)
  {
    LoopOrder([Plain, Plain], [TWO], INIT);
    LoopOrder([Plain, Plain], [TWO], Site(1, 1));
    OneSeen(Loop([Plain, Plain], [TWO]), Store(INIT), Derived(Site(1, 1), [Store(Site(2, 0))]));
    LoopSeen(Loop([Plain, Plain], [TWO]), {INIT}, [Plain, Plain], [Plain]);
    LoopShortcut([Plain, Plain], [Plain]);
    LoopWrong([Plain, Plain], [TWO], meaning, Site(2, 0));
  }

  /** As before, but after a store of the first value that is seen: here the
  search itself proves that value. */
  lemma LateAddressSearchExample(q: Query, meaning: Value -> int)
    requires meaning(1) != meaning(2) && q.same(1, 1)
    requires q.fn == Loop([Plain, Plain], [Full(Some(1), 0), Plain])
    ensures var fn := Loop([Plain, Plain], [Full(Some(1), 0), TWO]);
            var uses := [Store(INIT), Store(Site(2, 0)), Derived(Site(1, 1), [Store(Site(2, 1))])];
            && !Blocked(fn, READ, uses) && Selected(fn, Stores(fn, READ, uses)) == q.fn
            && WellFormed(q.fn) && Search(q, 1, 0, {}) == Proven(1)
            && !AlwaysHolds(fn, meaning, 1, 0, 1)
  {
    var tail := [Full(Some(1), 0), TWO];
    var fn, stores := Loop([Plain, Plain], tail), {INIT, Site(2, 0)};
    var late := Derived(Site(1, 1), [Store(Site(2, 1))]);
    var uses := [Store(INIT), Store(Site(2, 0)), late];
    LoopOrder([Plain, Plain], tail, INIT);
    LoopOrder([Plain, Plain], tail, Site(1, 1));
    LoopOrder([Plain, Plain], tail, Site(2, 0));
    TwoSeen(fn, Store(INIT), Store(Site(2, 0)), late);
    LoopSeen(fn, stores, [Plain, Plain], [Full(Some(1), 0), Plain]);
    LoopWrong([Plain, Plain], tail, meaning, Site(2, 1));
    LoopSearch(q);
  }

  lemma LoopSearch(q: Query)
    requires q.fn == Loop([Plain, Plain], [Full(Some(1), 0), Plain]) && q.same(1, 1)
    ensures WellFormed(q.fn) && Search(q, 1, 0, {}) == Proven(1)
  {
    var r := q.fn;
    assert Scan(r.blocks[0].instrs, 2) == Some(Full(Some(1), 0));
    assert Scan(r.blocks[2].instrs, 2) == Scan(r.blocks[2].instrs, 1) == Some(Full(Some(1), 0));
    assert Search(q, 0, 2, {1}) == Proven(1) && Search(q, 2, 2, {1}) == Proven(1);
    assert {} + {1} == {1};
    assert Agreed(q, 1, 2, {1}, Some(1)) == Proven(1);
    assert Agreed(q, 1, 1, {1}, Some(1)) == Proven(1);
    assert Agreed(q, 1, 0, {1}, None) == Proven(1);
  }
}
