/** The transfer gains nothing beyond what an instruction does: a store through
one exact address replaces what the location held, and a completed build
records exactly what each instruction defines. */
module TransferExactness {
  import opened Options
  import opened SlotPaths
  import opened PointeeSets
  import opened RegionStates
  import opened MemoryPrograms
  import opened AbstractMemory
  import opened MemorySoundness
  import opened Fixpoint
  import opened TargetOrders
  import opened BuildRounds
  import opened SettledRounds

  // ---- One store --------------------------------------------------------------

  /** One location that some object has, told from all others but for the round
  of a loop it belongs to. */
  predicate OneLocation(t: Slot) {
    t.region != UnknownRegion && t.region != NilRegion && !EndsInStar(t.path)
  }

  /** What the unknown indices of the array around an element were given. */
  function Wildcard(state: State, t: Slot): Pointees {
    if EndsInIndex(t.path) then Entry(state.contents, StarSlot(t)) else map[]
  }

  lemma OneOrderOfOne(order: seq<Slot>, t: Slot, stale: bool)
    requires ListsSlots(order, map[t := stale])
    ensures order == [t]
  {
    var targets: Pointees := map[t := stale];
    assert t in targets;
    forall m | 0 <= m < |order| ensures order[m] == t {
      assert order[m] in targets;
    }
    assert order[0] == t && order[|order| - 1] == t;
  }

  lemma StrongThroughOne(t: Slot, stale: bool)
    requires OneLocation(t)
    ensures StrongStore(map[t := stale]) <==> !stale
  {
    var targets := map[t := stale];
    assert targets.Keys == {t} && |targets| == |targets.Keys|;
    assert t in targets;
  }

  lemma EachOfOne(state: State, t: Slot, value: Pointees, strong: bool)
    requires OneLocation(t)
    ensures StoreEach(state, [t], value, strong) == StoreSlot(state, t, value, strong)
  {
    assert [t][1..] == [];
  }

  /** What a store through one address does is one settling of its slot. */
  lemma StoreThroughOne(values: Values, address: Operand, written: Operand, state: State, next: State, t: Slot,
                        stale: bool)
    requires PointeesOf(values, address) == map[t := stale] && OneLocation(t)
    requires Transfers(values, Store(address, written), state, next)
    ensures next == StoreSlot(state, t, PointeesOf(values, written), !stale)
  {
    var targets, value := PointeesOf(values, address), PointeesOf(values, written);
    assert !IsUnknown(targets);
    var order :| ListsSlots(order, targets) && next == StoreEach(state, order, value, StrongStore(targets));
    OneOrderOfOne(order, t, stale);
    StrongThroughOne(t, stale);
    EachOfOne(state, t, value, !stale);
  }

  /** A store through one exact, current address replaces what the location
  held: it then holds what was stored, joined for an element with what the
  array was given at unknown indices. */
  lemma ExactStoreReplaces(values: Values, address: Operand, written: Operand, state: State, next: State, t: Slot)
    requires PointeesOf(values, address) == map[t := false] && OneLocation(t)
    requires Transfers(values, Store(address, written), state, next) && PointeesOf(values, written) != map[]
    ensures Content(next, t) == Join(PointeesOf(values, written), Wildcard(state, t))
    ensures Normal(PointeesOf(values, written)) && Wildcard(state, t) == map[] ==>
              Content(next, t) == PointeesOf(values, written)
  {
    var value := PointeesOf(values, written);
    StoreThroughOne(values, address, written, state, next, t, false);
    StrongContent(state, t, value);
    FilledJoinNot(value, Wildcard(state, t));
  }

  lemma StrongContent(state: State, t: Slot, value: Pointees)
    requires OneLocation(t)
    ensures var next := StoreSlot(state, t, value, true);
            Entry(next.contents, t) == value && Wildcard(next, t) == Wildcard(state, t)
  {
    if EndsInIndex(t.path) {
      var star := StarSlot(t);
      assert |star.path| == |t.path| && star.path[|star.path| - 1] == AnyIndex;
      assert !StrictlyAbove(star, t) && !Beneath(star, t) && star != t;
    }
  }

  lemma FilledJoinNot(a: Pointees, b: Pointees)
    requires a != map[]
    ensures Join(a, b) != map[]
    ensures Normal(a) && b == map[] ==> Join(a, b) == a
  {
    var t :| t in a;
    if IsUnknown(a) || IsUnknown(b) {
      assert UNKNOWN in Join(a, b);
    } else {
      assert t in Join(a, b);
    }
  }

  /** A store through a location of an earlier round of a loop only adds to it:
  what it held stays admitted, and nothing but the value is gained unless there
  are too many pointees to keep. */
  lemma StaleStoreAdds(values: Values, address: Operand, written: Operand, state: State, next: State, t: Slot)
    requires PointeesOf(values, address) == map[t := true] && OneLocation(t)
    requires Transfers(values, Store(address, written), state, next)
    requires t in state.contents ==> state.contents[t] != map[]
    ensures Admits(Content(next, t), Content(state, t)) && Admits(Content(next, t), PointeesOf(values, written))
    ensures IsUnknown(Content(next, t)) || Content(next, t) == Join(Content(state, t), PointeesOf(values, written))
  {
    StoreThroughOne(values, address, written, state, next, t, true);
    WeakContent(state, t, PointeesOf(values, written));
  }

  /** Same but for the contents. */
  predicate SameEffects(a: State, b: State) {
    a == b.(contents := a.contents)
  }

  lemma {:induction false} SameReachAll(a: State, b: State, region: Region)
    requires a.escaped == b.escaped && a.escapes == b.escapes
    ensures ForeignWithinReach(a, region) == ForeignWithinReach(b, region)
    decreases region
  {
    if region.Placeholder? {
      SameReachAll(a, b, region.source.region);
    }
  }

  lemma SameUnwritten(a: State, b: State, t: Slot)
    requires SameEffects(a, b)
    ensures Unwritten(a, t) == Unwritten(b, t)
  {
    SameReachAll(a, b, t.region);
  }

  /** A store leaves the array's wildcard entry of its slot alone. */
  lemma WildcardStays(state: State, t: Slot)
    requires OneLocation(t)
    ensures var forgot := ForgetWholeAbove(state, t);
            && Wildcard(forgot, t) == Wildcard(state, t) && Entry(forgot.contents, t) == Entry(state.contents, t)
            && (t in forgot.contents <==> t in state.contents) && SameEffects(forgot, state)
    ensures EndsInIndex(t.path) ==> StarSlot(t) != t
  {
    if EndsInIndex(t.path) {
      var star := StarSlot(t);
      assert |star.path| == |t.path| && star.path[|star.path| - 1] == AnyIndex;
      assert !StrictlyAbove(star, t);
    }
  }

  lemma PutEntry(state: State, t: Slot, entry: Pointees)
    requires EndsInIndex(t.path) ==> StarSlot(t) != t
    ensures var put := state.(contents := state.contents[t := entry]);
            Wildcard(put, t) == Wildcard(state, t) && Entry(put.contents, t) == entry
  {
  }

  lemma WeakStoreEntry(state: State, t: Slot, value: Pointees)
    requires OneLocation(t)
    ensures var forgot := ForgetWholeAbove(state, t);
            StoreSlot(state, t, value, false) ==
            forgot.(contents := forgot.contents[t := BoundSet(Join(EntryOrContent(forgot, t), value))])
  {
  }

  lemma WeakEntry(state: State, t: Slot, value: Pointees)
    requires OneLocation(t)
    ensures var next := StoreSlot(state, t, value, false);
            && Wildcard(next, t) == Wildcard(state, t)
            && Entry(next.contents, t) == BoundSet(Join(EntryOrContent(state, t), value))
  {
    var forgot := ForgetWholeAbove(state, t);
    WildcardStays(state, t);
    SameEntryOrContent(forgot, state, t);
    WeakStoreEntry(state, t, value);
    PutEntry(forgot, t, BoundSet(Join(EntryOrContent(forgot, t), value)));
  }

  lemma SameEntryOrContent(a: State, b: State, t: Slot)
    requires OneLocation(t) && SameEffects(a, b) && Wildcard(a, t) == Wildcard(b, t)
    requires (t in a.contents <==> t in b.contents) && Entry(a.contents, t) == Entry(b.contents, t)
    ensures EntryOrContent(a, t) == EntryOrContent(b, t)
  {
    SameUnwritten(a, b, t);
  }

  lemma ContentIsJoin(state: State, t: Slot)
    requires OneLocation(t) && (t in state.contents ==> state.contents[t] != map[])
    ensures Join(EntryOrContent(state, t), Wildcard(state, t)) == Content(state, t)
    ensures EntryOrContent(state, t) != map[]
  {
    var star := Wildcard(state, t);
    if t in state.contents {
      FilledJoinNot(state.contents[t], star);
    } else if star != map[] {
      FilledJoinNot(star, map[]);
      JoinTwice(star);
    } else {
      assert Join(map[], map[]) == map[];
      UnwrittenIsOne(state, t);
    }
  }

  lemma JoinTwice(star: Pointees)
    requires star != map[]
    ensures Join(Join(map[], star), star) == Join(map[], star) && Join(map[], star) != map[]
  {
    var once := Join(map[], star);
    if IsUnknown(star) {
      assert UNKNOWN in once;
    } else {
      assert once.Keys == star.Keys;
      var t :| t in star;
      assert t in once;
    }
  }

  lemma UnwrittenIsOne(state: State, t: Slot)
    ensures Unwritten(state, t) != map[] && Join(Unwritten(state, t), map[]) == Unwritten(state, t)
  {
    var held := Unwritten(state, t);
    assert forall s | s in held :: held.Keys == {s};
    if ClobberedBeneath(state, t) {
      assert Slot(Placeholder(t, Stamp(ClobberStamp(state, t), 0)), []) in held;
    } else if t.region.Site? {
      assert NIL in held;
    } else if t.region.NilRegion? || t.region.UnknownRegion? {
      assert UNKNOWN in held;
    } else {
      assert Slot(Placeholder(t, StampOf(state, t)), []) in held;
    }
    FilledJoinNot(held, map[]);
  }

  lemma WeakContent(state: State, t: Slot, value: Pointees)
    requires OneLocation(t) && (t in state.contents ==> state.contents[t] != map[])
    ensures var held := Content(StoreSlot(state, t, value, false), t);
            && Admits(held, Content(state, t)) && Admits(held, value)
            && (IsUnknown(held) || held == Join(Content(state, t), value))
  {
    WeakEntry(state, t, value);
    ContentIsJoin(state, t);
    JoinedContent(EntryOrContent(state, t), Wildcard(state, t), value);
  }

  /** Joining the value into the entry is joining it into the content. */
  lemma JoinedContent(entry: Pointees, star: Pointees, value: Pointees)
    requires entry != map[]
    ensures var held := Join(BoundSet(Join(entry, value)), star);
            && held != map[]
            && (IsUnknown(held) || held == Join(Join(entry, star), value))
            && Admits(held, Join(entry, star)) && Admits(held, value)
  {
    var held := Join(BoundSet(Join(entry, value)), star);
    if IsUnknown(entry) || IsUnknown(star) || IsUnknown(value) || |Join(entry, value)| > POINTEE_LIMIT {
      UnknownHeld(entry, star, value);
      assert UNKNOWN in held;
    } else {
      KnownHeld(entry, star, value);
      var key :| key in entry;
      assert key in held.Keys;
    }
  }

  lemma UnknownHeld(entry: Pointees, star: Pointees, value: Pointees)
    requires IsUnknown(entry) || IsUnknown(star) || IsUnknown(value) || |Join(entry, value)| > POINTEE_LIMIT
    ensures IsUnknown(Join(BoundSet(Join(entry, value)), star))
  {
    assert UNKNOWN in map[UNKNOWN := false];
  }

  lemma KnownHeld(entry: Pointees, star: Pointees, value: Pointees)
    requires !IsUnknown(entry) && !IsUnknown(star) && !IsUnknown(value)
    ensures var held := Join(Join(entry, value), star);
            && held == Join(Join(entry, star), value)
            && held.Keys == entry.Keys + star.Keys + value.Keys && Join(entry, star).Keys == entry.Keys + star.Keys
  {
    var a, b := Join(entry, value), Join(entry, star);
    assert a.Keys == entry.Keys + value.Keys && b.Keys == entry.Keys + star.Keys;
    assert Join(a, star).Keys == Join(b, value).Keys;
  }

  // ---- One load, one selection, one merge -------------------------------------

  /** A load admits exactly what some addressed location admits. */
  lemma LoadCoversExactly(state: State, addresses: Pointees, value: Value)
    ensures Covers(LoadFrom(state, addresses), value) <==>
            exists a <- addresses.Keys :: Covers(Content(state, a), value)
  {
    if a :| a in addresses && IsUnknown(Content(state, a)) {
      assert Denotes(UNKNOWN, value);
      assert UNKNOWN in LoadFrom(state, addresses);
    } else {
      if a :| a in addresses && Covers(Content(state, a), value) {
        var t :| t in Content(state, a) && Denotes(t, value);
        assert t in LoadedSlots(state, addresses);
      }
      if t :| t in LoadedSlots(state, addresses) && Denotes(t, value) {
        var a :| a in addresses && t in Content(state, a);
        assert Covers(Content(state, a), value);
      }
    }
  }

  /** A load through one current address is what the location holds. */
  lemma LoadOfOne(state: State, t: Slot)
    requires Normal(Content(state, t))
    ensures LoadFrom(state, map[t := false]) == Content(state, t)
  {
    var addresses, held := map[t := false], Content(state, t);
    assert addresses.Keys == {t};
    if IsUnknown(held) {
      assert held == map[UNKNOWN := held[UNKNOWN]];
      assert exists a <- addresses.Keys :: IsUnknown(Content(state, a)) by {
        assert t in addresses;
      }
    } else {
      KnownLoadOfOne(state, t);
    }
  }

  lemma KnownLoadOfOne(state: State, t: Slot)
    requires !IsUnknown(Content(state, t))
    ensures LoadFrom(state, map[t := false]) == Content(state, t)
  {
    var addresses, held := map[t := false], Content(state, t);
    var loaded := LoadFrom(state, addresses);
    assert addresses.Keys == {t};
    assert forall a | a in addresses :: a == t;
    assert LoadedSlots(state, addresses) == held.Keys;
    forall p | p in held ensures loaded[p] == held[p] {
      assert t in addresses && !addresses[t];
    }
  }

  /** A phi admits exactly what some incoming operand admits. */
  lemma {:induction false} PhiCoversExactly(values: Values, edges: seq<Operand>, value: Value)
    requires forall e | e in edges :: Normal(PointeesOf(values, e))
    ensures Normal(PhiOf(values, edges))
    ensures Covers(PhiOf(values, edges), value) <==> exists e <- edges :: Covers(PointeesOf(values, e), value)
    decreases |edges|
  {
    if edges != [] {
      var front, last := edges[..|edges| - 1], edges[|edges| - 1];
      assert edges == front + [last];
      PhiCoversExactly(values, front, value);
      CoversJoin(PhiOf(values, front), PointeesOf(values, last), value);
    }
  }

  /** A selection admits an address exactly when the base admits the address one
  step above it and the step is the one selected. */
  lemma SelectCoversExactly(bases: Pointees, pattern: Step, base: Value, step: Step)
    requires base.Address? && forall t | t in bases :: t.region.Site? || t == NIL || t == UNKNOWN
    ensures Covers(SelectStep(bases, pattern), Address(base.alloc, base.instance, base.path + [step])) <==>
            IsUnknown(bases) || (Covers(bases, base) && StepMatches(pattern, step))
  {
    var value := Address(base.alloc, base.instance, base.path + [step]);
    if IsUnknown(bases) {
      assert UNKNOWN in SelectStep(bases, pattern) && Denotes(UNKNOWN, value);
    } else {
      if s :| s in SelectedSlots(bases, pattern) && Denotes(s, value) {
        var b :| b in bases && b.region != NilRegion && s == StepBeneath(b, pattern);
        MatchesStep(b.path, pattern, base.path, step);
        assert Denotes(b, base);
      }
      if b :| b in bases && Denotes(b, base) && StepMatches(pattern, step) {
        MatchesStep(b.path, pattern, base.path, step);
        assert StepBeneath(b, pattern) in SelectedSlots(bases, pattern);
      }
    }
  }

  lemma MatchesStep(pattern: Path, last: Step, path: Path, step: Step)
    ensures Matches(pattern + [last], path + [step]) <==> Matches(pattern, path) && StepMatches(last, step)
  {
    var p, q := pattern + [last], path + [step];
    if Matches(p, q) {
      assert forall i | 0 <= i < |path| :: p[i] == pattern[i] && q[i] == path[i];
      assert StepMatches(p[|path|], q[|path|]);
    }
  }

  // ---- A whole build ----------------------------------------------------------

  /** What is recorded for the instruction's result is what it defines, no more. */
  ghost predicate DefinedAt(fn: Function, graph: Graph, block: nat, index: nat)
    requires block in graph.entry && At(fn, block, index)
  {
    var instr := InstrAt(fn, block, index);
    Result(instr).Some? ==>
      Result(instr).value in graph.values &&
      exists states ::
        IsReplay(fn, graph, block, states) && |states| == index + 1 &&
        graph.values[Result(instr).value] == Defined(graph.values, states[index], instr)
  }

  ghost predicate Precise(fn: Function, graph: Graph) {
    forall b, i: nat | b in graph.entry && At(fn, b, i) :: DefinedAt(fn, graph, b, i)
  }

  lemma NextStateTransfers(values: Values, state: State, instr: Instr)
    ensures Transfers(values, instr, state, NextState(values, state, instr))
  {
    if instr.Store? && !IsUnknown(PointeesOf(values, instr.address)) {
      var targets := PointeesOf(values, instr.address);
      assert ListsSlots(AnyOrder(targets.Keys), targets);
    }
  }

  lemma ReplayMore(fn: Function, graph: Graph, block: nat, states: seq<State>, next: State)
    requires block < |fn.blocks| && block in graph.entry && IsReplay(fn, graph, block, states)
    requires |states| <= |fn.blocks[block].instrs|
    requires Transfers(graph.values, InstrAt(fn, block, |states| - 1), states[|states| - 1], next)
    ensures IsReplay(fn, graph, block, states + [next])
  {
    var more := states + [next];
    forall i | 0 < i < |more| ensures Transfers(graph.values, InstrAt(fn, block, i - 1), more[i - 1], more[i]) {
      assert more[i - 1] == states[i - 1];
    }
  }

  /** The replay under the values, up to an instruction. */
  lemma {:induction false} ReplayExists(fn: Function, graph: Graph, block: nat, count: nat) returns (states: seq<State>)
    requires block < |fn.blocks| && block in graph.entry && count <= |fn.blocks[block].instrs|
    ensures IsReplay(fn, graph, block, states) && |states| == count + 1
    ensures states[count] == ReplayTo(TransferEffect(), graph.values, graph.entry[block], fn.blocks[block].instrs,
                                      count)
  {
    if count == 0 {
      states := [graph.entry[block]];
    } else {
      var before := ReplayExists(fn, graph, block, count - 1);
      var instr, here := InstrAt(fn, block, count - 1), before[count - 1];
      var next := NextState(graph.values, here, instr);
      EffectIs(graph.values, here, instr);
      NextStateTransfers(graph.values, here, instr);
      ReplayMore(fn, graph, block, before, next);
      states := before + [next];
    }
  }

  /** A build whose every block is exact is precise. */
  lemma ExactIsPrecise(fn: Function, order: seq<nat>, build: Build)
    requires BlocksOf(fn, order) && AllExact(TransferEffect(), fn, build, order, |order|)
    requires forall b | b in build.entry :: b in order
    ensures Precise(fn, GraphOf(build))
  {
    forall b, i: nat | b in build.entry && At(fn, b, i) ensures DefinedAt(fn, GraphOf(build), b, i) {
      var k :| 0 <= k < |order| && order[k] == b;
      assert Exact(TransferEffect(), fn, build, order[k]);
      var instrs := fn.blocks[b].instrs;
      assert ExactAt(TransferEffect(), build.values, build.entry[b], instrs, i);
      var states := ReplayExists(fn, GraphOf(build), b, i);
      EffectIs(build.values, states[i], instrs[i]);
    }
  }

  /** A store and right behind it a load through the same exact address. */
  predicate StoreThenLoad(fn: Function, graph: Graph, b: nat, i: nat, t: Slot) {
    && At(fn, b, i) && At(fn, b, i + 1) && InstrAt(fn, b, i).Store? && InstrAt(fn, b, i + 1).Load?
    && InstrAt(fn, b, i + 1).address == InstrAt(fn, b, i).address
    && PointeesOf(graph.values, InstrAt(fn, b, i).address) == map[t := false] && OneLocation(t)
    && PointeesOf(graph.values, InstrAt(fn, b, i).written) != map[]
  }

  /** In a precise graph a load right behind a store through the same exact
  address has exactly the stored pointees, joined for an element with what the
  array was given at unknown indices. */
  lemma LoadReadsStored(fn: Function, graph: Graph, b: nat, i: nat, t: Slot)
    requires Precise(fn, graph) && b in graph.entry && StoreThenLoad(fn, graph, b, i, t)
    ensures InstrAt(fn, b, i + 1).result in graph.values
    ensures exists states :: IsReplay(fn, graph, b, states) && |states| == i + 2 &&
              graph.values[InstrAt(fn, b, i + 1).result] ==
              Join(PointeesOf(graph.values, InstrAt(fn, b, i).written), Wildcard(states[i], t))
    ensures !EndsInIndex(t.path) && Normal(PointeesOf(graph.values, InstrAt(fn, b, i).written)) ==>
              graph.values[InstrAt(fn, b, i + 1).result] == PointeesOf(graph.values, InstrAt(fn, b, i).written)
  {
    var store, load := InstrAt(fn, b, i), InstrAt(fn, b, i + 1);
    var value := PointeesOf(graph.values, store.written);
    assert DefinedAt(fn, graph, b, i + 1);
    var states :| IsReplay(fn, graph, b, states) && |states| == i + 2 &&
      graph.values[load.result] == Defined(graph.values, states[i + 1], load);
    assert Transfers(graph.values, InstrAt(fn, b, i), states[i], states[i + 1]);
    ExactStoreReplaces(graph.values, store.address, store.written, states[i], states[i + 1], t);
    JoinIsNormal(value, Wildcard(states[i], t));
    LoadOfOne(states[i + 1], t);
    FilledJoinNot(value, Wildcard(states[i], t));
  }

  lemma JoinIsNormal(a: Pointees, b: Pointees)
    ensures Normal(Join(a, b))
  {
  }
}
