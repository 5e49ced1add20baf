/** The memory state as the engine keeps it: maps updated key by key. */
module StateUpdates {
  import opened SlotPaths
  import opened PointeeSets
  import opened RegionStates

  type Contents = map<Slot, Pointees>

  /** The entries left when the given keys have been looked at. */
  function KeepBut(contents: Contents, looked: set<Slot>, drop: Slot -> bool): Contents {
    map t | t in contents && !(t in looked && drop(t)) :: contents[t]
  }

  /** A map with new values at some keys. */
  function Updated<K, V>(m: map<K, V>, keys: set<K>, f: K -> V): (r: map<K, V>)
    ensures r.Keys == m.Keys + keys
  {
    map k | k in m.Keys + keys :: if k in keys then f(k) else m[k]
  }

  /** What an entry of an array holds once the value may have been stored. */
  function Gained(entries: Contents, value: Pointees): Slot -> Pointees {
    (t: Slot) => BoundSet(Join(Entry(entries, t), value))
  }

  function Elements(entries: Contents, target: Slot): set<Slot> {
    set t | t in entries && (t == target || IsSibling(t, target))
  }

  lemma GainedAt(entries: Contents, target: Slot, value: Pointees, t: Slot)
    requires t in entries
    ensures Gained(entries, value)(t) == BoundSet(Join(entries[t], value))
    ensures t in Elements(entries, target) <==> t == target || IsSibling(t, target)
  {
  }

  lemma ElementsGain(entries: Contents, target: Slot, value: Pointees, stored: Contents)
    requires stored.Keys == entries.Keys
    requires forall t | t in entries ::
               stored[t] == if t == target || IsSibling(t, target) then BoundSet(Join(entries[t], value))
                 else entries[t]
    ensures stored == Updated(entries, Elements(entries, target), Gained(entries, value))
  {
    var updated := Updated(entries, Elements(entries, target), Gained(entries, value));
    forall t | t in entries ensures stored[t] == updated[t] {
      GainedAt(entries, target, value, t);
    }
  }

  lemma ElementStoreUpdates(state: State, target: Slot, value: Pointees)
    ensures var forgot := ForgetWholeAbove(state, target);
            var entries := forgot.contents[target := EntryOrContent(forgot, target)];
            WeakElementStore(state, target, value) ==
              forgot.(contents := Updated(entries, Elements(entries, target), Gained(entries, value)))
  {
    var forgot := ForgetWholeAbove(state, target);
    var entries := forgot.contents[target := EntryOrContent(forgot, target)];
    ElementsGain(entries, target, value, WeakElementStore(state, target, value).contents);
  }

  /** A slot of the other side, joined to what this side held before. */
  function Theirs(before: State, other: State, loopMade: set<Region>): Slot -> Pointees {
    (t: Slot) => BoundSet(Join(EntryOrContent(before, t), Restale(Entry(other.contents, t), loopMade)))
  }

  /** A slot only this side stored, joined to the other side's content. */
  function Mine(mine: Contents, other: State, loopMade: set<Region>): Slot -> Pointees {
    (t: Slot) => BoundSet(Join(Entry(mine, t), Restale(Content(other, t), loopMade)))
  }

  lemma TwoUpdates(m: Contents, keys: set<Slot>, f: Slot -> Pointees, g: Slot -> Pointees, merged: Contents)
    requires merged.Keys == m.Keys + keys && (forall t | t in keys :: merged[t] == f(t))
    requires forall t | t in m && t !in keys :: merged[t] == g(t)
    ensures Updated(Updated(m, keys, f), m.Keys - keys, g) == merged
  {
  }

  lemma TheirsAt(before: State, other: State, loopMade: set<Region>, t: Slot)
    requires t in other.contents
    ensures MergeContents(before, other, loopMade)[t] == Theirs(before, other, loopMade)(t)
  {
    assert EntryOrContent(other, t) == Entry(other.contents, t);
  }

  lemma MineAt(before: State, other: State, loopMade: set<Region>, mine: Contents, t: Slot)
    requires t in before.contents && t !in other.contents && t in mine && mine[t] == before.contents[t]
    ensures MergeContents(before, other, loopMade)[t] == Mine(mine, other, loopMade)(t)
  {
    assert EntryOrContent(before, t) == Entry(mine, t) && EntryOrContent(other, t) == Content(other, t);
  }

  /** The two passes of a join make the joined contents. */
  lemma TwoPasses(before: State, other: State, loopMade: set<Region>)
    ensures var first := Updated(before.contents, other.contents.Keys, Theirs(before, other, loopMade));
            Updated(first, before.contents.Keys - other.contents.Keys, Mine(first, other, loopMade)) ==
            MergeContents(before, other, loopMade)
  {
    var first := Updated(before.contents, other.contents.Keys, Theirs(before, other, loopMade));
    forall t | t in other.contents
      ensures MergeContents(before, other, loopMade)[t] == Theirs(before, other, loopMade)(t)
    {
      TheirsAt(before, other, loopMade, t);
    }
    forall t | t in before.contents && t !in other.contents
      ensures MergeContents(before, other, loopMade)[t] == Mine(first, other, loopMade)(t)
    {
      MineAt(before, other, loopMade, first, t);
    }
    TwoUpdates(before.contents, other.contents.Keys, Theirs(before, other, loopMade), Mine(first, other, loopMade),
               MergeContents(before, other, loopMade));
  }

  class MemoryState {
    var contents: Contents
    var clobbered: map<Slot, int>
    var epoch: int
    var reachEpoch: int
    var stepEpochs: map<StepKey, int>
    var escaped: set<Region>
    var escapes: map<Slot, set<EscapeKind>>

    function Now(): State
      reads this
    {
      State(contents, clobbered, epoch, reachEpoch, stepEpochs, escaped, escapes)
    }

    constructor ()
      ensures Now() == EMPTY_STATE
    {
      contents, clobbered, epoch, reachEpoch, stepEpochs, escaped, escapes := map[], map[], 0, 0, map[], {}, map[];
    }

    method DropContents(drop: Slot -> bool)
      modifies this`contents
      ensures contents == map t | t in old(contents) && !drop(t) :: old(contents)[t]
    {
      ghost var before := contents;
      var rest := contents.Keys;
      while rest != {}
        invariant rest <= before.Keys && contents == KeepBut(before, before.Keys - rest, drop)
      {
        var t :| t in rest;
        if drop(t) {
          contents := contents - {t};
        }
        rest := rest - {t};
      }
    }

    method ForgetSubtree(target: Slot)
      modifies this
      ensures Now() == ForgetStoredSubtree(old(Now()), target)
    {
      DropContents(t => Beneath(t, target));
    }

    /** Forgets what is stored beneath a slot, and that anything there was
    clobbered. */
    method Clear(target: Slot)
      modifies this
      ensures Now() == ClearSubtree(old(Now()), target)
    {
      ForgetSubtree(target);
      clobbered := map t | t in clobbered && !Beneath(t, target) :: clobbered[t];
    }

    method ForgetAbove(target: Slot)
      modifies this
      ensures Now() == ForgetWholeAbove(old(Now()), target)
    {
      DropContents(t => StrictlyAbove(t, target));
    }

    /** Sets each of the keys, one by one. */
    method SetEach(keys: set<Slot>, f: Slot -> Pointees)
      modifies this`contents
      ensures contents == Updated(old(contents), keys, f)
    {
      ghost var before := contents;
      var rest := keys;
      while rest != {}
        invariant rest <= keys && contents == Updated(before, keys - rest, f)
      {
        var t :| t in rest;
        assert keys - (rest - {t}) == keys - rest + {t};
        contents := contents[t := f(t)];
        rest := rest - {t};
      }
    }

    /** A store through an unknown index: the wildcard is made, and it and every
    known element gain the value. */
    method StoreElement(target: Slot, value: Pointees)
      modifies this
      ensures Now() == WeakElementStore(old(Now()), target, value)
    {
      ElementStoreUpdates(Now(), target, value);
      ForgetAbove(target);
      ghost var forgot := Now();
      contents := contents[target := EntryOrContent(Now(), target)];
      SetEach(Elements(contents, target), Gained(contents, value));
    }

    /** Updates one selected scalar slot. */
    method Store(target: Slot, value: Pointees, strong: bool)
      modifies this
      ensures Now() == StoreSlot(old(Now()), target, value, strong)
    {
      if EndsInStar(target.path) {
        StoreElement(target, value);
        return;
      }
      ForgetAbove(target);
      if strong {
        Clear(target);
        contents := contents[target := value];
      } else {
        var existing := if target in contents then contents[target] else Content(Now(), target);
        contents := contents[target := BoundSet(Join(existing, value))];
      }
    }

    /** Joins the other side's contents. A slot this side did not store is read
    from the state before the join, since the pass itself changes what such a
    read would see; then every slot only this side stored takes the other
    side's implicit content. */
    method MergeStored(other: State, loopMade: set<Region>)
      modifies this`contents
      ensures contents == MergeContents(old(Now()), other, loopMade)
    {
      var before := Now();
      TwoPasses(before, other, loopMade);
      SetEach(other.contents.Keys, Theirs(before, other, loopMade));
      SetEach(before.contents.Keys - other.contents.Keys, Mine(contents, other, loopMade));
    }

    /** Folds another state into this one at a join. */
    method MergeWith(other: State, loopMade: set<Region>, block: int)
      modifies this
      ensures Now() == Merge(old(Now()), other, loopMade, block)
    {
      MergeStored(other, loopMade);
      MergeStamps(other, block);
      clobbered := MergeClobbered(Now(), other, block);
      escaped := escaped + other.escaped;
      escapes := map t | t in escapes.Keys + other.escapes.Keys ::
        (if t in escapes then escapes[t] else {}) + (if t in other.escapes then other.escapes[t] else {});
    }

    method MergeStamps(other: State, block: int)
      modifies this`epoch, this`reachEpoch, this`stepEpochs
      ensures epoch == if old(epoch) == other.epoch then old(epoch) else block
      ensures reachEpoch == if old(reachEpoch) == other.reachEpoch then old(reachEpoch) else block
      ensures stepEpochs == MergeSteps(old(Now()), other, block)
    {
      if epoch != other.epoch {
        epoch := block;
      }
      if reachEpoch != other.reachEpoch {
        reachEpoch := block;
      }
      MergeStepStamps(other, block);
    }

    /** A step whose stamps disagree, or that only one side has, takes the join's. */
    method MergeStepStamps(other: State, block: int)
      modifies this`stepEpochs
      ensures stepEpochs == MergeSteps(old(Now()), other, block)
    {
      ghost var first := stepEpochs;
      var rest := stepEpochs.Keys + other.stepEpochs.Keys;
      ghost var all := rest;
      while rest != {}
        invariant rest <= all == first.Keys + other.stepEpochs.Keys
        invariant stepEpochs.Keys == first.Keys + (all - rest)
        invariant forall k | k in stepEpochs ::
                    stepEpochs[k] == if k in rest then first[k] else StepStamp(first, other.stepEpochs, k, block)
      {
        var k :| k in rest;
        if !(k in stepEpochs && k in other.stepEpochs && stepEpochs[k] == other.stepEpochs[k]) {
          stepEpochs := stepEpochs[k := block];
        }
        rest := rest - {k};
      }
    }
  }

  function StepStamp(mine: map<StepKey, int>, theirs: map<StepKey, int>, k: StepKey, block: int): int {
    if k in mine && k in theirs && mine[k] == theirs[k] then mine[k] else block
  }
}
