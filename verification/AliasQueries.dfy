/** The alias and exactness queries on slots. */
module AliasQueries {
  import opened SlotPaths
  import opened PointeeSets
  import opened Options
  import opened Graphs

  /** What each slot was ever given over the whole build. */
  type History = map<Slot, Pointees>

  const ALIAS_DEPTH: nat := 8

  /** Whether two slots may be one location, chasing placeholders through the
  history. Past the depth the answer is yes. */
  predicate SlotsMayAlias(history: History, x: Slot, y: Slot, depth: nat)
    decreases depth, 0
  {
    if depth == 0 || x.region == UnknownRegion || y.region == UnknownRegion then true
    else if x.region == NilRegion || y.region == NilRegion then false
    else if x.region == y.region then PathsMayAlias(x.path, y.path)
    else if x.region.Placeholder? && y.region.Placeholder? then
      PathsMayAlias(x.path, y.path) && SlotsMayAlias(history, x.region.source, y.region.source, depth - 1)
    else if x.region.Placeholder? then EverHeld(history, x, y, depth - 1)
    else if y.region.Placeholder? then EverHeld(history, y, x, depth - 1)
    else false
  }

  /** Whether the placeholder's source, or a slot that aliases it, ever held an
  object whose matching projection may be the target. */
  predicate EverHeld(history: History, placeholder: Slot, target: Slot, depth: nat)
    requires placeholder.region.Placeholder?
    decreases depth, 2
  {
    var source := placeholder.region.source;
    exists held <- history.Keys | held.region == source.region && PathsMayAlias(held.path, source.path) ::
      exists pointee <- history[held].Keys :: HeldMayBe(history, pointee, placeholder, target, depth)
  }

  predicate HeldMayBe(history: History, pointee: Slot, placeholder: Slot, target: Slot, depth: nat)
    requires placeholder.region.Placeholder?
    decreases depth, 1
  {
    var projected := Slot(pointee.region, pointee.path + placeholder.path);
    || pointee.region == UnknownRegion
    || (pointee.region == target.region && PathsMayAlias(projected.path, target.path))
    || (pointee.region.Placeholder? && pointee.region.source != placeholder.region.source &&
        SlotsMayAlias(history, projected, target, depth))
  }

  /** The chase does not depend on the order of its two slots. */
  lemma {:induction false} SlotsMayAliasSymmetric(history: History, x: Slot, y: Slot, depth: nat)
    ensures SlotsMayAlias(history, x, y, depth) <==> SlotsMayAlias(history, y, x, depth)
    decreases depth
  {
    if depth > 0 && x.region.Placeholder? && y.region.Placeholder? {
      SlotsMayAliasSymmetric(history, x.region.source, y.region.source, depth - 1);
    }
  }

  /** The cut is conservative: a deeper chase only removes answers, so no at one
  depth is no at every greater depth. */
  lemma {:induction false} DeeperChaseRefutesMore(history: History, x: Slot, y: Slot, depth: nat, deeper: nat)
    requires depth <= deeper && SlotsMayAlias(history, x, y, deeper)
    ensures SlotsMayAlias(history, x, y, depth)
    decreases depth, 0
  {
    if depth == 0 || x.region == y.region {
    } else if x.region.Placeholder? && y.region.Placeholder? {
      DeeperChaseRefutesMore(history, x.region.source, y.region.source, depth - 1, deeper - 1);
    } else if x.region.Placeholder? && y.region != UnknownRegion && y.region != NilRegion {
      DeeperHistoryRefutesMore(history, x, y, depth - 1, deeper - 1);
    } else if y.region.Placeholder? && x.region != UnknownRegion && x.region != NilRegion {
      DeeperHistoryRefutesMore(history, y, x, depth - 1, deeper - 1);
    }
  }

  lemma {:induction false} DeeperHistoryRefutesMore(history: History, placeholder: Slot, target: Slot, depth: nat,
                                                    deeper: nat)
    requires placeholder.region.Placeholder?
    requires depth <= deeper && EverHeld(history, placeholder, target, deeper)
    ensures EverHeld(history, placeholder, target, depth)
    decreases depth, 1
  {
    var source := placeholder.region.source;
    var held :| held in history && held.region == source.region && PathsMayAlias(held.path, source.path) &&
      exists pointee <- history[held].Keys :: HeldMayBe(history, pointee, placeholder, target, deeper);
    var pointee :| pointee in history[held] && HeldMayBe(history, pointee, placeholder, target, deeper);
    var projected := Slot(pointee.region, pointee.path + placeholder.path);
    if SlotsMayAlias(history, projected, target, deeper) {
      DeeperChaseRefutesMore(history, projected, target, depth, deeper);
    }
    assert HeldMayBe(history, pointee, placeholder, target, depth);
  }

  // ---- What the chase finds ---------------------------------------------------

  type Pair = (Slot, Slot)

  /** z is where x leads through one object x's source, or a slot that may be its
  source, was ever given: the object itself with x's relative path kept. */
  ghost predicate Occupant(history: History, x: Slot, z: Slot) {
    x.region.Placeholder? && exists held, pointee ::
      held in history && held.region == x.region.source.region && PathsMayAlias(held.path, x.region.source.path) &&
      pointee in history[held] && z == Slot(pointee.region, pointee.path + x.path)
  }

  predicate Concerns(x: Slot) {
    x.region != UnknownRegion && x.region != NilRegion
  }

  /** Two slots that may be one location on their face. */
  predicate Touches(x: Slot, y: Slot) {
    || x.region == UnknownRegion
    || y.region == UnknownRegion
    || (x.region == y.region && x.region != NilRegion && PathsMayAlias(x.path, y.path))
  }

  /** A placeholder beside an object of another kind. */
  predicate Alone(x: Slot, y: Slot) {
    x.region.Placeholder? && !y.region.Placeholder? && Concerns(y)
  }

  ghost predicate HeldTouches(history: History, x: Slot, y: Slot) {
    exists z :: Occupant(history, x, z) && Touches(z, y)
  }

  /** The pair may be one location: on its face, or one of the two is a
  placeholder that ever held what touches the other. */
  ghost predicate Meets(history: History, x: Slot, y: Slot) {
    || Touches(x, y)
    || (Alone(x, y) && HeldTouches(history, x, y))
    || (Alone(y, x) && HeldTouches(history, y, x))
  }

  /** The chase does not go on to a placeholder of the same source. */
  predicate GoesOn(x: Slot, z: Slot) {
    x.region.Placeholder? && z.region.Placeholder? && z.region.source != x.region.source
  }

  /** One turn of the chase: two placeholders of matching paths lead to their
  sources, and a lone one to a placeholder of another source that it held. */
  ghost predicate Turns(history: History, from: Pair, to: Pair) {
    var (x, y) := from;
    || (x.region.Placeholder? && y.region.Placeholder? && x.region != y.region && PathsMayAlias(x.path, y.path) &&
        to == (x.region.source, y.region.source))
    || (Alone(x, y) && exists z :: Occupant(history, x, z) && GoesOn(x, z) && to == (z, y))
    || (Alone(y, x) && exists z :: Occupant(history, y, z) && GoesOn(y, z) && to == (z, x))
  }

  ghost function TurnEdge(history: History): (Pair, Pair) -> bool {
    (from, to) => Turns(history, from, to)
  }

  /** The path shows that its first pair may be one location, as far as the depth
  allows: it ends in a pair that meets, or where the depth runs out. */
  ghost predicate Witness(history: History, path: seq<Pair>, depth: nat) {
    && IsPath(TurnEdge(history), path)
    && (|path| == depth + 1 || (|path| <= depth && Meets(history, path[|path| - 1].0, path[|path| - 1].1)))
  }

  ghost predicate Found(history: History, from: Pair, depth: nat) {
    exists path: seq<Pair> :: Witness(history, path, depth) && path[0] == from
  }

  /** The query says yes exactly when a chain of turns shorter than the depth
  leads to a pair that meets, or some chain is as long as the depth. */
  lemma {:induction false} ChaseExactly(history: History, x: Slot, y: Slot, depth: nat)
    ensures SlotsMayAlias(history, x, y, depth) <==> Found(history, (x, y), depth)
    decreases depth
  {
    if depth == 0 {
      assert Witness(history, [(x, y)], 0);
    } else {
      FoundByTurns(history, (x, y), depth);
      forall next: Pair ensures SlotsMayAlias(history, next.0, next.1, depth - 1) <==> Found(history, next, depth - 1) {
        ChaseExactly(history, next.0, next.1, depth - 1);
      }
      ChaseByTurns(history, x, y, depth);
    }
  }

  /** The first pair of a chain meets, or its first turn leads to a shorter one. */
  lemma FoundByTurns(history: History, from: Pair, depth: nat)
    requires depth > 0
    ensures Found(history, from, depth) <==>
            Meets(history, from.0, from.1) || exists to: Pair ::
              Turns(history, from, to) && Found(history, to, depth - 1)
  {
    if Meets(history, from.0, from.1) {
      assert Witness(history, [from], depth);
    }
    if to: Pair :| Turns(history, from, to) && Found(history, to, depth - 1) {
      TurnFinds(history, from, to, depth);
    }
    if Found(history, from, depth) {
      FoundTurns(history, from, depth);
    }
  }

  lemma TurnFinds(history: History, from: Pair, to: Pair, depth: nat)
    requires depth > 0 && Turns(history, from, to) && Found(history, to, depth - 1)
    ensures Found(history, from, depth)
  {
    var edge := TurnEdge(history);
    var rest: seq<Pair> :| Witness(history, rest, depth - 1) && rest[0] == to;
    var path := [from] + rest;
    forall i | 0 < i < |path| ensures edge(path[i - 1], path[i]) {
      assert path[i] == rest[i - 1];
    }
    assert path[|path| - 1] == rest[|rest| - 1];
    assert Witness(history, path, depth);
  }

  lemma FoundTurns(history: History, from: Pair, depth: nat)
    requires depth > 0 && Found(history, from, depth)
    ensures Meets(history, from.0, from.1) ||
            exists to: Pair :: Turns(history, from, to) && Found(history, to, depth - 1)
  {
    var edge := TurnEdge(history);
    var path: seq<Pair> :| Witness(history, path, depth) && path[0] == from;
    if |path| > 1 {
      var rest := path[1..];
      assert edge(path[0], path[1]);
      forall i | 0 < i < |rest| ensures edge(rest[i - 1], rest[i]) {
        assert rest[i] == path[i + 1] && rest[i - 1] == path[i];
      }
      assert Witness(history, rest, depth - 1);
    }
  }

  /** The query unfolds the same way. */
  lemma ChaseByTurns(history: History, x: Slot, y: Slot, depth: nat)
    requires depth > 0
    ensures SlotsMayAlias(history, x, y, depth) <==> Meets(history, x, y) || TurnHolds(history, x, y, depth - 1)
  {
    if Alone(x, y) {
      LoneChase(history, x, y, depth);
    } else if Alone(y, x) {
      SlotsMayAliasSymmetric(history, x, y, depth);
      LoneChase(history, y, x, depth);
      LoneTurns(history, y, x, depth - 1);
    } else {
      PairedTurns(history, x, y, depth - 1);
    }
  }

  lemma LoneChase(history: History, x: Slot, y: Slot, depth: nat)
    requires depth > 0 && Alone(x, y)
    ensures SlotsMayAlias(history, x, y, depth) <==> Meets(history, x, y) || TurnHolds(history, x, y, depth - 1)
  {
    LoneHeld(history, x, y, depth);
    LoneTurns(history, x, y, depth - 1);
    LoneMeets(history, x, y);
  }

  lemma LoneHeld(history: History, x: Slot, y: Slot, depth: nat)
    requires depth > 0 && Alone(x, y)
    ensures SlotsMayAlias(history, x, y, depth) <==> HeldTouches(history, x, y) || HeldGoesOn(history, x, y, depth - 1)
  {
    HeldByTurns(history, x, y, depth - 1);
  }

  lemma LoneMeets(history: History, x: Slot, y: Slot)
    requires Alone(x, y)
    ensures Meets(history, x, y) <==> HeldTouches(history, x, y)
  {
  }

  ghost predicate TurnHolds(history: History, x: Slot, y: Slot, depth: nat) {
    exists to: Pair :: Turns(history, (x, y), to) && SlotsMayAlias(history, to.0, to.1, depth)
  }

  ghost predicate HeldGoesOn(history: History, x: Slot, y: Slot, depth: nat) {
    exists z :: Occupant(history, x, z) && GoesOn(x, z) && SlotsMayAlias(history, z, y, depth)
  }

  lemma LoneTurns(history: History, x: Slot, y: Slot, depth: nat)
    requires Alone(x, y)
    ensures TurnHolds(history, x, y, depth) <==> HeldGoesOn(history, x, y, depth)
    ensures TurnHolds(history, y, x, depth) <==> TurnHolds(history, x, y, depth)
  {
    if z :| Occupant(history, x, z) && GoesOn(x, z) && SlotsMayAlias(history, z, y, depth) {
      assert Turns(history, (x, y), (z, y)) && Turns(history, (y, x), (z, y));
    }
  }

  lemma PairedTurns(history: History, x: Slot, y: Slot, depth: nat)
    requires !Alone(x, y) && !Alone(y, x)
    ensures TurnHolds(history, x, y, depth) <==>
            x.region.Placeholder? && y.region.Placeholder? && x.region != y.region && PathsMayAlias(x.path, y.path) &&
            SlotsMayAlias(history, x.region.source, y.region.source, depth)
  {
    if x.region.Placeholder? && y.region.Placeholder? && x.region != y.region && PathsMayAlias(x.path, y.path) {
      assert Turns(history, (x, y), (x.region.source, y.region.source));
    }
  }

  lemma HeldByTurns(history: History, x: Slot, y: Slot, depth: nat)
    requires Alone(x, y)
    ensures EverHeld(history, x, y, depth) <==> HeldTouches(history, x, y) || HeldGoesOn(history, x, y, depth)
  {
    var source := x.region.source;
    if EverHeld(history, x, y, depth) {
      var held :| held in history && held.region == source.region && PathsMayAlias(held.path, source.path) &&
        exists pointee <- history[held].Keys :: HeldMayBe(history, pointee, x, y, depth);
      var pointee :| pointee in history[held] && HeldMayBe(history, pointee, x, y, depth);
      assert Occupant(history, x, Slot(pointee.region, pointee.path + x.path));
    }
    if z :| Occupant(history, x, z) && (Touches(z, y) || (GoesOn(x, z) && SlotsMayAlias(history, z, y, depth))) {
      var held, pointee :| held in history && held.region == source.region &&
        PathsMayAlias(held.path, source.path) && pointee in history[held] &&
        z == Slot(pointee.region, pointee.path + x.path);
      assert HeldMayBe(history, pointee, x, y, depth);
    }
  }

  /** Content that an effect not followed may have left is asked about against
  the object that was in its slot before. */
  lemma HeldBeforeExample()
    ensures var field, made := Slot(External(0, false), [Field(0)]), Slot(Site(1), []);
            SlotsMayAlias(map[field := map[made := false]], Slot(Placeholder(field, Stamp(0, 0)), []), made,
                          ALIAS_DEPTH)
  {
    var field, made := Slot(External(0, false), [Field(0)]), Slot(Site(1), []);
    var history := map[field := map[made := false]];
    var x := Slot(Placeholder(field, Stamp(0, 0)), []);
    assert Occupant(history, x, made) by {
      assert field in history && made in history[field];
    }
    assert Witness(history, [(x, made)], ALIAS_DEPTH);
    ChaseExactly(history, x, made, ALIAS_DEPTH);
  }

  // ---- Exact slots --------------------------------------------------------------

  /** The one exact slot of a set: alone, current, known, not a wildcard. */
  predicate IsSingleSlot(pts: Pointees, target: Slot) {
    pts.Keys == {target} && !pts[target] && target != UNKNOWN && !EndsInStar(target.path)
  }

  /** Whether some slot of one set may be some slot of the other. */
  predicate SetsMayAlias(history: History, a: Pointees, b: Pointees) {
    exists x <- a.Keys, y <- b.Keys :: SlotsMayAlias(history, x, y, ALIAS_DEPTH)
  }

  /** Whether both sets are one identical exact slot. */
  predicate MustSame(a: Pointees, b: Pointees) {
    exists t <- a.Keys :: IsSingleSlot(a, t) && IsSingleSlot(b, t)
  }

  /** Two sets are the same for certain exactly when each has one pointee and it
  is the same one, known, of the current round of every loop, and no wildcard. */
  lemma MustSameIs(a: Pointees, b: Pointees)
    ensures MustSame(a, b) <==>
            a == b && exists t :: a == map[t := false] && t != UNKNOWN && (t.path == [] || Last(t.path) != AnyIndex)
  {
    if t :| t in a.Keys && IsSingleSlot(a, t) && IsSingleSlot(b, t) {
      assert a == map[t := false] && b == map[t := false];
    }
    if t :| a == map[t := false] && t != UNKNOWN && (t.path == [] || Last(t.path) != AnyIndex) {
      assert a.Keys == {t} && t in a;
      if a == b {
        assert IsSingleSlot(a, t) && IsSingleSlot(b, t);
      }
    }
  }

  function Last(path: Path): Step
    requires path != []
  {
    path[|path| - 1]
  }

  /** The must-answer names one location exactly when no step but the last was
  indexed dynamically; the test itself only looks at the last step. */
  lemma MustSameExactly(a: Pointees, b: Pointees, t: Slot)
    requires IsSingleSlot(a, t) && IsSingleSlot(b, t)
    ensures MustSame(a, b)
    ensures Concrete(Parent(t.path)) <==>
            forall p, q | Concrete(p) && Concrete(q) && Matches(t.path, p) && Matches(t.path, q) :: p == q
  {
    LastStepTestExactly(t.path);
    ConcreteExactly(t.path);
  }

  /** The field of a dynamically indexed element passes the test, yet names a
  different location for every index. */
  lemma DynamicElementFieldExample()
    ensures var t := Slot(Site(0), [AnyIndex, Field(0)]);
            MustSame(map[t := false], map[t := false]) &&
            Matches(t.path, [Index(0), Field(0)]) && Matches(t.path, [Index(1), Field(0)])
  {
    var t := Slot(Site(0), [AnyIndex, Field(0)]);
    assert IsSingleSlot(map[t := false], t);
  }

  // ---- The may-alias query ----------------------------------------------------

  datatype Decision = Decision(value: nat, target: nat)

  /** The graph's record of the pairs it called disjoint. */
  class AliasLog {
    const history: History
    var disjoint: seq<Decision>

    constructor (history: History)
      ensures this.history == history && disjoint == []
    {
      this.history, disjoint := history, [];
    }

    /** Whether two tracked values may be one object; a value the graph cannot
    name may be any. A refutation is recorded. */
    method ProveMayAlias(left: nat, right: nat, a: Option<Pointees>, b: Option<Pointees>) returns (aliases: bool)
      modifies this
      ensures aliases <==> a.None? || b.None? || SetsMayAlias(history, a.value, b.value)
      ensures disjoint == old(disjoint) + (if aliases then [] else [Decision(left, right)])
    {
      if a.None? || b.None? {
        return true;
      }
      var xs := a.value.Keys;
      while xs != {}
        invariant xs <= a.value.Keys && disjoint == old(disjoint)
        invariant forall x | x in a.value.Keys - xs :: NoneMayAlias(history, x, b.value.Keys)
      {
        var x :| x in xs;
        var ys := b.value.Keys;
        while ys != {}
          invariant ys <= b.value.Keys && disjoint == old(disjoint)
          invariant NoneMayAlias(history, x, b.value.Keys - ys)
        {
          var y :| y in ys;
          if SlotsMayAlias(history, x, y, ALIAS_DEPTH) {
            return true;
          }
          ys := ys - {y};
        }
        assert NoneMayAlias(history, x, b.value.Keys);
        xs := xs - {x};
      }
      assert forall x | x in a.value.Keys :: NoneMayAlias(history, x, b.value.Keys);
      disjoint := disjoint + [Decision(left, right)];
      aliases := false;
    }
  }

  predicate NoneMayAlias(history: History, x: Slot, ys: set<Slot>) {
    forall y | y in ys :: !SlotsMayAlias(history, x, y, ALIAS_DEPTH)
  }
}
