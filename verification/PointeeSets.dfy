/** Abstract objects, slots, and the sets of slots a value may refer to. */
module PointeeSets {
  import opened SlotPaths

  /** The last unfollowed effect that may have changed a slot. */
  datatype Stamp = Stamp(epoch: int, step: int)

  /** One abstract object. A placeholder is the content of a slot the function
  never wrote. */
  datatype Region =
    | NilRegion
    | UnknownRegion
    | Site(alloc: nat)
    | External(value: nat, isGlobal: bool)
    | Opaque(origin: nat)
    | Placeholder(source: Slot, stamp: Stamp)
    | Closure(literal: nat)

  datatype Slot = Slot(region: Region, path: Path)

  /** A slot maps to true when it was carried around a back edge. */
  type Pointees = map<Slot, bool>

  // A graph interns one unknown region and one nil region, and selecting a step
  // beneath either never extends the path, so each has exactly one slot.
  const UNKNOWN := Slot(UnknownRegion, [])
  const NIL := Slot(NilRegion, [])
  const POINTEE_LIMIT: nat := 32

  predicate IsUnknown(pts: Pointees) {
    UNKNOWN in pts
  }

  predicate StaleIn(pts: Pointees, target: Slot) {
    target in pts && pts[target]
  }

  /** Unknown absorbs the set it is in. */
  predicate Normal(pts: Pointees) {
    UNKNOWN in pts ==> pts.Keys == {UNKNOWN}
  }

  // ---- Adding one slot ------------------------------------------------------

  /** The rule in one line per case: unknown replaces the set, an unknown set
  gains nothing, and any other slot keeps an earlier stale bit. */
  function Record(pts: Pointees, target: Slot, stale: bool): Pointees {
    if target == UNKNOWN then map[target := StaleIn(pts, target) || stale]
    else if IsUnknown(pts) then pts
    else pts[target := StaleIn(pts, target) || stale]
  }

  function AddKnownToOne(pts: Pointees, target: Slot, stale: bool): Pointees
    requires |pts| == 1
  {
    SingletonKey(pts);
    var previous :| previous in pts;
    if previous == UNKNOWN then pts
    else pts[target := if previous == target then stale || pts[previous] else stale]
  }

  lemma SingletonKey(pts: Pointees)
    requires |pts| == 1
    ensures exists k :: k in pts
    ensures forall j, k | j in pts && k in pts :: j == k
  {
    assert |pts.Keys| == 1;
    var k :| k in pts.Keys;
    assert |pts.Keys - {k}| == 0;
    assert pts.Keys == {k};
  }

  /** The addition as the engine performs it, with its special cases for the
  empty and the one-element set. */
  function Add(pts: Pointees, target: Slot, stale: bool): Pointees {
    if target == UNKNOWN then
      var kept := map other | other in pts && other == target :: pts[other];
      kept[target := StaleIn(kept, target) || stale]
    else if |pts| == 0 then map[target := stale]
    else if |pts| == 1 then AddKnownToOne(pts, target, stale)
    else if IsUnknown(pts) then pts
    else pts[target := StaleIn(pts, target) || stale]
  }

  /** The special cases change nothing. */
  lemma AddIsRecord(pts: Pointees, target: Slot, stale: bool)
    ensures Add(pts, target, stale) == Record(pts, target, stale)
  {
    if target != UNKNOWN {
      if |pts| == 0 {
        assert pts == map[];
      } else if |pts| == 1 {
        SingletonKey(pts);
      }
    }
  }

  // ---- Joining two sets -----------------------------------------------------

  /** The least upper bound of two sets. */
  function Join(a: Pointees, b: Pointees): Pointees {
    if IsUnknown(a) || IsUnknown(b) then map[UNKNOWN := StaleIn(a, UNKNOWN) || StaleIn(b, UNKNOWN)]
    else map target | target in a.Keys + b.Keys :: StaleIn(a, target) || StaleIn(b, target)
  }

  /** a admits no more than b: every slot of a is in b, stale only where b says
  so, and only unknown is above unknown. */
  predicate Below(a: Pointees, b: Pointees) {
    if IsUnknown(b) then StaleIn(a, UNKNOWN) ==> StaleIn(b, UNKNOWN)
    else forall target | target in a :: target in b && (a[target] ==> b[target])
  }

  /** Pointee sets form a join-semilattice in which unknown absorbs. */
  lemma JoinLaws(a: Pointees, b: Pointees, c: Pointees)
    requires Normal(a) && Normal(b) && Normal(c)
    ensures Normal(Join(a, b))
    ensures Join(a, a) == a
    ensures Join(a, b) == Join(b, a)
    ensures Join(Join(a, b), c) == Join(a, Join(b, c))
    ensures Below(a, b) <==> Join(a, b) == b
  {
    JoinAssociates(a, b, c);
    JoinIsBound(a, b);
  }

  lemma JoinAssociates(a: Pointees, b: Pointees, c: Pointees)
    requires Normal(a) && Normal(b) && Normal(c)
    ensures Join(Join(a, b), c) == Join(a, Join(b, c))
  {
    var l, r := Join(Join(a, b), c), Join(a, Join(b, c));
    assert l.Keys == r.Keys;
    assert forall t | t in l :: l[t] == r[t];
  }

  lemma JoinIsBound(a: Pointees, b: Pointees)
    requires Normal(a) && Normal(b)
    ensures Below(a, b) <==> Join(a, b) == b
  {
    if Join(a, b) == b && !IsUnknown(b) {
      forall target | target in a ensures target in b && (a[target] ==> b[target]) {
        assert target in Join(a, b);
      }
    }
  }

  type Item = (Slot, bool)

  /** items lists the set once in some order, as a range over a Go map does. */
  predicate Enumerates(items: seq<Item>, pts: Pointees) {
    |items| == |pts| && (forall i | 0 <= i < |items| :: items[i] in pts.Items) &&
    forall item | item in pts.Items :: item in items
  }

  function RecordAll(pts: Pointees, items: seq<Item>): Pointees
    decreases |items|
  {
    if items == [] then pts
    else RecordAll(Record(pts, items[0].0, items[0].1), items[1..])
  }

  /** The engine's union: whether the destination is unknown is computed once
  and updated, rather than looked up at each addition. */
  function UnionAll(pts: Pointees, unknown: bool, items: seq<Item>): Pointees
    decreases |items|
  {
    if items == [] then pts
    else
      var (target, stale) := items[0];
      if target == UNKNOWN then UnionAll(Add(pts, target, stale), true, items[1..])
      else if unknown then UnionAll(pts, true, items[1..])
      else UnionAll(pts[target := StaleIn(pts, target) || stale], false, items[1..])
  }

  lemma {:induction false} UnionIsRecordAll(pts: Pointees, unknown: bool, items: seq<Item>)
    requires unknown == IsUnknown(pts)
    ensures UnionAll(pts, unknown, items) == RecordAll(pts, items)
    decreases |items|
  {
    if items != [] {
      var (target, stale) := items[0];
      AddIsRecord(pts, target, stale);
      UnionIsRecordAll(Record(pts, target, stale), unknown || target == UNKNOWN, items[1..]);
    }
  }

  lemma {:induction false} RecordAllAppend(pts: Pointees, items: seq<Item>, last: Item)
    ensures RecordAll(pts, items + [last]) == Record(RecordAll(pts, items), last.0, last.1)
    decreases |items|
  {
    if items == [] {
      assert items + [last] == [last];
    } else {
      assert (items + [last])[1..] == items[1..] + [last];
      RecordAllAppend(Record(pts, items[0].0, items[0].1), items[1..], last);
    }
  }

  function SetOf(items: seq<Item>): Pointees {
    RecordAll(map[], items)
  }

  lemma RecordJoins(pts: Pointees, target: Slot, stale: bool)
    requires Normal(pts)
    ensures Record(pts, target, stale) == Join(pts, map[target := stale])
    ensures Normal(Record(pts, target, stale))
    ensures Record(map[], target, stale) == map[target := stale]
  {
  }

  /** Adding items one by one joins the set they make up. */
  lemma {:induction false} RecordAllJoins(pts: Pointees, items: seq<Item>)
    requires Normal(pts)
    ensures Normal(SetOf(items)) && RecordAll(pts, items) == Join(pts, SetOf(items))
    decreases |items|
  {
    if items == [] {
    } else {
      var one: Pointees := map[items[0].0 := items[0].1];
      RecordJoins(pts, items[0].0, items[0].1);
      RecordJoins(map[], items[0].0, items[0].1);
      RecordAllJoins(Join(pts, one), items[1..]);
      RecordAllJoins(one, items[1..]);
      JoinAssociates(pts, one, SetOf(items[1..]));
      assert Normal(Join(one, SetOf(items[1..])));
    }
  }

  /** Whatever the order, folding a set's own items rebuilds the set. */
  lemma EnumerationRebuilds(items: seq<Item>, pts: Pointees)
    requires Normal(pts) && Enumerates(items, pts)
    ensures SetOf(items) == pts
  {
    if IsUnknown(pts) {
      assert |pts.Keys| == 1;
      assert |items| == 1 && items[0] in pts.Items;
      assert RecordAll(map[], items) == RecordAll(Record(map[], UNKNOWN, pts[UNKNOWN]), []);
    } else {
      FoldKnown(map[], items, pts);
    }
  }

  lemma {:induction false} FoldKnown(start: Pointees, items: seq<Item>, pts: Pointees)
    requires !IsUnknown(pts)
    requires forall i | 0 <= i < |items| :: items[i] in pts.Items
    requires forall t | t in start :: t in pts && start[t] == pts[t]
    requires forall item | item in pts.Items :: item.0 in start || item in items
    ensures RecordAll(start, items) == pts
    decreases |items|
  {
    if items == [] {
      forall t | t in pts ensures t in start {
        assert (t, pts[t]) in pts.Items;
      }
      assert start == pts;
    } else {
      assert items[0].0 in pts && pts[items[0].0] == items[0].1;
      FoldKnown(start[items[0].0 := items[0].1], items[1..], pts);
    }
  }

  /** The union the engine computes is the join, in every iteration order. */
  lemma UnionIsJoin(pts: Pointees, other: Pointees, items: seq<Item>)
    requires Normal(pts) && Normal(other) && Enumerates(items, other)
    ensures UnionAll(pts, IsUnknown(pts), items) == Join(pts, other)
  {
    UnionIsRecordAll(pts, IsUnknown(pts), items);
    EnumerationRebuilds(items, other);
    RecordAllJoins(pts, items);
  }

  /** items lists the part of the set that remaining does not hold. */
  ghost predicate SplitsInto(pts: Pointees, items: seq<Item>, remaining: Pointees) {
    && remaining.Keys <= pts.Keys
    && (forall t | t in remaining :: remaining[t] == pts[t])
    && |items| + |remaining| == |pts|
    && (forall i | 0 <= i < |items| :: items[i] in pts.Items)
    && forall t | t in pts :: t in remaining || (t, pts[t]) in items
  }

  lemma SplitOne(pts: Pointees, items: seq<Item>, remaining: Pointees, target: Slot)
    requires SplitsInto(pts, items, remaining) && target in remaining
    ensures SplitsInto(pts, items + [(target, remaining[target])], remaining - {target})
  {
    assert |remaining - {target}| == |remaining| - 1 by {
      assert (remaining - {target}).Keys == remaining.Keys - {target};
    }
  }

  lemma SplitAll(pts: Pointees, items: seq<Item>)
    requires SplitsInto(pts, items, map[])
    ensures Enumerates(items, pts)
  {
    forall item | item in pts.Items ensures item in items {
      assert item == (item.0, pts[item.0]);
    }
  }

  // ---- Bounded history ------------------------------------------------------

  function RememberAll(held: Pointees, items: seq<Item>): Pointees
    decreases |items|
  {
    if items == [] then held
    else
      var next := Add(held, items[0].0, items[0].1);
      if |next| > POINTEE_LIMIT then map[UNKNOWN := false] else RememberAll(next, items[1..])
  }

  /** The engine leaves an unknown history alone. */
  function Remember(held: Pointees, items: seq<Item>): Pointees {
    if IsUnknown(held) then held else RememberAll(held, items)
  }

  /** What the history holds after it is given a value. */
  function Remembered(held: Pointees, value: Pointees): Pointees {
    if IsUnknown(held) then held
    else if |Join(held, value)| > POINTEE_LIMIT then map[UNKNOWN := false]
    else Join(held, value)
  }

  /** Stopping at the first overfull set gives the same history as joining the
  whole value first, so the iteration order cannot show. */
  lemma RememberIgnoresOrder(held: Pointees, value: Pointees, items: seq<Item>)
    requires Normal(held) && |held| <= POINTEE_LIMIT
    requires Normal(value) && Enumerates(items, value)
    ensures Remember(held, items) == Remembered(held, value)
    ensures Normal(Remembered(held, value)) && |Remembered(held, value)| <= POINTEE_LIMIT
  {
    if IsUnknown(held) {
    } else if IsUnknown(value) {
      RememberUnknown(held, value, items);
    } else {
      RememberOrderly(held, value, items);
    }
  }

  lemma RememberOrderly(held: Pointees, value: Pointees, items: seq<Item>)
    requires !IsUnknown(held) && |held| <= POINTEE_LIMIT && !IsUnknown(value) && Enumerates(items, value)
    ensures RememberAll(held, items) == Remembered(held, value)
    ensures Normal(Remembered(held, value)) && |Remembered(held, value)| <= POINTEE_LIMIT
  {
    EnumerationRebuilds(items, value);
    RememberKnown(held, items);
  }

  lemma RememberUnknown(held: Pointees, value: Pointees, items: seq<Item>)
    requires Normal(held) && !IsUnknown(held)
    requires Normal(value) && IsUnknown(value) && Enumerates(items, value)
    ensures RememberAll(held, items) == Join(held, value) && |Join(held, value)| == 1
  {
    var stale := value[UNKNOWN];
    assert value == map[UNKNOWN := stale];
    assert |value.Keys| == 1;
    assert |items| == 1 && items[0] in value.Items;
    AddIsRecord(held, UNKNOWN, stale);
    assert Record(held, UNKNOWN, stale) == map[UNKNOWN := stale];
    assert |map[UNKNOWN := stale]| == 1;
    assert RememberAll(map[UNKNOWN := stale], items[1..]) == map[UNKNOWN := stale];
  }

  lemma {:induction false} RememberKnown(held: Pointees, items: seq<Item>)
    requires !IsUnknown(held) && |held| <= POINTEE_LIMIT
    requires forall i | 0 <= i < |items| :: items[i].0 != UNKNOWN
    ensures RememberAll(held, items) ==
            if |RecordAll(held, items)| > POINTEE_LIMIT then map[UNKNOWN := false] else RecordAll(held, items)
    ensures RecordAll(held, items) == Join(held, SetOf(items))
    decreases |items|
  {
    RecordAllJoins(held, items);
    if items != [] {
      AddIsRecord(held, items[0].0, items[0].1);
      var next := Record(held, items[0].0, items[0].1);
      RecordAllGrows(next, items[1..]);
      if |next| <= POINTEE_LIMIT {
        RememberKnown(next, items[1..]);
      }
    }
  }

  lemma {:induction false} RecordAllGrows(start: Pointees, items: seq<Item>)
    requires !IsUnknown(start)
    requires forall i | 0 <= i < |items| :: items[i].0 != UNKNOWN
    ensures start.Keys <= RecordAll(start, items).Keys && |start| <= |RecordAll(start, items)|
    decreases |items|
  {
    if items != [] {
      RecordAllGrows(Record(start, items[0].0, items[0].1), items[1..]);
    }
    SubsetSize(start.Keys, RecordAll(start, items).Keys);
  }

  lemma SubsetSize<T>(a: set<T>, b: set<T>)
    requires a <= b
    ensures |a| <= |b|
  {
    assert b == a + (b - a);
  }

  // ---- The mutable set ------------------------------------------------------

  /** A pointee set as the engine mutates it in place. */
  class PointeeSet {
    var held: Pointees

    constructor (initial: Pointees)
      ensures held == initial
    {
      held := initial;
    }

    /** Adds one slot in place. */
    method AddSlot(target: Slot, stale: bool)
      modifies this
      ensures held == Record(old(held), target, stale)
    {
      AddIsRecord(held, target, stale);
      if target == UNKNOWN {
        var kept := map other | other in held && other == target :: held[other];
        held := kept[target := StaleIn(kept, target) || stale];
      } else if |held| == 0 {
        held := map[target := stale];
      } else if |held| == 1 {
        held := AddKnownToOne(held, target, stale);
      } else if !IsUnknown(held) {
        held := held[target := StaleIn(held, target) || stale];
      }
    }

    /** Adds every slot of another set, in an arbitrary order. */
    method Union(other: Pointees)
      requires Normal(held) && Normal(other)
      modifies this
      ensures held == Join(old(held), other) && Normal(held)
    {
      var unknown := IsUnknown(held);
      var remaining := other;
      ghost var items: seq<Item> := [];
      while remaining != map[]
        invariant SplitsInto(other, items, remaining)
        invariant held == RecordAll(old(held), items) && unknown == IsUnknown(held)
        decreases |remaining|
      {
        var target :| target in remaining;
        var stale := remaining[target];
        RecordAllAppend(old(held), items, (target, stale));
        SplitOne(other, items, remaining, target);
        if target == UNKNOWN {
          AddSlot(target, stale);
          unknown := true;
        } else if !unknown {
          held := held[target := StaleIn(held, target) || stale];
        }
        items := items + [(target, stale)];
        remaining := remaining - {target};
      }
      SplitAll(other, items);
      EnumerationRebuilds(items, other);
      RecordAllJoins(old(held), items);
    }
  }
}
