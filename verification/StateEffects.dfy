/** Effects the graph cannot follow: what a call may forget and what it lets out. */
module StateEffects {
  import opened SlotPaths
  import opened PointeeSets
  import opened RegionStates
  import opened Graphs

  type Contents = map<Slot, Pointees>

  /** The instruction that let a slot out in some way. */
  type Instruction = nat

  datatype Origin = Origin(target: Slot, kind: EscapeKind)

  // ---- What an effect reaches -----------------------------------------------

  /** One of the pointees an object holds is in the other object; a cell that a
  closure's body only reads is not reached through the closure. */
  predicate PointsInto(held: Pointees, owner: Region, onlyReads: (Region, Slot) -> bool, other: Region) {
    exists p <- held.Keys :: p.region == other && !(owner.Closure? && onlyReads(owner, p))
  }

  predicate HoldsAt(contents: Contents, t: Slot, owner: Region, onlyReads: (Region, Slot) -> bool, other: Region) {
    t in contents && t.region == owner && PointsInto(contents[t], owner, onlyReads, other)
  }

  function HoldsRegion(contents: Contents, onlyReads: (Region, Slot) -> bool): (Region, Region) -> bool {
    (owner: Region, other: Region) => exists t <- contents.Keys :: HoldsAt(contents, t, owner, onlyReads, other)
  }

  ghost predicate ClobberReaches(contents: Contents, onlyReads: (Region, Slot) -> bool, roots: Pointees,
                                 owner: Region)
  {
    exists root <- roots.Keys :: Reaches(HoldsRegion(contents, onlyReads), root.region, owner)
  }

  /** What is left once the sites of the set are forgotten. */
  function Remaining(contents: Contents, gone: set<Region>): Contents {
    map t | t in contents && !(t.region.Site? && t.region in gone) :: contents[t]
  }

  function WholeSites(gone: set<Region>): set<Slot> {
    set r | r in gone && r.Site? :: Slot(r, [])
  }

  function Stamped(clobbered: map<Slot, int>, gone: set<Region>, stamp: int): map<Slot, int> {
    map t | t in clobbered.Keys + WholeSites(gone) :: if t in WholeSites(gone) then stamp else clobbered[t]
  }

  function RegionsOf(slots: set<Slot>): set<Region> {
    set t | t in slots :: t.region
  }

  function AllRegions(contents: Contents, roots: Pointees): set<Region> {
    RegionsOf(roots.Keys) + set t, p | t in contents && p in contents[t] :: p.region
  }

  /** A slot is held beneath another; nil and unknown are not let out. */
  predicate LetsOut(target: Slot) {
    target.region != NilRegion && target.region != UnknownRegion
  }

  function HeldBeneath(contents: Contents): (Slot, Slot) -> bool {
    (target: Slot, held: Slot) => LetsOut(held) && exists t <- contents.Keys ::
      Beneath(t, target) && held in contents[t]
  }

  ghost predicate EscapeReaches(contents: Contents, roots: Pointees, target: Slot) {
    exists root <- roots.Keys :: LetsOut(root) && Reaches(HeldBeneath(contents), root, target)
  }

  /** An object of the function, of a caller or of unfollowed code. */
  predicate IsObject(region: Region) {
    region.Site? || region.External? || region.Opaque? || region.Placeholder? || region.Closure?
  }

  /** What escapes is an object: each one escaping on its own, and each one held
  beneath a slot that escapes. */
  lemma EscapingObjects(contents: Contents, roots: Pointees, t: Slot, target: Slot, held: Slot)
    ensures EscapeReaches(contents, roots, t) ==> IsObject(t.region)
    ensures t in roots && IsObject(t.region) ==> EscapeReaches(contents, roots, t)
    ensures EscapeReaches(contents, roots, target) && IsObject(held.region) ==>
              t in contents && Beneath(t, target) && held in contents[t] ==> EscapeReaches(contents, roots, held)
  {
    var edge := HeldBeneath(contents);
    if EscapeReaches(contents, roots, t) {
      var root :| root in roots.Keys && LetsOut(root) && Reaches(edge, root, t);
      var path :| PathFrom(edge, path, root, t);
      assert |path| > 1 ==> edge(path[|path| - 2], path[|path| - 1]);
    }
    if t in roots && IsObject(t.region) {
      ReachesSelf(edge, t);
    }
    if EscapeReaches(contents, roots, target) && edge(target, held) {
      var root :| root in roots.Keys && LetsOut(root) && Reaches(edge, root, target);
      EdgeReaches(edge, target, held);
      ReachesTransitive(edge, root, target, held);
    }
  }

  function AllSlots(contents: Contents, roots: Pointees): set<Slot> {
    roots.Keys + set t, p | t in contents && p in contents[t] :: p
  }

  function Escaping(escapes: map<Slot, set<EscapeKind>>, target: Slot): set<EscapeKind> {
    if target in escapes then escapes[target] else {}
  }

  /** The escapes once every slot of the set has escaped in the given ways. */
  function Escapes(escapes: map<Slot, set<EscapeKind>>, out: set<Slot>,
                   kind: set<EscapeKind>): map<Slot, set<EscapeKind>>
  {
    map t | t in escapes.Keys + out :: if t in out then Escaping(escapes, t) + kind else escapes[t]
  }

  function SitesOf(out: set<Slot>): set<Region> {
    set t | t in out && t.region.Site? :: t.region
  }

  /** The local objects let out are those with some slot that is. */
  lemma SitesExactly(out: set<Slot>, region: Region)
    ensures region in SitesOf(out) <==> region.Site? && exists t :: t in out && t.region == region
  {
  }

  /** Every way a slot escaped has an instruction recorded for it. */
  ghost predicate Recorded(escapes: map<Slot, set<EscapeKind>>, origins: map<Origin, Instruction>) {
    forall t, kind | t in escapes && kind in escapes[t] :: Origin(t, kind) in origins
  }

  /** Records are kept; a new one names a slot let out and the instruction. */
  ghost predicate OriginsGrow(before: map<Origin, Instruction>, after: map<Origin, Instruction>, out: set<Slot>,
                              kind: set<EscapeKind>, at: Instruction)
  {
    (forall o | o in before :: o in after && after[o] == before[o]) &&
    forall o | o in after && o !in before :: o.target in out && o.kind in kind && after[o] == at
  }

  // ---- The clobber walk -----------------------------------------------------

  /** What was forgotten is reached; what it held is forgotten or queued. */
  ghost predicate ClobberWalk(contents: Contents, onlyReads: (Region, Slot) -> bool, roots: Pointees, seen: set<Region>,
                              queue: seq<Region>)
  {
    && (forall r | r in seen || r in queue ::
      r in AllRegions(contents, roots) && ClobberReaches(contents, onlyReads, roots, r))
    && (forall root | root in roots :: root.region in seen || root.region in queue)
    && forall r, s | r in seen && HoldsRegion(contents, onlyReads)(r, s) :: s in seen || s in queue
  }

  ghost predicate ListsHeld(contents: Contents, onlyReads: (Region, Slot) -> bool, owner: Region, next: seq<Region>) {
    forall r :: r in next <==> HoldsRegion(contents, onlyReads)(owner, r)
  }

  lemma HeldRegionListed(contents: Contents, onlyReads: (Region, Slot) -> bool, roots: Pointees, owner: Region,
                         other: Region)
    requires HoldsRegion(contents, onlyReads)(owner, other)
    ensures other in AllRegions(contents, roots)
  {
    var t :| t in contents.Keys && HoldsAt(contents, t, owner, onlyReads, other);
    assert PointsInto(contents[t], owner, onlyReads, other);
    var p :| p in contents[t] && p.region == other;
  }

  lemma ClobberStep(contents: Contents, onlyReads: (Region, Slot) -> bool, roots: Pointees, seen: set<Region>,
                    queue: seq<Region>, next: seq<Region>)
    requires ClobberWalk(contents, onlyReads, roots, seen, queue) && queue != []
    requires ListsHeld(contents, onlyReads, queue[0], next)
    ensures ClobberWalk(contents, onlyReads, roots, seen + {queue[0]}, queue[1..] + next)
  {
    var owner, edge := queue[0], HoldsRegion(contents, onlyReads);
    assert queue == [owner] + queue[1..] && owner in queue;
    forall r | r in next ensures r in AllRegions(contents, roots) && ClobberReaches(contents, onlyReads, roots, r) {
      HeldRegionListed(contents, onlyReads, roots, owner, r);
      var root :| root in roots.Keys && Reaches(edge, root.region, owner);
      EdgeReaches(edge, owner, r);
      ReachesTransitive(edge, root.region, owner, r);
    }
  }

  lemma ClobberEnds(contents: Contents, onlyReads: (Region, Slot) -> bool, roots: Pointees, seen: set<Region>)
    requires ClobberWalk(contents, onlyReads, roots, seen, [])
    ensures forall r :: r in seen <==> ClobberReaches(contents, onlyReads, roots, r)
  {
    forall r | ClobberReaches(contents, onlyReads, roots, r) ensures r in seen {
      var root :| root in roots.Keys && Reaches(HoldsRegion(contents, onlyReads), root.region, r);
      ClosedReach(HoldsRegion(contents, onlyReads), seen, root.region, r);
    }
  }

  /** Forgetting visited sites changes nothing about an object not visited. */
  lemma UnvisitedUnchanged(contents: Contents, onlyReads: (Region, Slot) -> bool, seen: set<Region>, owner: Region,
                           next: seq<Region>)
    requires owner !in seen && ListsHeld(Remaining(contents, seen), onlyReads, owner, next)
    ensures ListsHeld(contents, onlyReads, owner, next)
  {
    var left := Remaining(contents, seen);
    forall t, r ensures HoldsAt(left, t, owner, onlyReads, r) <==> HoldsAt(contents, t, owner, onlyReads, r) {
    }
    forall r ensures HoldsRegion(left, onlyReads)(owner, r) <==> HoldsRegion(contents, onlyReads)(owner, r) {
      if t :| HoldsAt(left, t, owner, onlyReads, r) {
        assert HoldsAt(contents, t, owner, onlyReads, r);
      }
      if t :| HoldsAt(contents, t, owner, onlyReads, r) {
        assert HoldsAt(left, t, owner, onlyReads, r);
      }
    }
  }

  /** Stamping and forgetting one more site. */
  lemma ForgetOneMore(contents: Contents, clobbered: map<Slot, int>, seen: set<Region>, owner: Region, stamp: int)
    requires owner.Site?
    ensures Remaining(contents, seen + {owner}) ==
            map t | t in Remaining(contents, seen) && !Beneath(t, Slot(owner, [])) :: Remaining(contents, seen)[t]
    ensures Stamped(clobbered, seen + {owner}, stamp) == Stamped(clobbered, seen, stamp)[Slot(owner, []) := stamp]
  {
    assert WholeSites(seen + {owner}) == WholeSites(seen) + {Slot(owner, [])};
  }

  lemma ForgetNoSite(contents: Contents, clobbered: map<Slot, int>, seen: set<Region>, owner: Region, stamp: int)
    requires !owner.Site?
    ensures Remaining(contents, seen + {owner}) == Remaining(contents, seen)
    ensures Stamped(clobbered, seen + {owner}, stamp) == Stamped(clobbered, seen, stamp)
  {
    assert WholeSites(seen + {owner}) == WholeSites(seen);
  }

  // ---- The escape walk ------------------------------------------------------

  ghost predicate EscapeWalk(contents: Contents, roots: Pointees, seen: set<Slot>, done: set<Slot>, queue: seq<Slot>) {
    && (forall t :: t in seen <==> t in done || t in queue)
    && (forall t | t in seen :: t in AllSlots(contents, roots) && EscapeReaches(contents, roots, t))
    && (forall root | root in roots && LetsOut(root) :: root in seen)
    && forall t, s | t in done && HeldBeneath(contents)(t, s) :: s in seen
  }

  ghost predicate ListsBeneath(contents: Contents, target: Slot, next: set<Slot>) {
    forall s :: s in next <==> HeldBeneath(contents)(target, s)
  }

  lemma BeneathReached(contents: Contents, roots: Pointees, target: Slot, next: set<Slot>)
    requires ListsBeneath(contents, target, next) && EscapeReaches(contents, roots, target)
    ensures forall s | s in next :: s in AllSlots(contents, roots) && EscapeReaches(contents, roots, s)
  {
    var edge := HeldBeneath(contents);
    var root :| root in roots.Keys && LetsOut(root) && Reaches(edge, root, target);
    forall s | s in next ensures s in AllSlots(contents, roots) && EscapeReaches(contents, roots, s) {
      assert edge(target, s);
      EdgeReaches(edge, target, s);
      ReachesTransitive(edge, root, target, s);
    }
  }

  lemma EscapeStep(contents: Contents, roots: Pointees, seen: set<Slot>, done: set<Slot>, queue: seq<Slot>,
                   more: seq<Slot>, next: set<Slot>)
    requires EscapeWalk(contents, roots, seen, done, queue) && queue != []
    requires ListsBeneath(contents, queue[0], next) && forall s :: s in more <==> s in next && s !in seen
    ensures EscapeWalk(contents, roots, seen + next, done + {queue[0]}, queue[1..] + more)
  {
    var target := queue[0];
    assert queue == [target] + queue[1..] && target in queue;
    BeneathReached(contents, roots, target, next);
    StillClosed(contents, seen, done, target, next);
    StillListed(seen, done, queue, more, next);
  }

  lemma StillListed(seen: set<Slot>, done: set<Slot>, queue: seq<Slot>, more: seq<Slot>, next: set<Slot>)
    requires queue != [] && forall t :: t in seen <==> t in done || t in queue
    requires forall s :: s in more <==> s in next && s !in seen
    ensures forall t :: t in seen + next <==> t in done + {queue[0]} || t in queue[1..] + more
  {
    assert queue == [queue[0]] + queue[1..];
  }

  lemma StillClosed(contents: Contents, seen: set<Slot>, done: set<Slot>, target: Slot, next: set<Slot>)
    requires forall t, s | t in done && HeldBeneath(contents)(t, s) :: s in seen
    requires ListsBeneath(contents, target, next)
    ensures forall t, s | t in done + {target} && HeldBeneath(contents)(t, s) :: s in seen + next
  {
  }

  lemma EscapeEnds(contents: Contents, roots: Pointees, seen: set<Slot>, done: set<Slot>)
    requires EscapeWalk(contents, roots, seen, done, [])
    ensures forall t :: t in done <==> EscapeReaches(contents, roots, t)
  {
    forall t | EscapeReaches(contents, roots, t) ensures t in done {
      var root :| root in roots.Keys && LetsOut(root) && Reaches(HeldBeneath(contents), root, t);
      ClosedReach(HeldBeneath(contents), done, root, t);
    }
  }

  lemma EscapeOneMore(escapes: map<Slot, set<EscapeKind>>, done: set<Slot>, target: Slot, kind: set<EscapeKind>)
    ensures Escapes(escapes, done + {target}, kind) ==
            Escapes(escapes, done, kind)[target := Escaping(Escapes(escapes, done, kind), target) + kind]
  {
  }

  // ---- The state, updated in place ------------------------------------------

  class RegionState {
    var contents: Contents
    var clobbered: map<Slot, int>
    var escaped: set<Region>
    var escapes: map<Slot, set<EscapeKind>>
    /** The graph's record of what first let a slot out in each way. */
    var origins: map<Origin, Instruction>

    constructor ()
      ensures contents == map[] && clobbered == map[] && escaped == {} && escapes == map[] && origins == map[]
    {
      contents, clobbered, escaped, escapes, origins := map[], map[], {}, map[], map[];
    }

    /** The objects the stored content of one object names. */
    method RegionsHeld(owner: Region, onlyReads: (Region, Slot) -> bool) returns (next: seq<Region>)
      ensures ListsHeld(contents, onlyReads, owner, next)
    {
      next := [];
      var slots := contents.Keys;
      while slots != {}
        invariant slots <= contents.Keys
        invariant forall r :: r in next <==>
                  exists t <- contents.Keys - slots :: HoldsAt(contents, t, owner, onlyReads, r)
      {
        var t :| t in slots;
        ghost var before := next;
        if t.region == owner {
          var more := RegionsIn(contents[t], owner, onlyReads);
          next := next + more;
        }
        assert contents.Keys - (slots - {t}) == contents.Keys - slots + {t};
        assert forall r :: r in next <==> r in before || HoldsAt(contents, t, owner, onlyReads, r);
        slots := slots - {t};
      }
    }

    static method RegionsIn(held: Pointees, owner: Region, onlyReads: (Region, Slot) -> bool)
      returns (next: seq<Region>)
      ensures forall r :: r in next <==> PointsInto(held, owner, onlyReads, r)
    {
      next := [];
      var rest := held.Keys;
      while rest != {}
        invariant rest <= held.Keys
        invariant forall r :: r in next <==>
                    exists p <- held.Keys - rest :: p.region == r && !(owner.Closure? && onlyReads(owner, p))
      {
        var p :| p in rest;
        if !(owner.Closure? && onlyReads(owner, p)) {
          next := next + [p.region];
        }
        rest := rest - {p};
      }
    }

    method ForgetSite(owner: Region, stamp: int)
      modifies this
      ensures contents == (map t | t in old(contents) && !Beneath(t, Slot(owner, [])) :: old(contents)[t])
      ensures clobbered == old(clobbered)[Slot(owner, []) := stamp]
      ensures escaped == old(escaped) && escapes == old(escapes) && origins == old(origins)
    {
      clobbered := clobbered[Slot(owner, []) := stamp];
      contents := map t | t in contents && !Beneath(t, Slot(owner, [])) :: contents[t];
    }

    /** Forgets and stamps exactly the sites reachable, in the state it was
    given, from the pointees; every other object keeps its contents. */
    method Clobber(roots: Pointees, stamp: int, onlyReads: (Region, Slot) -> bool) returns (ghost gone: set<Region>)
      modifies this
      ensures forall r :: r in gone <==> ClobberReaches(old(contents), onlyReads, roots, r)
      ensures contents == Remaining(old(contents), gone)
      ensures clobbered == Stamped(old(clobbered), gone, stamp)
      ensures escaped == old(escaped) && escapes == old(escapes) && origins == old(origins)
    {
      ghost var before, stamps := contents, clobbered;
      var queue := RegionQueue(roots);
      var seen: set<Region> := {};
      ClobberBegins(before, onlyReads, roots, queue);
      assert Remaining(before, {}) == before && Stamped(stamps, {}, stamp) == stamps by {
        assert WholeSites({}) == {};
      }
      while queue != []
        invariant ClobberWalk(before, onlyReads, roots, seen, queue)
        invariant contents == Remaining(before, seen) && clobbered == Stamped(stamps, seen, stamp)
        invariant escaped == old(escaped) && escapes == old(escapes) && origins == old(origins)
        decreases AllRegions(before, roots) - seen, |queue|
      {
        var owner := queue[0];
        assert owner in queue;
        if owner in seen {
          queue := queue[1..];
          continue;
        }
        var next := RegionsHeld(owner, onlyReads);
        UnvisitedUnchanged(before, onlyReads, seen, owner, next);
        ClobberStep(before, onlyReads, roots, seen, queue, next);
        if owner.Site? {
          ForgetOneMore(before, stamps, seen, owner, stamp);
          ForgetSite(owner, stamp);
        } else {
          ForgetNoSite(before, stamps, seen, owner, stamp);
        }
        seen, queue := seen + {owner}, queue[1..] + next;
      }
      ClobberEnds(before, onlyReads, roots, seen);
      gone := seen;
    }

    static method RegionQueue(roots: Pointees) returns (queue: seq<Region>)
      ensures forall r :: r in queue <==> exists root <- roots.Keys :: root.region == r
    {
      queue := [];
      var rest := roots.Keys;
      while rest != {}
        invariant rest <= roots.Keys
        invariant forall r :: r in queue <==> exists root <- roots.Keys - rest :: root.region == r
      {
        var root :| root in rest;
        queue := queue + [root.region];
        rest := rest - {root};
      }
    }

    /** The slots held beneath one, without nil and unknown. */
    method SlotsBeneath(target: Slot) returns (next: set<Slot>)
      ensures ListsBeneath(contents, target, next)
    {
      next := {};
      var slots := contents.Keys;
      while slots != {}
        invariant slots <= contents.Keys
        invariant forall s :: s in next <==>
                    LetsOut(s) && exists t <- contents.Keys - slots :: Beneath(t, target) && s in contents[t]
      {
        var t :| t in slots;
        if Beneath(t, target) {
          next := next + set s | s in contents[t].Keys && LetsOut(s);
        }
        slots := slots - {t};
      }
    }

    /** Records the instruction for each way the slot escapes first. */
    method RecordEscape(target: Slot, kind: set<EscapeKind>, at: Instruction)
      modifies this`origins
      ensures forall k | k in kind :: Origin(target, k) in origins
      ensures forall o | o in old(origins) :: o in origins && origins[o] == old(origins)[o]
      ensures forall o | o in origins && o !in old(origins) :: o.target == target && o.kind in kind && origins[o] == at
    {
      var rest := kind;
      while rest != {}
        invariant rest <= kind && forall k | k in kind - rest :: Origin(target, k) in origins
        invariant forall o | o in old(origins) :: o in origins && origins[o] == old(origins)[o]
        invariant forall o | o in origins && o !in old(origins) ::
                    o.target == target && o.kind in kind && origins[o] == at
      {
        var k :| k in rest;
        if Origin(target, k) !in origins {
          origins := origins[Origin(target, k) := at];
        }
        rest := rest - {k};
      }
    }

    static method Enqueue(next: set<Slot>, seen: set<Slot>) returns (more: seq<Slot>)
      ensures forall s :: s in more <==> s in next && s !in seen
    {
      more := [];
      var rest := next - seen;
      while rest != {}
        invariant rest <= next - seen && forall s :: s in more <==> s in next - seen - rest
      {
        var s :| s in rest;
        more := more + [s];
        rest := rest - {s};
      }
    }

    method EscapeSlot(target: Slot, kind: set<EscapeKind>, at: Instruction)
      requires Recorded(escapes, origins)
      modifies this
      ensures contents == old(contents) && clobbered == old(clobbered) && Recorded(escapes, origins)
      ensures escapes == old(escapes)[target := Escaping(old(escapes), target) + kind]
      ensures escaped == old(escaped) + SitesOf({target})
      ensures OriginsGrow(old(origins), origins, {target}, kind, at)
    {
      if !(kind <= Escaping(escapes, target)) {
        RecordEscape(target, kind, at);
      }
      assert forall k | k in kind :: Origin(target, k) in origins;
      escapes := escapes[target := Escaping(escapes, target) + kind];
      if target.region.Site? {
        escaped := escaped + {target.region};
      }
    }

    function Now(): Marks
      reads this
    {
      Marks(contents, clobbered, escaped, escapes, origins)
    }

    /** Lets out exactly the least set of slots that has the pointees and is
    closed under what is held beneath, nil and unknown left out; the contents
    stay, and what escapes for the first time is recorded. */
    method Escape(roots: Pointees, kind: set<EscapeKind>, at: Instruction) returns (ghost out: set<Slot>)
      requires Recorded(escapes, origins)
      modifies this
      ensures forall t :: t in out <==> EscapeReaches(contents, roots, t)
      ensures escapes == Escapes(old(escapes), out, kind) && escaped == old(escaped) + SitesOf(out)
      ensures contents == old(contents) && clobbered == old(clobbered)
      ensures Recorded(escapes, origins) && OriginsGrow(old(origins), origins, out, kind, at)
    {
      ghost var first := Now();
      var seen := set root | root in roots.Keys && LetsOut(root);
      var queue := Enqueue(seen, {});
      out := {};
      EscapeBegins(contents, roots, seen, queue);
      assert Escapes(escapes, {}, kind) == escapes && SitesOf({}) == {};
      while queue != []
        invariant LetOut(first, Now(), out, kind, at) && EscapeWalk(first.contents, roots, seen, out, queue)
        decreases AllSlots(first.contents, roots) - seen, |queue|
      {
        ghost var mid := Now();
        var target := queue[0];
        EscapeSlot(target, kind, at);
        LetOutMore(first, mid, Now(), out, target, kind, at);
        var next := SlotsBeneath(target);
        var more := Enqueue(next, seen);
        EscapeTurn(first.contents, roots, seen, out, queue, more, next);
        seen, queue, out := seen + next, queue[1..] + more, out + {target};
      }
      EscapeEnds(contents, roots, seen, out);
    }
  }

  /** What was let out so far is marked and recorded; nothing else changed. */
  ghost predicate LetOut(first: Marks, now: Marks, out: set<Slot>, kind: set<EscapeKind>, at: Instruction) {
    && now.contents == first.contents && now.clobbered == first.clobbered
    && now.escapes == Escapes(first.escapes, out, kind) && now.escaped == first.escaped + SitesOf(out)
    && Recorded(now.escapes, now.origins) && OriginsGrow(first.origins, now.origins, out, kind, at)
  }

  lemma LetOutMore(first: Marks, mid: Marks, now: Marks, out: set<Slot>, target: Slot, kind: set<EscapeKind>,
                   at: Instruction)
    requires LetOut(first, mid, out, kind, at)
    requires now.contents == mid.contents && now.clobbered == mid.clobbered && Recorded(now.escapes, now.origins)
    requires now.escapes == mid.escapes[target := Escaping(mid.escapes, target) + kind]
    requires now.escaped == mid.escaped + SitesOf({target}) && OriginsGrow(mid.origins, now.origins, {target}, kind, at)
    ensures LetOut(first, now, out + {target}, kind, at)
  {
    EscapeOneMore(first.escapes, out, target, kind);
    assert SitesOf(out + {target}) == SitesOf(out) + SitesOf({target});
  }

  /** The fields as a walk found them. */
  datatype Marks = Marks(
    contents: Contents,
    clobbered: map<Slot, int>,
    escaped: set<Region>,
    escapes: map<Slot, set<EscapeKind>>,
    origins: map<Origin, Instruction>)

  /** One turn of the walk, and why it ends. */
  lemma EscapeTurn(contents: Contents, roots: Pointees, seen: set<Slot>, done: set<Slot>, queue: seq<Slot>,
                   more: seq<Slot>, next: set<Slot>)
    requires EscapeWalk(contents, roots, seen, done, queue) && queue != []
    requires ListsBeneath(contents, queue[0], next) && forall s :: s in more <==> s in next && s !in seen
    ensures EscapeWalk(contents, roots, seen + next, done + {queue[0]}, queue[1..] + more)
    ensures more == [] ==> seen + next == seen
    ensures more != [] ==> AllSlots(contents, roots) - (seen + next) < AllSlots(contents, roots) - seen
  {
    EscapeStep(contents, roots, seen, done, queue, more, next);
    assert queue[0] in queue;
    BeneathReached(contents, roots, queue[0], next);
    EscapeShrinks(contents, roots, seen, next, more);
  }

  lemma EscapeShrinks(contents: Contents, roots: Pointees, seen: set<Slot>, next: set<Slot>, more: seq<Slot>)
    requires (forall s :: s in more <==> s in next && s !in seen) && forall s | s in next ::
               s in AllSlots(contents, roots)
    ensures more == [] ==> seen + next == seen
    ensures more != [] ==> AllSlots(contents, roots) - (seen + next) < AllSlots(contents, roots) - seen
  {
    if more != [] {
      assert more[0] in more;
    }
  }

  lemma ClobberBegins(contents: Contents, onlyReads: (Region, Slot) -> bool, roots: Pointees, queue: seq<Region>)
    requires forall r :: r in queue <==> exists root <- roots.Keys :: root.region == r
    ensures ClobberWalk(contents, onlyReads, roots, {}, queue)
  {
    forall r | r in queue ensures r in AllRegions(contents, roots) && ClobberReaches(contents, onlyReads, roots, r) {
      var root :| root in roots.Keys && root.region == r;
      ReachesSelf(HoldsRegion(contents, onlyReads), r);
    }
  }

  lemma EscapeBegins(contents: Contents, roots: Pointees, seen: set<Slot>, queue: seq<Slot>)
    requires seen == (set root | root in roots.Keys && LetsOut(root)) && forall s :: s in queue <==> s in seen
    ensures EscapeWalk(contents, roots, seen, {}, queue)
  {
    forall t | t in seen ensures EscapeReaches(contents, roots, t) {
      ReachesSelf(HeldBeneath(contents), t);
    }
  }
}
