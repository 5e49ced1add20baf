/** The heap-summary registry: what is held for each function, and how often
the held summary was replaced or dropped. */
module SummaryRegistry {
  import opened Options
  import opened GraphCache

  /** Summaries are taken up to the engine's own comparison, so two that
  compare equal are one. A missing entry records a projection that failed. */
  datatype Held = Ready(summary: Summary, onDemand: bool) | Projecting | Missing

  datatype Registry = Registry(entries: map<Func, Held>, generations: map<Func, nat>)

  const EMPTY_REGISTRY := Registry(map[], map[])

  const SUMMARY_LIMIT := 131072

  function Generation(r: Registry, f: Func): nat {
    if f in r.generations then r.generations[f] else 0
  }

  function Bumped(generations: map<Func, nat>, f: Func): map<Func, nat> {
    generations[f := (if f in generations then generations[f] else 0) + 1]
  }

  predicate Holds(r: Registry, f: Func, summary: Summary) {
    f in r.entries && r.entries[f].Ready? && r.entries[f].summary == summary
  }

  predicate OnDemand(r: Registry, f: Func) {
    f in r.entries && r.entries[f].Ready? && r.entries[f].onDemand
  }

  /** Whether registering the summary changes what the registry answers. */
  predicate Changes(r: Registry, f: Func, summary: Summary) {
    if f in r.entries then !Holds(r, f, summary) else |r.entries| < SUMMARY_LIMIT
  }

  function Registered(r: Registry, f: Func, summary: Summary): Registry {
    if f !in r.entries && |r.entries| >= SUMMARY_LIMIT then r
    else Registry(r.entries[f := Ready(summary, false)],
                  if Changes(r, f, summary) then Bumped(r.generations, f) else r.generations)
  }

  function Forgotten(r: Registry, f: Func): Registry {
    if OnDemand(r, f) then Registry(r.entries - {f}, Bumped(r.generations, f)) else r
  }

  function ProjectionBegun(r: Registry, f: Func): Registry {
    if f in r.entries then r else r.(entries := r.entries[f := Projecting])
  }

  /** A registration that landed while the projection ran stands. */
  function ProjectionEnded(r: Registry, f: Func, projected: Option<Summary>): Registry {
    if f in r.entries && !r.entries[f].Projecting? then r
    else r.(entries := r.entries[f := if projected.Some? then Ready(projected.value, true) else Missing])
  }

  /** A registration is refused only for a new function when the registry is full;
  otherwise the summary is held, and the generation moves exactly when it was
  not held before. */
  lemma RegisterExactly(r: Registry, f: Func, summary: Summary)
    ensures var after := Registered(r, f, summary);
            && (if f in r.entries || |r.entries| < SUMMARY_LIMIT then
                  Holds(after, f, summary) && !OnDemand(after, f)
                else after == r)
            && (Changes(r, f, summary) <==> Holds(after, f, summary) && !Holds(r, f, summary))
            && Generation(after, f) == Generation(r, f) + (if Changes(r, f, summary) then 1 else 0)
            && (|r.entries| <= SUMMARY_LIMIT ==> |after.entries| <= SUMMARY_LIMIT)
  {
    if f in r.entries {
      assert r.entries[f := Ready(summary, false)].Keys == r.entries.Keys;
    } else {
      assert r.entries[f := Ready(summary, false)].Keys == r.entries.Keys + {f};
    }
  }

  /** Each critical section under the registry lock that writes. */
  datatype Write =
    | Register(f: Func, summary: Summary)
    | Forget(f: Func)
    | BeginProjection(f: Func)
    | EndProjection(f: Func, projected: Option<Summary>)

  function After(r: Registry, w: Write): Registry {
    match w
    case Register(f, summary) => Registered(r, f, summary)
    case Forget(f) => Forgotten(r, f)
    case BeginProjection(f) => ProjectionBegun(r, f)
    case EndProjection(f, projected) => ProjectionEnded(r, f, projected)
  }

  function AfterAll(r: Registry, writes: seq<Write>): Registry
    decreases |writes|
  {
    if writes == [] then r else After(AfterAll(r, writes[..|writes| - 1]), writes[|writes| - 1])
  }

  /** A ready summary stands until the generation moves, across any writes by
  any analyzers: reading the generation first and the summary second is safe. */
  lemma {:induction false} ReadyUntilGenerationMoves(r: Registry, writes: seq<Write>, f: Func, summary: Summary)
    requires Holds(r, f, summary)
    ensures Generation(r, f) <= Generation(AfterAll(r, writes), f)
    ensures Generation(AfterAll(r, writes), f) == Generation(r, f) ==> Holds(AfterAll(r, writes), f, summary)
    decreases |writes|
  {
    if writes != [] {
      var front := writes[..|writes| - 1];
      ReadyUntilGenerationMoves(r, front, f, summary);
    }
  }

  /** An on-demand summary leaves the registry only with its generation, and
  a plain registration of another function leaves it alone. */
  lemma DroppedWithGeneration(r: Registry, w: Write, f: Func)
    requires OnDemand(r, f) && !OnDemand(After(r, w), f) && !(w.Register? && w.f == f)
    ensures Generation(After(r, w), f) == Generation(r, f) + 1 && f !in After(r, w).entries
  {
  }

  /** A registration of the function, with none of it afterwards. */
  predicate LastRegistration(writes: seq<Write>, k: int, f: Func) {
    && 0 <= k < |writes| && writes[k].Register? && writes[k].f == f
    && forall m | k < m < |writes| :: !(writes[m].Register? && writes[m].f == f)
  }

  predicate NoneRegistered(writes: seq<Write>, f: Func) {
    forall w | w in writes :: !(w.Register? && w.f == f)
  }

  /** Being projected, or registered since. */
  predicate Awaited(r: Registry, f: Func) {
    f in r.entries && (r.entries[f].Projecting? || (r.entries[f].Ready? && !r.entries[f].onDemand))
  }

  lemma WriteWhileAwaited(r: Registry, f: Func, w: Write)
    requires Awaited(r, f) && !(w.f == f && w.EndProjection?)
    ensures var after := After(r, w);
            && Awaited(after, f)
            && if w.Register? && w.f == f then after.entries[f] == Ready(w.summary, false)
               else after.entries[f] == r.entries[f] && Generation(after, f) == Generation(r, f)
  {
  }

  /** While a function is being projected only a registration of it lands. */
  lemma {:induction false} WhileProjecting(r: Registry, f: Func, writes: seq<Write>)
    requires f in r.entries && r.entries[f].Projecting? && forall w | w in writes && w.f == f :: !w.EndProjection?
    ensures var later := AfterAll(r, writes);
            && Awaited(later, f)
            && (NoneRegistered(writes, f) ==> later.entries[f].Projecting? && Generation(later, f) == Generation(r, f))
            && (forall k | LastRegistration(writes, k, f) :: later.entries[f] == Ready(writes[k].summary, false))
    decreases |writes|
  {
    if writes != [] {
      var n := |writes|;
      var front, last := writes[..n - 1], writes[n - 1];
      assert writes == front + [last];
      WhileProjecting(r, f, front);
      WriteWhileAwaited(AfterAll(r, front), f, last);
      forall k | LastRegistration(writes, k, f)
        ensures AfterAll(r, writes).entries[f] == Ready(writes[k].summary, false)
      {
        assert k < n - 1 ==> LastRegistration(front, k, f);
      }
    }
  }

  /** What an asker for a summary gets that had to project it, whatever others
  write meanwhile: its own projection, kept on demand under the same generation;
  or the summary last registered, if one was; or that there is none. */
  lemma ProjectionAnswers(r: Registry, f: Func, writes: seq<Write>, projected: Option<Summary>)
    requires f !in r.entries && forall w | w in writes && w.f == f :: !w.EndProjection?
    ensures var end := ProjectionEnded(AfterAll(ProjectionBegun(r, f), writes), f, projected);
            && (NoneRegistered(writes, f) && projected.Some? ==>
                  Holds(end, f, projected.value) && OnDemand(end, f) && Generation(end, f) == Generation(r, f))
            && (NoneRegistered(writes, f) && projected.None? ==> f in end.entries && end.entries[f].Missing?)
            && (forall k | LastRegistration(writes, k, f) :: Holds(end, f, writes[k].summary) && !OnDemand(end, f))
  {
    WhileProjecting(ProjectionBegun(r, f), f, writes);
  }
}
