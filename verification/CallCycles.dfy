/** Which callees can call back into their caller, and why the summaries that
are applied form no cycle. */
module CallCycles {
  import opened Graphs

  type Func = nat

  /** The static callees of each function with a body, and the package that owns
  a function. Packages are numbered in import order; a wrapper may have none. */
  datatype Program = Program(callees: map<Func, seq<Func>>, home: map<Func, nat>)

  function CalleesOf(p: Program, f: Func): seq<Func> {
    if f in p.callees then p.callees[f] else []
  }

  function Calls(p: Program): (Func, Func) -> bool {
    (f: Func, g: Func) => g in CalleesOf(p, f)
  }

  predicate SamePackage(p: Program, f: Func, g: Func) {
    f in p.home && g in p.home && p.home[f] == p.home[g]
  }

  /** Calls into the package of root. */
  function HomeCalls(p: Program, root: Func): (Func, Func) -> bool {
    (f: Func, g: Func) => g in CalleesOf(p, f) && SamePackage(p, root, g)
  }

  /** What the root reaches at home is of its package, and all of it: a callee
  of the package is reached with its caller. */
  lemma HomeExactly(p: Program, root: Func, f: Func, g: Func)
    ensures ReachesOn(HomeCalls(p, root), root, g) ==> root in p.home && g in p.home && p.home[g] == p.home[root]
    ensures f == root || ReachesOn(HomeCalls(p, root), root, f) ==>
              g in CalleesOf(p, f) && root in p.home && g in p.home && p.home[g] == p.home[root] ==>
              ReachesOn(HomeCalls(p, root), root, g)
  {
    var edge := HomeCalls(p, root);
    if path :| PathFrom(edge, path, root, g) && |path| > 1 {
      assert edge(path[|path| - 2], path[|path| - 1]);
    }
    if (f == root || ReachesOn(edge, root, f)) && edge(f, g) {
      EdgeReaches(edge, f, g);
      if f != root {
        ReachesTransitive(edge, root, f, g);
      }
    }
  }

  function Functions(p: Program): set<Func> {
    p.callees.Keys + set f, g | f in p.callees && g in p.callees[f] :: g
  }

  // ---- The worklist ---------------------------------------------------------

  /** Callees of what was reached are reached, pending or foreign. */
  ghost predicate Explored(p: Program, root: Func, reach: set<Func>, pending: seq<Func>) {
    forall f, g | (f == root || f in reach) && g in CalleesOf(p, f) && SamePackage(p, root, g) ::
      g in reach || g in pending
  }

  ghost predicate OnlyReached(p: Program, root: Func, reach: set<Func>, pending: seq<Func>) {
    && (forall g | g in reach :: g in Functions(p) && SamePackage(p, root, g) && ReachesOn(HomeCalls(p, root), root, g))
    && forall g | g in pending :: exists f :: (f == root || f in reach) && g in CalleesOf(p, f)
  }

  /** The functions of the root's package that it reaches by one call or more
  without leaving the package. */
  method ReachableCallees(p: Program, root: Func) returns (reach: set<Func>)
    ensures forall g :: g in reach <==> ReachesOn(HomeCalls(p, root), root, g)
  {
    reach := {};
    var pending := CalleesOf(p, root);
    while pending != []
      invariant Explored(p, root, reach, pending) && OnlyReached(p, root, reach, pending)
      decreases |Functions(p) - reach|, |pending|
    {
      var next := pending[|pending| - 1];
      ghost var before := pending;
      pending := pending[..|pending| - 1];
      assert forall g :: g in before <==> g in pending || g == next;
      if next in reach || !SamePackage(p, root, next) {
        continue;
      }
      ReachedOneMore(p, root, reach, before, next);
      assert Functions(p) - (reach + {next}) == Functions(p) - reach - {next};
      reach := reach + {next};
      pending := pending + CalleesOf(p, next);
    }
    ClosureReached(p, root, reach);
  }

  lemma ReachedOneMore(p: Program, root: Func, reach: set<Func>, pending: seq<Func>, next: Func)
    requires OnlyReached(p, root, reach, pending) && next in pending && SamePackage(p, root, next)
    ensures next in Functions(p) && ReachesOn(HomeCalls(p, root), root, next)
  {
    var edge := HomeCalls(p, root);
    var f :| (f == root || f in reach) && next in CalleesOf(p, f);
    EdgeReaches(edge, f, next);
    if f != root {
      var path :| PathFrom(edge, path, root, f) && |path| > 1;
      ReachesTransitive(edge, root, f, next);
    }
  }

  lemma ClosureReached(p: Program, root: Func, reach: set<Func>)
    requires Explored(p, root, reach, []) && OnlyReached(p, root, reach, [])
    ensures forall g :: g in reach <==> ReachesOn(HomeCalls(p, root), root, g)
  {
    var edge := HomeCalls(p, root);
    forall g | ReachesOn(edge, root, g) ensures g in reach {
      FirstEdge(edge, root, g);
      var b :| edge(root, b) && Reaches(edge, b, g);
      ClosedReach(edge, reach, b, g);
    }
  }

  // ---- The cycle test -------------------------------------------------------

  /** What the engine asks of a call from caller to callee. */
  ghost predicate SameCallCycle(p: Program, caller: Func, callee: Func) {
    callee == caller || ReachesOn(HomeCalls(p, callee), callee, caller)
  }

  method TestCallCycle(p: Program, caller: Func, callee: Func) returns (same: bool)
    ensures same == SameCallCycle(p, caller, callee)
  {
    if callee == caller {
      return true;
    }
    var reach := ReachableCallees(p, callee);
    same := caller in reach;
  }

  /** The callee is the caller or can call back into it. */
  ghost predicate CallsBack(p: Program, caller: Func, callee: Func) {
    callee == caller || ReachesOn(Calls(p), callee, caller)
  }

  /** Calls never go to a package of higher import rank. */
  predicate ImportOrdered(p: Program) {
    forall f, g | f in p.callees && g in p.callees[f] && f in p.home && g in p.home :: p.home[g] <= p.home[f]
  }

  /** A function without a package that another function calls in a cycle. */
  ghost predicate HomelessCycle(p: Program, f: Func, g: Func) {
    f !in p.home && f != g && ReachesOn(Calls(p), f, g) && ReachesOn(Calls(p), g, f)
  }

  lemma TestSound(p: Program, caller: Func, callee: Func)
    requires SameCallCycle(p, caller, callee)
    ensures CallsBack(p, caller, callee)
  {
    if callee != caller {
      var path :| PathFrom(HomeCalls(p, callee), path, callee, caller) && |path| > 1;
      assert PathFrom(Calls(p), path, callee, caller);
    }
  }

  /** Along a path of functions with packages the import rank never rises. */
  lemma {:induction false} RankFalls(p: Program, path: seq<Func>, i: nat, j: nat)
    requires ImportOrdered(p) && IsPath(Calls(p), path) && (forall k | 0 <= k < |path| :: path[k] in p.home)
    requires i <= j < |path|
    ensures p.home[path[j]] <= p.home[path[i]]
    decreases j - i
  {
    if i < j {
      RankFalls(p, path, i, j - 1);
      assert Calls(p)(path[j - 1], path[j]);
    }
  }

  /** A path that closes a cycle stays in one package, if it has one throughout. */
  lemma CycleStaysHome(p: Program, caller: Func, callee: Func, path: seq<Func>)
    requires ImportOrdered(p) && Calls(p)(caller, callee)
    requires PathFrom(Calls(p), path, callee, caller) && forall k | 0 <= k < |path| :: path[k] in p.home
    ensures PathFrom(HomeCalls(p, callee), path, callee, caller)
  {
    forall k | 0 <= k < |path| ensures SamePackage(p, callee, path[k]) {
      RankFalls(p, path, 0, k);
      RankFalls(p, path, k, |path| - 1);
    }
    forall i | 0 < i < |path| ensures HomeCalls(p, callee)(path[i - 1], path[i]) {
      assert Calls(p)(path[i - 1], path[i]);
    }
  }

  lemma SubPath(edge: (Func, Func) -> bool, path: seq<Func>, i: nat, j: nat)
    requires IsPath(edge, path) && i <= j < |path|
    ensures PathFrom(edge, path[i..j + 1], path[i], path[j])
  {
    var part := path[i..j + 1];
    forall k | 0 < k < |part| ensures edge(part[k - 1], part[k]) {
      assert part[k - 1] == path[i + k - 1] && part[k] == path[i + k];
    }
  }

  /** Any two functions on a closed walk reach each other. */
  lemma OnOneCycle(p: Program, caller: Func, callee: Func, path: seq<Func>, k: nat)
    requires caller != callee && Calls(p)(caller, callee) && PathFrom(Calls(p), path, callee, caller) && k < |path|
    ensures exists g :: g != path[k] && ReachesOn(Calls(p), path[k], g) && ReachesOn(Calls(p), g, path[k])
  {
    var edge, x := Calls(p), path[k];
    SubPath(edge, path, 0, k);
    SubPath(edge, path, k, |path| - 1);
    EdgeReaches(edge, caller, callee);
    ReachesTransitive(edge, x, caller, callee);
    ReachesTransitive(edge, caller, callee, x);
    if x != callee {
      FarIsOn(edge, callee, x);
    } else {
      FarIsOn(edge, x, caller);
    }
  }

  lemma FarIsOn(edge: (Func, Func) -> bool, a: Func, b: Func)
    requires Reaches(edge, a, b) && a != b
    ensures ReachesOn(edge, a, b)
  {
    var path :| PathFrom(edge, path, a, b);
    assert |path| > 1;
  }

  /** A walk that ends elsewhere leaves its start for good by some edge. */
  lemma {:induction false} LeavesStart(edge: (Func, Func) -> bool, path: seq<Func>, a: Func, b: Func) returns (c: Func)
    requires PathFrom(edge, path, a, b) && a != b
    ensures c != a && edge(a, c) && Reaches(edge, c, b)
    decreases |path|
  {
    assert edge(path[0], path[1]);
    SubPath(edge, path, 1, |path| - 1);
    if path[1] == a {
      c := LeavesStart(edge, path[1..], a, b);
    } else {
      c := path[1];
      assert PathFrom(edge, path[1..], c, b);
    }
  }

  /** With imports acyclic, the test is right about every call exactly when no
  function without a package lies on a call cycle through another function. */
  lemma TestExact(p: Program)
    requires ImportOrdered(p)
    ensures (forall f, g | Calls(p)(f, g) :: SameCallCycle(p, f, g) <==> CallsBack(p, f, g)) <==>
            (forall f, g :: !HomelessCycle(p, f, g))
  {
    if forall f, g :: !HomelessCycle(p, f, g) {
      forall f, g | Calls(p)(f, g) ensures SameCallCycle(p, f, g) <==> CallsBack(p, f, g) {
        TestExactAt(p, f, g);
      }
    }
    if f, g :| HomelessCycle(p, f, g) {
      HomelessEscapes(p, f, g);
    }
  }

  lemma TestExactAt(p: Program, f: Func, g: Func)
    requires ImportOrdered(p) && Calls(p)(f, g) && forall x, y :: !HomelessCycle(p, x, y)
    ensures SameCallCycle(p, f, g) <==> CallsBack(p, f, g)
  {
    if CallsBack(p, f, g) && f != g {
      var path :| PathFrom(Calls(p), path, g, f) && |path| > 1;
      forall k | 0 <= k < |path| ensures path[k] in p.home {
        OnOneCycle(p, f, g, path, k);
        var y :| y != path[k] && ReachesOn(Calls(p), path[k], y) && ReachesOn(Calls(p), y, path[k]);
        assert !HomelessCycle(p, path[k], y);
      }
      CycleStaysHome(p, f, g, path);
    }
    if SameCallCycle(p, f, g) {
      TestSound(p, f, g);
    }
  }

  /** The test misses the cycle of a function without a package. */
  lemma HomelessEscapes(p: Program, f: Func, g: Func)
    requires HomelessCycle(p, f, g)
    ensures exists callee :: Calls(p)(f, callee) && CallsBack(p, f, callee) && !SameCallCycle(p, f, callee)
  {
    var edge := Calls(p);
    var path :| PathFrom(edge, path, f, g);
    var c := LeavesStart(edge, path, f, g);
    ReachesTransitive(edge, c, g, f);
    if ReachesOn(HomeCalls(p, c), c, f) {
      ReachedHasHome(p, c, f);
    }
  }

  lemma ReachedHasHome(p: Program, root: Func, f: Func)
    requires ReachesOn(HomeCalls(p, root), root, f)
    ensures f in p.home
  {
    var path :| PathFrom(HomeCalls(p, root), path, root, f) && |path| > 1;
    assert HomeCalls(p, root)(path[|path| - 2], path[|path| - 1]);
  }

  // ---- The summaries that are applied ---------------------------------------

  /** A call whose summary the caller's graph applies. */
  ghost predicate Applies(p: Program, caller: Func, callee: Func) {
    Calls(p)(caller, callee) && !SameCallCycle(p, caller, callee)
  }

  ghost function Applied(p: Program): (Func, Func) -> bool {
    (f: Func, g: Func) => Applies(p, f, g)
  }

  /** No function's summary is applied, through others, in its own build. */
  ghost predicate NoRing(p: Program) {
    forall f :: !ReachesOn(Applied(p), f, f)
  }

  /** With imports acyclic and no package-less function on a call cycle, cutting
  call cycles leaves no ring of applied summaries. */
  lemma CutsLeaveNoRing(p: Program)
    requires ImportOrdered(p) && forall f, g :: !HomelessCycle(p, f, g)
    ensures NoRing(p)
  {
    forall f ensures !ReachesOn(Applied(p), f, f) {
      FirstEdge(Applied(p), f, f);
      forall b | Applied(p)(f, b) ensures !Reaches(Applied(p), b, f) {
        CutEdge(p, f, b);
      }
    }
  }

  lemma CutEdge(p: Program, f: Func, b: Func)
    requires ImportOrdered(p) && (forall x, y :: !HomelessCycle(p, x, y)) && Applies(p, f, b)
    ensures !Reaches(Applied(p), b, f)
  {
    TestExactAt(p, f, b);
    if path :| PathFrom(Applied(p), path, b, f) {
    }
  }

  ghost function Span(p: Program, f: Func): set<Func> {
    set g | g in Functions(p) + {f} && Reaches(Applied(p), f, g)
  }

  /** How many functions' summaries go into a function's build. */
  ghost function Rank(p: Program, f: Func): nat {
    |Span(p, f)|
  }

  lemma SpanComplete(p: Program, f: Func, g: Func)
    requires Reaches(Applied(p), f, g)
    ensures g in Span(p, f)
  {
    var path :| PathFrom(Applied(p), path, f, g);
    if g != f {
      assert Applied(p)(path[|path| - 2], path[|path| - 1]);
    }
  }

  lemma Subset(a: set<Func>, b: set<Func>)
    requires a < b
    ensures |a| < |b|
  {
    assert b == a + (b - a);
    assert b - a != {};
  }

  /** Without a ring, ranks fall along applied summaries. */
  lemma AppliedFalls(p: Program, caller: Func, callee: Func)
    requires NoRing(p) && Applies(p, caller, callee)
    ensures Rank(p, callee) < Rank(p, caller)
  {
    var edge := Applied(p);
    EdgeReaches(edge, caller, callee);
    forall g | g in Span(p, callee) ensures g in Span(p, caller) {
      ReachesTransitive(edge, caller, callee, g);
      SpanComplete(p, caller, g);
    }
    ReachesSelf(edge, caller);
    assert caller in Span(p, caller);
    assert caller !in Span(p, callee) by {
      if Reaches(edge, callee, caller) {
        ReachesTransitive(edge, caller, callee, caller);
      }
    }
    Subset(Span(p, callee), Span(p, caller));
  }

  /** A method and a wrapper with no package that call each other. */
  const WRAPPER_RING := Program(map[0 := [1], 1 := [0]], map[0 := 0])

  /** Each applies the other's summary: nothing cuts the ring. */
  lemma WrapperRingExample()
    ensures ImportOrdered(WRAPPER_RING) && Applies(WRAPPER_RING, 0, 1) && Applies(WRAPPER_RING, 1, 0)
  {
    var p := WRAPPER_RING;
    assert Calls(p)(0, 1) && Calls(p)(1, 0);
    assert !SameCallCycle(p, 1, 0) by {
      if ReachesOn(HomeCalls(p, 0), 0, 1) {
        ReachedHasHome(p, 0, 1);
      }
    }
    assert !SameCallCycle(p, 0, 1) by {
      FirstEdge(HomeCalls(p, 1), 1, 0);
    }
  }
}
