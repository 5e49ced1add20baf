/** Paths and reachability in a directed graph given by its edge relation. */
module Graphs {

  /** The numbers below n. */
  function UpTo(n: nat): (r: set<nat>)
    ensures forall b: int :: b in r <==> 0 <= b < n
    ensures forall b: nat :: b in r <==> b < n
  {
    if n == 0 then {} else UpTo(n - 1) + {n - 1}
  }

  /** A nonempty sequence of nodes joined by edges. */
  predicate IsPath<T>(edge: (T, T) -> bool, path: seq<T>) {
    path != [] && forall i | 0 < i < |path| :: edge(path[i - 1], path[i])
  }

  ghost predicate PathFrom<T>(edge: (T, T) -> bool, path: seq<T>, a: T, b: T) {
    IsPath(edge, path) && path[0] == a && path[|path| - 1] == b
  }

  /** b can be reached from a by any number of edges, none included. */
  ghost predicate Reaches<T(!new)>(edge: (T, T) -> bool, a: T, b: T) {
    exists path :: PathFrom(edge, path, a, b)
  }

  /** b can be reached from a by one edge or more. */
  ghost predicate ReachesOn<T(!new)>(edge: (T, T) -> bool, a: T, b: T) {
    exists path :: PathFrom(edge, path, a, b) && |path| > 1
  }

  lemma ReachesSelf<T(!new)>(edge: (T, T) -> bool, a: T)
    ensures Reaches(edge, a, a)
  {
    assert PathFrom(edge, [a], a, a);
  }

  lemma JoinPaths<T>(edge: (T, T) -> bool, p: seq<T>, q: seq<T>, a: T, b: T, c: T)
    requires PathFrom(edge, p, a, b) && PathFrom(edge, q, b, c)
    ensures PathFrom(edge, p + q[1..], a, c)
  {
    var r := p + q[1..];
    forall i | 0 < i < |r| ensures edge(r[i - 1], r[i]) {
      if i >= |p| {
        assert r[i] == q[i - |p| + 1];
        assert r[i - 1] == q[i - |p|];
      }
    }
    if |q| > 1 {
      assert r[|r| - 1] == q[|q| - 1];
    }
  }

  lemma ReachesTransitive<T(!new)>(edge: (T, T) -> bool, a: T, b: T, c: T)
    requires Reaches(edge, a, b) && Reaches(edge, b, c)
    ensures Reaches(edge, a, c)
    ensures ReachesOn(edge, a, b) || ReachesOn(edge, b, c) ==> ReachesOn(edge, a, c)
  {
    var p :| PathFrom(edge, p, a, b) && (ReachesOn(edge, a, b) ==> |p| > 1);
    var q :| PathFrom(edge, q, b, c) && (ReachesOn(edge, b, c) ==> |q| > 1);
    JoinPaths(edge, p, q, a, b, c);
  }

  lemma EdgeReaches<T(!new)>(edge: (T, T) -> bool, a: T, b: T)
    requires edge(a, b)
    ensures Reaches(edge, a, b) && ReachesOn(edge, a, b)
  {
    assert PathFrom(edge, [a, b], a, b);
  }

  /** Reaching on means one edge and then any number. */
  lemma FirstEdge<T(!new)>(edge: (T, T) -> bool, a: T, c: T)
    ensures ReachesOn(edge, a, c) <==> exists b :: edge(a, b) && Reaches(edge, b, c)
  {
    if p :| PathFrom(edge, p, a, c) && |p| > 1 {
      var q := p[1..];
      forall i | 0 < i < |q| ensures edge(q[i - 1], q[i]) {
        assert q[i] == p[i + 1] && q[i - 1] == p[i];
      }
      assert PathFrom(edge, q, p[1], c);
      assert edge(p[0], p[1]);
    }
    if b :| edge(a, b) && Reaches(edge, b, c) {
      EdgeReaches(edge, a, b);
      ReachesTransitive(edge, a, b, c);
    }
  }

  /** A set closed under the edges contains whatever its members reach. */
  lemma {:induction false} ClosedContains<T(!new)>(edge: (T, T) -> bool, closed: set<T>, path: seq<T>)
    requires IsPath(edge, path) && path[0] in closed
    requires forall a, b | a in closed && edge(a, b) :: b in closed
    ensures forall i | 0 <= i < |path| :: path[i] in closed
    decreases |path|
  {
    if |path| > 1 {
      var front := path[..|path| - 1];
      ClosedContains(edge, closed, front);
      assert edge(path[|path| - 2], path[|path| - 1]);
      assert front[|path| - 2] in closed;
      forall i | 0 <= i < |path| ensures path[i] in closed {
        assert i < |path| - 1 ==> path[i] == front[i];
      }
    }
  }

  lemma ClosedReach<T(!new)>(edge: (T, T) -> bool, closed: set<T>, a: T, b: T)
    requires a in closed && Reaches(edge, a, b)
    requires forall x, y | x in closed && edge(x, y) :: y in closed
    ensures b in closed
  {
    var path :| PathFrom(edge, path, a, b);
    ClosedContains(edge, closed, path);
  }
}
