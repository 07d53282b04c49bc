/** Finite directed graphs, paths and reachability. Cycles and dangling edges are allowed. */
module Graphs {

  type Graph<T> = map<T, seq<T>>

  predicate Edge<T(==,!new)>(g: Graph<T>, x: T, y: T) { x in g && y in g[x] }

  /** `p` lists the nodes after x on a path that ends at y. */
  predicate IsPath<T(==,!new)>(g: Graph<T>, p: seq<T>, x: T, y: T) {
    if p == [] then x == y else Edge(g, x, p[0]) && IsPath(g, p[1..], p[0], y)
  }

  ghost predicate Reaches<T(!new)>(g: Graph<T>, x: T, y: T) {
    exists p :: IsPath(g, p, x, y)
  }

  lemma ReachesSelf<T(!new)>(g: Graph<T>, x: T)
    ensures Reaches(g, x, x)
  {
    assert IsPath(g, [], x, x);
  }

  lemma ReachesEdge<T(!new)>(g: Graph<T>, x: T, y: T)
    requires Edge(g, x, y)
    ensures Reaches(g, x, y)
  {
    assert IsPath(g, [], y, y);
    assert IsPath(g, [y], x, y);
  }

  lemma {:induction false} PathConcat<T(!new)>(g: Graph<T>, p: seq<T>, q: seq<T>, x: T, y: T, z: T)
    requires IsPath(g, p, x, y) && IsPath(g, q, y, z)
    ensures IsPath(g, p + q, x, z)
  {
    if p == [] {
      assert p + q == q;
    } else {
      PathConcat(g, p[1..], q, p[0], y, z);
      assert (p + q)[1..] == p[1..] + q;
    }
  }

  lemma ReachesTransitive<T(!new)>(g: Graph<T>, x: T, y: T, z: T)
    requires Reaches(g, x, y) && Reaches(g, y, z)
    ensures Reaches(g, x, z)
  {
    var p :| IsPath(g, p, x, y);
    var q :| IsPath(g, q, y, z);
    PathConcat(g, p, q, x, y, z);
  }

  /** Every edge of `g` is an edge of `h`. */
  ghost predicate SubGraph<T(!new)>(g: Graph<T>, h: Graph<T>) {
    forall x :: x in g ==> x in h && g[x] == h[x]
  }

  lemma {:induction false} PathMonotone<T(!new)>(g: Graph<T>, h: Graph<T>, p: seq<T>, x: T, y: T)
    requires SubGraph(g, h) && IsPath(g, p, x, y)
    ensures IsPath(h, p, x, y)
  {
    if p != [] { PathMonotone(g, h, p[1..], p[0], y); }
  }

  lemma ReachesMonotone<T(!new)>(g: Graph<T>, h: Graph<T>, x: T, y: T)
    requires SubGraph(g, h) && Reaches(g, x, y)
    ensures Reaches(h, x, y)
  {
    var p :| IsPath(g, p, x, y);
    PathMonotone(g, h, p, x, y);
  }

  ghost predicate ClosedUnder<T(!new)>(g: Graph<T>, s: set<T>) {
    forall x, y :: x in s && Edge(g, x, y) ==> y in s
  }

  lemma {:induction false} PathStays<T(!new)>(g: Graph<T>, s: set<T>, p: seq<T>, x: T, y: T)
    requires ClosedUnder(g, s) && x in s && IsPath(g, p, x, y)
    ensures y in s
  {
    if p != [] {
      assert Edge(g, x, p[0]);
      PathStays(g, s, p[1..], p[0], y);
    }
  }

  lemma ClosedStays<T(!new)>(g: Graph<T>, s: set<T>, x: T, y: T)
    requires ClosedUnder(g, s) && x in s && Reaches(g, x, y)
    ensures y in s
  {
    var p :| IsPath(g, p, x, y);
    PathStays(g, s, p, x, y);
  }

  ghost predicate Expanded<T(!new)>(g: Graph<T>, x: T, seen: set<T>) {
    forall y :: Edge(g, x, y) ==> y in seen
  }

  ghost function Parents<T(!new)>(g: Graph<T>): set<T> {
    set x, y | x in g && y in g[x] :: y
  }

  /** The graph without the edges that leave `stop`. */
  function Trim<T(==,!new)>(g: Graph<T>, stop: set<T>): Graph<T> {
    map x | x in g && x !in stop :: g[x]
  }

  /** Every edge from a visited node leads to a visited node or a stop. */
  ghost predicate ClosedUpTo<T(!new)>(g: Graph<T>, visited: set<T>, stop: set<T>) {
    forall x, y :: x in visited && Edge(g, x, y) ==> y in visited || y in stop
  }

  /** A set closed up to the stops holds all that is reached from it without passing a stop. */
  lemma {:induction false} TrimmedPathStays<T(!new)>(g: Graph<T>, visited: set<T>, stop: set<T>, p: seq<T>, x: T, y: T)
    requires ClosedUpTo(g, visited, stop) && IsPath(Trim(g, stop), p, x, y)
    requires x in visited || x in stop
    ensures y in visited || y in stop
  {
    if p != [] {
      assert Edge(Trim(g, stop), x, p[0]) && Edge(g, x, p[0]);
      TrimmedPathStays(g, visited, stop, p[1..], p[0], y);
    }
  }

  lemma TrimmedStays<T(!new)>(g: Graph<T>, visited: set<T>, stop: set<T>, x: T, y: T)
    requires ClosedUpTo(g, visited, stop) && x in visited && Reaches(Trim(g, stop), x, y)
    ensures y in visited || y in stop
  {
    var p :| IsPath(Trim(g, stop), p, x, y);
    TrimmedPathStays(g, visited, stop, p, x, y);
  }
}
