/**
 * Ancestor search over snapshot graphs: a breadth-first walk along parent edges, on the stored
 * snapshots alone (IsAncestor) or on their union with those of an incoming bundle
 * (isAncestorUnion). Graphs are arbitrary and finite; they may contain cycles and dangling edges.
 */
module Ancestry {
  import opened Prelude
  import opened Graphs
  import opened Objects
  import opened History

  /** The snapshots and revisions a bundle carries. */
  datatype Pack = Pack(revisions: seq<Revision>, snapshots: seq<Snapshot>)

  const NO_PACK := Pack([], [])

  // ---- The union of a repository and a bundle --------------------------------------------------------

  function FindRevision(revs: seq<Revision>, id: string): Option<Revision> {
    if revs == [] then None else if revs[0].id == id then Some(revs[0]) else FindRevision(revs[1..], id)
  }

  function FindSnapshot(snaps: seq<Snapshot>, h: ID): Option<Snapshot> {
    if snaps == [] then None else if snaps[0].hash == h then Some(snaps[0]) else FindSnapshot(snaps[1..], h)
  }

  /** The snapshot hash of a revision: the repository's if it knows the id, else the bundle's first. */
  function HashOf(s: State, b: Pack, id: string): Option<ID> {
    if id in s.revs then Some(s.revs[id].hash)
    else match FindRevision(b.revisions, id) case Some(r) => Some(r.hash) case None => None
  }

  function Lookup(s: State, b: Pack, h: ID): Option<Snapshot> {
    if h in s.snaps then Some(s.snaps[h]) else FindSnapshot(b.snapshots, h)
  }

  /** Parent edges of every snapshot in the repository or the bundle. */
  ghost function UnionGraph(s: State, b: Pack): Graph<ID> {
    map h | h in s.snaps.Keys + (set n | n in b.snapshots :: n.hash) && Lookup(s, b, h).Some? ::
      Lookup(s, b, h).value.parents
  }

  lemma {:induction false} FindSnapshotIn(snaps: seq<Snapshot>, h: ID)
    ensures FindSnapshot(snaps, h).Some? <==> exists n :: n in snaps && n.hash == h
    ensures FindSnapshot(snaps, h).Some? ==>
      FindSnapshot(snaps, h).value in snaps && FindSnapshot(snaps, h).value.hash == h
  {
    if snaps != [] {
      FindSnapshotIn(snaps[1..], h);
      assert snaps == [snaps[0]] + snaps[1..];
    }
  }

  /** The graph holds exactly what a lookup finds. */
  lemma UnionGraphLookup(s: State, b: Pack, h: ID)
    ensures h in UnionGraph(s, b) <==> Lookup(s, b, h).Some?
    ensures h in UnionGraph(s, b) ==> UnionGraph(s, b)[h] == Lookup(s, b, h).value.parents
  {
    FindSnapshotIn(b.snapshots, h);
  }

  method ResolveHash(s: State, b: Pack, id: string) returns (h: Option<ID>)
    ensures h == HashOf(s, b, id)
  {
    if id in s.revs { return Some(s.revs[id].hash); }
    for i := 0 to |b.revisions|
      invariant FindRevision(b.revisions, id) == FindRevision(b.revisions[i..], id)
    {
      assert b.revisions[i..][1..] == b.revisions[i + 1..];
      if b.revisions[i].id == id { return Some(b.revisions[i].hash); }
    }
    h := None;
  }

  method SnapForHash(s: State, b: Pack, h: ID) returns (n: Option<Snapshot>)
    ensures n == Lookup(s, b, h)
  {
    if h in s.snaps { return Some(s.snaps[h]); }
    for i := 0 to |b.snapshots|
      invariant FindSnapshot(b.snapshots, h) == FindSnapshot(b.snapshots[i..], h)
    {
      assert b.snapshots[i..][1..] == b.snapshots[i + 1..];
      if b.snapshots[i].hash == h { return Some(b.snapshots[i]); }
    }
    n := None;
  }

  // ---- The walk --------------------------------------------------------------------------------------

  /** Everything seen is reachable; what is seen and no longer queued is not a goal and has all
      its parents seen. */
  ghost predicate Searching(g: Graph<ID>, start: ID, goals: set<ID>, seen: set<ID>, queue: seq<ID>) {
    start in seen &&
    (forall x :: x in seen ==> Reaches(g, start, x)) &&
    (forall x :: x in queue ==> x in seen) &&
    (forall x :: x in seen && x !in queue ==> x !in goals && Expanded(g, x, seen))
  }

  /** The inner loop: queue the parents not seen yet. */
  method QueueParents(parents: seq<ID>, seen: set<ID>, queue: seq<ID>) returns (seen': set<ID>, queue': seq<ID>)
    ensures seen' == seen + (set p | p in parents)
    ensures forall x :: x in queue' <==> x in queue || x in seen' - seen
    ensures queue' == queue || seen < seen'
  {
    seen', queue' := seen, queue;
    for i := 0 to |parents|
      invariant seen' == seen + (set p | p in parents[..i])
      invariant forall x :: x in queue' <==> x in queue || x in seen' - seen
      invariant queue' == queue || seen < seen'
    {
      TakeMore(parents, i);
      var p := parents[i];
      if p !in seen' {
        seen' := seen' + {p};
        queue' := queue' + [p];
      }
    }
    WholeSlices(parents);
  }

  lemma SearchStart(g: Graph<ID>, start: ID, goals: set<ID>)
    ensures Searching(g, start, goals, {start}, [start])
  {
    ReachesSelf(g, start);
  }

  lemma SearchStep(g: Graph<ID>, start: ID, goals: set<ID>, seen: set<ID>, queue: seq<ID>, seen': set<ID>,
      queue': seq<ID>)
    requires Searching(g, start, goals, seen, queue) && queue != [] && queue[0] !in goals
    requires var ps := if queue[0] in g then g[queue[0]] else [];
      seen' == seen + (set p | p in ps) && forall x :: x in queue' <==> x in queue[1..] || x in seen' - seen
    ensures Searching(g, start, goals, seen', queue')
  {
    var cur := queue[0];
    assert queue == [cur] + queue[1..];
    forall x | x in seen' ensures Reaches(g, start, x) {
      if x !in seen {
        ReachesEdge(g, cur, x);
        ReachesTransitive(g, start, cur, x);
      }
    }
    forall x | x in seen' && x !in queue' ensures x !in goals && Expanded(g, x, seen') {
      if x != cur { assert Expanded(g, x, seen); }
    }
  }

  lemma SearchFails(g: Graph<ID>, start: ID, goals: set<ID>, seen: set<ID>)
    requires Searching(g, start, goals, seen, [])
    ensures forall goal :: goal in goals ==> !Reaches(g, start, goal)
  {
    forall goal | goal in goals ensures !Reaches(g, start, goal) {
      if Reaches(g, start, goal) {
        forall x, y | x in seen && Edge(g, x, y) ensures y in seen { assert Expanded(g, x, seen); }
        ClosedStays(g, seen, start, goal);
      }
    }
  }

  /** Seen nodes are the start and parents, so the walk ends. */
  lemma SearchBounded(g: Graph<ID>, start: ID, ps: seq<ID>, h: ID, all: set<ID>, seen: set<ID>, seen': set<ID>)
    requires all == Parents(g) + {start} && seen <= all && (h in g ==> ps == g[h]) && (h !in g ==> ps == [])
    requires seen' == seen + (set p | p in ps)
    ensures seen' <= all && (seen' == seen || |all - seen'| < |all - seen|)
  {
    if seen' != seen {
      Shrinks(all, seen, seen');
    }
  }

  /** Revision `a` is `c`, or its snapshot is reachable from c's along parents in the union. */
  ghost predicate AncestorInUnion(s: State, b: Pack, a: string, c: string) {
    a != "" && c != "" &&
    (a == c || (HashOf(s, b, a).Some? && HashOf(s, b, c).Some? &&
                Reaches(UnionGraph(s, b), HashOf(s, b, c).value, HashOf(s, b, a).value)))
  }

  /** isAncestorUnion: sound, complete and terminating. */
  method IsAncestorUnion(s: State, b: Pack, a: string, c: string) returns (r: bool)
    ensures r <==> AncestorInUnion(s, b, a, c)
  {
    hide UnionGraph, Lookup, HashOf, Reaches;
    if a == "" || c == "" { return false; }
    if a == c { return true; }
    var cHash := ResolveHash(s, b, c);
    if cHash.None? { return false; }
    var aHash := ResolveHash(s, b, a);
    if aHash.None? { return false; }
    var seen, queue := {cHash.value}, [cHash.value];
    ghost var g := UnionGraph(s, b);
    ghost var all := Parents(g) + {cHash.value};
    SearchStart(g, cHash.value, {aHash.value});
    while queue != []
      invariant Searching(g, cHash.value, {aHash.value}, seen, queue) && seen <= all
      decreases |all - seen|, |queue|
    {
      var cur, rest := queue[0], queue[1..];
      if cur == aHash.value { return true; }
      var snap := SnapForHash(s, b, cur);
      UnionGraphLookup(s, b, cur);
      ghost var before, was := seen, queue;
      queue := rest;
      if snap.Some? {
        seen, queue := QueueParents(snap.value.parents, seen, rest);
      }
      ghost var ps := if snap.Some? then snap.value.parents else [];
      SearchStep(g, cHash.value, {aHash.value}, before, was, seen, queue);
      SearchBounded(g, cHash.value, ps, cur, all, before, seen);
    }
    SearchFails(g, cHash.value, {aHash.value}, seen);
    r := false;
  }

  // ---- The search on stored snapshots alone ------------------------------------------------------------

  /** Every snapshot row is filed under its own hash. */
  ghost predicate Filed(s: State) {
    forall h :: h in s.snaps ==> s.snaps[h].hash == h
  }

  /** A revision id, or a prefix of exactly one. */
  ghost predicate Denotes(s: State, q: string, id: string) {
    id in s.revs && if q in s.revs then id == q else q <= id && forall o :: o in s.revs && q <= o ==> o == id
  }

  /** The ids listed so far that start with `q`: none, or exactly one. */
  ghost predicate FoundSoFar(q: string, ids: seq<string>, found: Option<string>) {
    match found
    case None => forall o :: o in ids ==> !(q <= o)
    case Some(f) => f in ids && q <= f && forall o :: o in ids && q <= o ==> o == f
  }

  lemma FoundMore(q: string, ids: seq<string>, found: Option<string>, id: string)
    requires FoundSoFar(q, ids, found) && (q <= id ==> found.None?)
    ensures FoundSoFar(q, ids + [id], if q <= id then Some(id) else found)
  {
  }

  /** Two ids with the prefix: it denotes none. */
  lemma Ambiguous(s: State, q: string, i: string, j: string)
    requires q !in s.revs && i in s.revs && j in s.revs && i != j && q <= i && q <= j
    ensures forall o :: !Denotes(s, q, o)
  {
  }

  /** hashForRevision. An ambiguous prefix is an error, never a first match. */
  method HashForRevision(s: State, q: string) returns (r: Result<ID>, ghost id: string)
    ensures r.Ok? ==> Denotes(s, q, id) && r.value == s.revs[id].hash
    ensures r.Err? ==> forall o :: !Denotes(s, q, o)
  {
    id := q;
    if q in s.revs { return Ok(s.revs[q].hash), q; }
    var ids := Sorted(s.revs.Keys);
    SortedFresh(s.revs.Keys);
    hide Sorted;
    var found: Option<string> := None;
    for i := 0 to |ids|
      invariant FoundSoFar(q, ids[..i], found)
    {
      TakeMore(ids, i);
      if |q| <= |ids[i]| && ids[i][..|q|] == q {
        if found.Some? {
          assert ids[i] !in ids[..i];
          Ambiguous(s, q, found.value, ids[i]);
          return Err("ambiguous revision prefix"), q;
        }
        FoundMore(q, ids[..i], found, ids[i]);
        found := Some(ids[i]);
      } else {
        FoundMore(q, ids[..i], found, ids[i]);
      }
    }
    WholeSlices(ids);
    match found
    case None => r := Err("unknown revision");
    case Some(o) => r, id := Ok(s.revs[o].hash), o;
  }

  /** IsAncestor: fails on an unknown revision, and otherwise decides reachability of a stored snapshot. */
  method IsAncestor(s: State, a: string, b: string) returns (r: Result<bool>, ghost id: string)
    requires Filed(s)
    ensures r.Ok? <==>
      a != "" && b != "" && (a == b || (b in s.revs && s.revs[b].hash in s.snaps && exists o :: Denotes(s, a, o)))
    ensures r.Ok? && a != b ==> Denotes(s, a, id)
    ensures r.Ok? && a != b ==>
      (r.value <==> s.revs[id].hash in s.snaps && Reaches(UnionGraph(s, NO_PACK), s.revs[b].hash, s.revs[id].hash))
    ensures r.Ok? && a == b ==> r.value
  {
    hide UnionGraph, Lookup, Reaches;
    id := a;
    if a == "" || b == "" { return Err("IsAncestor: empty revision"), a; }
    if a == b { return Ok(true), a; }
    if b !in s.revs || s.revs[b].hash !in s.snaps { return Err("store: not found"), a; }
    var start := s.revs[b].hash;
    var seen, queue := {start}, [s.snaps[start].hash];
    var aHash;
    aHash, id := HashForRevision(s, a);
    if aHash.Err? { return Err(aHash.error), a; }
    ghost var g := UnionGraph(s, NO_PACK);
    ghost var all := Parents(g) + {start};
    ghost var goals := if aHash.value in s.snaps then {aHash.value} else {};
    SearchStart(g, start, goals);
    while queue != []
      invariant Searching(g, start, goals, seen, queue) && seen <= all
      decreases |all - seen|, |queue|
    {
      var cur, rest := queue[0], queue[1..];
      StoredLookup(s, cur);
      UnionGraphLookup(s, NO_PACK, cur);
      ghost var before, was := seen, queue;
      queue := rest;
      ghost var ps := if cur in s.snaps then s.snaps[cur].parents else [];
      if cur in s.snaps {
        var snap := s.snaps[cur];
        if snap.hash == aHash.value { return Ok(true), id; }
        seen, queue := QueueParents(snap.parents, seen, rest);
      }
      SearchStep(g, start, goals, before, was, seen, queue);
      SearchBounded(g, start, ps, cur, all, before, seen);
    }
    SearchFails(g, start, goals, seen);
    r := Ok(false);
  }

  lemma StoredLookup(s: State, h: ID)
    ensures Lookup(s, NO_PACK, h) == if h in s.snaps then Some(s.snaps[h]) else None
  {
  }
}
