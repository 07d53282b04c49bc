/** The two breadth-first searches that find the descendants of a revision. */
module Descendants {
  import opened Prelude
  import opened Objects
  import opened History
  import opened Evolution
  import opened DropHistory
  import opened Store
  import opened SnapshotOwners

  function Kids(children: map<ID, seq<string>>, h: ID): seq<string> {
    if h in children then children[h] else []
  }

  /** `c` hangs off the snapshot `h` by its first parent, and is not the start revision. */
  predicate HangsOff(s: State, rid: string, c: string, h: ID) {
    rid in s.revs && c in s.revs && s.revs[c].hash != s.revs[rid].hash && s.revs[c].hash in s.snaps &&
    var ps := s.snaps[s.revs[c].hash].parents;
    ps != [] && ps[0] == h
  }

  lemma HangsOffIsChild(s: State, rid: string, x: string, y: string)
    requires Inv(s) && rid in s.revs && x in s.revs
    ensures HangsOff(s, rid, y, s.revs[x].hash) <==> y != rid && IsChild(s, x, y)
  {
    if y in s.revs && s.revs[y].hash in s.snaps {
      var n := s.snaps[s.revs[y].hash];
      if n.parents != [] {
        assert FirstParentDepth(SnapshotID(n)) == 1 + FirstParentDepth(n.parents[0]);
      }
    }
  }

  /** The index lists exactly the children among the ids seen so far. */
  ghost predicate Indexed(s: State, rid: string, children: map<ID, seq<string>>, ids: seq<string>) {
    forall h, c :: c in Kids(children, h) <==> c in ids && HangsOff(s, rid, c, h)
  }

  lemma IndexedStep(s: State, rid: string, before: map<ID, seq<string>>, after: map<ID, seq<string>>,
      ids: seq<string>, c: string)
    requires Indexed(s, rid, before, ids)
    requires forall h :: Kids(after, h) == Kids(before, h) + if HangsOff(s, rid, c, h) then [c] else []
    ensures Indexed(s, rid, after, ids + [c])
  {
  }

  lemma IndexedAll(s: State, rid: string, children: map<ID, seq<string>>)
    requires Indexed(s, rid, children, Sorted(s.revs.Keys))
    ensures forall h, c :: c in Kids(children, h) <==> HangsOff(s, rid, c, h)
  {
  }

  /** The parent-to-children index of DescendantsOf, over first-parent edges only. */
  lemma NothingIndexed(s: State, rid: string)
    ensures Indexed(s, rid, map[], [])
  {
  }

  method IndexChildren(rid: string, r: Repo) returns (children: map<ID, seq<string>>)
    requires Inv(r.State()) && rid in r.revisions
    ensures forall h, c :: c in Kids(children, h) <==> HangsOff(r.State(), rid, c, h)
  {
    hide Sorted, Indexed, Owned;
    NothingIndexed(r.State(), rid);
    var ids := r.ListRevisions();
    ghost var s := r.State();
    children := map[];
    var i := 0;
    while i < |ids|
      invariant i <= |ids|
      invariant Indexed(s, rid, children, ids[..i])
    {
      var c := ids[i];
      TakeMore(ids, i);
      ghost var before := children;
      var rev := r.revisions[c];
      if rev.hash != r.revisions[rid].hash {
        match r.GetSnapshot(rev.hash) {
          case Err(_) =>
          case Ok(rs) =>
            if |rs.parents| > 0 {
              children := children[rs.parents[0] := Kids(children, rs.parents[0]) + [c]];
            }
        }
      }
      IndexedStep(s, rid, before, children, ids[..i], c);
      i := i + 1;
    }
    assert ids[..i] == ids;
    IndexedAll(s, rid, children);
  }

  /** Found revisions in order: each hangs off the start or off an earlier one. */
  ghost predicate Ordered(s: State, rid: string, out: seq<string>) {
    NoRepeats(out) &&
    forall i ::
      0 <= i < |out| ==>
      out[i] != rid && (IsChild(s, rid, out[i]) || exists j :: 0 <= j < i && IsChild(s, out[j], out[i]))
  }

  ghost predicate Reached(s: State, rid: string, out: seq<string>, h: ID) {
    exists x :: (x == rid || x in out) && RevHash(s, x) == h && x in s.revs
  }

  ghost predicate Explored(s: State, rid: string, out: seq<string>, x: string) {
    forall y :: y != rid && IsChild(s, x, y) ==> y in out
  }

  /** Everything reached is explored or still pending, and everything pending was reached. */
  ghost predicate Frontier(s: State, rid: string, out: seq<string>, pending: seq<ID>) {
    Ordered(s, rid, out) && (forall c :: c in out ==> c in s.revs) &&
    (forall h :: h in pending ==> Reached(s, rid, out, h)) &&
    (forall x :: x == rid || x in out ==> RevHash(s, x) in pending || Explored(s, rid, out, x))
  }

  lemma FrontierStart(s: State, rid: string)
    requires rid in s.revs
    ensures Frontier(s, rid, [], [s.revs[rid].hash])
  {
    assert RevHash(s, rid) == s.revs[rid].hash;
  }

  lemma FrontierIsList(s: State, rid: string, out: seq<string>)
    requires Frontier(s, rid, out, [])
    ensures IsDescendantList(s, rid, out)
  {
    forall x, y | (x == rid || x in out) && y != rid && IsChild(s, x, y) ensures y in out {
      assert RevHash(s, x) !in [] && Explored(s, rid, out, x);
    }
  }

  lemma FoundOne(s: State, rid: string, out: seq<string>, c: string, h: ID, pending: seq<ID>, pending': seq<ID>)
    requires Inv(s) && rid in s.revs && Frontier(s, rid, out, pending)
    requires c !in out && HangsOff(s, rid, c, h) && h in pending
    requires forall k :: k in pending' <==> k in pending || k == RevHash(s, c)
    ensures Frontier(s, rid, out + [c], pending')
  {
    var x :| (x == rid || x in out) && RevHash(s, x) == h && x in s.revs;
    HangsOffIsChild(s, rid, x, c);
    var out' := out + [c];
    forall i | 0 <= i < |out'|
      ensures out'[i] != rid && (IsChild(s, rid, out'[i]) || exists j :: 0 <= j < i && IsChild(s, out'[j], out'[i]))
    {
      if i < |out| {
        if !IsChild(s, rid, out[i]) {
          var j :| 0 <= j < i && IsChild(s, out[j], out[i]);
          assert IsChild(s, out'[j], out'[i]);
        }
      } else if x != rid {
        var j :| 0 <= j < |out| && out[j] == x;
        assert IsChild(s, out'[j], out'[i]);
      }
    }
    forall k | k in pending' ensures Reached(s, rid, out', k) {
      if k in pending {
        var z :| (z == rid || z in out) && RevHash(s, z) == k && z in s.revs;
        assert z == rid || z in out';
      } else {
        assert c in out';
      }
    }
    forall z | z == rid || z in out' ensures RevHash(s, z) in pending' || Explored(s, rid, out', z) {
      if z != c && RevHash(s, z) !in pending {
        assert z == rid || z in out;
        assert Explored(s, rid, out, z);
      }
    }
  }

  lemma ExploredHash(s: State, rid: string, out: seq<string>, h: ID, pending: seq<ID>, rest: seq<ID>)
    requires Inv(s) && rid in s.revs && Frontier(s, rid, out, pending)
    requires forall c :: HangsOff(s, rid, c, h) ==> c in out
    requires forall k :: k in pending ==> k == h || k in rest
    requires forall k :: k in rest ==> k in pending
    ensures Frontier(s, rid, out, rest)
  {
    forall z | z == rid || z in out ensures RevHash(s, z) in rest || Explored(s, rid, out, z) {
      if RevHash(s, z) == h {
        forall y | y != rid && IsChild(s, z, y) ensures y in out { HangsOffIsChild(s, rid, z, y); }
      }
    }
  }

  /** The loop over the children of one frontier snapshot. */
  method AddChildren(kids: seq<string>, h: ID, rid: string, r: Repo, out: seq<string>, seen: set<string>,
      todo: seq<ID>, next: seq<ID>)
    returns (out': seq<string>, seen': set<string>, next': seq<ID>)
    requires Inv(r.State()) && rid in r.revisions
    requires forall c :: c in kids ==> HangsOff(r.State(), rid, c, h)
    requires SeenAre(seen, out) && h in todo && Frontier(r.State(), rid, out, todo + next)
    ensures SeenAre(seen', out') && seen <= seen' && Frontier(r.State(), rid, out', todo + next')
    ensures forall c :: c in kids ==> c in out'
    ensures forall c :: c in out ==> c in out'
    ensures seen' == seen ==> next' == next
  {
    hide Frontier, Inv;
    out', seen', next' := out, seen, next;
    var i := 0;
    while i < |kids|
      invariant i <= |kids|
      invariant SeenAre(seen', out') && seen <= seen' && Frontier(r.State(), rid, out', todo + next')
      invariant forall c :: c in kids[..i] ==> c in out'
      invariant forall c :: c in out ==> c in out'
      invariant seen' == seen ==> next' == next
    {
      var c := kids[i];
      assert c in kids;
      assert kids[..i + 1] == kids[..i] + [c];
      if c !in seen' {
        var hash := r.revisions[c].hash;
        FoundOne(r.State(), rid, out', c, h, todo + next', todo + (next' + [hash]));
        assert c !in seen;
        seen' := seen' + {c};
        out' := out' + [c];
        next' := next' + [hash];
      }
      i := i + 1;
    }
    assert kids[..i] == kids;
  }

  method DescendantsOf(rid: string, r: Repo) returns (res: Result<seq<string>>)
    requires Inv(r.State())
    ensures res.Ok? <==> rid in r.revisions
    ensures res.Ok? ==> IsDescendantList(r.State(), rid, res.value)
  {
    if rid !in r.revisions { return Err("store: not found"); }
    var children := IndexChildren(rid, r);
    ghost var s := r.State();
    var out: seq<string> := [];
    var seen: set<string> := {};
    var frontier := [r.revisions[rid].hash];
    FrontierStart(s, rid);
    while |frontier| > 0
      invariant SeenAre(seen, out) && seen <= r.revisions.Keys
      invariant Frontier(s, rid, out, frontier)
      decreases |r.revisions.Keys - seen|, |frontier|
    {
      ghost var before := seen;
      out, seen, frontier := NextLevel(children, rid, r, out, seen, frontier);
      if seen != before { Shrinks(r.revisions.Keys, before, seen); }
    }
    assert frontier == [];
    FrontierIsList(s, rid, out);
    return Ok(out);
  }

  ghost predicate SeenAre(seen: set<string>, out: seq<string>) { forall c :: c in seen <==> c in out }

  /** One level of the search: the children of every frontier snapshot. */
  method NextLevel(children: map<ID, seq<string>>, rid: string, r: Repo, out: seq<string>, seen: set<string>,
      frontier: seq<ID>)
    returns (out': seq<string>, seen': set<string>, next: seq<ID>)
    requires Inv(r.State()) && rid in r.revisions
    requires forall h, c :: c in Kids(children, h) <==> HangsOff(r.State(), rid, c, h)
    requires SeenAre(seen, out) && seen <= r.revisions.Keys && Frontier(r.State(), rid, out, frontier)
    ensures SeenAre(seen', out') && seen <= seen' <= r.revisions.Keys && Frontier(r.State(), rid, out', next)
    ensures seen' == seen ==> next == []
  {
    ghost var s := r.State();
    out', seen', next := out, seen, [];
    var k := 0;
    assert frontier[0..] + next == frontier;
    while k < |frontier|
      invariant k <= |frontier|
      invariant SeenAre(seen', out') && seen <= seen'
      invariant Frontier(s, rid, out', frontier[k..] + next)
      invariant seen' == seen ==> next == []
    {
      var h := frontier[k];
      out', seen', next := AddChildren(Kids(children, h), h, rid, r, out', seen', frontier[k..], next);
      assert frontier[k..] == [h] + frontier[k + 1..];
      ExploredHash(s, rid, out', h, frontier[k..] + next, frontier[k + 1..] + next);
      k := k + 1;
    }
    assert frontier[k..] + next == next;
  }

  // ---- Resolve's search over all parent edges -----------------------------------------------------

  /** Some parent edge of `c`'s current snapshot is the snapshot `h`. */
  predicate HasParent(s: State, c: string, h: ID) {
    Current(s, c).Ok? && h in Current(s, c).value.parents
  }

  /** The i-th found revision hangs off the start or off an earlier one. */
  ghost predicate FoundAt(s: State, seed: ID, out: seq<string>, i: int)
    requires 0 <= i < |out|
  {
    HasParent(s, out[i], seed) || exists j :: 0 <= j < i && HasParent(s, out[i], RevHash(s, out[j]))
  }

  /** `out` is the least set of revisions closed under following parent edges forward from `seed`:
      each was reached from the seed or an earlier one, and nothing reachable is missing. */
  ghost predicate IsForwardClosure(s: State, seed: ID, out: seq<string>) {
    NoRepeats(out) &&
    (forall i :: 0 <= i < |out| ==> FoundAt(s, seed, out, i)) &&
    (forall c :: HasParent(s, c, seed) ==> c in out) &&
    (forall c, d :: d in out && HasParent(s, c, RevHash(s, d)) ==> c in out)
  }

  lemma ChildDeeper(s: State, c: string, h: ID)
    requires Inv(s) && HasParent(s, c, h)
    ensures Depth(h) < Depth(RevHash(s, c))
  {
    var n := Current(s, c).value;
    var i :| 0 <= i < |n.parents| && n.parents[i] == h;
    DepthParent(SnapshotID(n), i);
  }

  /** What is found lies strictly above the seed: the owner of the seed is never found. */
  lemma {:induction false} FoundDeeper(s: State, seed: ID, out: seq<string>, i: nat)
    requires Inv(s) && i < |out| && forall k :: 0 <= k < |out| ==> FoundAt(s, seed, out, k)
    ensures Depth(seed) < Depth(RevHash(s, out[i]))
    decreases i
  {
    hide HasParent, RevHash, Depth, Inv;
    assert FoundAt(s, seed, out, i);
    if HasParent(s, out[i], seed) {
      ChildDeeper(s, out[i], seed);
    } else {
      var j :| 0 <= j < i && HasParent(s, out[i], RevHash(s, out[j]));
      FoundDeeper(s, seed, out, j);
      ChildDeeper(s, out[i], RevHash(s, out[j]));
    }
  }

  lemma SeedNotFound(s: State, seed: ID, out: seq<string>, c: string)
    requires Inv(s) && (forall k :: 0 <= k < |out| ==> FoundAt(s, seed, out, k)) && c in out
    ensures RevHash(s, c) != seed
  {
    hide FoundAt, RevHash, Inv;
    var i :| 0 <= i < |out| && out[i] == c;
    FoundDeeper(s, seed, out, i);
  }

  ghost predicate ReachedForward(s: State, seed: ID, out: seq<string>, h: ID) {
    h == seed || exists d :: d in out && RevHash(s, d) == h
  }

  /** The part of the search already done. */
  ghost predicate Forward(s: State, seed: ID, out: seq<string>, pending: seq<ID>) {
    NoRepeats(out) && (forall c :: c in out ==> c in s.revs) &&
    (forall i :: 0 <= i < |out| ==> FoundAt(s, seed, out, i)) &&
    (forall h :: h in pending ==> ReachedForward(s, seed, out, h)) &&
    (forall h, c :: ReachedForward(s, seed, out, h) && h !in pending && HasParent(s, c, h) ==> c in out)
  }

  lemma FoundAtMore(s: State, seed: ID, out: seq<string>, c: string, i: nat)
    requires i < |out| && FoundAt(s, seed, out, i)
    ensures FoundAt(s, seed, out + [c], i)
  {
    hide HasParent, RevHash;
    if !HasParent(s, out[i], seed) {
      var j :| 0 <= j < i && HasParent(s, out[i], RevHash(s, out[j]));
      assert HasParent(s, (out + [c])[i], RevHash(s, (out + [c])[j]));
    }
  }

  lemma NewFound(s: State, seed: ID, out: seq<string>, c: string, h: ID)
    requires ReachedForward(s, seed, out, h) && HasParent(s, c, h)
    ensures FoundAt(s, seed, out + [c], |out|)
  {
    hide HasParent, RevHash;
    if h != seed {
      var d :| d in out && RevHash(s, d) == h;
      var j :| 0 <= j < |out| && out[j] == d;
      assert HasParent(s, (out + [c])[|out|], RevHash(s, (out + [c])[j]));
    }
  }

  lemma ReachedMore(s: State, seed: ID, out: seq<string>, c: string, h: ID)
    ensures ReachedForward(s, seed, out + [c], h) <==> ReachedForward(s, seed, out, h) || RevHash(s, c) == h
  {
    hide RevHash;
    if ReachedForward(s, seed, out, h) && h != seed {
      var d :| d in out && RevHash(s, d) == h;
      assert d in out + [c];
    }
    assert c in out + [c];
  }

  lemma ForwardFound(s: State, seed: ID, out: seq<string>, c: string, h: ID, pending: seq<ID>)
    requires Inv(s) && Forward(s, seed, out, pending) && c !in out && HasParent(s, c, h) && h in pending
    ensures Forward(s, seed, out + [c], pending + [RevHash(s, c)])
  {
    var out', pending' := out + [c], pending + [RevHash(s, c)];
    assert c in s.revs;
    hide Inv, FoundAt, ReachedForward, HasParent, RevHash;
    NewFound(s, seed, out, c, h);
    forall i | 0 <= i < |out'| ensures FoundAt(s, seed, out', i) {
      if i < |out| { FoundAtMore(s, seed, out, c, i); }
    }
    forall k | k in pending' ensures ReachedForward(s, seed, out', k) { ReachedMore(s, seed, out, c, k); }
    forall k, b | ReachedForward(s, seed, out', k) && k !in pending' && HasParent(s, b, k) ensures b in out' {
      ReachedMore(s, seed, out, c, k);
      assert RevHash(s, c) in pending';
    }
  }

  lemma ForwardDone(s: State, seed: ID, out: seq<string>, h: ID, rest: seq<ID>)
    requires Forward(s, seed, out, [h] + rest)
    requires forall c :: HasParent(s, c, h) ==> c in out
    ensures Forward(s, seed, out, rest)
  {
  }

  lemma ForwardIsClosure(s: State, seed: ID, out: seq<string>)
    requires Forward(s, seed, out, [])
    ensures IsForwardClosure(s, seed, out)
  {
    forall c, d | d in out && HasParent(s, c, RevHash(s, d)) ensures c in out {
      assert ReachedForward(s, seed, out, RevHash(s, d));
    }
    assert ReachedForward(s, seed, out, seed);
  }

  ghost predicate Covered(s: State, ids: seq<string>, h: ID, out: seq<string>) {
    forall c :: c in ids && HasParent(s, c, h) ==> c in out
  }

  lemma CoveredStep(s: State, ids: seq<string>, c: string, h: ID, before: seq<string>, after: seq<string>)
    requires Covered(s, ids, h, before) && before <= after
    requires HasParent(s, c, h) ==> c in after
    ensures Covered(s, ids + [c], h, after)
  {
    forall x | x in before ensures x in after {
      var i :| 0 <= i < |before| && before[i] == x;
      assert after[i] == x;
    }
  }

  lemma AppendLast(h: ID, queue: seq<ID>, last: ID)
    ensures [h] + queue + [last] == [h] + (queue + [last])
  {
  }

  /** Visited are the revisions found and, if it has one, the owner of the seed. */
  ghost predicate VisitedAre(s: State, seed: ID, visited: set<string>, out: seq<string>) {
    (forall c :: c in out ==> c in visited) && forall c :: c in visited ==> c in out || RevHash(s, c) == seed
  }

  lemma VisitedMore(s: State, seed: ID, visited: set<string>, out: seq<string>, c: string)
    requires VisitedAre(s, seed, visited, out)
    ensures VisitedAre(s, seed, visited + {c}, out + [c])
  {
  }

  /** A candidate that was visited before is already found. */
  lemma VisitedFound(s: State, seed: ID, visited: set<string>, out: seq<string>, pending: seq<ID>, c: string, h: ID)
    requires Inv(s) && Forward(s, seed, out, pending) && VisitedAre(s, seed, visited, out)
    requires h in pending && HasParent(s, c, h) && c in visited
    ensures c in out
  {
    hide FoundAt, HasParent, RevHash, Inv, Depth;
    if h != seed {
      var d :| d in out && RevHash(s, d) == h;
      var i :| 0 <= i < |out| && out[i] == d;
      FoundDeeper(s, seed, out, i);
    }
    ChildDeeper(s, c, h);
  }

  /** One turn of the queue: every revision with a parent edge to `h` that is not yet visited. */
  method VisitCandidates(seed: ID, h: ID, rest: seq<ID>, r: Repo, visited: set<string>, out: seq<string>)
    returns (visited': set<string>, out': seq<string>, queue: seq<ID>)
    requires Inv(r.State()) && Forward(r.State(), seed, out, [h] + rest) && VisitedAre(r.State(), seed, visited, out)
    ensures Forward(r.State(), seed, out', queue) && VisitedAre(r.State(), seed, visited', out')
    ensures out <= out' && (out' == out ==> queue == rest)
  {
    hide Forward, FoundAt, ReachedForward, VisitedAre;
    ghost var s := r.State();
    var all := r.ListRevisions();
    visited', out', queue := visited, out, rest;
    var i := 0;
    while i < |all|
      invariant i <= |all|
      invariant Forward(s, seed, out', [h] + queue) && VisitedAre(s, seed, visited', out')
      invariant out <= out' && (out' == out ==> queue == rest)
      invariant Covered(s, all[..i], h, out')
    {
      ghost var before := out';
      TakeMore(all, i);
      match r.GetSnapshot(r.revisions[all[i]].hash) {
        case Err(_) =>
        case Ok(snap) =>
          if h in snap.parents {
            if all[i] !in visited' {
              NotVisitedNotFound(s, seed, visited', out', all[i]);
              ForwardFound(s, seed, out', all[i], h, [h] + queue);
              AppendLast(h, queue, snap.hash);
              VisitedMore(s, seed, visited', out', all[i]);
              visited' := visited' + {all[i]};
              out' := out' + [all[i]];
              queue := queue + [snap.hash];
            } else {
              VisitedFound(s, seed, visited', out', [h] + queue, all[i], h);
            }
          }
      }
      CoveredStep(s, all[..i], all[i], h, before, out');
      i := i + 1;
    }
    assert all[..i] == all;
    AllCandidates(s, all, h, out');
    ForwardDone(s, seed, out', h, queue);
  }

  lemma NotVisitedNotFound(s: State, seed: ID, visited: set<string>, out: seq<string>, c: string)
    requires VisitedAre(s, seed, visited, out) && c !in visited
    ensures c !in out
  {
  }

  lemma AllCandidates(s: State, all: seq<string>, h: ID, out: seq<string>)
    requires all == Sorted(s.revs.Keys) && Covered(s, all, h, out)
    ensures forall c :: HasParent(s, c, h) ==> c in out
  {
  }

  lemma ForwardStart(s: State, m: map<ID, string>, seed: ID, visited: set<string>)
    requires IsOwnerMap(s, m) && visited <= if seed in m then {m[seed]} else {}
    ensures Forward(s, seed, [], [seed]) && VisitedAre(s, seed, visited, [])
  {
    hide HasParent;
  }

  /** descendantsFromSnapshot. The revision that owns the seed counts as visited from the start. */
  method DescendantsFromSnapshot(seed: ID, r: Repo) returns (out: seq<string>)
    requires Inv(r.State())
    ensures IsForwardClosure(r.State(), seed, out)
  {
    hide *;
    ghost var s := r.State();
    var snapOwner := OwnerMap(r);
    var owner := if seed in snapOwner then snapOwner[seed] else "";
    var visited := if owner != "" then {owner} else {};
    out := [];
    var queue := [seed];
    ForwardStart(s, snapOwner, seed, visited);
    while |queue| > 0
      invariant Forward(s, seed, out, queue) && VisitedAre(s, seed, visited, out)
      decreases |s.revs.Keys| - |out|, |queue|
    {
      ForwardBounded(s, seed, out, queue);
      assert queue == [queue[0]] + queue[1..];
      visited, out, queue := VisitCandidates(seed, queue[0], queue[1..], r, visited, out);
      ForwardBounded(s, seed, out, queue);
    }
    assert queue == [];
    ForwardIsClosure(s, seed, out);
  }

  lemma ForwardBounded(s: State, seed: ID, out: seq<string>, pending: seq<ID>)
    requires Forward(s, seed, out, pending)
    ensures |out| <= |s.revs.Keys|
  {
    DistinctBounded(out, s.revs.Keys);
  }

  lemma {:induction false} DistinctBounded(out: seq<string>, all: set<string>)
    requires NoRepeats(out) && forall c :: c in out ==> c in all
    ensures |out| <= |all|
  {
    if out != [] {
      var last := out[|out| - 1];
      DistinctBounded(out[..|out| - 1], all - {last});
    }
  }
}
