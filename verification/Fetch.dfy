/** Selective fetch: the wanted revisions with their ancestors (changeSetWithAncestors), and a bundle
    filtered down to them (FilterBundleWant). */
module Fetch {
  import opened Prelude
  import opened Graphs
  import opened Objects
  import opened History
  import opened Evolution
  import opened Store
  import opened SnapshotOwners
  import opened Ancestry
  import opened Push
  import opened Reading
  import opened Transfer

  /** The owners of a list of parents. An empty id counts as no owner. */
  function Owners(m: map<ID, string>, parents: seq<ID>): seq<string> {
    if parents == [] then []
    else
      var last := parents[|parents| - 1];
      Owners(m, parents[..|parents| - 1]) + if last in m && m[last] != "" then [m[last]] else []
  }

  lemma {:induction false} OwnersAre(m: map<ID, string>, parents: seq<ID>, o: string)
    ensures o in Owners(m, parents) <==> o != "" && exists p :: p in parents && p in m && m[p] == o
  {
    if parents != [] {
      OwnersAre(m, parents[..|parents| - 1], o);
      assert parents == parents[..|parents| - 1] + [parents[|parents| - 1]];
    }
  }

  /** From a revision to the owners of its snapshot's parents. */
  ghost function OwnerGraph(s: State, m: map<ID, string>): Graph<string> {
    map id | id in s.revs && s.revs[id].hash in s.snaps :: Owners(m, s.snaps[s.revs[id].hash].parents)
  }

  /** What visiting `id` adds to the result. */
  ghost predicate Visited(g: Graph<string>, have: set<string>, id: string, before: set<string>, after: set<string>) {
    before <= after &&
    forall x ::
      x in after && x !in before ==> x !in have && Reaches(Trim(g, have), id, x) && Expanded(g, x, after + have)
  }

  /** The same while the parents of `id` are being visited. */
  ghost predicate VisitingParents(g: Graph<string>, have: set<string>, id: string, before: set<string>,
      after: set<string>) {
    before + {id} <= after &&
    forall x ::
      x in after && x !in before ==>
      x !in have && Reaches(Trim(g, have), id, x) && (x == id || Expanded(g, x, after + have))
  }

  lemma VisitStart(g: Graph<string>, have: set<string>, id: string, before: set<string>)
    ensures Visited(g, have, id, before, before)
    ensures id !in have ==> VisitingParents(g, have, id, before, before + {id})
    ensures id !in have && id !in g ==> Visited(g, have, id, before, before + {id})
  {
    ReachesSelf(Trim(g, have), id);
  }

  lemma VisitMore(g: Graph<string>, have: set<string>, id: string, o: string, before: set<string>, mid: set<string>,
      after: set<string>)
    requires VisitingParents(g, have, id, before, mid) && Visited(g, have, o, mid, after)
    requires Edge(g, id, o) && id !in have
    ensures VisitingParents(g, have, id, before, after)
  {
    ReachesEdge(Trim(g, have), id, o);
    forall x | x in after && x !in before
      ensures x !in have && Reaches(Trim(g, have), id, x) && (x == id || Expanded(g, x, after + have))
    {
      if x in mid {
        assert x == id || Expanded(g, x, mid + have);
      } else {
        ReachesTransitive(Trim(g, have), id, o, x);
      }
    }
  }

  lemma VisitDone(g: Graph<string>, have: set<string>, id: string, before: set<string>, after: set<string>)
    requires VisitingParents(g, have, id, before, after) && Expanded(g, id, after + have)
    ensures Visited(g, have, id, before, after)
  {
  }

  /** The recursive visit of changeSetWithAncestors. `all` bounds the result. */
  method Visit(s: State, m: map<ID, string>, have: set<string>, id: string, before: set<string>, ghost all: set<string>)
    returns (after: set<string>)
    requires IsOwnerMap(s, m) && s.revs.Keys <= all && before <= all && id in all
    ensures Visited(OwnerGraph(s, m), have, id, before, after) && after <= all
    ensures id in have || id in after
    decreases |all - before|
  {
    hide Visited, VisitingParents, OwnerGraph, Reaches;
    ghost var g := OwnerGraph(s, m);
    after := before;
    VisitStart(g, have, id, before);
    if id in have || id in before { return; }
    after := before + {id};
    Shrinks(all, before, after);
    OwnerGraphAt(s, m, id);
    if id !in s.revs || s.revs[id].hash !in s.snaps { return; }
    var parents := s.snaps[s.revs[id].hash].parents;
    for i := 0 to |parents|
      invariant VisitingParents(g, have, id, before, after) && before + {id} <= after <= all
      invariant forall o :: o in Owners(m, parents[..i]) ==> o in after + have
    {
      TakeMore(parents, i);
      TakeInit(parents, i);
      if parents[i] in m && m[parents[i]] != "" {
        var o := m[parents[i]];
        ghost var mid := after;
        OwnersAre(m, parents, o);
        ShrinksMore(all, before + {id}, mid);
        after := Visit(s, m, have, o, after, all);
        VisitedGrows(g, have, o, mid, after);
        VisitMore(g, have, id, o, before, mid, after);
      }
    }
    WholeSlices(parents);
    VisitDone(g, have, id, before, after);
  }

  lemma ShrinksMore(all: set<string>, a: set<string>, b: set<string>)
    requires a <= b <= all
    ensures |all - b| <= |all - a|
  {
    if a != b { Shrinks(all, a, b); }
  }

  lemma VisitedGrows(g: Graph<string>, have: set<string>, id: string, before: set<string>, after: set<string>)
    requires Visited(g, have, id, before, after)
    ensures before <= after
  {
  }

  lemma OwnerGraphAt(s: State, m: map<ID, string>, id: string)
    ensures id in OwnerGraph(s, m) <==> id in s.revs && s.revs[id].hash in s.snaps
    ensures id in OwnerGraph(s, m) ==> OwnerGraph(s, m)[id] == Owners(m, s.snaps[s.revs[id].hash].parents)
  {
  }

  /** Wanted, or an ancestor of a wanted revision, and not behind one the peer has. */
  ghost predicate InChangeSet(s: State, m: map<ID, string>, wants: seq<string>, have: set<string>, y: string) {
    y !in have && exists w :: w in wants && Reaches(Trim(OwnerGraph(s, m), have), w, y)
  }

  /** changeSetWithAncestors. */
  method ChangeSetWithAncestors(r: Repo, wants: seq<string>, have: set<string>)
    returns (result: set<string>, ghost m: map<ID, string>)
    ensures forall y :: y in result ==> y !in have
    ensures forall w :: w in wants && w !in have ==> w in result
    ensures IsOwnerMap(r.State(), m)
    ensures forall y :: y in result <==> InChangeSet(r.State(), m, wants, have, y)
    ensures forall x :: x in result ==> x !in have && Expanded(OwnerGraph(r.State(), m), x, result + have)
  {
    hide ChangeSetSoFar, OwnerGraph, Visited, IsOwnerMap, InChangeSet;
    var snapOwner := OwnerMap(r);
    m := snapOwner;
    result := {};
    ghost var all := r.revisions.Keys + (set w | w in wants);
    ghost var g := OwnerGraph(r.State(), m);
    ChangeSetStart(g, have);
    for i := 0 to |wants|
      invariant result <= all && ChangeSetSoFar(g, wants[..i], have, result)
    {
      TakeMore(wants, i);
      ghost var before := result;
      result := Visit(r.State(), snapOwner, have, wants[i], result, all);
      ChangeSetMore(g, wants[..i], have, wants[i], before, result);
    }
    WholeSlices(wants);
    ChangeSetExact(r.State(), m, wants, have, result);
  }

  lemma ChangeSetStart(g: Graph<string>, have: set<string>)
    ensures ChangeSetSoFar(g, [], have, {})
  {
  }

  ghost predicate ChangeSetSoFar(g: Graph<string>, wants: seq<string>, have: set<string>, result: set<string>) {
    (forall w :: w in wants ==> w in result + have) &&
    forall x :: x in result ==> x !in have && Expanded(g, x, result + have) && exists w ::
      w in wants && Reaches(Trim(g, have), w, x)
  }

  lemma ChangeSetMore(g: Graph<string>, wants: seq<string>, have: set<string>, w: string, before: set<string>,
      after: set<string>)
    requires ChangeSetSoFar(g, wants, have, before) && Visited(g, have, w, before, after) && (w in have || w in after)
    ensures ChangeSetSoFar(g, wants + [w], have, after)
  {
    forall x | x in after
      ensures x !in have && Expanded(g, x, after + have) && exists v :: v in wants + [w] && Reaches(Trim(g, have), v, x)
    {
      if x in before {
        assert Expanded(g, x, before + have);
        var v :| v in wants && Reaches(Trim(g, have), v, x);
        assert v in wants + [w];
      } else {
        assert w in wants + [w];
      }
    }
  }

  lemma ChangeSetExact(s: State, m: map<ID, string>, wants: seq<string>, have: set<string>, result: set<string>)
    requires ChangeSetSoFar(OwnerGraph(s, m), wants, have, result)
    ensures forall y :: y in result <==> InChangeSet(s, m, wants, have, y)
    ensures forall x :: x in result ==> x !in have && Expanded(OwnerGraph(s, m), x, result + have)
    ensures forall w :: w in wants && w !in have ==> w in result
  {
    var g := OwnerGraph(s, m);
    forall y | InChangeSet(s, m, wants, have, y) ensures y in result {
      var w :| w in wants && Reaches(Trim(g, have), w, y);
      forall a, c | a in result && Edge(g, a, c) ensures c in result || c in have {
        assert Expanded(g, a, result + have);
      }
      var p :| IsPath(Trim(g, have), p, w, y);
      TrimmedPathStays(g, result, have, p, w, y);
    }
  }

  // ---- FilterBundleWant --------------------------------------------------------------------------------------

  ghost function Picked(rs: seq<Revision>, wanted: set<string>): seq<Revision> {
    if rs == [] then []
    else
      var last := rs[|rs| - 1];
      Picked(rs[..|rs| - 1], wanted) + if last.id in wanted then [last] else []
  }

  /** The last snapshot of each revision id. */
  ghost function ByRevision(ns: seq<Snapshot>): map<string, Snapshot> {
    if ns == [] then map[] else var last := ns[|ns| - 1]; ByRevision(ns[..|ns| - 1])[last.revision := last]
  }

  ghost function PickedSnapshots(rs: seq<Revision>, byRev: map<string, Snapshot>, wanted: set<string>): seq<Snapshot> {
    if rs == [] then []
    else
      var id := rs[|rs| - 1].id;
      PickedSnapshots(rs[..|rs| - 1], byRev, wanted) + if id in wanted && id in byRev then [byRev[id]] else []
  }

  ghost function FilteredPack(b: Pack, wanted: set<string>): Pack {
    if wanted == {} then b
    else Pack(Picked(b.revisions, wanted), PickedSnapshots(b.revisions, ByRevision(b.snapshots), wanted))
  }

  /** FilterBundleWant. An empty set filters nothing; refs and objects are kept as they are. */
  method FilterBundleWant(b: Bundle, wanted: set<string>) returns (out: Bundle)
    ensures out == b.(pack := FilteredPack(b.pack, wanted))
  {
    if |wanted| == 0 { return b; }
    var snapByRev: map<string, Snapshot> := map[];
    for i := 0 to |b.pack.snapshots|
      invariant snapByRev == ByRevision(b.pack.snapshots[..i])
    {
      TakeInit(b.pack.snapshots, i);
      snapByRev := snapByRev[b.pack.snapshots[i].revision := b.pack.snapshots[i]];
    }
    WholeSlices(b.pack.snapshots);
    var keptRev, keptSnap: seq<Snapshot> := [], [];
    for i := 0 to |b.pack.revisions|
      invariant keptRev == Picked(b.pack.revisions[..i], wanted)
      invariant keptSnap == PickedSnapshots(b.pack.revisions[..i], snapByRev, wanted)
    {
      TakeInit(b.pack.revisions, i);
      var r := b.pack.revisions[i];
      if r.id !in wanted { continue; }
      keptRev := keptRev + [r];
      if r.id in snapByRev { keptSnap := keptSnap + [snapByRev[r.id]]; }
    }
    WholeSlices(b.pack.revisions);
    out := b.(pack := Pack(keptRev, keptSnap));
  }

  // ---- The filtered bundle --------------------------------------------------------------------------------------

  /** Every revision of the bundle comes with its current snapshot, as the repository stores it. */
  ghost predicate CarriesOwn(s: State, b: Pack) {
    |b.revisions| == |b.snapshots| &&
    forall i ::
      0 <= i < |b.revisions| ==>
      b.revisions[i].id in s.revs && CarriesRow(s, b.revisions[i].id, b.revisions[i], b.snapshots[i])
  }

  /** Each parent of a carried snapshot that some revision points at is carried or had by the peer. */
  ghost predicate AncestorClosed(s: State, have: set<string>, b: Pack) {
    forall i, o :: 0 <= i < |b.snapshots| && o in s.revs && o != "" && s.revs[o].hash in b.snapshots[i].parents ==>
      o in have || HasRevision(b, o)
  }

  ghost predicate HasRevision(b: Pack, id: string) { exists r :: r in b.revisions && r.id == id }

  lemma {:induction false} PickedAre(rs: seq<Revision>, wanted: set<string>, r: Revision)
    ensures r in Picked(rs, wanted) <==> r in rs && r.id in wanted
  {
    if rs != [] {
      PickedAre(rs[..|rs| - 1], wanted, r);
      assert rs == rs[..|rs| - 1] + [rs[|rs| - 1]];
    }
  }

  lemma {:induction false} ByRevisionAt(ns: seq<Snapshot>, id: string)
    ensures id in ByRevision(ns) <==> exists n :: n in ns && n.revision == id
    ensures id in ByRevision(ns) ==> ByRevision(ns)[id] in ns && ByRevision(ns)[id].revision == id
  {
    if ns != [] {
      ByRevisionAt(ns[..|ns| - 1], id);
      assert ns == ns[..|ns| - 1] + [ns[|ns| - 1]];
    }
  }

  /** Each picked revision is picked together with its own snapshot. */
  lemma {:induction false} PickedCarriesOwn(s: State, rs: seq<Revision>, byRev: map<string, Snapshot>,
      wanted: set<string>)
    requires forall r :: r in rs ==> r.id in byRev && CarriesRow(s, r.id, r, byRev[r.id])
    ensures CarriesOwn(s, Pack(Picked(rs, wanted), PickedSnapshots(rs, byRev, wanted)))
  {
    if rs != [] {
      assert rs == rs[..|rs| - 1] + [rs[|rs| - 1]];
      PickedCarriesOwn(s, rs[..|rs| - 1], byRev, wanted);
    }
  }

  lemma FilteredCarriesOwn(s: State, b: Pack, wanted: set<string>)
    requires Inv(s) && CarriesOwn(s, b)
    ensures CarriesOwn(s, FilteredPack(b, wanted))
  {
    var byRev := ByRevision(b.snapshots);
    forall r | r in b.revisions ensures r.id in byRev && CarriesRow(s, r.id, r, byRev[r.id]) {
      var i :| 0 <= i < |b.revisions| && b.revisions[i] == r;
      assert CarriesRow(s, b.revisions[i].id, b.revisions[i], b.snapshots[i]);
      assert b.snapshots[i] in b.snapshots && b.snapshots[i].revision == r.id;
      ByRevisionAt(b.snapshots, r.id);
      var j :| 0 <= j < |b.snapshots| && b.snapshots[j] == byRev[r.id];
      assert CarriesRow(s, b.revisions[j].id, b.revisions[j], b.snapshots[j]);
    }
    if wanted != {} { PickedCarriesOwn(s, b.revisions, byRev, wanted); }
  }

  /** A collected bundle carries every revision the peer lacks, each with its own snapshot. */
  lemma CollectedCarries(s: State, have: set<string>, b: Bundle)
    requires Inv(s) && CarriesRows(s, Sent(s, Sorted(s.revs.Keys), have), b.pack)
    ensures CarriesOwn(s, b.pack)
    ensures forall id :: HasRevision(b.pack, id) <==> id in s.revs && id !in have
  {
    var sent := Sent(s, Sorted(s.revs.Keys), have);
    forall i | 0 <= i < |sent| ensures b.pack.revisions[i].id == sent[i] {
      assert CarriesRow(s, sent[i], b.pack.revisions[i], b.pack.snapshots[i]);
      CurrentOwned(s, sent[i]);
    }
    forall id ensures HasRevision(b.pack, id) <==> id in s.revs && id !in have {
      SentAre(s, Sorted(s.revs.Keys), have, id);
      if id in s.revs { CurrentOwned(s, id); }
      if id in sent {
        var i :| 0 <= i < |sent| && sent[i] == id;
        assert b.pack.revisions[i] in b.pack.revisions;
      }
    }
  }

  /** The revision points, on an edge of the owner graph, at every owner of its snapshot's parents. */
  lemma OwnerEdge(s: State, m: map<ID, string>, id: string, o: string)
    requires Inv(s) && IsOwnerMap(s, m) && id in s.revs && s.revs[id].hash in s.snaps
    requires o in s.revs && o != "" && s.revs[o].hash in s.snaps[s.revs[id].hash].parents
    ensures Edge(OwnerGraph(s, m), id, o)
  {
    OwnRow(s, o);
    OwnerMapIsOwner(s, m, s.revs[o].hash);
    OwnersAre(m, s.snaps[s.revs[id].hash].parents, o);
    OwnerGraphAt(s, m, id);
  }

  /** Without a selection, the collected bundle is ancestor-closed. */
  lemma CollectedAncestorClosed(s: State, have: set<string>, b: Bundle)
    requires Inv(s) && CarriesRows(s, Sent(s, Sorted(s.revs.Keys), have), b.pack)
    ensures AncestorClosed(s, have, b.pack)
  {
    CollectedCarries(s, have, b);
  }

  /**
   * A fetch filtered by changeSetWithAncestors is ancestor-closed: the owner of each parent of a
   * kept revision is in the bundle or already at the peer.
   */
  lemma FilteredAncestorClosed(s: State, m: map<ID, string>, have: set<string>, wanted: set<string>, b: Bundle)
    requires Inv(s) && IsOwnerMap(s, m) && CarriesRows(s, Sent(s, Sorted(s.revs.Keys), have), b.pack)
    requires wanted != {} && forall x :: x in wanted ==> x !in have && Expanded(OwnerGraph(s, m), x, wanted + have)
    ensures AncestorClosed(s, have, FilteredPack(b.pack, wanted))
    ensures forall id :: HasRevision(FilteredPack(b.pack, wanted), id) <==> id in s.revs && id in wanted
  {
    var kept := FilteredPack(b.pack, wanted);
    CollectedCarries(s, have, b);
    FilteredCarriesOwn(s, b.pack, wanted);
    forall id ensures HasRevision(kept, id) <==> id in s.revs && id in wanted {
      forall r ensures r in kept.revisions <==> r in b.pack.revisions && r.id in wanted {
        PickedAre(b.pack.revisions, wanted, r);
      }
    }
    forall i, o | 0 <= i < |kept.snapshots| && o in s.revs && o != "" && s.revs[o].hash in kept.snapshots[i].parents
      ensures o in have || HasRevision(kept, o)
    {
      var id := kept.revisions[i].id;
      assert CarriesRow(s, id, kept.revisions[i], kept.snapshots[i]);
      OwnerEdge(s, m, id, o);
      PickedAre(b.pack.revisions, wanted, kept.revisions[i]);
      assert Expanded(OwnerGraph(s, m), id, wanted + have);
    }
  }

  /** Everything a fetch promises about the revisions it returns. */
  ghost predicate Fetched(s: State, have: set<string>, wanted: set<string>, b: Pack) {
    CarriesOwn(s, b) && AncestorClosed(s, have, b) &&
    forall id :: HasRevision(b, id) <==> id in s.revs && id !in have && (wanted == {} || id in wanted)
  }

  lemma FilteredFetched(s: State, m: map<ID, string>, have: set<string>, wanted: set<string>, b: Bundle)
    requires Inv(s) && CarriesRows(s, Sent(s, Sorted(s.revs.Keys), have), b.pack)
    requires wanted != {} ==> IsOwnerMap(s, m) && forall x ::
      x in wanted ==> x !in have && Expanded(OwnerGraph(s, m), x, wanted + have)
    ensures Fetched(s, have, wanted, FilteredPack(b.pack, wanted))
  {
    CollectedCarries(s, have, b);
    CollectedAncestorClosed(s, have, b);
    FilteredCarriesOwn(s, b.pack, wanted);
    if wanted != {} { FilteredAncestorClosed(s, m, have, wanted, b); }
  }

  /** The change set is empty exactly when the peer already has every revision it asks for. */
  lemma EmptyChangeSet(s: State, m: map<ID, string>, wants: seq<string>, have: set<string>)
    ensures (forall y :: !InChangeSet(s, m, wants, have, y)) <==> forall w :: w in wants ==> w in have
  {
    var g := Trim(OwnerGraph(s, m), have);
    forall w | w in wants && w !in have ensures InChangeSet(s, m, wants, have, w) { ReachesSelf(g, w); }
    forall w, y | w in have && Reaches(g, w, y) ensures y in have {
      ClosedStays(g, have, w, y);
    }
  }

  /** A peer that has the root revision and asks for it again is also sent the child it did not ask for. */
  lemma UnfilteredFetch() returns (s: State, m: map<ID, string>)
    ensures Inv(s) && IsOwnerMap(s, m)
    ensures forall y :: !InChangeSet(s, m, ["root"], {"root"}, y)
    ensures forall b :: Fetched(s, {"root"}, {}, b) ==> HasRevision(b, "child")
  {
    var root := Seal(Snapshot(Zero, "root", [], TreeID(EMPTY_TREE), "", Author("dev", ""), NO_TIME));
    var child := Seal(Snapshot(Zero, "child", [root.hash], TreeID(EMPTY_TREE), "", Author("dev", ""), NO_TIME));
    assert "root"[0] != "child"[0];
    s := State(map[root.hash := root, child.hash := child],
               map["root" := Revision("root", root.hash, 0, "", []),
                 "child" := Revision("child", child.hash, 0, "", [])]);
    m := map[root.hash := "root", child.hash := "child"];
    EmptyChangeSet(s, m, ["root"], {"root"});
  }

  /** The fetch handler. The bundle is not filtered at all when nothing is asked for, and also when
      the peer already has everything it asks for. */
  method HandleFetch(r: Repo, read: Reader, wants: seq<string>, have: set<string>, known: set<ID>)
    returns (res: Result<Bundle>, ghost os: seq<Object>, ghost all: Pack, ghost m: map<ID, string>,
      ghost wanted: set<string>)
    ensures res.Ok? <==>
      CanSend(r.State(), Readings(r.objects, read), known, Sent(r.State(), Sorted(r.State().revs.Keys), have))
    ensures wants == [] || res.Err? ==> wanted == {}
    ensures wants != [] && res.Ok? ==> IsOwnerMap(r.State(), m) && forall y ::
      y in wanted <==> InChangeSet(r.State(), m, wants, have, y)
    ensures wants != [] && res.Ok? ==> (wanted == {} <==> forall w :: w in wants ==> w in have)
    ensures res.Ok? ==> res.value.pack == FilteredPack(all, wanted) && res.value.objects == Records(os)
    ensures res.Ok? ==> CarriesRows(r.State(), Sent(r.State(), Sorted(r.State().revs.Keys), have), all)
    ensures res.Ok? ==> res.value.refs == ListRefs(r.refs)
    ensures res.Ok? && Inv(r.State()) ==>
      CarriesOwn(r.State(), res.value.pack) && AncestorClosed(r.State(), have, res.value.pack)
    ensures res.Ok? ==> CarriesObjects(Readings(r.objects, read), known, all.snapshots, os)
    ensures res.Ok? && Inv(r.State()) ==> Fetched(r.State(), have, wanted, res.value.pack)
  {
    hide *;
    res, os := Collect(r, read, have, known);
    all, m, wanted := NO_PACK, map[], {};
    if res.Err? { return; }
    var b := res.value;
    all := b.pack;
    NoFilter(all);
    if |wants| > 0 {
      var selected;
      selected, m := ChangeSetWithAncestors(r, wants, have);
      wanted := selected;
      EmptyChangeSet(r.State(), m, wants, have);
      b := FilterBundleWant(b, selected);
    }
    if Inv(r.State()) {
      FilteredFetched(r.State(), m, have, wanted, res.value);
      FetchedParts(r.State(), have, wanted, FilteredPack(all, wanted));
    }
    res := Ok(b);
  }

  lemma FetchedParts(s: State, have: set<string>, wanted: set<string>, b: Pack)
    requires Fetched(s, have, wanted, b)
    ensures CarriesOwn(s, b) && AncestorClosed(s, have, b)
  {
  }

  lemma NoFilter(b: Pack)
    ensures FilteredPack(b, {}) == b
  {
  }
}
