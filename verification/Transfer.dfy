/**
 * Delta transfer of objects: collecting what a destination lacks (Collect, collectObjects) and the
 * store's own closure check (verifyTree). Both work on what the store gives back when an object is
 * read (Readings), which is not for every object what was stored.
 */
module Transfer {
  import opened Prelude
  import opened Paths
  import opened Graphs
  import opened Objects
  import opened History
  import opened Store
  import opened Reading
  import opened Ancestry
  import opened Push

  /** Ids an object refers to as a tree, in the order of its entry names. Conflict terms do not count. */
  function Children(o: Object): seq<ID> {
    if !o.TreeObject? then []
    else
      var names := Sorted(o.tree.entries.Keys);
      seq(|names|, i requires 0 <= i < |names| => o.tree.entries[names[i]].id)
  }

  ghost function ObjectGraph(objects: map<ID, Object>): Graph<ID> {
    map id | id in objects :: Children(objects[id])
  }

  /** Every entry of every stored tree is stored. */
  ghost predicate TreeClosed(objects: map<ID, Object>) {
    ClosedUnder(ObjectGraph(objects), objects.Keys)
  }

  // ---- collectObjects ------------------------------------------------------------------------------------

  /** These objects are what reading these ids gives, in order. */
  ghost predicate ReadFrom(view: map<ID, Object>, ids: seq<ID>, os: seq<Object>) {
    |ids| == |os| && forall i :: 0 <= i < |ids| ==> ids[i] in view && view[ids[i]] == os[i]
  }

  /** `out` holds what these ids read as, each id read once. */
  ghost predicate Emits(view: map<ID, Object>, ids: seq<ID>, out: seq<Object>, all: set<ID>) {
    NoRepeats(ids) && (forall x :: x in ids <==> x in all) && ReadFrom(view, ids, out)
  }

  /** What a walk from `root` adds to the visited set. */
  ghost predicate Walked(view: map<ID, Object>, known: set<ID>, root: ID, seen: set<ID>, seen': set<ID>) {
    var g := ObjectGraph(view);
    seen <= seen' &&
    (forall x :: x in seen' && x !in seen ==> Reaches(Trim(g, known), root, x)) &&
    (forall x :: x in seen' && x !in seen && x !in known ==> x in view && Expanded(g, x, seen'))
  }

  /** The same while the entries of `id` are being walked: `id` itself is not yet expanded. */
  ghost predicate WalkedKids(view: map<ID, Object>, known: set<ID>, id: ID, seen: set<ID>, seen': set<ID>) {
    var g := ObjectGraph(view);
    (forall x :: x in seen' && x !in seen ==> Reaches(Trim(g, known), id, x)) &&
    (forall x :: x in seen' && x !in seen && x != id && x !in known ==> x in view && Expanded(g, x, seen'))
  }

  lemma EmitsOne(view: map<ID, Object>, ids: seq<ID>, out: seq<Object>, id: ID, seen: set<ID>, known: set<ID>)
    requires Emits(view, ids, out, seen - known) && id !in seen && id !in known && id in view
    ensures Emits(view, ids + [id], out + [view[id]], seen + {id} - known)
  {
    assert id !in ids;
    forall x ensures x in ids + [id] <==> x in seen + {id} - known {
      if x != id { assert x in ids <==> x in seen - known; }
    }
  }

  lemma TrimmedEdge(view: map<ID, Object>, known: set<ID>, id: ID, i: nat)
    requires id in view && id !in known && i < |Children(view[id])|
    ensures Reaches(Trim(ObjectGraph(view), known), id, Children(view[id])[i])
  {
    assert Edge(Trim(ObjectGraph(view), known), id, Children(view[id])[i]);
    ReachesEdge(Trim(ObjectGraph(view), known), id, Children(view[id])[i]);
  }

  lemma WalkedMore(view: map<ID, Object>, known: set<ID>, id: ID, kid: ID, seen: set<ID>, before: set<ID>,
      after: set<ID>)
    requires WalkedKids(view, known, id, seen, before) && Walked(view, known, kid, before, after)
    requires Reaches(Trim(ObjectGraph(view), known), id, kid) && id in before
    ensures WalkedKids(view, known, id, seen, after) && before <= after
  {
    var g := ObjectGraph(view);
    forall x | x in after && x !in seen ensures Reaches(Trim(g, known), id, x) {
      if x !in before { ReachesTransitive(Trim(g, known), id, kid, x); }
    }
    forall x | x in after && x !in seen && x != id && x !in known ensures x in view && Expanded(g, x, after) {
      if x in before { assert Expanded(g, x, before); }
    }
  }

  /** The first n of these ids are seen. */
  ghost predicate KidsSeen(kids: seq<ID>, n: nat, seen: set<ID>) {
    n <= |kids| && forall k :: 0 <= k < n ==> kids[k] in seen
  }

  lemma KidsSeenMore(kids: seq<ID>, n: nat, before: set<ID>, after: set<ID>)
    requires KidsSeen(kids, n, before) && before <= after && n < |kids| && kids[n] in after
    ensures KidsSeen(kids, n + 1, after)
  {
  }

  lemma WalkDone(view: map<ID, Object>, known: set<ID>, id: ID, seen: set<ID>, seen': set<ID>)
    requires WalkedKids(view, known, id, seen, seen') && id in view && seen <= seen'
    requires KidsSeen(Children(view[id]), |Children(view[id])|, seen')
    ensures Walked(view, known, id, seen, seen')
  {
    assert Expanded(ObjectGraph(view), id, seen');
  }

  /** Some object that must be sent from here cannot be read. */
  ghost predicate Unreadable(view: map<ID, Object>, known: set<ID>, root: ID) {
    exists y :: y !in known && y !in view && Reaches(Trim(ObjectGraph(view), known), root, y)
  }

  lemma UnreadableBelow(view: map<ID, Object>, known: set<ID>, id: ID, i: nat)
    requires id in view && id !in known && i < |Children(view[id])| && Unreadable(view, known, Children(view[id])[i])
    ensures Unreadable(view, known, id)
  {
    hide Trim, ObjectGraph, Reaches, Children;
    var kid := Children(view[id])[i];
    var y :| y !in known && y !in view && Reaches(Trim(ObjectGraph(view), known), kid, y);
    TrimmedEdge(view, known, id, i);
    ReachesTransitive(Trim(ObjectGraph(view), known), id, kid, y);
  }

  /** The recursive walk of collectObjects. It stops at known ids and fails at an object that is missing
      or does not decode. What it emits, and where it goes on, is what the object reads as. */
  method Walk(objects: map<ID, Object>, read: Reader, known: set<ID>, id: ID, seen: set<ID>, out: seq<Object>,
      ghost ids: seq<ID>)
    returns (ok: bool, seen': set<ID>, out': seq<Object>, ghost ids': seq<ID>)
    requires Emits(Readings(objects, read), ids, out, seen - known)
    ensures ok ==> Walked(Readings(objects, read), known, id, seen, seen') && id in seen'
    ensures ok ==> Emits(Readings(objects, read), ids', out', seen' - known)
    ensures !ok ==> Unreadable(Readings(objects, read), known, id)
    decreases |objects.Keys - seen|
  {
    ghost var view := Readings(objects, read);
    ok, seen', out', ids' := true, seen, out, ids;
    WalkStart(view, known, id, seen);
    ReadingsAt(objects, read, id);
    hide Emits, Walked, WalkedKids, ObjectGraph, Trim, Reaches, KidsSeen, Unreadable, Sorted, Readings;
    if id in seen { return; }
    if id in known {
      seen' := seen + {id};
      assert seen' - known == seen - known;
      return;
    }
    if id !in objects { return false, seen, out, ids; }
    var reading := read(objects[id]);
    if reading.None? { return false, seen, out, ids; }
    var o := reading.value;
    ghost var kids := Children(o);
    EmitsOne(view, ids, out, id, seen, known);
    Shrinks(objects.Keys, seen * objects.Keys, seen * objects.Keys + {id});
    assert objects.Keys - seen == objects.Keys - seen * objects.Keys;
    out', ids' := out + [o], ids + [id];
    seen' := seen + {id};
    assert objects.Keys - seen' == objects.Keys - (seen * objects.Keys + {id});
    if o.TreeObject? {
      var names := Sorted(o.tree.entries.Keys);
      for i := 0 to |names|
        invariant ok && seen + {id} <= seen' && Emits(view, ids', out', seen' - known)
        invariant WalkedKids(view, known, id, seen, seen') && KidsSeen(kids, i, seen')
        invariant |objects.Keys - seen'| < |objects.Keys - seen|
      {
        ghost var before := seen';
        var e := o.tree.entries[names[i]];
        ok, seen', out', ids' := Walk(objects, read, known, e.id, seen', out', ids');
        if !ok {
          UnreadableBelow(view, known, id, i);
          return;
        }
        TrimmedEdge(view, known, id, i);
        WalkedMore(view, known, id, e.id, seen, before, seen');
        KidsSeenMore(kids, i, before, seen');
        LeftOver(objects.Keys, before, seen');
      }
    }
    WalkDone(view, known, id, seen, seen');
  }

  lemma LeftOver(all: set<ID>, before: set<ID>, after: set<ID>)
    requires before <= after
    ensures |all - after| <= |all - before|
  {
    var gone := (all - before) - (all - after);
    assert all - before == (all - after) + gone;
  }

  lemma ReadingsAt(objects: map<ID, Object>, read: Reader, id: ID)
    ensures var view := Readings(objects, read);
      (id in view <==> id in objects && read(objects[id]).Some?) && (id in view ==> Some(view[id]) == read(objects[id]))
  {
  }

  /** Nothing new, a known id, and the start of an expansion. */
  lemma WalkStart(view: map<ID, Object>, known: set<ID>, id: ID, seen: set<ID>)
    ensures Walked(view, known, id, seen, seen)
    ensures id in known ==> Walked(view, known, id, seen, seen + {id})
    ensures WalkedKids(view, known, id, seen, seen + {id})
    ensures id in view ==> KidsSeen(Children(view[id]), 0, seen + {id})
    ensures id !in known && id !in view ==> Unreadable(view, known, id)
  {
    ReachesSelf(Trim(ObjectGraph(view), known), id);
  }

  /** An object that the walk must send: reached without passing an object the destination has. */
  ghost predicate Needed(view: map<ID, Object>, known: set<ID>, root: ID, y: ID) {
    y !in known && Reaches(Trim(ObjectGraph(view), known), root, y)
  }

  /** collectObjects: what is read under exactly the ids reachable without passing through a known one,
      each id once. It fails exactly when one of them is missing or does not decode. */
  method CollectObjects(objects: map<ID, Object>, read: Reader, known: set<ID>, root: ID, out: seq<Object>)
    returns (ok: bool, out': seq<Object>, ghost ids: seq<ID>)
    ensures ok <==> AllRead(Readings(objects, read), known, root)
    ensures ok ==> out <= out' && NoRepeats(ids) && ReadFrom(Readings(objects, read), ids, out'[|out|..])
    ensures ok ==> forall y :: y in ids <==> Needed(Readings(objects, read), known, root, y)
  {
    var seen, found;
    assert {} - known == {};
    ok, seen, found, ids := Walk(objects, read, known, root, {}, [], []);
    out' := out + found;
    assert out'[|out|..] == found;
    if ok { WalkExact(Readings(objects, read), known, root, seen, ids, found); }
  }

  /** Everything needed from here can be read. */
  ghost predicate AllRead(view: map<ID, Object>, known: set<ID>, root: ID) {
    forall y :: Needed(view, known, root, y) ==> y in view
  }

  lemma WalkExact(view: map<ID, Object>, known: set<ID>, root: ID, seen: set<ID>, ids: seq<ID>, found: seq<Object>)
    requires Walked(view, known, root, {}, seen) && root in seen && Emits(view, ids, found, seen - known)
    ensures forall y :: y in ids <==> Needed(view, known, root, y)
    ensures AllRead(view, known, root)
  {
    var g := ObjectGraph(view);
    forall y | Needed(view, known, root, y) ensures y in seen - known {
      forall a, c | a in seen - known && Edge(g, a, c) ensures c in seen - known || c in known {
        assert Expanded(g, a, seen);
      }
      if root in known {
        assert ClosedUpTo(g, {}, known);
        var p :| IsPath(Trim(g, known), p, root, y);
        TrimmedPathStays(g, {}, known, p, root, y);
      } else {
        TrimmedStays(g, seen - known, known, root, y);
      }
    }
  }

  // ---- Collect -------------------------------------------------------------------------------------------

  /** The revisions to send: not known to the peer, with a stored snapshot, in listing order. */
  function Sent(s: State, ids: seq<string>, have: set<string>): seq<string> {
    if ids == [] then []
    else
      var last := ids[|ids| - 1];
      Sent(s, ids[..|ids| - 1], have) +
      if last in have || last !in s.revs || s.revs[last].hash !in s.snaps then [] else [last]
  }

  lemma {:induction false} SentAre(s: State, ids: seq<string>, have: set<string>, id: string)
    ensures id in Sent(s, ids, have) <==> id in ids && id !in have && id in s.revs && s.revs[id].hash in s.snaps
  {
    if ids != [] {
      SentAre(s, ids[..|ids| - 1], have, id);
      assert ids == ids[..|ids| - 1] + [ids[|ids| - 1]];
    }
  }

  /** The revisions are sent in the order they are listed in. */
  lemma {:induction false} SentOrdered(s: State, ids: seq<string>, have: set<string>)
    requires Ascends(ids)
    ensures Ascends(Sent(s, ids, have))
  {
    hide Leq;
    if ids != [] {
      var init, last := ids[..|ids| - 1], ids[|ids| - 1];
      SentOrdered(s, init, have);
      var before := Sent(s, init, have);
      forall i | 0 <= i < |before| ensures Leq(before[i], last) && before[i] != last {
        SentAre(s, init, have, before[i]);
        var k :| 0 <= k < |init| && init[k] == before[i];
        assert ids[k] == before[i];
      }
    }
  }

  predicate CarriesRow(s: State, rid: string, r: Revision, n: Snapshot) {
    rid in s.revs && r == s.revs[rid] && r.hash in s.snaps && n == s.snaps[r.hash]
  }

  /** The bundle's rows for those revisions. */
  ghost predicate CarriesRows(s: State, sent: seq<string>, b: Pack) {
    |b.revisions| == |b.snapshots| == |sent| &&
    forall i :: 0 <= i < |sent| ==> CarriesRow(s, sent[i], b.revisions[i], b.snapshots[i])
  }

  ghost predicate NeededBySome(view: map<ID, Object>, known: set<ID>, ns: seq<Snapshot>, y: ID) {
    exists i :: 0 <= i < |ns| && Needed(view, known, ns[i].tree, y)
  }

  /** Reading the needed id `y` gives the object `o`. */
  ghost predicate NeededAs(view: map<ID, Object>, known: set<ID>, ns: seq<Snapshot>, y: ID, o: Object) {
    NeededBySome(view, known, ns, y) && y in view && view[y] == o
  }

  /** The bundle's objects: what the objects that the snapshots' trees need read as. */
  ghost predicate CarriesObjects(view: map<ID, Object>, known: set<ID>, ns: seq<Snapshot>, os: seq<Object>) {
    (forall y :: NeededBySome(view, known, ns, y) ==> y in view) &&
    (forall o :: o in os <==> exists y :: NeededAs(view, known, ns, y, o))
  }

  function Records(os: seq<Object>): (r: seq<Option<Object>>)
    ensures |r| == |os|
  {
    seq(|os|, i requires 0 <= i < |os| => Some(os[i]))
  }

  /** Everything the trees of these revisions need can be read. */
  ghost predicate CanSend(s: State, view: map<ID, Object>, known: set<ID>, sent: seq<string>) {
    forall id :: id in sent ==> AllRead(view, known, RevisionTree(s, id))
  }

  /** The tree id of a revision's current snapshot. */
  function RevisionTree(s: State, id: string): ID {
    if id in s.revs && s.revs[id].hash in s.snaps then s.snaps[s.revs[id].hash].tree else Zero
  }

  lemma CarriedCanSend(s: State, view: map<ID, Object>, known: set<ID>, sent: seq<string>, b: Pack, os: seq<Object>)
    requires CarriesRows(s, sent, b) && CarriesObjects(view, known, b.snapshots, os)
    ensures CanSend(s, view, known, sent)
  {
    hide Needed;
    forall id | id in sent ensures AllRead(view, known, RevisionTree(s, id)) {
      var i :| 0 <= i < |sent| && sent[i] == id;
      assert CarriesRow(s, sent[i], b.revisions[i], b.snapshots[i]);
      forall y | Needed(view, known, RevisionTree(s, id), y) ensures y in view {
        assert NeededBySome(view, known, b.snapshots, y);
      }
    }
  }

  lemma CannotSend(s: State, view: map<ID, Object>, known: set<ID>, ids: seq<string>, have: set<string>, id: string)
    requires id in ids && id !in have && id in s.revs && s.revs[id].hash in s.snaps
    requires !AllRead(view, known, RevisionTree(s, id))
    ensures !CanSend(s, view, known, Sent(s, ids, have))
  {
    hide AllRead;
    SentAre(s, ids, have, id);
  }

  /** Collect, against a peer that has the revisions `have` and the objects `known`. */
  method Collect(r: Repo, read: Reader, have: set<string>, known: set<ID>)
    returns (res: Result<Bundle>, ghost os: seq<Object>)
    ensures res.Ok? ==> CarriesRows(r.State(), Sent(r.State(), Sorted(r.State().revs.Keys), have), res.value.pack)
    ensures res.Ok? ==> res.value.refs == ListRefs(r.refs) && res.value.objects == Records(os)
    ensures res.Ok? ==> CarriesObjects(Readings(r.objects, read), known, res.value.pack.snapshots, os)
    ensures res.Ok? <==>
      CanSend(r.State(), Readings(r.objects, read), known, Sent(r.State(), Sorted(r.State().revs.Keys), have))
  {
    hide Needed, CarriesObjects, CarriesRows, CanSend, Sent, Sorted, ListRefs, UnionGraph, Readings, ReadFrom, AllRead;
    var ids := r.ListRevisions();
    ghost var view := Readings(r.objects, read);
    var revs, snaps: seq<Snapshot>, objs: seq<Object> := [], [], [];
    os := [];
    NothingCarried(r.State(), view, known, have);
    for i := 0 to |ids|
      invariant |revs| == |snaps|
      invariant CarriesRows(r.State(), Sent(r.State(), ids[..i], have), Pack(revs, snaps))
      invariant CarriesObjects(view, known, snaps, objs)
    {
      TakeMore(ids, i);
      RowsMore(r.State(), ids, i, have, Pack(revs, snaps));
      var ch := r.revisions[ids[i]];
      if ids[i] in have { continue; }
      match r.GetSnapshot(ch.hash)
      case Err(_) => continue;
      case Ok(snap) =>
        var ok, objs', sent := CollectObjects(r.objects, read, known, snap.tree, objs);
        if !ok {
          CannotSend(r.State(), view, known, ids, have, ids[i]);
          return Err("object not read"), [];
        }
        CarriesMore(view, known, snaps, snap, objs, objs', sent);
        revs, snaps, objs := revs + [ch], snaps + [snap], objs';
    }
    WholeSlices(ids);
    CarriedCanSend(r.State(), view, known, Sent(r.State(), ids, have), Pack(revs, snaps), objs);
    os := objs;
    res := Ok(Bundle(Pack(revs, snaps), ListRefs(r.refs), Records(objs)));
  }

  /** One more revision considered: skipped, or its rows appended. */
  lemma RowsMore(s: State, ids: seq<string>, i: nat, have: set<string>, b: Pack)
    requires i < |ids| && CarriesRows(s, Sent(s, ids[..i], have), b)
    ensures var id := ids[i];
      if id in have || id !in s.revs || s.revs[id].hash !in s.snaps then CarriesRows(s, Sent(s, ids[..i + 1], have), b)
      else CarriesRows(s, Sent(s, ids[..i + 1], have),
        Pack(b.revisions + [s.revs[id]], b.snapshots + [s.snaps[s.revs[id].hash]]))
  {
    TakeInit(ids, i);
  }

  lemma NothingCarried(s: State, view: map<ID, Object>, known: set<ID>, have: set<string>)
    ensures CarriesObjects(view, known, [], []) && CarriesRows(s, Sent(s, [], have), NO_PACK)
  {
  }

  /** What one more snapshot needs is needed by some, and nothing else is. */
  lemma NeededMore(view: map<ID, Object>, known: set<ID>, ns: seq<Snapshot>, n: Snapshot, y: ID)
    ensures NeededBySome(view, known, ns + [n], y) <==>
      NeededBySome(view, known, ns, y) || Needed(view, known, n.tree, y)
  {
    hide Needed;
    var ms := ns + [n];
    if NeededBySome(view, known, ns, y) {
      var i :| 0 <= i < |ns| && Needed(view, known, ns[i].tree, y);
      assert Needed(view, known, ms[i].tree, y);
    }
    if Needed(view, known, n.tree, y) { assert Needed(view, known, ms[|ns|].tree, y); }
    if NeededBySome(view, known, ms, y) {
      var i :| 0 <= i < |ms| && Needed(view, known, ms[i].tree, y);
      if i < |ns| { assert Needed(view, known, ns[i].tree, y); }
    }
  }

  lemma ReadFromAre(view: map<ID, Object>, ids: seq<ID>, os: seq<Object>, o: Object)
    requires ReadFrom(view, ids, os)
    ensures o in os <==> exists y :: y in ids && y in view && view[y] == o
  {
    if o in os {
      var i :| 0 <= i < |os| && os[i] == o;
      assert ids[i] in ids;
    }
    if y :| y in ids && y in view && view[y] == o {
      var i :| 0 <= i < |ids| && ids[i] == y;
      assert os[i] == o;
    }
  }

  lemma CarriesMore(view: map<ID, Object>, known: set<ID>, ns: seq<Snapshot>, n: Snapshot, os: seq<Object>,
      os': seq<Object>, ids: seq<ID>)
    requires CarriesObjects(view, known, ns, os) && os <= os' && ReadFrom(view, ids, os'[|os|..])
    requires forall y :: y in ids <==> Needed(view, known, n.tree, y)
    requires AllRead(view, known, n.tree)
    ensures CarriesObjects(view, known, ns + [n], os')
  {
    hide Needed, NeededBySome, ReadFrom;
    assert os' == os + os'[|os|..];
    forall y { NeededMore(view, known, ns, n, y); }
    forall o ensures o in os' <==> exists y :: NeededAs(view, known, ns + [n], y, o) {
      ReadFromAre(view, ids, os'[|os|..], o);
      if o in os {
        var y :| NeededAs(view, known, ns, y, o);
        assert NeededAs(view, known, ns + [n], y, o);
      } else if o in os' {
        var y :| y in ids && y in view && view[y] == o;
        assert NeededAs(view, known, ns + [n], y, o);
      }
      if y :| NeededAs(view, known, ns + [n], y, o) {
        if NeededBySome(view, known, ns, y) { assert NeededAs(view, known, ns, y, o); }
      }
    }
  }

  // ---- After the transfer ----------------------------------------------------------------------------------

  lemma {:induction false} PutObjectsAt(m: map<ID, Object>, os: seq<Object>, x: ID)
    requires ContentAddressed(m)
    ensures x in PutObjects(m, os) <==> x in m || (x.Digest? && x.obj in os)
    ensures x in PutObjects(m, os) ==> x == Digest(PutObjects(m, os)[x])
  {
    if os != [] {
      PutObjectsAt(m, os[..|os| - 1], x);
      assert os == os[..|os| - 1] + [os[|os| - 1]];
    }
  }

  /** What a stored object refers to depends on its id alone. */
  lemma SameEdges(a: map<ID, Object>, b: map<ID, Object>, x: ID, y: ID)
    requires ContentAddressed(a) && ContentAddressed(b) && x in a && x in b
    ensures Edge(ObjectGraph(a), x, y) <==> Edge(ObjectGraph(b), x, y)
  {
    assert x == Digest(a[x]) && x == Digest(b[x]);
  }

  /** Every object that must be sent reads back as itself. */
  ghost predicate AllLegible(src: map<ID, Object>, read: Reader, known: set<ID>, ns: seq<Snapshot>) {
    forall y :: NeededBySome(Readings(src, read), known, ns, y) ==> y in src && Legible(src[y])
  }

  /** After the transfer a store holds what it held and what it was sent. */
  lemma AppliedObjects(src: map<ID, Object>, read: Reader, dst: map<ID, Object>, ns: seq<Snapshot>, os: seq<Object>)
    requires IsReader(read) && ContentAddressed(src) && ContentAddressed(dst)
    requires CarriesObjects(Readings(src, read), dst.Keys, ns, os)
    ensures ContentAddressed(PutObjects(dst, os))
    ensures forall x :: x in dst ==> x in PutObjects(dst, os)
    ensures forall x :: x in PutObjects(dst, os) && x !in dst ==> x.Digest? && Legible(x.obj)
    ensures forall x :: NeededBySome(Readings(src, read), dst.Keys, ns, x) ==>
      (x in PutObjects(dst, os) <==> Legible(src[x]))
    ensures AllLegible(src, read, dst.Keys, ns) ==> forall x ::
      x in PutObjects(dst, os) ==> x in dst || NeededBySome(Readings(src, read), dst.Keys, ns, x)
  {
    hide NeededBySome, Legible;
    var view, after := Readings(src, read), PutObjects(dst, os);
    forall x ensures x in after ==> x == Digest(after[x]) { PutObjectsAt(dst, os, x); }
    forall x | x in after && x !in dst ensures x.Digest? && Legible(x.obj) {
      PutObjectsAt(dst, os, x);
      var y :| NeededAs(view, dst.Keys, ns, y, x.obj);
      assert read(src[y]) == Some(x.obj);
    }
    forall x | x in dst ensures x in after { PutObjectsAt(dst, os, x); }
    forall x | NeededBySome(view, dst.Keys, ns, x) ensures x in after <==> Legible(src[x]) {
      PutObjectsAt(dst, os, x);
      NeededUnknown(view, dst.Keys, ns, x);
      assert x == Digest(src[x]);
      if Legible(src[x]) { assert NeededAs(view, dst.Keys, ns, x, src[x]); }
    }
    if AllLegible(src, read, dst.Keys, ns) {
      forall x | x in after && x !in dst ensures NeededBySome(view, dst.Keys, ns, x) {
        PutObjectsAt(dst, os, x);
        var y :| NeededAs(view, dst.Keys, ns, y, x.obj);
        assert y == Digest(src[y]) && read(src[y]) == Some(src[y]);
      }
    }
  }

  lemma NeededUnknown(view: map<ID, Object>, known: set<ID>, ns: seq<Snapshot>, x: ID)
    requires NeededBySome(view, known, ns, x)
    ensures x !in known
  {
  }

  lemma NeededNext(view: map<ID, Object>, known: set<ID>, ns: seq<Snapshot>, x: ID, y: ID)
    requires NeededBySome(view, known, ns, x) && Edge(ObjectGraph(view), x, y) && y !in known
    ensures NeededBySome(view, known, ns, y)
  {
    var i :| 0 <= i < |ns| && Needed(view, known, ns[i].tree, x);
    var g := Trim(ObjectGraph(view), known);
    assert Edge(g, x, y);
    ReachesEdge(g, x, y);
    ReachesTransitive(g, ns[i].tree, x, y);
    assert Needed(view, known, ns[i].tree, y);
  }

  /** An entry of an object the peer has, or receives unchanged, is one the peer has or receives. */
  lemma EdgeLands(src: map<ID, Object>, read: Reader, dst: map<ID, Object>, ns: seq<Snapshot>, x: ID, y: ID)
    requires IsReader(read) && ContentAddressed(src) && ContentAddressed(dst) && TreeClosed(dst)
    requires AllLegible(src, read, dst.Keys, ns) && x in src && Edge(ObjectGraph(src), x, y)
    requires x in dst || NeededBySome(Readings(src, read), dst.Keys, ns, x)
    ensures y in dst || NeededBySome(Readings(src, read), dst.Keys, ns, y)
  {
    hide NeededBySome, Legible;
    if x in dst {
      SameEdges(src, dst, x, y);
    } else if y !in dst {
      assert Readings(src, read)[x] == src[x];
      NeededNext(Readings(src, read), dst.Keys, ns, x, y);
    }
  }

  /** When all that is needed is legible, the destination is closed again and holds all of it. */
  lemma LegibleTransfer(src: map<ID, Object>, read: Reader, dst: map<ID, Object>, ns: seq<Snapshot>, os: seq<Object>)
    requires IsReader(read) && ContentAddressed(src) && ContentAddressed(dst) && TreeClosed(dst)
    requires CarriesObjects(Readings(src, read), dst.Keys, ns, os) && AllLegible(src, read, dst.Keys, ns)
    ensures TreeClosed(PutObjects(dst, os))
    ensures forall i :: 0 <= i < |ns| ==> Complete(PutObjects(dst, os), ns[i].tree)
    ensures forall i, y ::
      0 <= i < |ns| && Reaches(ObjectGraph(src), ns[i].tree, y) ==> y in PutObjects(dst, os) || y !in src
  {
    hide NeededBySome, Legible, Readings;
    var view, after := Readings(src, read), PutObjects(dst, os);
    AppliedObjects(src, read, dst, ns, os);
    forall x, y | x in after && Edge(ObjectGraph(after), x, y) ensures y in after {
      if x in dst {
        SameEdges(after, dst, x, y);
      } else {
        SameEdges(after, src, x, y);
        EdgeLands(src, read, dst, ns, x, y);
      }
    }
    forall i | 0 <= i < |ns|
      ensures Complete(after, ns[i].tree) &&
        forall y :: Reaches(ObjectGraph(src), ns[i].tree, y) ==> y in after || y !in src
    {
      RootNeeded(view, dst.Keys, ns, i);
      ClosedComplete(after, ns[i].tree);
      forall y | Reaches(ObjectGraph(src), ns[i].tree, y) ensures y in after {
        forall a, c | a in after && Edge(ObjectGraph(src), a, c) ensures c in after {
          EdgeLands(src, read, dst, ns, a, c);
        }
        ClosedStays(ObjectGraph(src), after.Keys, ns[i].tree, y);
      }
    }
  }

  lemma RootNeeded(view: map<ID, Object>, known: set<ID>, ns: seq<Snapshot>, i: nat)
    requires i < |ns|
    ensures ns[i].tree in known || NeededBySome(view, known, ns, ns[i].tree)
  {
    ReachesSelf(Trim(ObjectGraph(view), known), ns[i].tree);
    assert ns[i].tree in known || Needed(view, known, ns[i].tree, ns[i].tree);
  }

  /** On the way to an object that reads as something else, the destination lacks one. */
  lemma {:induction false} MisreadMissing(src: map<ID, Object>, read: Reader, dst: map<ID, Object>, ns: seq<Snapshot>,
      os: seq<Object>, p: seq<ID>, x: ID, y: ID)
    requires IsReader(read) && ContentAddressed(src) && ContentAddressed(dst)
    requires CarriesObjects(Readings(src, read), dst.Keys, ns, os)
    requires IsPath(Trim(ObjectGraph(Readings(src, read)), dst.Keys), p, x, y)
    requires NeededBySome(Readings(src, read), dst.Keys, ns, x) && y !in dst && !(y in src && Legible(src[y]))
    ensures exists z :: Reaches(ObjectGraph(PutObjects(dst, os)), x, z) && z !in PutObjects(dst, os)
    decreases |p|
  {
    hide NeededBySome, Legible, CarriesObjects;
    var view, after := Readings(src, read), PutObjects(dst, os);
    AppliedObjects(src, read, dst, ns, os);
    NeededRead(view, dst.Keys, ns, os, x);
    if !Legible(src[x]) {
      ReachesSelf(ObjectGraph(after), x);
    } else {
      assert x == Digest(src[x]) == Digest(after[x]) && view[x] == src[x];
      var k := p[0];
      assert Edge(ObjectGraph(after), x, k) && Edge(ObjectGraph(view), x, k);
      NextUnknown(view, dst.Keys, p, x, y);
      NeededNext(view, dst.Keys, ns, x, k);
      MisreadMissing(src, read, dst, ns, os, p[1..], k, y);
      var z :| Reaches(ObjectGraph(after), k, z) && z !in after;
      ReachesEdge(ObjectGraph(after), x, k);
      ReachesTransitive(ObjectGraph(after), x, k, z);
    }
  }

  lemma NeededRead(view: map<ID, Object>, known: set<ID>, ns: seq<Snapshot>, os: seq<Object>, x: ID)
    requires CarriesObjects(view, known, ns, os) && NeededBySome(view, known, ns, x)
    ensures x in view
  {
  }

  lemma NextUnknown(view: map<ID, Object>, known: set<ID>, p: seq<ID>, x: ID, y: ID)
    requires IsPath(Trim(ObjectGraph(view), known), p, x, y) && p != [] && y !in known
    ensures p[0] !in known
  {
  }

  /**
   * Delta transfer. When the ids a peer's store holds are the known ones and that store is closed under
   * tree edges, then after a collected bundle is applied it holds the tree of every transferred revision
   * with all that is reachable from it, if and only if every object that had to be sent reads back as
   * itself. It is then closed again.
   */
  lemma TransferComplete(src: map<ID, Object>, read: Reader, dst: map<ID, Object>, ns: seq<Snapshot>, os: seq<Object>)
    requires IsReader(read) && ContentAddressed(src) && ContentAddressed(dst) && TreeClosed(dst)
    requires CarriesObjects(Readings(src, read), dst.Keys, ns, os)
    ensures ContentAddressed(PutObjects(dst, os))
    ensures (forall i :: 0 <= i < |ns| ==> Complete(PutObjects(dst, os), ns[i].tree)) <==>
      AllLegible(src, read, dst.Keys, ns)
    ensures AllLegible(src, read, dst.Keys, ns) ==> TreeClosed(PutObjects(dst, os)) && forall i, y ::
      0 <= i < |ns| && Reaches(ObjectGraph(src), ns[i].tree, y) ==> y in PutObjects(dst, os) || y !in src
  {
    hide Legible, Readings, CarriesObjects, TreeClosed, IsReader;
    var view, after := Readings(src, read), PutObjects(dst, os);
    AppliedObjects(src, read, dst, ns, os);
    if AllLegible(src, read, dst.Keys, ns) {
      LegibleTransfer(src, read, dst, ns, os);
    } else {
      var y :| NeededBySome(view, dst.Keys, ns, y) && !(y in src && Legible(src[y]));
      var i :| 0 <= i < |ns| && Needed(view, dst.Keys, ns[i].tree, y);
      var p :| IsPath(Trim(ObjectGraph(view), dst.Keys), p, ns[i].tree, y);
      if p != [] { assert Edge(Trim(ObjectGraph(view), dst.Keys), ns[i].tree, p[0]); }
      RootNeeded(view, dst.Keys, ns, i);
      MisreadMissing(src, read, dst, ns, os, p, ns[i].tree, y);
      assert !Complete(after, ns[i].tree);
    }
  }

  /** The id and all that is reachable from it are stored. */
  ghost predicate Complete(objects: map<ID, Object>, id: ID) {
    id in objects && forall y :: Reaches(ObjectGraph(objects), id, y) ==> y in objects
  }

  lemma ClosedComplete(objects: map<ID, Object>, id: ID)
    requires TreeClosed(objects) && id in objects
    ensures Complete(objects, id)
  {
    forall y | Reaches(ObjectGraph(objects), id, y) ensures y in objects {
      ClosedStays(ObjectGraph(objects), objects.Keys, id, y);
    }
  }

  // ---- verifyTree --------------------------------------------------------------------------------------------

  /** From a directory to its entries of the tree kind. */
  function SubDirs(o: Object): set<ID> {
    if !o.TreeObject? then {}
    else set n | n in o.tree.entries && o.tree.entries[n].kind == KindTree :: o.tree.entries[n].id
  }

  /** The directories of the walk: read as trees over entries of the tree kind. */
  ghost predicate WalksTo(view: map<ID, Object>, p: seq<ID>, id: ID, d: ID)
    decreases |p|
  {
    if p == [] then id == d else id in view && p[0] in SubDirs(view[id]) && WalksTo(view, p[1..], p[0], d)
  }

  /** Every other entry of a directory is stored. */
  ghost predicate HoldsFiles(objects: map<ID, Object>, o: Object) {
    o.TreeObject? ==> forall n ::
      n in o.tree.entries && o.tree.entries[n].kind != KindTree ==> o.tree.entries[n].id in objects
  }

  /** Every directory the walk comes to can be read, and its other entries are stored. */
  ghost predicate Verified(objects: map<ID, Object>, view: map<ID, Object>, id: ID) {
    forall p, d :: WalksTo(view, p, id, d) ==> d in view && HoldsFiles(objects, view[d])
  }

  ghost predicate EntryVerified(objects: map<ID, Object>, view: map<ID, Object>, e: Entry) {
    if e.kind == KindTree then Verified(objects, view, e.id) else e.id in objects
  }

  lemma VerifiedUnfold(objects: map<ID, Object>, view: map<ID, Object>, id: ID)
    ensures Verified(objects, view, id) <==>
      id in view && (view[id].TreeObject? ==>
        forall n :: n in view[id].tree.entries ==> EntryVerified(objects, view, view[id].tree.entries[n]))
  {
    hide HoldsFiles;
    if Verified(objects, view, id) {
      assert WalksTo(view, [], id, id);
      if view[id].TreeObject? {
        forall n | n in view[id].tree.entries ensures EntryVerified(objects, view, view[id].tree.entries[n]) {
          VerifiedEntry(objects, view, id, n);
        }
      }
    } else {
      var p, d :| WalksTo(view, p, id, d) && !(d in view && HoldsFiles(objects, view[d]));
      if p == [] {
        if id in view { FileMissing(objects, view, id); }
      } else {
        var n :| n in view[id].tree.entries && view[id].tree.entries[n].kind == KindTree &&
          view[id].tree.entries[n].id == p[0];
        assert WalksTo(view, p[1..], p[0], d);
        assert !EntryVerified(objects, view, view[id].tree.entries[n]);
      }
    }
  }

  lemma FileMissing(objects: map<ID, Object>, view: map<ID, Object>, id: ID)
    requires id in view && !HoldsFiles(objects, view[id])
    ensures view[id].TreeObject?
    ensures exists n :: n in view[id].tree.entries && !EntryVerified(objects, view, view[id].tree.entries[n])
  {
    var n :| n in view[id].tree.entries && view[id].tree.entries[n].kind != KindTree &&
      view[id].tree.entries[n].id !in objects;
    assert !EntryVerified(objects, view, view[id].tree.entries[n]);
  }

  lemma VerifiedEntry(objects: map<ID, Object>, view: map<ID, Object>, id: ID, n: string)
    requires Verified(objects, view, id) && id in view && view[id].TreeObject? && n in view[id].tree.entries
    ensures EntryVerified(objects, view, view[id].tree.entries[n])
  {
    var e := view[id].tree.entries[n];
    assert WalksTo(view, [], id, id);
    if e.kind == KindTree {
      forall p, d | WalksTo(view, p, e.id, d) ensures d in view && HoldsFiles(objects, view[d]) {
        assert ([e.id] + p)[1..] == p;
        assert WalksTo(view, [e.id] + p, id, d);
      }
    }
  }

  /** No object refers to itself, however far down: ids are digests. */
  ghost predicate Descends(view: map<ID, Object>, rank: ID -> nat) {
    forall x, y :: x in view && y in SubDirs(view[x]) ==> rank(y) < rank(x)
  }

  /** Below `id`, the names of `p` lead to a directory that cannot be read or to a file that is not stored. */
  ghost predicate MissingAt(objects: map<ID, Object>, view: map<ID, Object>, id: ID, p: Path)
    decreases |p|
  {
    if p == [] then id !in view
    else
      id in view && view[id].TreeObject? && p[0] in view[id].tree.entries &&
      var e := view[id].tree.entries[p[0]];
      if e.kind == KindTree then MissingAt(objects, view, e.id, p[1..]) else |p| == 1 && e.id !in objects
  }

  /** What is missing at or below `id`, through one of the names given. */
  ghost predicate LostUnder(objects: map<ID, Object>, view: map<ID, Object>, id: ID, names: seq<string>,
      lost: seq<Path>) {
    NoRepeats(lost) && forall p :: p in lost <==> p != [] && p[0] in names && MissingAt(objects, view, id, p)
  }

  ghost predicate Lost(objects: map<ID, Object>, view: map<ID, Object>, id: ID, lost: seq<Path>) {
    NoRepeats(lost) && forall p :: p in lost <==> MissingAt(objects, view, id, p)
  }

  ghost function Below(n: string, lost: seq<Path>): seq<Path> {
    seq(|lost|, i requires 0 <= i < |lost| => [n] + lost[i])
  }

  lemma LostBelow(objects: map<ID, Object>, view: map<ID, Object>, id: ID, n: string, lost: seq<Path>)
    requires id in view && view[id].TreeObject? && n in view[id].tree.entries &&
      view[id].tree.entries[n].kind == KindTree
    requires Lost(objects, view, view[id].tree.entries[n].id, lost)
    ensures LostUnder(objects, view, id, [n], Below(n, lost))
  {
    var under := Below(n, lost);
    forall i, j | 0 <= i < j < |lost| ensures under[i] != under[j] {
      assert under[i][1..] == lost[i] && under[j][1..] == lost[j];
    }
    forall p ensures p in under <==> p != [] && p[0] in [n] && MissingAt(objects, view, id, p) {
      if i :| 0 <= i < |under| && under[i] == p { assert p[1..] == lost[i] && lost[i] in lost; }
      if p != [] && p[0] == n && MissingAt(objects, view, id, p) {
        assert p[1..] in lost;
        var i :| 0 <= i < |lost| && lost[i] == p[1..];
        assert under[i] == p;
      }
    }
  }

  lemma LostFile(objects: map<ID, Object>, view: map<ID, Object>, id: ID, n: string)
    requires id in view && view[id].TreeObject? && n in view[id].tree.entries &&
      view[id].tree.entries[n].kind != KindTree
    ensures LostUnder(objects, view, id, [n], if view[id].tree.entries[n].id in objects then [] else [[n]])
  {
    forall p | p != [] && p[0] == n && MissingAt(objects, view, id, p) ensures p == [n] {
      assert p == [p[0]] + p[1..];
    }
  }

  lemma LostJoin(objects: map<ID, Object>, view: map<ID, Object>, id: ID, names: seq<string>, n: string,
      lost: seq<Path>, more: seq<Path>)
    requires LostUnder(objects, view, id, names, lost) && LostUnder(objects, view, id, [n], more) && n !in names
    ensures LostUnder(objects, view, id, names + [n], lost + more)
  {
    hide MissingAt;
    assert forall i :: 0 <= i < |lost| ==> lost[i] in lost;
    assert forall i :: 0 <= i < |more| ==> more[i] in more;
  }

  lemma {:induction false} VerifiedNotMissing(objects: map<ID, Object>, view: map<ID, Object>, id: ID, p: Path)
    requires Verified(objects, view, id)
    ensures !MissingAt(objects, view, id, p)
    decreases |p|
  {
    VerifiedUnfold(objects, view, id);
    hide Verified;
    if p != [] && view[id].TreeObject? && p[0] in view[id].tree.entries {
      var e := view[id].tree.entries[p[0]];
      assert EntryVerified(objects, view, e);
      if e.kind == KindTree { VerifiedNotMissing(objects, view, e.id, p[1..]); }
    }
  }

  lemma {:induction false} MissingOnWalk(objects: map<ID, Object>, view: map<ID, Object>, walk: seq<ID>, id: ID, d: ID)
      returns (p: Path)
    requires WalksTo(view, walk, id, d) && !(d in view && HoldsFiles(objects, view[d]))
    ensures MissingAt(objects, view, id, p)
    decreases |walk|
  {
    if walk != [] {
      var n :| n in view[id].tree.entries && view[id].tree.entries[n].kind == KindTree &&
        view[id].tree.entries[n].id == walk[0];
      var rest := MissingOnWalk(objects, view, walk[1..], walk[0], d);
      p := [n] + rest;
      assert p[1..] == rest;
    } else if id !in view {
      p := [];
    } else {
      var n :| n in view[id].tree.entries && view[id].tree.entries[n].kind != KindTree &&
        view[id].tree.entries[n].id !in objects;
      p := [n];
    }
  }

  /** Nothing is lost exactly when the walk over the directories finds everything. */
  lemma NothingLost(objects: map<ID, Object>, view: map<ID, Object>, id: ID, lost: seq<Path>)
    requires Lost(objects, view, id, lost)
    ensures lost == [] <==> Verified(objects, view, id)
  {
    if Verified(objects, view, id) {
      if lost != [] {
        assert lost[0] in lost;
        VerifiedNotMissing(objects, view, id, lost[0]);
      }
    } else {
      var walk, d :| WalksTo(view, walk, id, d) && !(d in view && HoldsFiles(objects, view[d]));
      var p := MissingOnWalk(objects, view, walk, id, d);
      assert p in lost;
    }
  }

  /** One entry of a directory: what is lost below it joins what was lost before. */
  lemma LostEntry(objects: map<ID, Object>, view: map<ID, Object>, id: ID, names: seq<string>, n: string,
      lost: seq<Path>, below: seq<Path>, more: seq<Path>)
    requires id in view && view[id].TreeObject? && n in view[id].tree.entries && n !in names
    requires LostUnder(objects, view, id, names, lost)
    requires var e := view[id].tree.entries[n];
      if e.kind == KindTree then Lost(objects, view, e.id, below) && more == Below(n, below)
      else more == if e.id in objects then [] else [[n]]
    ensures LostUnder(objects, view, id, names + [n], lost + more)
  {
    hide LostUnder, Lost, Below;
    if view[id].tree.entries[n].kind == KindTree { LostBelow(objects, view, id, n, below); }
    else { LostFile(objects, view, id, n); }
    LostJoin(objects, view, id, names, n, lost, more);
  }

  lemma LostLeaf(objects: map<ID, Object>, view: map<ID, Object>, id: ID)
    ensures id !in view ==> Lost(objects, view, id, [[]])
    ensures id in view && !view[id].TreeObject? ==> Lost(objects, view, id, [])
    ensures LostUnder(objects, view, id, [], [])
  {
  }

  lemma LostAll(objects: map<ID, Object>, view: map<ID, Object>, id: ID, names: seq<string>, lost: seq<Path>)
    requires id in view && LostUnder(objects, view, id, names, lost)
    requires view[id].TreeObject? && forall n :: n in names <==> n in view[id].tree.entries
    ensures Lost(objects, view, id, lost)
  {
  }

  /** verifyTree: the number of paths at which something is missing, and whether the object itself can
      be read. */
  method VerifyTree(objects: map<ID, Object>, read: Reader, id: ID, ghost rank: ID -> nat)
    returns (missing: nat, ok: bool, ghost lost: seq<Path>)
    requires Descends(Readings(objects, read), rank)
    ensures ok <==> id in Readings(objects, read)
    ensures missing == |lost| && Lost(objects, Readings(objects, read), id, lost)
    ensures missing == 0 <==> Verified(objects, Readings(objects, read), id)
    decreases rank(id), 1
  {
    ghost var view := Readings(objects, read);
    ReadingsAt(objects, read, id);
    LostLeaf(objects, view, id);
    missing, ok, lost := 1, false, [[]];
    hide Readings, Verified, MissingAt, LostUnder, Lost, Below;
    if id in objects {
      var reading := read(objects[id]);
      if reading.Some? { missing, ok, lost := VerifyObject(objects, read, id, reading.value, rank); }
    }
    NothingLost(objects, view, id, lost);
  }

  /** The part of verifyTree below an object that could be read. */
  method VerifyObject(objects: map<ID, Object>, read: Reader, id: ID, o: Object, ghost rank: ID -> nat)
    returns (missing: nat, ok: bool, ghost lost: seq<Path>)
    requires Descends(Readings(objects, read), rank)
    requires id in Readings(objects, read) && Readings(objects, read)[id] == o
    ensures ok && missing == |lost| && Lost(objects, Readings(objects, read), id, lost)
    decreases rank(id), 0
  {
    ghost var view := Readings(objects, read);
    LostLeaf(objects, view, id);
    hide Readings, Verified, MissingAt, LostUnder, Lost;
    missing, ok, lost := 0, true, [];
    if !o.TreeObject? { return; }
    var names := Sorted(o.tree.entries.Keys);
    SortedFresh(o.tree.entries.Keys);
    hide Sorted;
    for i := 0 to |names|
      invariant missing == |lost| && LostUnder(objects, view, id, names[..i], lost)
    {
      var e := o.tree.entries[names[i]];
      ghost var below: seq<Path>, more := [], if e.id in objects then [] else [[names[i]]];
      TakeMore(names, i);
      if e.kind == KindTree {
        assert e.id in SubDirs(view[id]);
        var m, found;
        m, found, below := VerifyTree(objects, read, e.id, rank);
        missing, more := missing + m, Below(names[i], below);
      } else if e.id !in objects {
        missing := missing + 1;
      }
      LostEntry(objects, view, id, names[..i], names[i], lost, below, more);
      lost := lost + more;
    }
    WholeSlices(names);
    LostAll(objects, view, id, names, lost);
  }

  lemma ChildEdge(objects: map<ID, Object>, id: ID, n: string)
    requires ContentAddressed(objects) && id in objects && IsTreeID(id) && n in id.obj.tree.entries
    ensures Edge(ObjectGraph(objects), id, id.obj.tree.entries[n].id)
  {
    assert id == Digest(objects[id]);
    StoredEdge(objects, id, n);
  }

  /** In a well-typed tree of legible objects, verifyTree finds nothing missing exactly when everything
      reachable is stored. */
  lemma {:induction false} VerifiedIffComplete(objects: map<ID, Object>, read: Reader, id: ID)
    requires IsReader(read) && ContentAddressed(objects) && (IsTreeID(id) ==> WellTyped(id.obj.tree))
    requires id in objects ==> Legible(objects[id])
    ensures Verified(objects, Readings(objects, read), id) <==> Complete(objects, id)
    decreases id
  {
    hide Verified, Readings;
    var view := Readings(objects, read);
    ReadingsAt(objects, read, id);
    VerifiedUnfold(objects, view, id);
    if id in objects && IsTreeID(id) {
      var t := id.obj.tree;
      assert view[id] == TreeObject(t);
      forall n | n in t.entries
        ensures EntryVerified(objects, view, t.entries[n]) <==> Complete(objects, t.entries[n].id)
      {
        if t.entries[n].kind == KindTree {
          VerifiedIffComplete(objects, read, t.entries[n].id);
        } else {
          LeafComplete(objects, t.entries[n].id);
        }
      }
      CompleteTree(objects, id);
    } else if id in objects {
      LeafComplete(objects, id);
    }
  }

  /** A stored tree is complete exactly when its entries are. */
  lemma CompleteTree(objects: map<ID, Object>, id: ID)
    requires ContentAddressed(objects) && id in objects && IsTreeID(id)
    ensures Complete(objects, id) <==> forall n ::
      n in id.obj.tree.entries ==> Complete(objects, id.obj.tree.entries[n].id)
  {
    var t := id.obj.tree;
    if Complete(objects, id) {
      forall n | n in t.entries ensures Complete(objects, t.entries[n].id) {
        ChildEdge(objects, id, n);
        CompleteChild(objects, id, t.entries[n].id);
      }
    }
    if forall n :: n in t.entries ==> Complete(objects, t.entries[n].id) {
      forall y | Reaches(ObjectGraph(objects), id, y) ensures y in objects { ReachedThroughChild(objects, id, y); }
    }
  }

  lemma LeafComplete(objects: map<ID, Object>, id: ID)
    requires ContentAddressed(objects) && !IsTreeID(id)
    ensures Complete(objects, id) <==> id in objects
  {
    forall y | id in objects && Reaches(ObjectGraph(objects), id, y) ensures y == id {
      var p :| IsPath(ObjectGraph(objects), p, id, y);
      assert forall k :: !Edge(ObjectGraph(objects), id, k);
    }
  }

  lemma CompleteChild(objects: map<ID, Object>, id: ID, kid: ID)
    requires Complete(objects, id) && Edge(ObjectGraph(objects), id, kid)
    ensures Complete(objects, kid)
  {
    ReachesEdge(ObjectGraph(objects), id, kid);
    forall y | Reaches(ObjectGraph(objects), kid, y) ensures y in objects {
      ReachesTransitive(ObjectGraph(objects), id, kid, y);
    }
  }

  lemma ReachedThroughChild(objects: map<ID, Object>, id: ID, y: ID)
    requires ContentAddressed(objects) && id in objects && IsTreeID(id) && Reaches(ObjectGraph(objects), id, y)
    requires forall n :: n in id.obj.tree.entries ==> Complete(objects, id.obj.tree.entries[n].id)
    ensures y in objects
  {
    var g := ObjectGraph(objects);
    var p :| IsPath(g, p, id, y);
    if p != [] {
      assert Edge(g, id, p[0]);
      var names := Sorted(id.obj.tree.entries.Keys);
      var i :| 0 <= i < |names| && Children(objects[id])[i] == p[0];
      assert Complete(objects, id.obj.tree.entries[names[i]].id);
      assert IsPath(g, p[1..], p[0], y);
    }
  }

  /** In a closed store of legible objects verifyTree finds nothing missing, typed or not. */
  lemma ClosedVerified(objects: map<ID, Object>, read: Reader, id: ID)
    requires IsReader(read) && TreeClosed(objects) && (forall x :: x in objects ==> Legible(objects[x])) &&
      id in objects
    ensures Verified(objects, Readings(objects, read), id)
  {
    hide Legible;
    forall p, d | WalksTo(Readings(objects, read), p, id, d)
      ensures d in Readings(objects, read) && HoldsFiles(objects, Readings(objects, read)[d])
    {
      WalkStaysClosed(objects, read, p, id, d);
      if objects[d].TreeObject? {
        forall n | n in objects[d].tree.entries ensures objects[d].tree.entries[n].id in objects {
          StoredEdge(objects, d, n);
        }
      }
    }
  }

  lemma StoredEdge(objects: map<ID, Object>, id: ID, n: string)
    requires id in objects && objects[id].TreeObject? && n in objects[id].tree.entries
    ensures Edge(ObjectGraph(objects), id, objects[id].tree.entries[n].id)
  {
    var names := Sorted(objects[id].tree.entries.Keys);
    var i :| 0 <= i < |names| && names[i] == n;
    assert Children(objects[id])[i] == objects[id].tree.entries[n].id;
  }

  lemma {:induction false} WalkStaysClosed(objects: map<ID, Object>, read: Reader, p: seq<ID>, id: ID, d: ID)
    requires IsReader(read) && TreeClosed(objects) && (forall x :: x in objects ==> Legible(objects[x])) &&
      id in objects
    requires WalksTo(Readings(objects, read), p, id, d)
    ensures d in objects
    decreases |p|
  {
    hide Legible;
    if p != [] {
      var n :| n in objects[id].tree.entries && objects[id].tree.entries[n].id == p[0];
      StoredEdge(objects, id, n);
      WalkStaysClosed(objects, read, p[1..], p[0], d);
    }
  }

  ghost predicate TypedTrees(ns: seq<Snapshot>) {
    forall i :: 0 <= i < |ns| ==> IsTreeID(ns[i].tree) && WellTyped(ns[i].tree.obj.tree)
  }

  ghost predicate AllVerified(objects: map<ID, Object>, read: Reader, ns: seq<Snapshot>) {
    forall i :: 0 <= i < |ns| ==> Verified(objects, Readings(objects, read), ns[i].tree)
  }

  /**
   * Collecting against a closed store and applying the bundle there: verifyTree finds nothing missing for
   * any transferred revision, if and only if every object that had to be sent reads back as itself. For
   * trees that are not well typed this takes legible objects at the destination too.
   */
  lemma DeltaTransferVerifies(src: map<ID, Object>, read: Reader, w: Rows, b: Bundle, os: seq<Object>)
    requires IsReader(read) && ContentAddressed(src) && ContentAddressed(w.objects) && TreeClosed(w.objects)
    requires b.objects == Records(os) && CarriesObjects(Readings(src, read), w.objects.Keys, b.pack.snapshots, os)
    ensures var after, ns := ApplyRows(w, b).objects, b.pack.snapshots;
      TypedTrees(ns) ==> (AllVerified(after, read, ns) <==> AllLegible(src, read, w.objects.Keys, ns))
    ensures var after, ns := ApplyRows(w, b).objects, b.pack.snapshots;
      AllLegible(src, read, w.objects.Keys, ns) && (forall x :: x in w.objects ==> Legible(w.objects[x])) ==>
        AllVerified(after, read, ns)
  {
    hide CarriesObjects, TreeClosed, IsReader, Readings, Complete, Verified, AllLegible, Legible, NeededBySome;
    var after, ns := ApplyRows(w, b).objects, b.pack.snapshots;
    assert Decoded(b.objects) == os;
    TransferComplete(src, read, w.objects, ns, os);
    AppliedObjects(src, read, w.objects, ns, os);
    if TypedTrees(ns) {
      forall i | 0 <= i < |ns|
        ensures Verified(after, Readings(after, read), ns[i].tree) <==> Complete(after, ns[i].tree)
      {
        TreeLegible(after, ns[i].tree);
        VerifiedIffComplete(after, read, ns[i].tree);
      }
    }
    if AllLegible(src, read, w.objects.Keys, ns) && forall x :: x in w.objects ==> Legible(w.objects[x]) {
      forall x | x in after ensures Legible(after[x]) { SameObject(after, w.objects, x); }
      forall i | 0 <= i < |ns| ensures Verified(after, Readings(after, read), ns[i].tree) {
        CompleteStored(after, ns[i].tree);
        ClosedVerified(after, read, ns[i].tree);
      }
    }
  }

  lemma SameObject(a: map<ID, Object>, b: map<ID, Object>, x: ID)
    requires ContentAddressed(a) && ContentAddressed(b) && x in a
    ensures x == Digest(a[x]) && (x in b ==> a[x] == b[x])
  {
  }

  lemma CompleteStored(objects: map<ID, Object>, id: ID)
    requires Complete(objects, id)
    ensures id in objects
  {
  }

  lemma TreeLegible(objects: map<ID, Object>, id: ID)
    requires ContentAddressed(objects) && IsTreeID(id)
    ensures id in objects ==> Legible(objects[id])
  {
  }

  // ---- Two files that are not transferred ----------------------------------------------------------------------

  /** A directory with one file. */
  function OneFile(data: seq<int>): Tree { Tree(map["f" := Entry(KindBlob, Digest(Blob(data)))]) }

  function OneFileStore(data: seq<int>): map<ID, Object> {
    map[TreeID(OneFile(data)) := TreeObject(OneFile(data)), Digest(Blob(data)) := Blob(data)]
  }

  lemma OneFileEdge(data: seq<int>)
    ensures Children(TreeObject(OneFile(data))) == [Digest(Blob(data))]
    ensures ContentAddressed(OneFileStore(data)) && TreeClosed(OneFileStore(data))
  {
    var names := Sorted(OneFile(data).entries.Keys);
    assert OneFile(data).entries.Keys == {"f"} && names[0] in names;
  }

  lemma OneFileNeeded(data: seq<int>, read: Reader, known: set<ID>)
    requires IsReader(read) && TreeID(OneFile(data)) !in known && Digest(Blob(data)) !in known
    ensures Needed(Readings(OneFileStore(data), read), known, TreeID(OneFile(data)), Digest(Blob(data)))
  {
    var view := Readings(OneFileStore(data), read);
    OneFileEdge(data);
    assert read(TreeObject(OneFile(data))) == Some(TreeObject(OneFile(data)));
    TrimmedEdge(view, known, TreeID(OneFile(data)), 0);
  }

  /** A complete repository with an empty file cannot be collected at all. */
  lemma EmptyFileStops(read: Reader)
    requires IsReader(read)
    ensures Complete(OneFileStore([]), TreeID(OneFile([])))
    ensures !AllRead(Readings(OneFileStore([]), read), {}, TreeID(OneFile([])))
  {
    OneFileEdge([]);
    ClosedComplete(OneFileStore([]), TreeID(OneFile([])));
    OneFileNeeded([], read, {});
  }

  /** A file that starts with a magic header, collected into an empty store, is not there afterwards. */
  lemma MagicFileLost(read: Reader, n: Snapshot, data: seq<int>, os: seq<Object>)
    requires IsReader(read) && n.tree == TreeID(OneFile(data)) && Bytes(ObjectCodec.TREE_MAGIC) <= data
    requires CarriesObjects(Readings(OneFileStore(data), read), {}, [n], os)
    ensures !Complete(PutObjects(map[], os), n.tree)
  {
    hide CarriesObjects, IsReader, Complete, PutObjects;
    OneFileEdge(data);
    OneFileNeeded(data, read, {});
    assert NeededBySome(Readings(OneFileStore(data), read), {}, [n], Digest(Blob(data))) by {
      assert Needed(Readings(OneFileStore(data), read), {}, [n][0].tree, Digest(Blob(data)));
    }
    assert !Legible(Blob(data));
    TransferComplete(OneFileStore(data), read, map[], [n], os);
  }
}
