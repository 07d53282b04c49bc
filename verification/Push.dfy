/**
 * Pushing a bundle: the non-fast-forward check (CheckNonFastForward), the transactional write
 * (ApplyTx), and their composition in the push handler.
 */
module Push {
  import opened Prelude
  import opened Graphs
  import opened Objects
  import opened History
  import opened Store
  import opened Ancestry

  /** What a bundle carries. An object record is None when its payload does not decode. */
  datatype Bundle = Bundle(pack: Pack, refs: seq<Ref>, objects: seq<Option<Object>>)

  /** All the rows a push reads and writes. */
  datatype Rows = Rows(objects: map<ID, Object>, state: State, refs: map<string, Ref>)

  ghost function RowsOf(r: Repo): Rows
    reads r
  {
    Rows(r.objects, r.State(), r.refs)
  }

  // ---- Writing a bundle --------------------------------------------------------------------------------

  predicate Decodes(os: seq<Option<Object>>) { forall o :: o in os ==> o.Some? }

  ghost function PutObjects(m: map<ID, Object>, os: seq<Object>): map<ID, Object> {
    if os == [] then m else var o := os[|os| - 1]; PutObjects(m, os[..|os| - 1])[Digest(o) := o]
  }

  ghost function PutSnapshots(m: map<ID, Snapshot>, ns: seq<Snapshot>): map<ID, Snapshot> {
    if ns == [] then m else var n := ns[|ns| - 1]; PutSnapshots(m, ns[..|ns| - 1])[n.hash := n]
  }

  ghost function PutRevisions(m: map<string, Revision>, rs: seq<Revision>): map<string, Revision> {
    if rs == [] then m else var r := rs[|rs| - 1]; PutRevisions(m, rs[..|rs| - 1])[r.id := r]
  }

  ghost function PutRefs(m: map<string, Ref>, rs: seq<Ref>): map<string, Ref> {
    if rs == [] then m else var r := rs[|rs| - 1]; PutRefs(m, rs[..|rs| - 1])[r.name := r]
  }

  function Decoded(os: seq<Option<Object>>): seq<Object>
    requires Decodes(os)
  {
    seq(|os|, i requires 0 <= i < |os| => os[i].value)
  }

  /** The rows after a bundle is written; all of it or, when a payload does not decode, nothing. */
  ghost function ApplyRows(w: Rows, b: Bundle): Rows {
    if !Decodes(b.objects) then w
    else Rows(PutObjects(w.objects, Decoded(b.objects)),
              State(PutSnapshots(w.state.snaps, b.pack.snapshots), PutRevisions(w.state.revs, b.pack.revisions)),
              PutRefs(w.refs, b.refs))
  }

  /** ApplyTx: decode everything first, then objects, snapshots, revisions and refs in this order. */
  method ApplyTx(r: Repo, b: Bundle) returns (res: Result<nat>)
    requires r.ObjectsValid()
    modifies r
    ensures RowsOf(r) == ApplyRows(old(RowsOf(r)), b) && r.ObjectsValid()
    ensures res == if Decodes(b.objects) then Ok(|b.pack.revisions|) else Err("undecodable object")
  {
    var objs := [];
    for i := 0 to |b.objects|
      invariant Decodes(b.objects[..i]) && objs == Decoded(b.objects[..i])
      invariant RowsOf(r) == old(RowsOf(r)) && r.ObjectsValid()
    {
      TakeMore(b.objects, i);
      if b.objects[i].None? { return Err("undecodable object"); }
      objs := objs + [b.objects[i].value];
    }
    WholeSlices(b.objects);
    for i := 0 to |objs|
      invariant r.ObjectsValid() && r.objects == PutObjects(old(r.objects), objs[..i])
      invariant r.State() == old(r.State()) && r.refs == old(r.refs)
    {
      TakeInit(objs, i);
      var id := r.WriteObject(objs[i]);
    }
    WholeSlices(objs);
    WriteRows(r, b);
    res := Ok(|b.pack.revisions|);
  }

  /** The metadata rows of a bundle, in the order they are written. */
  method WriteRows(r: Repo, b: Bundle)
    modifies r`snapshots, r`revisions, r`refs
    ensures r.State() ==
      State(PutSnapshots(old(r.snapshots), b.pack.snapshots), PutRevisions(old(r.revisions), b.pack.revisions))
    ensures r.refs == PutRefs(old(r.refs), b.refs)
  {
    for i := 0 to |b.pack.snapshots|
      invariant r.snapshots == PutSnapshots(old(r.snapshots), b.pack.snapshots[..i])
      invariant r.revisions == old(r.revisions) && r.refs == old(r.refs)
    {
      TakeInit(b.pack.snapshots, i);
      r.PutSnapshot(b.pack.snapshots[i]);
    }
    WholeSlices(b.pack.snapshots);
    for i := 0 to |b.pack.revisions|
      invariant r.snapshots == PutSnapshots(old(r.snapshots), b.pack.snapshots)
      invariant r.revisions == PutRevisions(old(r.revisions), b.pack.revisions[..i]) && r.refs == old(r.refs)
    {
      TakeInit(b.pack.revisions, i);
      r.PutRevision(b.pack.revisions[i]);
    }
    WholeSlices(b.pack.revisions);
    for i := 0 to |b.refs|
      invariant r.snapshots == PutSnapshots(old(r.snapshots), b.pack.snapshots)
      invariant r.revisions == PutRevisions(old(r.revisions), b.pack.revisions)
      invariant r.refs == PutRefs(old(r.refs), b.refs[..i])
    {
      TakeInit(b.refs, i);
      r.PutRef(b.refs[i]);
    }
    WholeSlices(b.refs);
  }

  // ---- The check ---------------------------------------------------------------------------------------

  /** An incoming branch that would move an existing one to a target its old target is no ancestor of. */
  ghost predicate Conflicting(s: State, refs: map<string, Ref>, b: Pack, inc: Ref) {
    inc.kind.Branch? && inc.name in refs && refs[inc.name].target != inc.target &&
    !AncestorInUnion(s, b, refs[inc.name].target, inc.target)
  }

  ghost predicate AnyConflict(w: Rows, b: Bundle) {
    exists inc :: inc in b.refs && Conflicting(w.state, w.refs, b.pack, inc)
  }

  /** The conflicting refs among the given ones, in order. */
  ghost function ConflictsIn(s: State, refs: map<string, Ref>, b: Pack, rs: seq<Ref>): (cs: seq<Ref>)
    ensures forall inc :: inc in cs <==> inc in rs && Conflicting(s, refs, b, inc)
  {
    if rs == [] then []
    else
      var inc := rs[|rs| - 1];
      assert rs == rs[..|rs| - 1] + [inc];
      ConflictsIn(s, refs, b, rs[..|rs| - 1]) + if Conflicting(s, refs, b, inc) then [inc] else []
  }

  /** ListRefs. */
  function ListRefs(refs: map<string, Ref>): seq<Ref> {
    var names := Sorted(refs.Keys);
    seq(|names|, i requires 0 <= i < |names| => refs[names[i]])
  }

  lemma ListRefsAre(refs: map<string, Ref>, r: Ref)
    ensures r in ListRefs(refs) <==> exists n :: n in refs && refs[n] == r
  {
    var names := Sorted(refs.Keys);
    if n :| n in refs && refs[n] == r {
      var i :| 0 <= i < |names| && names[i] == n;
      assert ListRefs(refs)[i] == r;
    }
  }

  ghost predicate RefsFiled(refs: map<string, Ref>) {
    forall n :: n in refs ==> refs[n].name == n
  }

  /** CheckNonFastForward: the incoming branches that conflict with the expected ones, in order. Of two
      expected refs with one name the last counts. */
  method CheckNonFastForward(s: State, expected: seq<Ref>, incoming: seq<Ref>, b: Pack) returns (conflicts: seq<Ref>)
    ensures conflicts == ConflictsIn(s, PutRefs(map[], expected), b, incoming)
  {
    var byName: map<string, Ref> := map[];
    for i := 0 to |expected|
      invariant byName == PutRefs(map[], expected[..i])
    {
      TakeInit(expected, i);
      byName := byName[expected[i].name := expected[i]];
    }
    WholeSlices(expected);
    conflicts := [];
    for i := 0 to |incoming|
      invariant conflicts == ConflictsIn(s, byName, b, incoming[..i])
    {
      TakeInit(incoming, i);
      var inc := incoming[i];
      if inc.kind != Branch { continue; }
      if inc.name !in byName { continue; }
      var exp := byName[inc.name];
      if exp.target == inc.target { continue; }
      var ff := IsAncestorUnion(s, b, exp.target, inc.target);
      if ff { continue; }
      conflicts := conflicts + [inc];
    }
    WholeSlices(incoming);
  }

  lemma {:induction false} PutRefsAt(m: map<string, Ref>, rs: seq<Ref>, n: string)
    ensures n in PutRefs(m, rs) ==>
      (n in m && PutRefs(m, rs)[n] == m[n]) || (PutRefs(m, rs)[n] in rs && PutRefs(m, rs)[n].name == n)
    ensures n in m ==> n in PutRefs(m, rs)
  {
    if rs != [] {
      PutRefsAt(m, rs[..|rs| - 1], n);
      assert rs == rs[..|rs| - 1] + [rs[|rs| - 1]];
    }
  }

  lemma {:induction false} PutRefsHas(rs: seq<Ref>, n: string)
    ensures n in PutRefs(map[], rs) <==> exists r :: r in rs && r.name == n
  {
    if rs != [] {
      PutRefsHas(rs[..|rs| - 1], n);
      assert rs == rs[..|rs| - 1] + [rs[|rs| - 1]];
    }
  }

  /** Listing the refs and indexing them by name gives the table back. */
  lemma ListedRefs(refs: map<string, Ref>)
    requires RefsFiled(refs)
    ensures PutRefs(map[], ListRefs(refs)) == refs
  {
    var rs := ListRefs(refs);
    forall n ensures n in PutRefs(map[], rs) <==> n in refs ensures n in refs ==> PutRefs(map[], rs)[n] == refs[n] {
      PutRefsHas(rs, n);
      PutRefsAt(map[], rs, n);
      if n in refs { ListRefsAre(refs, refs[n]); }
      if n in PutRefs(map[], rs) { ListRefsAre(refs, PutRefs(map[], rs)[n]); }
    }
  }

  datatype PushReply = Rejected(conflicts: seq<Ref>) | Failed(error: string) | Accepted(applied: nat)

  /** The critical section of the push handler: check, then write everything or nothing. */
  method HandlePush(r: Repo, b: Bundle) returns (reply: PushReply)
    requires r.ObjectsValid() && RefsFiled(r.refs)
    modifies r
    ensures r.ObjectsValid()
    ensures reply.Rejected? <==> AnyConflict(old(RowsOf(r)), b)
    ensures reply.Accepted? <==> !AnyConflict(old(RowsOf(r)), b) && Decodes(b.objects)
    ensures RowsOf(r) == if reply.Accepted? then ApplyRows(old(RowsOf(r)), b) else old(RowsOf(r))
    ensures reply.Rejected? ==> reply.conflicts == ConflictsIn(old(r.State()), old(r.refs), b.pack, b.refs)
    ensures reply.Accepted? ==> reply.applied == |b.pack.revisions|
  {
    var refs := ListRefs(r.refs);
    var conflicts := CheckNonFastForward(r.State(), refs, b.refs, b.pack);
    ListedRefs(r.refs);
    if |conflicts| > 0 {
      assert conflicts[0] in conflicts;
      return Rejected(conflicts);
    }
    var n := ApplyTx(r, b);
    match n
    case Ok(k) => reply := Accepted(k);
    case Err(e) => reply := Failed(e);
  }

  // ---- What one accepted push keeps ----------------------------------------------------------------------

  /** Snapshots are filed under the digest of their own text, refs under their own name. */
  ghost predicate GoodRows(w: Rows) {
    (forall h :: h in w.state.snaps ==> w.state.snaps[h].hash == h && SnapshotID(w.state.snaps[h]) == h) &&
      RefsFiled(w.refs)
  }

  /** The snapshots of a bundle are content-addressed and its revision ids distinct. */
  ghost predicate GoodPack(b: Pack) {
    (forall n :: n in b.snapshots ==> SnapshotID(n) == n.hash) &&
    (forall i, j :: 0 <= i < j < |b.revisions| ==> b.revisions[i].id != b.revisions[j].id)
  }

  /** Where the bundle re-points a revision the repository knows, the old snapshot is reachable from the
      new one: what isAncestorUnion decides for two hashes before anything is written. */
  ghost predicate RepointsForward(s: State, b: Pack) {
    forall i :: 0 <= i < |b.revisions| && b.revisions[i].id in s.revs ==>
      Reaches(UnionGraph(s, b), b.revisions[i].hash, s.revs[b.revisions[i].id].hash)
  }

  ghost predicate KeepsKinds(refs: map<string, Ref>, rs: seq<Ref>) {
    forall r :: r in rs && r.name in refs ==> r.kind == refs[r.name].kind
  }

  ghost predicate GoodBundle(w: Rows, b: Bundle) {
    GoodPack(b.pack) && RepointsForward(w.state, b.pack) && KeepsKinds(w.refs, b.refs)
  }

  lemma {:induction false} PutSnapshotsAt(m: map<ID, Snapshot>, ns: seq<Snapshot>, h: ID)
    ensures h in PutSnapshots(m, ns) <==> h in m || FindSnapshot(ns, h).Some?
    ensures h in PutSnapshots(m, ns) ==>
      (h in m && PutSnapshots(m, ns)[h] == m[h]) || (PutSnapshots(m, ns)[h] in ns && PutSnapshots(m, ns)[h].hash == h)
  {
    FindSnapshotIn(ns, h);
    if ns != [] {
      var init := ns[..|ns| - 1];
      FindSnapshotIn(init, h);
      PutSnapshotsAt(m, init, h);
      assert ns == init + [ns[|ns| - 1]];
    }
  }

  /** After the write a stored snapshot is the one the check looked up. */
  lemma AppliedLookup(w: Rows, b: Bundle, h: ID)
    requires GoodRows(w) && GoodPack(b.pack) && Decodes(b.objects)
    ensures var t := ApplyRows(w, b).state;
      Lookup(t, NO_PACK, h).Some? == Lookup(w.state, b.pack, h).Some? &&
      (h in t.snaps ==> t.snaps[h].hash == h && SnapshotID(t.snaps[h]) == h &&
                        t.snaps[h].parents == Lookup(w.state, b.pack, h).value.parents)
  {
    PutSnapshotsAt(w.state.snaps, b.pack.snapshots, h);
    FindSnapshotIn(b.pack.snapshots, h);
  }

  lemma AppliedNode(w: Rows, b: Bundle, h: ID)
    requires GoodRows(w) && GoodPack(b.pack) && Decodes(b.objects)
    ensures var g, u := UnionGraph(ApplyRows(w, b).state, NO_PACK), UnionGraph(w.state, b.pack);
      (h in g <==> h in u) && (h in g ==> g[h] == u[h]) &&
      (h in UnionGraph(w.state, NO_PACK) ==> h in u && UnionGraph(w.state, NO_PACK)[h] == u[h])
  {
    hide UnionGraph, ApplyRows, GoodRows, GoodPack;
    UnionGraphLookup(ApplyRows(w, b).state, NO_PACK, h);
    UnionGraphLookup(w.state, b.pack, h);
    UnionGraphLookup(w.state, NO_PACK, h);
    AppliedLookup(w, b, h);
  }

  lemma AppliedGood(w: Rows, b: Bundle)
    requires GoodRows(w) && GoodPack(b.pack) && Decodes(b.objects)
    ensures GoodRows(ApplyRows(w, b))
  {
    hide ApplyRows;
    var after := ApplyRows(w, b);
    forall h | h in after.state.snaps ensures after.state.snaps[h].hash == h && SnapshotID(after.state.snaps[h]) == h {
      AppliedLookup(w, b, h);
    }
    forall n | n in after.refs ensures after.refs[n].name == n { AppliedRef(w, b, n); }
  }

  lemma AppliedRef(w: Rows, b: Bundle, n: string)
    requires RefsFiled(w.refs) && Decodes(b.objects) && n in ApplyRows(w, b).refs
    ensures ApplyRows(w, b).refs[n].name == n
  {
    PutRefsAt(w.refs, b.refs, n);
  }

  /** After the write, the stored graph is the union graph the check walked. */
  lemma AppliedGraph(w: Rows, b: Bundle)
    requires GoodRows(w) && GoodPack(b.pack) && Decodes(b.objects)
    ensures UnionGraph(ApplyRows(w, b).state, NO_PACK) == UnionGraph(w.state, b.pack)
    ensures SubGraph(UnionGraph(w.state, NO_PACK), UnionGraph(w.state, b.pack))
    ensures GoodRows(ApplyRows(w, b))
  {
    hide UnionGraph, ApplyRows, GoodRows, GoodPack;
    AppliedGood(w, b);
    forall h { AppliedNode(w, b, h); }
    assert UnionGraph(ApplyRows(w, b).state, NO_PACK) == UnionGraph(w.state, b.pack);
  }

  lemma {:induction false} PutRevisionsAt(m: map<string, Revision>, rs: seq<Revision>, id: string)
    ensures id in PutRevisions(m, rs) <==> id in m || exists i :: 0 <= i < |rs| && rs[i].id == id
    ensures (forall i :: 0 <= i < |rs| ==> rs[i].id != id) && id in m ==> PutRevisions(m, rs)[id] == m[id]
    ensures (exists i :: 0 <= i < |rs| && rs[i].id == id) ==> exists i ::
      0 <= i < |rs| && rs[i].id == id && PutRevisions(m, rs)[id] == rs[i]
  {
    if rs != [] {
      var init, last := rs[..|rs| - 1], rs[|rs| - 1];
      PutRevisionsAt(m, init, id);
      if last.id == id {
        assert PutRevisions(m, rs)[id] == rs[|rs| - 1];
      } else if i :| 0 <= i < |rs| && rs[i].id == id {
        assert init[i].id == id;
        var j :| 0 <= j < |init| && init[j].id == id && PutRevisions(m, init)[id] == init[j];
        assert rs[j] == init[j];
      }
    }
  }

  lemma {:induction false} FindRevisionAt(rs: seq<Revision>, id: string)
    ensures FindRevision(rs, id).Some? <==> exists i :: 0 <= i < |rs| && rs[i].id == id
    ensures FindRevision(rs, id).Some? ==> exists i ::
      0 <= i < |rs| && rs[i].id == id && rs[i] == FindRevision(rs, id).value
  {
    if rs != [] {
      FindRevisionAt(rs[1..], id);
      if rs[0].id == id {
      } else if i :| 0 <= i < |rs| && rs[i].id == id {
        assert rs[1..][i - 1].id == id;
        var j :| 0 <= j < |rs[1..]| && rs[1..][j].id == id && rs[1..][j] == FindRevision(rs[1..], id).value;
        assert rs[j + 1] == rs[1..][j];
      }
    }
  }

  /** After the write a revision the repository did not know has the hash the check resolved it to, and
      one it knew has its old hash or the bundle's. */
  lemma AppliedRevision(w: Rows, b: Bundle, id: string)
    requires GoodPack(b.pack) && Decodes(b.objects)
    ensures var t := ApplyRows(w, b).state;
      (HashOf(w.state, b.pack, id).Some? <==> id in t.revs) &&
      (id in t.revs && id !in w.state.revs ==> HashOf(w.state, b.pack, id).value == t.revs[id].hash)
    ensures var t, rs := ApplyRows(w, b).state, b.pack.revisions;
      id in w.state.revs ==>
        t.revs[id].hash == w.state.revs[id].hash || exists i ::
          0 <= i < |rs| && rs[i].id == id && t.revs[id].hash == rs[i].hash
  {
    PutRevisionsAt(w.state.revs, b.pack.revisions, id);
    FindRevisionAt(b.pack.revisions, id);
  }

  /** After a forward write, the hash the check resolved a revision to is reachable from its stored one. */
  lemma AppliedForward(w: Rows, b: Bundle, id: string)
    requires GoodRows(w) && GoodPack(b.pack) && RepointsForward(w.state, b.pack) && Decodes(b.objects)
    requires HashOf(w.state, b.pack, id).Some?
    ensures var t := ApplyRows(w, b).state;
      id in t.revs && Reaches(UnionGraph(t, NO_PACK), t.revs[id].hash, HashOf(w.state, b.pack, id).value)
  {
    hide UnionGraph, ApplyRows, Reaches, GoodRows, GoodPack;
    AppliedGraph(w, b);
    AppliedRevision(w, b, id);
    ReachesSelf(UnionGraph(w.state, b.pack), HashOf(w.state, b.pack, id).value);
  }

  /** In the stored graph, revision a is c or an ancestor of c. */
  ghost predicate AncestorStored(s: State, a: string, c: string) {
    a == c || (a in s.revs && c in s.revs && Reaches(UnionGraph(s, NO_PACK), s.revs[c].hash, s.revs[a].hash))
  }

  /** The snapshot a branch points at. */
  ghost predicate TipIs(w: Rows, name: string, h: ID) {
    name in w.refs && w.refs[name].kind.Branch? && w.refs[name].target in w.state.revs &&
    w.state.revs[w.refs[name].target].hash == h
  }

  /** The branch has a tip in `w` from which the snapshot `h` is reachable. */
  ghost predicate TipReaches(w: Rows, name: string, h: ID) {
    exists t :: TipIs(w, name, t) && Reaches(UnionGraph(w.state, NO_PACK), t, h)
  }

  /**
   * An accepted push moves every branch forward or not at all: its old tip is reachable from its new
   * one. Between revisions, the old target is an ancestor of the new one unless it was itself re-pointed.
   */
  lemma PushFastForward(w: Rows, b: Bundle, name: string)
    requires GoodRows(w) && GoodBundle(w, b) && !AnyConflict(w, b)
    requires name in w.refs && w.refs[name].kind.Branch?
    ensures var after := ApplyRows(w, b); var a := w.refs[name].target;
      name in after.refs && after.refs[name].kind.Branch? &&
      (a in w.state.revs ==> a in after.state.revs && TipReaches(after, name, w.state.revs[a].hash)) &&
      (a !in w.state.revs || after.state.revs[a].hash == w.state.revs[a].hash ==>
        AncestorStored(after.state, a, after.refs[name].target))
  {
    var a := w.refs[name].target;
    if a in w.state.revs { ReachesSelf(UnionGraph(w.state, NO_PACK), w.state.revs[a].hash); }
    if !Decodes(b.objects) {
      if a in w.state.revs { assert TipIs(w, name, w.state.revs[a].hash); }
    } else {
      PutRefsAt(w.refs, b.refs, name);
      AcceptedBranch(w, b, name);
    }
  }

  /** What passing the check means for one branch, in the union graph. */
  lemma CheckPassed(w: Rows, b: Bundle, name: string)
    requires !AnyConflict(w, b) && KeepsKinds(w.refs, b.refs) && Decodes(b.objects)
    requires name in w.refs && w.refs[name].kind.Branch?
    ensures var a := w.refs[name].target; var after := ApplyRows(w, b);
      name in after.refs && after.refs[name].kind.Branch? &&
      (a == after.refs[name].target || AncestorInUnion(w.state, b.pack, a, after.refs[name].target))
  {
    PutRefsAt(w.refs, b.refs, name);
    var inc := ApplyRows(w, b).refs[name];
    if w.refs[name].target != inc.target { assert inc in b.refs && !Conflicting(w.state, w.refs, b.pack, inc); }
  }

  lemma AcceptedBranch(w: Rows, b: Bundle, name: string)
    requires GoodRows(w) && GoodBundle(w, b) && !AnyConflict(w, b) && Decodes(b.objects)
    requires name in w.refs && w.refs[name].kind.Branch?
    ensures var after := ApplyRows(w, b); var a := w.refs[name].target;
      name in after.refs && after.refs[name].kind.Branch? &&
      (a in w.state.revs ==> a in after.state.revs && TipReaches(after, name, w.state.revs[a].hash)) &&
      (a !in w.state.revs || after.state.revs[a].hash == w.state.revs[a].hash ==>
        AncestorStored(after.state, a, after.refs[name].target))
  {
    hide UnionGraph, ApplyRows, Reaches, GoodRows, GoodPack, RepointsForward, KeepsKinds, AnyConflict;
    var after, a := ApplyRows(w, b), w.refs[name].target;
    var g := UnionGraph(after.state, NO_PACK);
    CheckPassed(w, b, name);
    AppliedGraph(w, b);
    AppliedRevision(w, b, a);
    var c := after.refs[name].target;
    if a in w.state.revs || a != c {
      AppliedForward(w, b, c);
      var t, h := after.state.revs[c].hash, HashOf(w.state, b.pack, a).value;
      if a != c { ReachesTransitive(g, t, HashOf(w.state, b.pack, c).value, h); }
      assert TipIs(after, name, t);
    }
  }

  // ---- Exactly which bundles may re-point revisions --------------------------------------------------------

  /** Every branch's tip is reachable from its tip after the bundle is written. */
  ghost predicate KeepsTips(w: Rows, b: Bundle) {
    forall name, h :: TipIs(w, name, h) ==> TipReaches(ApplyRows(w, b), name, h)
  }

  /** Whatever branches the repository has and the bundle moves: if the push passes the check, no branch
      loses its tip. */
  ghost predicate NeverLosesTips(w: Rows, b: Bundle) {
    forall refs, rs ::
      var v, c := w.(refs := refs), b.(refs := rs);
      RefsFiled(refs) && KeepsKinds(refs, rs) && !AnyConflict(v, c) ==> KeepsTips(v, c)
  }

  /** Accepted pushes of these rows never lose a branch's tip, exactly when the rows re-point revisions
      only forward. */
  lemma RepointExact(w: Rows, b: Bundle)
    requires GoodRows(w) && GoodPack(b.pack) && Decodes(b.objects)
    ensures RepointsForward(w.state, b.pack) <==> NeverLosesTips(w, b)
  {
    hide UnionGraph, Reaches, GoodPack, AnyConflict, KeepsKinds;
    if RepointsForward(w.state, b.pack) {
      forall refs, rs | RefsFiled(refs) && KeepsKinds(refs, rs) && !AnyConflict(w.(refs := refs), b.(refs := rs))
        ensures KeepsTips(w.(refs := refs), b.(refs := rs))
      {
        var v, c := w.(refs := refs), b.(refs := rs);
        forall name, h | TipIs(v, name, h) ensures TipReaches(ApplyRows(v, c), name, h) { PushFastForward(v, c, name); }
      }
    }
    if NeverLosesTips(w, b) {
      forall i | 0 <= i < |b.pack.revisions| && b.pack.revisions[i].id in w.state.revs
        ensures Reaches(UnionGraph(w.state, b.pack), b.pack.revisions[i].hash,
          w.state.revs[b.pack.revisions[i].id].hash)
      {
        RepointedTip(w, b, i);
      }
    }
  }

  /** A push that moves no ref passes the check, and a branch at a re-pointed revision moves with it. */
  lemma RepointedTip(w: Rows, b: Bundle, i: nat)
    requires GoodRows(w) && GoodPack(b.pack) && Decodes(b.objects) && NeverLosesTips(w, b)
    requires i < |b.pack.revisions| && b.pack.revisions[i].id in w.state.revs
    ensures Reaches(UnionGraph(w.state, b.pack), b.pack.revisions[i].hash, w.state.revs[b.pack.revisions[i].id].hash)
  {
    hide UnionGraph, Reaches;
    var id, name := b.pack.revisions[i].id, "main";
    var refs := map[name := Ref(name, Branch, id)];
    var v, c := w.(refs := refs), b.(refs := []);
    assert RefsFiled(refs) && KeepsKinds(refs, []) && !AnyConflict(v, c);
    var h := w.state.revs[id].hash;
    assert KeepsTips(v, c) && TipIs(v, name, h);
    var t :| TipIs(ApplyRows(v, c), name, t) && Reaches(UnionGraph(ApplyRows(v, c).state, NO_PACK), t, h);
    AppliedGraph(v, c);
    assert ApplyRows(v, c).refs == refs;
    PutRevisionsAt(w.state.revs, b.pack.revisions, id);
    assert t == b.pack.revisions[i].hash;
  }

  // ---- What an accepted push leaves ------------------------------------------------------------------------

  ghost predicate LastNamed(rs: seq<Ref>, n: string, k: int) {
    0 <= k < |rs| && rs[k].name == n && forall j :: k < j < |rs| ==> rs[j].name != n
  }

  lemma {:induction false} PutRefsLast(m: map<string, Ref>, rs: seq<Ref>, n: string)
    ensures var t := PutRefs(m, rs);
      (forall k :: LastNamed(rs, n, k) ==> n in t && t[n] == rs[k]) &&
      ((forall r :: r in rs ==> r.name != n) ==> (n in t <==> n in m) && (n in m ==> t[n] == m[n]))
  {
    if rs != [] {
      var init := rs[..|rs| - 1];
      assert rs == init + [rs[|rs| - 1]];
      PutRefsLast(m, init, n);
      forall k | LastNamed(rs, n, k) && k < |init| ensures LastNamed(init, n, k) && init[k] == rs[k] {
        assert rs[|rs| - 1].name != n;
        forall j | k < j < |init| ensures init[j].name != n { assert init[j] == rs[j]; }
      }
    }
  }

  ghost predicate LastHashed(ns: seq<Snapshot>, h: ID, k: int) {
    0 <= k < |ns| && ns[k].hash == h && forall j :: k < j < |ns| ==> ns[j].hash != h
  }

  lemma {:induction false} PutSnapshotsLast(m: map<ID, Snapshot>, ns: seq<Snapshot>, h: ID)
    ensures var t := PutSnapshots(m, ns);
      (forall k :: LastHashed(ns, h, k) ==> h in t && t[h] == ns[k]) &&
      ((forall n :: n in ns ==> n.hash != h) ==> (h in t <==> h in m) && (h in m ==> t[h] == m[h]))
  {
    if ns != [] {
      var init := ns[..|ns| - 1];
      assert ns == init + [ns[|ns| - 1]];
      PutSnapshotsLast(m, init, h);
      hide SnapshotID;
      forall k | LastHashed(ns, h, k) && k < |init| ensures LastHashed(init, h, k) && init[k] == ns[k] {
        assert ns[|ns| - 1].hash != h;
        forall j | k < j < |init| ensures init[j].hash != h { assert init[j] == ns[j]; }
      }
    }
  }

  ghost predicate LastIdentified(rs: seq<Revision>, id: string, k: int) {
    0 <= k < |rs| && rs[k].id == id && forall j :: k < j < |rs| ==> rs[j].id != id
  }

  lemma {:induction false} PutRevisionsLast(m: map<string, Revision>, rs: seq<Revision>, id: string)
    ensures var t := PutRevisions(m, rs);
      (forall k :: LastIdentified(rs, id, k) ==> id in t && t[id] == rs[k]) &&
      ((forall r :: r in rs ==> r.id != id) ==> (id in t <==> id in m) && (id in m ==> t[id] == m[id]))
  {
    if rs != [] {
      var init := rs[..|rs| - 1];
      assert rs == init + [rs[|rs| - 1]];
      PutRevisionsLast(m, init, id);
      forall k | LastIdentified(rs, id, k) && k < |init| ensures LastIdentified(init, id, k) && init[k] == rs[k] {
        assert rs[|rs| - 1].id != id;
        forall j | k < j < |init| ensures init[j].id != id { assert init[j] == rs[j]; }
      }
    }
  }

  lemma {:induction false} PutObjectsAll(m: map<ID, Object>, os: seq<Object>, id: ID)
    ensures var t := PutObjects(m, os);
      (id in t <==> id in m || (id.Digest? && id.obj in os)) &&
      (id in t ==> t[id] == if id.Digest? && id.obj in os then id.obj else m[id])
  {
    if os != [] {
      PutObjectsAll(m, os[..|os| - 1], id);
      assert os == os[..|os| - 1] + [os[|os| - 1]];
    }
  }

  /**
   * The rows after a push that was written, one by one: each ref name, revision id and snapshot hash holds
   * the last row the bundle has for it, tags and branches alike, every object of the bundle is stored, and
   * every other row is as before.
   */
  lemma AppliedExactly(w: Rows, b: Bundle, name: string, id: string, h: ID, oid: ID)
    requires Decodes(b.objects)
    ensures var t := ApplyRows(w, b);
      (forall k :: LastNamed(b.refs, name, k) ==> name in t.refs && t.refs[name] == b.refs[k]) &&
      ((forall r :: r in b.refs ==> r.name != name) ==>
        (name in t.refs <==> name in w.refs) && (name in w.refs ==> t.refs[name] == w.refs[name]))
    ensures var t, rs := ApplyRows(w, b).state.revs, b.pack.revisions;
      (forall k :: LastIdentified(rs, id, k) ==> id in t && t[id] == rs[k]) &&
      ((forall r :: r in rs ==> r.id != id) ==>
        (id in t <==> id in w.state.revs) && (id in w.state.revs ==> t[id] == w.state.revs[id]))
    ensures var t, ns := ApplyRows(w, b).state.snaps, b.pack.snapshots;
      (forall k :: LastHashed(ns, h, k) ==> h in t && t[h] == ns[k]) &&
      ((forall n :: n in ns ==> n.hash != h) ==>
        (h in t <==> h in w.state.snaps) && (h in w.state.snaps ==> t[h] == w.state.snaps[h]))
    ensures var t := ApplyRows(w, b).objects;
      (oid in t <==> oid in w.objects || (oid.Digest? && Some(oid.obj) in b.objects)) &&
      (oid in t ==> t[oid] == if oid.Digest? && Some(oid.obj) in b.objects then oid.obj else w.objects[oid])
  {
    PutRefsLast(w.refs, b.refs, name);
    PutRevisionsLast(w.state.revs, b.pack.revisions, id);
    PutSnapshotsLast(w.state.snaps, b.pack.snapshots, h);
    PutObjectsAll(w.objects, Decoded(b.objects), oid);
    if oid.Digest? { DecodedHas(b.objects, oid.obj); }
  }

  lemma DecodedHas(os: seq<Option<Object>>, o: Object)
    requires Decodes(os)
    ensures o in Decoded(os) <==> Some(o) in os
  {
    if Some(o) in os {
      var i :| 0 <= i < |os| && os[i] == Some(o);
      assert Decoded(os)[i] == o;
    }
    if o in Decoded(os) {
      var i :| 0 <= i < |os| && Decoded(os)[i] == o;
      assert os[i] in os && os[i] == Some(o);
    }
  }

  /** A tag, a new name and an unchanged target never conflict. Any other ref does, exactly when there is no
      path along parents from the snapshot of the new target to that of the old one. */
  lemma ConflictingMeans(s: State, refs: map<string, Ref>, b: Pack, inc: Ref)
    ensures !Conflicting(s, refs, b, inc) <==>
      inc.kind.Tag? || inc.name !in refs || refs[inc.name].target == inc.target ||
      (refs[inc.name].target != "" && inc.target != "" &&
       HashOf(s, b, refs[inc.name].target).Some? && HashOf(s, b, inc.target).Some? &&
       Reaches(UnionGraph(s, b), HashOf(s, b, inc.target).value, HashOf(s, b, refs[inc.name].target).value))
  {
  }

  /** Refs are listed in name order, each once. */
  lemma ListRefsOrdered(refs: map<string, Ref>)
    requires RefsFiled(refs)
    ensures var rs := ListRefs(refs);
      |rs| == |refs.Keys| && forall i, j ::
        0 <= i < j < |rs| ==> Leq(rs[i].name, rs[j].name) && rs[i].name != rs[j].name
  {
    SortedAscends(refs.Keys);
    var names := Sorted(refs.Keys);
    assert forall i :: 0 <= i < |names| ==> names[i] in names;
  }
}
