/** What the push protocol's guarantee rests on: two concrete histories in which it fails. */
module PushCounter {
  import opened Prelude
  import opened Graphs
  import opened Objects
  import opened History
  import opened Store
  import opened Ancestry
  import opened Push
  import opened PushProtocol

  const SOMEONE := Author("dev", "")

  function Node(rid: string, parents: seq<ID>): Snapshot {
    Seal(Snapshot(Zero, rid, parents, Zero, "", SOMEONE, 0))
  }

  function Rev(n: Snapshot): Revision { Revision(n.revision, n.hash, 0, "", []) }

  const ROOT := Node("root", [])
  const LEFT := Node("left", [ROOT.hash])
  const RIGHT := Node("right", [ROOT.hash])

  /** Branch main at the root revision. */
  const START := Rows(map[], State(map[ROOT.hash := ROOT], map["root" := Rev(ROOT)]),
    map["main" := Ref("main", Branch, "root")])

  /** A bundle that carries one snapshot and moves main to its revision. */
  function Moving(n: Snapshot): Bundle {
    Bundle(Pack([Rev(n)], [n]), [Ref("main", Branch, n.revision)], [])
  }

  lemma Distinct()
    ensures ROOT.hash != LEFT.hash && ROOT.hash != RIGHT.hash && LEFT.hash != RIGHT.hash
    ensures "left" != "right" && "root" != "left" && "root" != "right"
  {
    assert "left"[0] != "right"[0] && "root"[1] != "right"[1] && "root"[0] != "left"[0];
  }

  lemma ChildGood(n: Snapshot)
    requires n == LEFT || n == RIGHT
    ensures GoodBundle(START, Moving(n)) && GoodRows(START)
  {
    Distinct();
  }

  /** Moving main from the root to a child of the root is a fast-forward. */
  lemma ChildAccepted(n: Snapshot)
    requires n == LEFT || n == RIGHT
    ensures !AnyConflict(START, Moving(n))
  {
    Distinct();
    hide Reaches, IsPath, SnapshotID;
    var b := Moving(n);
    var g := UnionGraph(START.state, b.pack);
    UnionGraphLookup(START.state, b.pack, n.hash);
    assert FindSnapshot(b.pack.snapshots, n.hash) == Some(n);
    assert FindRevision(b.pack.revisions, n.revision) == Some(Rev(n));
    assert g[n.hash] == [ROOT.hash];
    ReachesEdge(g, n.hash, ROOT.hash);
  }

  /** START with main moved to the left child. */
  function AtLeft(): Rows {
    Rows(map[], State(map[ROOT.hash := ROOT, LEFT.hash := LEFT], map["root" := Rev(ROOT), "left" := Rev(LEFT)]),
      map["main" := Ref("main", Branch, "left")])
  }

  function AtRight(): Rows {
    Rows(map[],
         State(map[ROOT.hash := ROOT, LEFT.hash := LEFT, RIGHT.hash := RIGHT],
               map["root" := Rev(ROOT), "left" := Rev(LEFT), "right" := Rev(RIGHT)]),
         map["main" := Ref("main", Branch, "right")])
  }

  lemma {:induction false} ApplyMoving(w: Rows, n: Snapshot)
    ensures ApplyRows(w, Moving(n)) ==
      Rows(w.objects, State(w.state.snaps[n.hash := n], w.state.revs[n.revision := Rev(n)]),
        w.refs["main" := Ref("main", Branch, n.revision)])
  {
    var b := Moving(n);
    assert PutSnapshots(w.state.snaps, [n]) == w.state.snaps[n.hash := n] by { assert [n][..0] == []; }
    assert PutRevisions(w.state.revs, [Rev(n)]) == w.state.revs[n.revision := Rev(n)] by { assert [Rev(n)][..0] == []; }
    var m := Ref("main", Branch, n.revision);
    assert PutRefs(w.refs, [m]) == w.refs["main" := m] by { assert [m][..0] == []; }
    assert Decoded(b.objects) == [] && PutObjects(w.objects, []) == w.objects;
  }

  /** The right child does not descend from the left one. */
  lemma RightNotBelowLeft(w: Rows)
    requires RIGHT.hash in w.state.snaps && w.state.snaps[RIGHT.hash] == RIGHT
    requires ROOT.hash in w.state.snaps && w.state.snaps[ROOT.hash] == ROOT
    ensures !Reaches(UnionGraph(w.state, NO_PACK), RIGHT.hash, LEFT.hash)
  {
    Distinct();
    var g := UnionGraph(w.state, NO_PACK);
    UnionGraphLookup(w.state, NO_PACK, RIGHT.hash);
    UnionGraphLookup(w.state, NO_PACK, ROOT.hash);
    var s := {RIGHT.hash, ROOT.hash};
    assert g[RIGHT.hash] == [ROOT.hash] && g[ROOT.hash] == [];
    assert ClosedUnder(g, s);
    if Reaches(g, RIGHT.hash, LEFT.hash) { ClosedStays(g, s, RIGHT.hash, LEFT.hash); }
  }

  lemma BothWritten()
    ensures ApplyRows(START, Moving(LEFT)) == AtLeft()
    ensures ApplyRows(AtLeft(), Moving(RIGHT)) == AtRight()
    ensures GoodBundle(AtLeft(), Moving(RIGHT))
    ensures !Forward(AtLeft(), AtRight())
  {
    Distinct();
    ApplyMoving(START, LEFT);
    ApplyMoving(AtLeft(), RIGHT);
    assert AtLeft().refs["main"].target == "left" && AtRight().refs["main"].target == "right";
    RightNotBelowLeft(AtRight());
    assert TipIs(AtLeft(), "main", LEFT.hash) && !TipReaches(AtRight(), "main", LEFT.hash);
  }

  /**
   * Without the lock two clients can both pass the check and then both write: main ends on a
   * revision that does not descend from the one it was on before.
   */
  lemma WithoutLockHistoryIsLost() returns (run: seq<System>, events: seq<Event>)
    ensures IsRun(false, run, events) && Safe(run[0]) && |run| == 9
    ensures !Forward(run[7].rows, run[8].rows)
  {
    hide ApplyRows, AnyConflict, GoodBundle, GoodRows, Forward, Moving, AtLeft, AtRight;
    var l, r := Moving(LEFT), Moving(RIGHT);
    ChildAccepted(LEFT);
    ChildGood(LEFT);
    ChildAccepted(RIGHT);
    ChildGood(RIGHT);
    BothWritten();
    var s0 := System(START, None, map[]);
    var s1 := System(START, None, map[0 := Waiting(l)]);
    var s2 := System(START, None, map[0 := Waiting(l), 1 := Waiting(r)]);
    var s3 := System(START, Some(0), map[0 := Phase.Entered(l), 1 := Waiting(r)]);
    var s4 := System(START, Some(1), map[0 := Phase.Entered(l), 1 := Phase.Entered(r)]);
    var s5 := System(START, Some(1), map[0 := Passed(l), 1 := Phase.Entered(r)]);
    var s6 := System(START, Some(1), map[0 := Passed(l), 1 := Passed(r)]);
    var s7 := System(AtLeft(), Some(1), map[0 := Written(l), 1 := Passed(r)]);
    var s8 := System(AtRight(), Some(1), map[0 := Written(l), 1 := Written(r)]);
    run := [s0, s1, s2, s3, s4, s5, s6, s7, s8];
    events := [Arrive(0, l), Arrive(1, r), Acquire(0), Acquire(1), Check(0), Check(1), Write(0), Write(1)];
    assert Next(false, s0, s1, events[0]) && Next(false, s1, s2, events[1]);
    assert Next(false, s2, s3, events[2]) && Next(false, s3, s4, events[3]);
    assert Next(false, s4, s5, events[4]) && Next(false, s5, s6, events[5]);
    assert Next(false, s6, s7, events[6]) && Next(false, s7, s8, events[7]);
  }

  /** A rewrite of the left child without its parent, under the same revision id. */
  const ORPHAN := Node("left", [])

  /**
   * The check resolves a revision id by the repository's row even when the bundle re-points it, and
   * skips a branch whose target id is unchanged: such a bundle passes, and the branch's old
   * snapshot is no longer below its new one.
   */
  lemma RepointedBranchLosesHistory()
    ensures GoodRows(AtLeft()) && GoodPack(Moving(ORPHAN).pack) && !AnyConflict(AtLeft(), Moving(ORPHAN))
    ensures !RepointsForward(AtLeft().state, Moving(ORPHAN).pack)
    ensures var after := ApplyRows(AtLeft(), Moving(ORPHAN));
      TipIs(AtLeft(), "main", LEFT.hash) && TipIs(after, "main", ORPHAN.hash) &&
      !Reaches(UnionGraph(after.state, NO_PACK), ORPHAN.hash, LEFT.hash)
  {
    Distinct();
    assert LEFT.hash != ORPHAN.hash by { assert LEFT.hash.parents != ORPHAN.hash.parents; }
    ApplyMoving(AtLeft(), ORPHAN);
    assert Moving(ORPHAN).pack.revisions[0].id in AtLeft().state.revs;
    var after := ApplyRows(AtLeft(), Moving(ORPHAN));
    var g := UnionGraph(after.state, NO_PACK);
    UnionGraphLookup(after.state, NO_PACK, ORPHAN.hash);
    var s := {ORPHAN.hash};
    assert ClosedUnder(g, s);
    if Reaches(g, ORPHAN.hash, LEFT.hash) { ClosedStays(g, s, ORPHAN.hash, LEFT.hash); }
  }
}
