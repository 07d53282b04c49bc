/** What squash, revert, rebase and resolve do to trees, on whole repository states. */
module HistoryLaws {
  import opened Prelude
  import opened Paths
  import opened Objects
  import opened Merge
  import opened MergeLaws
  import opened TreeEdit
  import opened TreeDiff
  import opened Resolution
  import opened History
  import opened Evolution
  import opened DropHistory
  import opened Descendants

  predicate CleanTree(t: Tree) { WellTyped(t) && Canonical(t) }

  predicate ValidChanges(cs: seq<FileChange>) { forall c :: c in cs ==> c.path != [] && ValidPath(c.path) }

  /** The text of a valid path is listed exactly when the path is. */
  lemma ListedText(cs: seq<FileChange>, p: Path)
    requires ValidChanges(cs) && p != [] && ValidPath(p)
    ensures Render(p) in RenderAll(cs) <==> exists c :: c in cs && c.path == p
  {
    hide Render, ValidPath;
    if c :| c in cs && c.path == p {
      var i :| 0 <= i < |cs| && cs[i] == c;
      assert RenderAll(cs)[i] == Render(p);
    }
    if Render(p) in RenderAll(cs) {
      var i :| 0 <= i < |cs| && RenderAll(cs)[i] == Render(p);
      assert cs[i] in cs;
      RenderInjective(p, cs[i].path);
    }
  }

  lemma DiffValid(a: Tree, b: Tree)
    requires WellTyped(a) && WellTyped(b) && ValidNames(a) && ValidNames(b)
    ensures ValidChanges(Diff(a, b))
  {
    hide Diff, LeafAt, DirAt, ValidPath, ValidNames, WellTyped;
    DiffSorted(a, b);
    forall c | c in Diff(a, b) ensures c.path != [] && ValidPath(c.path) {
      assert LeafAt(a, c.path).Some? || LeafAt(b, c.path).Some?;
      LeafNamesValid(a, c.path);
      LeafNamesValid(b, c.path);
    }
  }

  /** With a stored first parent the changed paths recorded for a revision are the paths at which the diff
      walk sees different leaves in its tree and in its parent's. */
  lemma ChangedPathsAreVisible(s: State, parents: seq<ID>, cur: ID, p: Path)
    requires cur in s.snaps && FirstParentTree(s, parents) != Zero
    requires var a, b := TreeOf(FirstParentTree(s, parents)), TreeOf(s.snaps[cur].tree);
      WellTyped(a) && WellTyped(b) && ValidNames(a) && ValidNames(b)
    requires p != [] && ValidPath(p)
    ensures var a, b := TreeOf(FirstParentTree(s, parents)), TreeOf(s.snaps[cur].tree);
      Render(p) in ChangedPaths(s, parents, cur) <==> Seen(a, b, p) != Seen(b, a, p)
  {
    hide Diff, Seen, Render, ValidPath, ValidNames, WellTyped, FirstParentTree, ValidChanges, RenderAll;
    var a, b := TreeOf(FirstParentTree(s, parents)), TreeOf(s.snaps[cur].tree);
    DiffValid(a, b);
    ListedText(Diff(a, b), p);
    ListedSeen(a, b, p);
  }

  lemma ListedSeen(a: Tree, b: Tree, p: Path)
    requires WellTyped(a) && WellTyped(b)
    ensures (exists c :: c in Diff(a, b) && c.path == p) <==> Seen(a, b, p) != Seen(b, a, p)
  {
    hide Diff, Seen, WellTyped;
    DiffSorted(a, b);
    if Seen(a, b, p) != Seen(b, a, p) {
      var c := Expected(p, Seen(a, b, p), Seen(b, a, p)).value;
      assert c.path == p && c in Diff(a, b);
    }
  }

  /** In conflict-free trees without clashes these are the paths at which the two leaves differ. */
  lemma ChangedPathsAreDifferences(s: State, parents: seq<ID>, cur: ID, p: Path)
    requires cur in s.snaps && FirstParentTree(s, parents) != Zero
    requires var a, b := TreeOf(FirstParentTree(s, parents)), TreeOf(s.snaps[cur].tree);
      WellTyped(a) && WellTyped(b) && ConflictFree(a) && ConflictFree(b) && NoClash(a, b) && NoClash(b, a) &&
      ValidNames(a) && ValidNames(b)
    requires p != [] && ValidPath(p)
    ensures var a, b := TreeOf(FirstParentTree(s, parents)), TreeOf(s.snaps[cur].tree);
      Render(p) in ChangedPaths(s, parents, cur) <==> p in Changes(a, b)
  {
    var a, b := TreeOf(FirstParentTree(s, parents)), TreeOf(s.snaps[cur].tree);
    hide LeafAt, DirAt, Render, ValidPath, ValidNames, WellTyped, ChangedPaths, ConflictFree;
    ChangedPathsAreVisible(s, parents, cur, p);
    FreeMeansShown(a, b);
    FreeMeansShown(b, a);
    NothingHidden(a, b, p);
  }

  /** For a root, or a first parent that is not stored, all paths of the tree are recorded. */
  lemma RootChangedPaths(s: State, parents: seq<ID>, cur: ID, p: Path)
    requires cur in s.snaps && FirstParentTree(s, parents) == Zero && ValidNames(TreeOf(s.snaps[cur].tree))
    requires p != [] && ValidPath(p)
    ensures Render(p) in ChangedPaths(s, parents, cur) <==> LeafAt(TreeOf(s.snaps[cur].tree), p).Some?
  {
    var t := TreeOf(s.snaps[cur].tree);
    var cs := Flatten(t, Added);
    FlattenExact(t, Added);
    assert ChangedPaths(s, parents, cur) == RenderAll(cs);
    hide Flatten, ValidNames, ValidPath, Render, LeafAt;
    forall c | c in cs ensures c.path != [] && ValidPath(c.path) { LeafNamesValid(t, c.path); }
    ListedText(cs, p);
    if LeafAt(t, p).Some? { assert FlattenLeaf(p, LeafAt(t, p).value.id, Added) in cs; }
  }

  /** Squashing leaves the parent revision with the child's tree, on the parent's own parents, exactly
      when the child has no file where the parent has a directory. */
  lemma SquashTakesChildTree(s: State, child: string)
    requires Inv(s) && Squash(s, child).result.Ok?
    requires var c := Current(s, child).value;
      CleanTree(TreeOf(c.tree)) && CleanTree(TreeOf(s.snaps[c.parents[0]].tree))
    ensures var c := Current(s, child).value;
      var p := s.snaps[c.parents[0]];
      var out := Squash(s, child);
      Current(out.state, p.revision) == Ok(out.result.value) && out.result.value.parents == p.parents &&
      (TreeOf(out.result.value.tree) == TreeOf(c.tree) <==> NoClash(TreeOf(c.tree), TreeOf(p.tree)))
  {
    var c := Current(s, child).value;
    AbsorbTheirs(TreeOf(s.snaps[c.parents[0]].tree), TreeOf(c.tree));
  }

  /** Reverting the tip onto itself gives back the parent's tree exactly when the parent has no file
      where the tip has a directory. */
  lemma RevertTipRestoresParent(s: State, rid: string, newID: string, now: int)
    requires Inv(s) && Current(s, rid).Ok? && s.revs[rid].hash != Zero
    requires Revert(s, rid, s.revs[rid].hash, newID, now).result.Ok?
    requires CleanTree(RevTree(s, rid)) && CleanTree(TreeOf(FirstParentTree(s, Current(s, rid).value.parents)))
    ensures var parent := TreeOf(FirstParentTree(s, Current(s, rid).value.parents));
      var n := Revert(s, rid, s.revs[rid].hash, newID, now).result.value;
      n.parents == [s.revs[rid].hash] &&
      (TreeOf(n.tree) == parent <==> NoClash(parent, RevTree(s, rid)))
  {
    AbsorbOurs(RevTree(s, rid), TreeOf(FirstParentTree(s, Current(s, rid).value.parents)));
  }

  /** No leaf of the two trees sits where one of the three has a directory. */
  ghost predicate ThreeWayNoClash(b: Tree, o: Tree, t: Tree) {
    forall p :: LeafAt(o, p).Some? || LeafAt(t, p).Some? ==> !DirInAny(b, o, t, p)
  }

  /** Merging a tree's parent with a tree that left the changes between the two alone undoes them there. */
  lemma MergeUndoes(cur: Tree, parent: Tree, target: Tree, p: Path)
    requires WellTyped(cur) && WellTyped(parent) && WellTyped(target) && ThreeWayNoClash(cur, parent, target)
    requires forall q :: LeafAt(cur, q) != LeafAt(parent, q) ==> LeafAt(target, q) == LeafAt(cur, q)
    ensures LeafAt(MergeTrees(cur, parent, target).tree, p) ==
      if LeafAt(cur, p) != LeafAt(parent, p) then LeafAt(parent, p) else LeafAt(target, p)
  {
    hide MergeTrees, LeafAt, DirInAny, WellTyped;
    var kept := iset r: Path | LeafAt(cur, r) == LeafAt(parent, r);
    DisjointMerge(cur, parent, target, kept, p);
  }

  lemma UndoneConflictFree(cur: Tree, parent: Tree, target: Tree)
    requires WellTyped(cur) && WellTyped(parent) && WellTyped(target) && ThreeWayNoClash(cur, parent, target)
    requires forall q :: LeafAt(cur, q) != LeafAt(parent, q) ==> LeafAt(target, q) == LeafAt(cur, q)
    requires ConflictFree(parent) && ConflictFree(target)
    ensures ConflictFree(MergeTrees(cur, parent, target).tree)
  {
    hide MergeTrees, LeafAt, WellTyped, ConflictFree;
    var m := MergeTrees(cur, parent, target).tree;
    forall q ensures LeafAt(m, q).Some? ==> LeafAt(m, q).value.kind != KindConflict {
      MergeUndoes(cur, parent, target, q);
      LeafConflictFree(parent, q);
      LeafConflictFree(target, q);
    }
    MergeWellTyped(cur, parent, target);
    LeavesConflictFree(m);
  }

  /** The snapshot a revert is applied to: the given one, or the tip. */
  function RevertTarget(s: State, onto: ID): ID
    requires s.revs != map[]
  {
    if onto != Zero then onto else s.revs[Newest(s)].hash
  }

  lemma RevertOutcome(s: State, rid: string, onto: ID, newID: string, now: int)
    requires Inv(s) && Current(s, rid).Ok?
    requires Revert(s, rid, onto, newID, now).result.Ok?
    ensures var n := Revert(s, rid, onto, newID, now).result.value;
      n.parents == [RevertTarget(s, onto)] && TreeOf(n.tree) == MergeTrees(RevTree(s, rid),
        TreeOf(FirstParentTree(s, Current(s, rid).value.parents)), TreeOf(SnapTree(s, RevertTarget(s, onto)))).tree
  {
    hide MergeTrees;
  }

  /**
   * Reverting a revision onto any snapshot, the tip by default, that left the revision's changes untouched: exactly the
   * paths the revision changed get its parent's leaf back, every other path keeps the leaf it has there, and
   * no conflict appears.
   */
  lemma RevertDisjoint(s: State, rid: string, onto: ID, newID: string, now: int, p: Path)
    requires Inv(s) && Current(s, rid).Ok?
    requires Revert(s, rid, onto, newID, now).result.Ok?
    requires var cur := RevTree(s, rid);
      var parent, target := TreeOf(FirstParentTree(s, Current(s, rid).value.parents)),
        TreeOf(SnapTree(s, RevertTarget(s, onto)));
      WellTyped(cur) && WellTyped(parent) && WellTyped(target) && ThreeWayNoClash(cur, parent, target) &&
      forall q :: LeafAt(cur, q) != LeafAt(parent, q) ==> LeafAt(target, q) == LeafAt(cur, q)
    ensures var cur := RevTree(s, rid);
      var parent, target := TreeOf(FirstParentTree(s, Current(s, rid).value.parents)),
        TreeOf(SnapTree(s, RevertTarget(s, onto)));
      var n := Revert(s, rid, onto, newID, now).result.value;
      n.parents == [RevertTarget(s, onto)] &&
      LeafAt(TreeOf(n.tree), p) ==
        (if LeafAt(cur, p) != LeafAt(parent, p) then LeafAt(parent, p) else LeafAt(target, p)) &&
      (ConflictFree(parent) && ConflictFree(target) ==> ConflictFree(TreeOf(n.tree)))
  {
    hide Revert, RevertTarget, SnapTree, MergeTrees, LeafAt, ThreeWayNoClash, WellTyped, ConflictFree, Inv, RevTree,
      FirstParentTree;
    var cur := RevTree(s, rid);
    var parent, target := TreeOf(FirstParentTree(s, Current(s, rid).value.parents)),
      TreeOf(SnapTree(s, RevertTarget(s, onto)));
    RevertOutcome(s, rid, onto, newID, now);
    MergeUndoes(cur, parent, target, p);
    if ConflictFree(parent) && ConflictFree(target) { UndoneConflictFree(cur, parent, target); }
  }

  /** Rebasing onto the present parent changes nothing, not even the hash, exactly when the revision
      has no file where the parent has a directory. */
  lemma RebaseInPlace(s: State, rid: string)
    requires Inv(s) && Current(s, rid).Ok? && |Current(s, rid).value.parents| == 1
    requires var c := Current(s, rid).value;
      c.parents[0] in s.snaps && IsTreeID(c.tree) && CleanTree(TreeOf(c.tree)) &&
        CleanTree(TreeOf(s.snaps[c.parents[0]].tree))
    ensures var c := Current(s, rid).value;
      var out := Rebase(s, rid, c.parents);
      out.result.Ok? && (out.result.value == c <==> NoClash(TreeOf(c.tree), TreeOf(s.snaps[c.parents[0]].tree)))
  {
    var c := Current(s, rid).value;
    var n := Rebase(s, rid, c.parents).result.value;
    AbsorbOurs(TreeOf(s.snaps[c.parents[0]].tree), TreeOf(c.tree));
    CurrentOwned(s, rid);
    assert n == Seal(c.(tree := n.tree));
    assert n.tree ==
      TreeID(MergeTrees(TreeOf(s.snaps[c.parents[0]].tree), TreeOf(c.tree), TreeOf(s.snaps[c.parents[0]].tree)).tree);
  }

  // ---- Resolve and its descendants ------------------------------------------------------------------

  /** Revisions outside the list keep their rows. */
  lemma {:induction false} PropagateFrame(s: State, ds: seq<string>, p: Path, conflict: ID, chosen: ID, x: string)
    requires Inv(s) && p != [] && x in s.revs && x !in ds
    ensures var t := Propagate(s, ds, p, conflict, chosen); x in t.revs && t.revs[x] == s.revs[x]
    decreases |ds|
  {
    if ds != [] {
      PropagateOneKeeps(s, ds[0], p, conflict, chosen);
      PropagateOneFrame(s, ds[0], p, conflict, chosen, x);
      PropagateFrame(PropagateOne(s, ds[0], p, conflict, chosen), ds[1..], p, conflict, chosen, x);
    }
  }

  lemma PropagateOneFrame(s: State, d: string, p: Path, conflict: ID, chosen: ID, x: string)
    requires Inv(s) && p != [] && x in s.revs && x != d
    ensures var t := PropagateOne(s, d, p, conflict, chosen); x in t.revs && t.revs[x] == s.revs[x]
  {
  }

  /** The tree a listed revision ends with: its conflict resolved the same way, or its tree untouched. */
  function Settled(t: Tree, p: Path, conflict: ID, chosen: ID): Tree
    requires p != []
  {
    if Find(t, p) == Some(Entry(KindConflict, conflict)) then Rewrite(t, p, chosen, chosen == Zero) else t
  }

  lemma PropagateOneTree(s: State, d: string, p: Path, conflict: ID, chosen: ID)
    requires Inv(s) && p != [] && d in s.revs
    ensures RevTree(PropagateOne(s, d, p, conflict, chosen), d) == Settled(RevTree(s, d), p, conflict, chosen)
  {
  }

  /** Each listed descendant that carries the very same conflict object is resolved identically, and
      every other listed descendant keeps its tree. */
  lemma {:induction false} PropagateTrees(s: State, ds: seq<string>, p: Path, conflict: ID, chosen: ID, d: string)
    requires Inv(s) && p != [] && NoRepeats(ds) && d in ds && forall x :: x in ds ==> x in s.revs
    ensures RevTree(Propagate(s, ds, p, conflict, chosen), d) == Settled(RevTree(s, d), p, conflict, chosen)
    decreases |ds|
  {
    hide Inv, Settled, PropagateOne, RevTree;
    var s1 := PropagateOne(s, ds[0], p, conflict, chosen);
    PropagateOneKeeps(s, ds[0], p, conflict, chosen);
    assert ds == [ds[0]] + ds[1..];
    assert ds[0] !in ds[1..];
    if d == ds[0] {
      PropagateOneTree(s, d, p, conflict, chosen);
      PropagateFrame(s1, ds[1..], p, conflict, chosen, d);
      PropagateKeeps(s1, ds[1..], p, conflict, chosen);
      SameRow(s1, Propagate(s1, ds[1..], p, conflict, chosen), d);
    } else {
      PropagateTrees(s1, ds[1..], p, conflict, chosen, d);
      PropagateOneFrame(s, ds[0], p, conflict, chosen, d);
      SameRow(s, s1, d);
    }
  }

  /** Resolve unfolded: the snapshot it writes and the state it propagates from. */
  lemma ResolveOutcome(s: State, rid: string, path: string, side: int, ds: seq<string>)
    requires Resolve(s, rid, path, side, ds).result.Ok?
    ensures Current(s, rid).Ok? && rid in s.revs
    ensures var p, t := Split(path), RevTree(s, rid);
      var out := Resolve(s, rid, path, side, ds);
      var term := PickTerm(t, p, side);
      Find(t, p).Some? && term.Ok? &&
      Ok(TreeOf(out.result.value.tree)) == ResolveTree(t, p, side) &&
      out.result.value.tree == RewriteTree(Current(s, rid).value.tree, p, term.value.id) &&
      out.state == Propagate(Retree(s, rid, Current(s, rid).value, out.result.value.tree), ds, p,
        Find(t, p).value.id, term.value.id)
  {
    hide Propagate, Rewrite, Find;
  }

  lemma RetreeRow(s: State, rid: string, tree: ID)
    requires Inv(s) && Current(s, rid).Ok?
    ensures var t := Retree(s, rid, Current(s, rid).value, tree);
      RevTree(t, rid) == TreeOf(tree) && t.revs.Keys == s.revs.Keys && forall x ::
        x in s.revs && x != rid ==> t.revs[x] == s.revs[x]
  {
  }

  /** A successful Resolve: the revision's tree is rewritten and loses exactly the conflict at the path. */
  lemma ResolveSettles(s: State, rid: string, path: string, side: int, ds: seq<string>)
    requires Inv(s) && Resolve(s, rid, path, side, ds).result.Ok?
    requires IsForwardClosure(s, s.revs[rid].hash, ds)
    ensures var out := Resolve(s, rid, path, side, ds);
      var t := RevTree(out.state, rid);
      Ok(t) == ResolveTree(RevTree(s, rid), Split(path), side) && t == TreeOf(out.result.value.tree) &&
      |Conflicts(t)| == |Conflicts(RevTree(s, rid))| - 1
  {
    hide Settled, Propagate, Conflicts, Inv, Resolve, Retree, RevTree, RewriteTree, ResolveTree, PickTerm, Find;
    var p := Split(path);
    ResolveOutcome(s, rid, path, side, ds);
    var conflict := Find(RevTree(s, rid), p).value.id;
    var term := PickTerm(RevTree(s, rid), p, side).value;
    var tree := Resolve(s, rid, path, side, ds).result.value.tree;
    var s1 := Retree(s, rid, Current(s, rid).value, tree);
    RetreeKeeps(s, rid, tree);
    RetreeRow(s, rid, tree);
    ResolveRemovesOne(RevTree(s, rid), p, side);
    ForwardKnown(s, s.revs[rid].hash, ds);
    if rid in ds { SeedNotFound(s, s.revs[rid].hash, ds, rid); }
    PropagateFrame(s1, ds, p, conflict, term.id, rid);
    PropagateKeeps(s1, ds, p, conflict, term.id);
    SameRow(s1, Propagate(s1, ds, p, conflict, term.id), rid);
  }

  /** Every revision reachable forward from it that holds the same conflict object there is settled the
      same way; the others keep their trees. */
  lemma ResolvePropagates(s: State, rid: string, path: string, side: int, ds: seq<string>, d: string)
    requires Inv(s) && Resolve(s, rid, path, side, ds).result.Ok?
    requires IsForwardClosure(s, s.revs[rid].hash, ds) && d in s.revs && d != rid
    ensures var p, after := Split(path), Resolve(s, rid, path, side, ds).state;
      var conflict := Find(RevTree(s, rid), p).value.id;
      var term := PickTerm(RevTree(s, rid), p, side).value;
      RevTree(after, d) == if d in ds then Settled(RevTree(s, d), p, conflict, term.id) else RevTree(s, d)
  {
    hide Settled, Propagate, Conflicts, Inv, Resolve, Retree, RevTree, RewriteTree, ResolveTree, PickTerm, Find;
    var p := Split(path);
    ResolveOutcome(s, rid, path, side, ds);
    var conflict := Find(RevTree(s, rid), p).value.id;
    var term := PickTerm(RevTree(s, rid), p, side).value;
    var tree := Resolve(s, rid, path, side, ds).result.value.tree;
    var s1 := Retree(s, rid, Current(s, rid).value, tree);
    RetreeKeeps(s, rid, tree);
    RetreeRow(s, rid, tree);
    ForwardKnown(s, s.revs[rid].hash, ds);
    SameRow(s, s1, d);
    if d in ds {
      PropagateTrees(s1, ds, p, conflict, term.id, d);
    } else {
      PropagateFrame(s1, ds, p, conflict, term.id, d);
      PropagateKeeps(s1, ds, p, conflict, term.id);
      SameRow(s1, Propagate(s1, ds, p, conflict, term.id), d);
    }
  }

  lemma ForwardKnown(s: State, seed: ID, ds: seq<string>)
    requires IsForwardClosure(s, seed, ds)
    ensures forall x :: x in ds ==> x in s.revs
  {
    forall i | 0 <= i < |ds| ensures ds[i] in s.revs { assert FoundAt(s, seed, ds, i); }
  }
}
