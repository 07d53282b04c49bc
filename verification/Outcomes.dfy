/**
 * What each operation on revisions leaves behind, row by row: the snapshot it writes, the row it
 * writes, and the rows it leaves alone.
 */
module Outcomes {
  import opened Prelude
  import opened Paths
  import opened Objects
  import opened Merge
  import opened TreeEdit
  import opened TreeDiff
  import opened Resolution
  import opened History
  import opened Evolution
  import opened DropHistory
  import opened Descendants
  import opened HistoryLaws

  // ---- Rows ----------------------------------------------------------------------------------------

  /** One snapshot was stored under its own hash, and one revision row written; all else is as before. */
  ghost predicate Wrote(s: State, t: State, n: Snapshot, rid: string) {
    n.revision == rid && rid in t.revs && t.revs[rid].id == rid && t.revs[rid].hash == n.hash &&
    n.hash in t.snaps && t.snaps[n.hash] == n &&
    t.snaps.Keys == s.snaps.Keys + {n.hash} && (forall h :: h in s.snaps && h != n.hash ==> t.snaps[h] == s.snaps[h]) &&
    t.revs.Keys == s.revs.Keys + {rid} && forall x :: x in s.revs && x != rid ==> t.revs[x] == s.revs[x]
  }

  /** The first parent's tree; empty for a root, or when the parent is not stored. */
  ghost function ParentTree(s: State, parents: seq<ID>): Tree {
    if parents != [] && parents[0] in s.snaps then TreeOf(s.snaps[parents[0]].tree) else EMPTY_TREE
  }

  /** The first parent's tree: none for a root, or when the parent is not stored. */
  ghost function FirstParent(s: State, parents: seq<ID>): Option<Tree> {
    if parents != [] && parents[0] in s.snaps && s.snaps[parents[0]].tree != Zero
    then Some(TreeOf(s.snaps[parents[0]].tree)) else None
  }

  /** The path is listed as changed: the two trees show different leaves there, or, without a first tree,
      there is a leaf. */
  ghost predicate Changed(prev: Option<Tree>, t: Tree, p: Path) {
    match prev
    case None => LeafAt(t, p).Some?
    case Some(a) => Seen(a, t, p) != Seen(t, a, p)
  }

  ghost predicate Listable(prev: Option<Tree>, t: Tree) {
    WellTyped(t) && ValidNames(t) && (prev.Some? ==> WellTyped(prev.value) && ValidNames(prev.value))
  }

  /** The texts list exactly the changed paths, each once. */
  ghost predicate ListsChanges(paths: seq<string>, prev: Option<Tree>, t: Tree) {
    (forall p :: p != [] && ValidPath(p) ==> (Render(p) in paths <==> Changed(prev, t, p))) && PathTexts(paths)
  }

  /** In conflict-free trees without clashes the changed paths are those whose leaves differ. */
  lemma ChangedMeansDifferent(a: Tree, b: Tree, p: Path)
    requires ConflictFree(a) && ConflictFree(b) && NoClash(a, b) && NoClash(b, a)
    ensures Changed(Some(a), b, p) <==> LeafAt(a, p) != LeafAt(b, p)
  {
    hide LeafAt, DirAt, ConflictFree;
    FreeMeansShown(a, b);
    FreeMeansShown(b, a);
    NothingHidden(a, b, p);
  }

  /** Texts of valid paths, no two the same. */
  ghost predicate PathTexts(paths: seq<string>) {
    Fresh(paths) && forall x :: x in paths ==> exists p :: p != [] && ValidPath(p) && x == Render(p)
  }

  lemma RenderedOnce(cs: seq<FileChange>)
    requires DistinctPaths(cs) && ValidChanges(cs)
    ensures PathTexts(RenderAll(cs))
  {
    hide ValidPath, Render;
    forall i, j | 0 <= i < j < |cs| ensures Render(cs[i].path) != Render(cs[j].path) {
      assert cs[i] in cs && cs[j] in cs;
      if Render(cs[i].path) == Render(cs[j].path) { RenderInjective(cs[i].path, cs[j].path); }
    }
  }

  lemma ChangedPathTexts(s: State, parents: seq<ID>, cur: ID)
    requires cur in s.snaps && Listable(FirstParent(s, parents), TreeOf(s.snaps[cur].tree))
    ensures PathTexts(ChangedPaths(s, parents, cur))
  {
    hide LeafAt, DirAt, ValidPath, Flatten, Diff, WellTyped, ValidNames, PathTexts;
    var prev, b := FirstParent(s, parents), TreeOf(s.snaps[cur].tree);
    if prev.Some? {
      DiffSorted(prev.value, b);
      DiffValid(prev.value, b);
      RenderedOnce(Diff(prev.value, b));
    } else {
      var cs := Flatten(b, Added);
      FlattenExact(b, Added);
      forall c | c in cs ensures c.path != [] && ValidPath(c.path) { LeafNamesValid(b, c.path); }
      RenderedOnce(cs);
    }
  }

  lemma EmptyLeaf(p: Path)
    ensures LeafAt(EMPTY_TREE, p) == None
  {
  }

  lemma PathsListChanges(s: State, parents: seq<ID>, cur: ID)
    requires cur in s.snaps && Listable(FirstParent(s, parents), TreeOf(s.snaps[cur].tree))
    ensures ListsChanges(ChangedPaths(s, parents, cur), FirstParent(s, parents), TreeOf(s.snaps[cur].tree))
  {
    hide Seen, LeafAt, Render, ValidPath, ChangedPaths, WellTyped, ValidNames, PathTexts;
    ChangedPathTexts(s, parents, cur);
    forall p | p != [] && ValidPath(p)
      ensures Render(p) in ChangedPaths(s, parents, cur) <==>
        Changed(FirstParent(s, parents), TreeOf(s.snaps[cur].tree), p)
    {
      if FirstParentTree(s, parents) == Zero {
        RootChangedPaths(s, parents, cur, p);
      } else {
        ChangedPathsAreVisible(s, parents, cur, p);
      }
    }
  }

  lemma InstallWrote(s: State, n: Snapshot, r: Revision)
    requires r.id == n.revision && r.hash == n.hash
    ensures Wrote(s, Install(s, n, r), n, r.id)
  {
  }

  /** Under the invariant a revision has a current snapshot exactly when it is known. */
  lemma InvCurrent(s: State, rid: string)
    requires Inv(s)
    ensures if rid in s.revs then s.revs[rid].id == rid && s.revs[rid].hash in s.snaps &&
        Current(s, rid) == Ok(s.snaps[s.revs[rid].hash]) else Current(s, rid).Err?
  {
  }

  // ---- Commit --------------------------------------------------------------------------------------

  /** Commit stores exactly what it is given. A known revision keeps its creation time and fork origin. */
  lemma CommitRecords(s: State, rid: string, parents: seq<ID>, tree: ID, description: string, author: Author, now: int)
    requires Inv(s)
    ensures var out := Commit(s, rid, parents, tree, description, author, now);
      out.result.Ok? && var n := out.result.value;
      Wrote(s, out.state, n, rid) && n.parents == parents && n.tree == tree && n.description == description &&
      n.author == author && n.time == now &&
      var r := out.state.revs[rid];
      if rid in s.revs then r.created == s.revs[rid].created && r.forkFrom == s.revs[rid].forkFrom
      else r.created == now && r.forkFrom == ""
  {
    hide ChangedPaths, Wrote, Inv, SnapshotID;
    var out := Commit(s, rid, parents, tree, description, author, now);
    InvCurrent(s, rid);
    InstallWrote(s, out.result.value, out.state.revs[rid]);
  }

  /** The row records the paths at which the committed tree differs from the first parent's. */
  lemma CommitPaths(s: State, rid: string, parents: seq<ID>, tree: ID, description: string, author: Author, now: int)
    requires Inv(s) && Listable(FirstParent(s, parents), TreeOf(tree))
    ensures var t := Commit(s, rid, parents, tree, description, author, now).state;
      rid in t.revs && ListsChanges(t.revs[rid].changedPaths, FirstParent(s, parents), TreeOf(tree))
  {
    hide ChangedPaths, ListsChanges, Listable;
    var n := Commit(s, rid, parents, tree, description, author, now).result.value;
    var u := PutSnapshot(s, n);
    SealedParent(s, n, parents);
    PathsListChanges(u, parents, n.hash);
  }

  /** Storing a snapshot does not change the tree of one that is stored, even under the same hash. */
  lemma SealedParent(s: State, n: Snapshot, parents: seq<ID>)
    requires Inv(s) && n.hash == SnapshotID(n) && (parents != [] ==> parents[0] != n.hash || n.hash in s.snaps)
    ensures FirstParent(PutSnapshot(s, n), parents) == FirstParent(s, parents)
  {
  }

  // ---- CommitFromChanges ---------------------------------------------------------------------------

  /** The last change of the list that writes, removes, or makes way at, above or below a path. */
  ghost predicate LastTouch(cs: seq<FileSpec>, q: Path, k: int) {
    0 <= k < |cs| && !Incomparable(Split(cs[k].path), q) &&
    forall j :: k < j < |cs| ==> Incomparable(Split(cs[j].path), q)
  }

  ghost predicate Untouched(cs: seq<FileSpec>, q: Path) {
    forall c :: c in cs ==> Incomparable(Split(c.path), q)
  }

  /** What a change leaves at its own path. */
  function SpecLeaf(c: FileSpec): Option<Entry> {
    if c.delete then None else Some(Entry(KindBlob, Digest(Blob(c.content))))
  }

  /** The effect of a list of changes on one path, overlapping changes included. */
  lemma {:induction false} EditsForLeaf(t: Tree, cs: seq<FileSpec>, q: Path)
    ensures var leaf := LeafAt(ApplyEdits(t, EditsFor(cs)), q);
      (forall k :: LastTouch(cs, q, k) ==> leaf == if Split(cs[k].path) == q then SpecLeaf(cs[k]) else None) &&
      (Untouched(cs, q) ==> leaf == LeafAt(t, q))
  {
    hide ApplyEdit, LeafAt, Split;
    if cs != [] {
      var init, c := cs[..|cs| - 1], cs[|cs| - 1];
      assert cs == init + [c];
      EditsForLeaf(t, init, q);
      assert EditsFor(cs) == EditsFor(init) + [EditFor(c)];
      assert EditsFor(cs)[..|cs| - 1] == EditsFor(init);
      ApplyEditLeaf(ApplyEdits(t, EditsFor(init)), EditFor(c), q);
      forall k | LastTouch(cs, q, k) && k < |init| ensures LastTouch(init, q, k) && cs[k] == init[k] {
        assert Incomparable(Split(cs[|cs| - 1].path), q);
        forall j | k < j < |init| ensures Incomparable(Split(init[j].path), q) { assert init[j] == cs[j]; }
      }
      assert Untouched(cs, q) ==> Untouched(init, q) && c in cs;
    }
  }

  /**
   * The tree a list of changes makes, path by path: the last change that touches a path decides it. The
   * path of that change holds the new content, or nothing after a deletion; a path above or below it
   * holds nothing. A path that no change touches keeps the parent's leaf.
   */
  lemma CommitFromChangesLeaf(s: State, parent: ID, cs: seq<FileSpec>, description: string, author: Author,
      amend: string, newID: string, now: int, q: Path)
    requires parent == Zero || parent in s.snaps
    ensures var out := CommitFromChanges(s, parent, cs, description, author, amend, newID, now);
      out.result.Ok? && var leaf := LeafAt(TreeOf(out.result.value.tree), q);
      (forall k :: LastTouch(cs, q, k) ==> leaf == if Split(cs[k].path) == q then SpecLeaf(cs[k]) else None) &&
      (Untouched(cs, q) ==> leaf == if parent == Zero then None else LeafAt(TreeOf(s.snaps[parent].tree), q))
  {
    hide ApplyEdits, EditsFor, LastTouch, Untouched, SpecLeaf;
    EditsForLeaf(if parent == Zero then EMPTY_TREE else TreeOf(s.snaps[parent].tree), cs, q);
    EmptyLeaf(q);
  }

  /** What is recorded beside the tree. An amended revision keeps the parents it has. */
  lemma CommitFromChangesRecords(s: State, parent: ID, cs: seq<FileSpec>, description: string, author: Author,
      amend: string, newID: string, now: int)
    requires Inv(s)
    ensures var out := CommitFromChanges(s, parent, cs, description, author, amend, newID, now);
      (out.result.Ok? <==> parent == Zero || parent in s.snaps) && (out.result.Err? ==> out.state == s) &&
      (out.result.Ok? ==>
        var n, rid := out.result.value, if amend == "" then newID else amend;
        Wrote(s, out.state, n, rid) && n.description == description && n.author == author && n.time == now &&
        n.parents == (
          if amend in s.revs && amend != "" then s.snaps[s.revs[amend].hash].parents
          else if parent == Zero then [] else [parent]) &&
        var r := out.state.revs[rid];
        r.created == now && r.forkFrom == "" && |r.changedPaths| == |cs| &&
        forall i :: 0 <= i < |cs| ==> r.changedPaths[i] == cs[i].path)
  {
    hide ApplyEdits, EditsFor, Wrote, Inv, SnapshotID;
    var out := CommitFromChanges(s, parent, cs, description, author, amend, newID, now);
    InvCurrent(s, amend);
    if out.result.Ok? {
      var n, paths := out.result.value, seq(|cs|, i requires 0 <= i < |cs| => cs[i].path);
      InstallWrote(s, n, Revision(n.revision, n.hash, now, "", paths));
    }
  }

  // ---- Derive and SetDescription -------------------------------------------------------------------

  /** A derived revision has the source's tree, parents, author and changed paths under a new id. An empty
      message falls back to the source's, which may be empty only with a message of one's own. */
  lemma DeriveRecords(s: State, source: string, description: string, autoCommit: bool, newID: string, now: int)
    requires Inv(s)
    ensures var out := Derive(s, source, description, autoCommit, newID, now);
      (out.result.Ok? <==>
        source in s.revs && var text := s.snaps[s.revs[source].hash].description;
        text != "" || (autoCommit && description != "")) &&
      (out.result.Err? ==> out.state == s) &&
      (out.result.Ok? ==>
        var c, n := s.snaps[s.revs[source].hash], out.result.value;
        Wrote(s, out.state, n, newID) && n.parents == c.parents && n.tree == c.tree && n.author == c.author &&
        n.time == now && n.description == (if description != "" then description else c.description) &&
        n.description != "" &&
        var r := out.state.revs[newID];
        r.created == now && r.forkFrom == source && r.changedPaths == s.revs[source].changedPaths)
  {
  }

  /** Only the text of the snapshot, and with it the hash, changes. */
  lemma SetDescriptionRecords(s: State, rid: string, description: string)
    requires Inv(s)
    ensures var out := SetDescription(s, rid, description);
      (out.result.Ok? <==> rid in s.revs) && (out.result.Err? ==> out.state == s) &&
      (out.result.Ok? ==>
        var c, n := s.snaps[s.revs[rid].hash], out.result.value;
        Wrote(s, out.state, n, rid) && n.parents == c.parents && n.tree == c.tree && n.author == c.author &&
        n.time == c.time && n.description == description &&
        var r, before := out.state.revs[rid], s.revs[rid];
        r.created == before.created && r.forkFrom == before.forkFrom && r.changedPaths == before.changedPaths)
  {
  }

  // ---- Rebase, squash, revert ----------------------------------------------------------------------

  /** A leaf of the three-way merge of a base, ours and theirs. */
  ghost predicate MergedAt(m: Tree, b: Tree, o: Tree, t: Tree, q: Path) {
    LeafAt(m, q) == if DirInAny(b, o, t, q) then None else Merge3(LeafAt(b, q), LeafAt(o, q), LeafAt(t, q))
  }

  /** A rebase moves the revision onto the new parent and keeps everything but parents, tree, hash and
      changed paths. */
  lemma RebaseRecords(s: State, rid: string, newParents: seq<ID>)
    requires Inv(s)
    ensures var out := Rebase(s, rid, newParents);
      (out.result.Ok? <==> |newParents| == 1 && rid in s.revs && newParents[0] in s.snaps) &&
      (out.result.Err? ==> out.state == s) &&
      (out.result.Ok? ==>
        var c, n := s.snaps[s.revs[rid].hash], out.result.value;
        Wrote(s, out.state, n, rid) && n.parents == newParents && n.description == c.description &&
        n.author == c.author && n.time == c.time && IsTreeID(n.tree) &&
        var r, before := out.state.revs[rid], s.revs[rid];
        r.created == before.created && r.forkFrom == before.forkFrom)
  {
    hide MergeTrees, ChangedPaths, Wrote, Inv;
    var out := Rebase(s, rid, newParents);
    InvCurrent(s, rid);
    if out.result.Ok? {
      var n := out.result.value;
      InstallWrote(s, n,
        s.revs[rid].(hash := n.hash, changedPaths := ChangedPaths(PutSnapshot(s, n), n.parents, n.hash)));
    }
  }

  /** The rebased tree merges the revision, as ours, with the new parent, as theirs, over the old parent. */
  lemma RebaseLeaf(s: State, rid: string, onto: ID, q: Path)
    requires Inv(s) && rid in s.revs && onto in s.snaps
    requires var c := s.snaps[s.revs[rid].hash];
      WellTyped(ParentTree(s, c.parents)) && WellTyped(TreeOf(c.tree)) && WellTyped(TreeOf(s.snaps[onto].tree))
    ensures var c, out := s.snaps[s.revs[rid].hash], Rebase(s, rid, [onto]);
      out.result.Ok? &&
      MergedAt(TreeOf(out.result.value.tree), ParentTree(s, c.parents), TreeOf(c.tree), TreeOf(s.snaps[onto].tree), q)
  {
    hide MergeTrees, ChangedPaths, LeafAt, WellTyped;
    var c := s.snaps[s.revs[rid].hash];
    MergePointwise(ParentTree(s, c.parents), TreeOf(c.tree), TreeOf(s.snaps[onto].tree), q);
  }

  /** The rebased row lists the paths at which the new tree differs from the new parent's. */
  lemma RebasePaths(s: State, rid: string, onto: ID)
    requires Inv(s) && Rebase(s, rid, [onto]).result.Ok?
    requires Listable(FirstParent(s, [onto]), TreeOf(Rebase(s, rid, [onto]).result.value.tree))
    ensures var out := Rebase(s, rid, [onto]);
      rid in out.state.revs &&
      ListsChanges(out.state.revs[rid].changedPaths, FirstParent(s, [onto]), TreeOf(out.result.value.tree))
  {
    hide ChangedPaths, ListsChanges, Listable, MergeTrees;
    RebaseRecords(s, rid, [onto]);
    var n := Rebase(s, rid, [onto]).result.value;
    SealedParent(s, n, [onto]);
    PathsListChanges(PutSnapshot(s, n), [onto], n.hash);
  }

  /** A drop rebases onto the first parent, and fails without one. */
  lemma DropRecords(s: State, rid: string, descendants: seq<string>)
    requires Inv(s)
    ensures var out, ps := Drop(s, rid, descendants), if rid in s.revs then s.snaps[s.revs[rid].hash].parents else [];
      if ps != [] && ps[0] in s.snaps then out == RebaseMany(s, descendants, ps[0])
      else out.result.Err? && out.state == s
  {
    hide RebaseMany, SnapshotID;
  }

  /** The parent revision gets a tree merged with the child's, and keeps its parents, text and author. */
  lemma SquashRecords(s: State, child: string)
    requires Inv(s)
    ensures var out := Squash(s, child);
      (out.result.Ok? <==>
        child in s.revs && var ps := s.snaps[s.revs[child].hash].parents;
        ps != [] && ps[0] in s.snaps && s.snaps[ps[0]].revision in s.revs) &&
      (out.result.Err? ==> out.state == s) &&
      (out.result.Ok? ==>
        var p, n := s.snaps[s.snaps[s.revs[child].hash].parents[0]], out.result.value;
        Wrote(s, out.state, n, p.revision) && n.parents == p.parents && n.description == p.description &&
        n.author == p.author && n.time == NO_TIME &&
        var r, before := out.state.revs[p.revision], s.revs[p.revision];
        r.created == before.created && r.forkFrom == before.forkFrom && r.changedPaths == before.changedPaths)
  {
    hide MergeTrees, Wrote, Inv, SnapshotID;
    var out := Squash(s, child);
    InvCurrent(s, child);
    if out.result.Ok? {
      var n := out.result.value;
      InvCurrent(s, n.revision);
      InstallWrote(s, n, s.revs[n.revision].(hash := n.hash));
    }
  }

  lemma SquashLeaf(s: State, child: string, q: Path)
    requires Inv(s) && Squash(s, child).result.Ok?
    requires var c := s.snaps[s.revs[child].hash];
      WellTyped(TreeOf(c.tree)) && WellTyped(TreeOf(s.snaps[c.parents[0]].tree))
    ensures var c, n := s.snaps[s.revs[child].hash], Squash(s, child).result.value;
      var p := TreeOf(s.snaps[c.parents[0]].tree);
      MergedAt(TreeOf(n.tree), p, p, TreeOf(c.tree), q)
  {
    hide MergeTrees, LeafAt, WellTyped;
    var c := s.snaps[s.revs[child].hash];
    MergePointwise(TreeOf(s.snaps[c.parents[0]].tree), TreeOf(s.snaps[c.parents[0]].tree), TreeOf(c.tree), q);
  }

  /** The default target of a revert: no revision was created later, and of those created at the same time
      it has the smallest id. */
  lemma NewestIsNewest(s: State, x: string)
    requires s.revs != map[] && x in s.revs
    ensures var best := Newest(s);
      s.revs[best].created >= s.revs[x].created &&
      (s.revs[best].created == s.revs[x].created ==> Leq(best, x))
  {
    var ids := Sorted(s.revs.Keys);
    assert forall i :: 0 <= i < |ids| ==> ids[i] in ids;
    SortedAscends(s.revs.Keys);
    hide Leq;
    NewestIsFirst(s, ids);
    var i :| 0 <= i < |ids| && ids[i] == x;
    var k :| 0 <= k < |ids| && ids[k] == Newest(s) && NewestAt(s, ids, k);
    LeqTotal(x, x);
  }

  /** Nothing in the list was created later than the one at `k`, and nothing before it at the same time. */
  ghost predicate NewestAt(s: State, ids: seq<string>, k: nat)
    requires forall i :: 0 <= i < |ids| ==> ids[i] in s.revs
  {
    k < |ids| && forall i :: 0 <= i < |ids| ==>
      s.revs[ids[i]].created <= s.revs[ids[k]].created && (i < k ==> s.revs[ids[i]].created < s.revs[ids[k]].created)
  }

  lemma {:induction false} NewestIsFirst(s: State, ids: seq<string>)
    requires ids != [] && forall i :: 0 <= i < |ids| ==> ids[i] in s.revs
    ensures exists k :: 0 <= k < |ids| && ids[k] == NewestOver(s, ids) && NewestAt(s, ids, k)
  {
    if |ids| == 1 {
      assert ids[0] == NewestOver(s, ids) && NewestAt(s, ids, 0);
    } else {
      var init, last := ids[..|ids| - 1], |ids| - 1;
      NewestIsFirst(s, init);
      var k :| 0 <= k < |init| && init[k] == NewestOver(s, init) && NewestAt(s, init, k);
      NewestStep(s, ids, k);
      var best := if s.revs[ids[last]].created > s.revs[ids[k]].created then last else k;
      assert ids[best] == NewestOver(s, ids) && NewestAt(s, ids, best);
    }
  }

  lemma NewestStep(s: State, ids: seq<string>, k: nat)
    requires |ids| > 1 && forall i :: 0 <= i < |ids| ==> ids[i] in s.revs
    requires NewestAt(s, ids[..|ids| - 1], k)
    ensures var last := |ids| - 1;
      k < last && NewestAt(s, ids, if s.revs[ids[last]].created > s.revs[ids[k]].created then last else k)
  {
    var init := ids[..|ids| - 1];
    assert forall i :: 0 <= i < |init| ==> init[i] == ids[i];
  }

  /** The id of the tree a revert commits. */
  ghost function RevertedTree(s: State, rid: string, onto: ID): ID
    requires rid in s.revs && s.revs[rid].hash in s.snaps && s.revs != map[]
  {
    var c, target := s.snaps[s.revs[rid].hash], if onto != Zero then onto else s.revs[Newest(s)].hash;
    MergeIDs(c.tree, FirstParentTree(s, c.parents), SnapTree(s, target))
  }

  lemma HashIsKey(s: State, h: ID)
    requires Inv(s)
    ensures h in s.snaps ==> s.snaps[h].hash == h
  {
  }

  /** A revert is a new revision on the target, signed by the engine. */
  lemma RevertRecords(s: State, rid: string, onto: ID, newID: string, now: int)
    requires Inv(s)
    ensures var out := Revert(s, rid, onto, newID, now);
      (out.result.Ok? <==>
        rid in s.revs && var ps := s.snaps[s.revs[rid].hash].parents;
        (ps == [] || ps[0] in s.snaps) && (onto == Zero || onto in s.snaps)) &&
      (out.result.Err? ==> out.state == s) &&
      (out.result.Ok? ==>
        var n := out.result.value;
        Wrote(s, out.state, n, newID) && n.description == "Revert " + rid &&
        n.author == Author("easyvcs", "easyvcs@example.com") && n.time == now &&
        n.parents == [if onto == Zero then s.revs[Newest(s)].hash else onto])
  {
    hide MergeTrees, ChangedPaths, Newest, Wrote, Inv, Commit;
    InvCurrent(s, rid);
    if rid in s.revs {
      InvCurrent(s, Newest(s));
      var tree, target := RevertedTree(s, rid, onto), if onto == Zero then s.revs[Newest(s)].hash else onto;
      HashIsKey(s, target);
      CommitRecords(s, newID, [target], tree, "Revert " + rid, Author("easyvcs", "easyvcs@example.com"), now);
    }
  }

  /** The reverted tree merges the parent's tree, as ours, with the target, as theirs, over the revision. */
  lemma RevertLeaf(s: State, rid: string, onto: ID, newID: string, now: int, q: Path)
    requires Inv(s) && Revert(s, rid, onto, newID, now).result.Ok?
    requires var c, target := s.snaps[s.revs[rid].hash], if onto == Zero then s.revs[Newest(s)].hash else onto;
      WellTyped(TreeOf(c.tree)) && WellTyped(ParentTree(s, c.parents)) && WellTyped(TreeOf(s.snaps[target].tree))
    ensures var c, target := s.snaps[s.revs[rid].hash], if onto == Zero then s.revs[Newest(s)].hash else onto;
      MergedAt(TreeOf(Revert(s, rid, onto, newID, now).result.value.tree), TreeOf(c.tree), ParentTree(s, c.parents),
        TreeOf(s.snaps[target].tree), q)
  {
    hide MergeTrees, ChangedPaths, Newest, LeafAt, WellTyped;
    var c, target := s.snaps[s.revs[rid].hash], if onto == Zero then s.revs[Newest(s)].hash else onto;
    MergePointwise(TreeOf(c.tree), ParentTree(s, c.parents), TreeOf(s.snaps[target].tree), q);
  }

  // ---- Resolve -------------------------------------------------------------------------------------

  /** The sides of the conflict at a path, in order; none when there is no conflict. */
  function Sides(t: Tree, p: Path): seq<Term> {
    var e := LeafAt(t, p);
    if e.Some? && e.value.kind == KindConflict && e.value.id.Digest? && e.value.id.obj.ConflictObject?
    then e.value.id.obj.conflict.adds else []
  }

  /** The leaf of a tree after the conflict at `p` was resolved to a side: the side's blob, or nothing when
      that side is absent. */
  function LeafWith(t: Tree, p: Path, side: Term, q: Path): Option<Entry> {
    if q != p then LeafAt(t, q) else if side.id == Zero then None else Some(Entry(KindBlob, side.id))
  }

  /** A resolve succeeds exactly for the number of a side, and then takes the side of that number. */
  lemma ResolveChooses(s: State, rid: string, path: string, side: int, ds: seq<string>, q: Path)
    requires Inv(s) && rid in s.revs && IsForwardClosure(s, s.revs[rid].hash, ds)
    ensures var out, p, t := Resolve(s, rid, path, side, ds), Split(path), RevTree(s, rid);
      (out.result.Ok? <==> 0 <= side < |Sides(t, p)|) && (out.result.Err? ==> out.state == s) &&
      (out.result.Ok? ==> LeafAt(RevTree(out.state, rid), q) == LeafWith(t, p, Sides(t, p)[side], q))
  {
    hide ResolveTree, LeafAt, Propagate, Split, Retree, RewriteTree;
    var p, t := Split(path), RevTree(s, rid);
    ResolveByNumber(t, p, side, q);
    ResolveOkIff(s, rid, path, side, ds);
    if Resolve(s, rid, path, side, ds).result.Ok? { ResolveSettles(s, rid, path, side, ds); }
  }

  lemma ResolveOkIff(s: State, rid: string, path: string, side: int, ds: seq<string>)
    requires Inv(s) && rid in s.revs
    ensures var out := Resolve(s, rid, path, side, ds);
      (out.result.Ok? <==> ResolveTree(RevTree(s, rid), Split(path), side).Ok?) && (out.result.Err? ==> out.state == s)
  {
    hide Find, Propagate, Split, Retree, RewriteTree, Rewrite;
  }

  /** Each revision reached forward that holds the very same conflict takes the same side; every other
      revision keeps its tree. */
  lemma ResolveFollows(s: State, rid: string, path: string, side: int, ds: seq<string>, d: string, q: Path)
    requires Inv(s) && rid in s.revs && IsForwardClosure(s, s.revs[rid].hash, ds) && d in s.revs && d != rid
    requires Resolve(s, rid, path, side, ds).result.Ok?
    ensures var out, p, t, u := Resolve(s, rid, path, side, ds), Split(path), RevTree(s, rid), RevTree(s, d);
      0 <= side < |Sides(t, p)| &&
      LeafAt(RevTree(out.state, d), q) ==
        if d in ds && LeafAt(u, p) == LeafAt(t, p) then LeafWith(u, p, Sides(t, p)[side], q) else LeafAt(u, q)
  {
    hide ResolveTree, Propagate, Split, Retree, RewriteTree, Resolve, Rewrite, LeafAt, Find;
    var p, t, u := Split(path), RevTree(s, rid), RevTree(s, d);
    ResolveChooses(s, rid, path, side, ds, q);
    ResolvePropagates(s, rid, path, side, ds, d);
    ResolveOutcome(s, rid, path, side, ds);
    SameConflict(t, u, p, side);
    var term := PickTerm(t, p, side).value;
    if LeafAt(u, p) == LeafAt(t, p) { RewriteAtConflict(u, p, term, q); }
  }

  /** Two trees hold the same conflict at a path exactly when they have the same leaf there. */
  lemma SameConflict(t: Tree, u: Tree, p: Path, side: int)
    requires p != [] && PickTerm(t, p, side).Ok?
    ensures Find(t, p).Some? && 0 <= side < |Sides(t, p)| && PickTerm(t, p, side) == Ok(Sides(t, p)[side])
    ensures Find(u, p) == Some(Entry(KindConflict, Find(t, p).value.id)) <==> LeafAt(u, p) == LeafAt(t, p)
    ensures LeafAt(t, p).Some?
  {
    hide LeafAt, Find;
    FindLeaf(t, p);
    FindLeaf(u, p);
  }

  lemma RewriteAtConflict(u: Tree, p: Path, term: Term, q: Path)
    requires p != [] && LeafAt(u, p).Some?
    ensures LeafAt(Rewrite(u, p, term.id, term.id == Zero), q) == LeafWith(u, p, term, q)
  {
    hide LeafAt, Rewrite;
    RewriteLeaf(u, p, term.id, term.id == Zero, p);
    if q != p { RewriteAtLeaf(u, p, term.id, term.id == Zero, q); }
  }

  /** A rebased revision resolved by number: 0 is the revision's own leaf and 1 the new parent's; where the
      revision has none, 0 is the new parent's and 1 leaves nothing. */
  lemma RebasedConflict(s: State, rid: string, onto: ID, path: string, side: int, ds: seq<string>)
    requires Inv(s) && rid in s.revs && onto in s.snaps && Rebase(s, rid, [onto]).result.Ok?
    requires var c := s.snaps[s.revs[rid].hash];
      Mergeable(ParentTree(s, c.parents), TreeOf(c.tree), TreeOf(s.snaps[onto].tree))
    requires var u := Rebase(s, rid, [onto]).state;
      rid in u.revs && IsForwardClosure(u, u.revs[rid].hash, ds) && HoldsConflict(RevTree(u, rid), Split(path))
    ensures var own, theirs, p := RevTree(s, rid), TreeOf(s.snaps[onto].tree), Split(path);
      var out := Resolve(Rebase(s, rid, [onto]).state, rid, path, side, ds);
      (out.result.Ok? <==> 0 <= side < 2) &&
      (out.result.Ok? ==>
        LeafAt(RevTree(out.state, rid), p) ==
          if (side == 0) == LeafAt(own, p).Some? then LeafAt(own, p) else LeafAt(theirs, p))
  {
    hide ResolveTree, LeafAt, Propagate, Split, Retree, RewriteTree, Resolve, Rewrite, Mergeable, MergeTrees,
      ChangedPaths, HoldsConflict;
    var c, u := s.snaps[s.revs[rid].hash], Rebase(s, rid, [onto]).state;
    RebaseKeeps(s, rid, [onto]);
    assert RevTree(u, rid) == MergeTrees(ParentTree(s, c.parents), TreeOf(c.tree), TreeOf(s.snaps[onto].tree)).tree;
    ResolveOkIff(u, rid, path, side, ds);
    ResolveSide(ParentTree(s, c.parents), TreeOf(c.tree), TreeOf(s.snaps[onto].tree), Split(path), side);
    if Resolve(u, rid, path, side, ds).result.Ok? { ResolveSettles(u, rid, path, side, ds); }
  }
}
