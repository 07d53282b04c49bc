/**
 * Revisions and snapshots, and the operations that rewrite them, as functions on the two tables of
 * a repository. The Workspace class carries out the same operations on stored rows.
 */
module History {
  import opened Prelude
  import opened Paths
  import opened Objects
  import opened Merge
  import opened TreeEdit
  import opened TreeDiff
  import opened Resolution

  datatype Author = Author(name: string, email: string)

  /** The commit time of a snapshot written without one. */
  const NO_TIME := 0

  function AuthorText(a: Author): string {
    if a.email == "" then a.name else a.name + " <" + a.email + ">"
  }

  datatype Snapshot = Snapshot(
    hash: ID, revision: string, parents: seq<ID>, tree: ID, description: string, author: Author, time: int)

  datatype Revision = Revision(id: string, hash: ID, created: int, forkFrom: string, changedPaths: seq<string>)

  datatype State = State(snaps: map<ID, Snapshot>, revs: map<string, Revision>)

  /** What an operation leaves behind and what it returns. */
  datatype Outcome<T> = Outcome(state: State, result: Result<T>)

  /** snapshotID: the digest of the canonical text of every field but the time. */
  function SnapshotID(s: Snapshot): ID {
    SnapshotDigest(s.revision, s.tree, s.description, AuthorText(s.author), s.parents)
  }

  function Seal(s: Snapshot): Snapshot { s.(hash := SnapshotID(s)) }

  function PutSnapshot(s: State, n: Snapshot): State { s.(snaps := s.snaps[n.hash := n]) }

  function PutRevision(s: State, r: Revision): State { s.(revs := s.revs[r.id := r]) }

  /** Store a snapshot, then point its revision at it. */
  function Install(s: State, n: Snapshot, r: Revision): State { PutRevision(PutSnapshot(s, n), r) }

  function SnapTree(s: State, h: ID): ID { if h in s.snaps then s.snaps[h].tree else Zero }

  /** The tree of the first parent: the zero id for a root, or when the parent is not stored. */
  function FirstParentTree(s: State, parents: seq<ID>): ID {
    if parents == [] then Zero else SnapTree(s, parents[0])
  }

  function MergeIDs(b: ID, o: ID, t: ID): ID { TreeID(MergeTrees(TreeOf(b), TreeOf(o), TreeOf(t)).tree) }

  function RenderAll(cs: seq<FileChange>): seq<string> {
    seq(|cs|, i requires 0 <= i < |cs| => Render(cs[i].path))
  }

  /** changedPathsBetween. */
  function ChangedPaths(s: State, parents: seq<ID>, cur: ID): seq<string> {
    if cur !in s.snaps then []
    else
      var prev := FirstParentTree(s, parents);
      var tree := TreeOf(s.snaps[cur].tree);
      RenderAll(if prev == Zero then Flatten(tree, Added) else Diff(TreeOf(prev), tree))
  }

  // ---- Commit, derive, describe ---------------------------------------------------------------

  function Commit(s: State, rid: string, parents: seq<ID>, tree: ID, description: string, author: Author, now: int)
    : Outcome<Snapshot>
  {
    var n := Seal(Snapshot(Zero, rid, parents, tree, description, author, now));
    var paths := ChangedPaths(PutSnapshot(s, n), parents, n.hash);
    var r :=
      if rid in s.revs then s.revs[rid].(hash := n.hash, changedPaths := paths)
      else Revision(rid, n.hash, now, "", paths);
    Outcome(Install(s, n, r), Ok(n))
  }

  /** One entry of a commit's change list. */
  datatype FileSpec = FileSpec(path: string, content: seq<int>, delete: bool)

  function EditFor(c: FileSpec): Edit {
    Edit(Split(c.path), if c.delete then None else Some(Digest(Blob(c.content))))
  }

  function EditsFor(cs: seq<FileSpec>): (es: seq<Edit>)
    ensures |es| == |cs|
  {
    if cs == [] then [] else EditsFor(cs[..|cs| - 1]) + [EditFor(cs[|cs| - 1])]
  }

  function AmendParents(s: State, rid: string, parents: seq<ID>): seq<ID> {
    if rid in s.revs && s.revs[rid].hash in s.snaps then s.snaps[s.revs[rid].hash].parents else parents
  }

  function CommitFromChanges(
    s: State, parent: ID, cs: seq<FileSpec>, description: string, author: Author,
    amend: string, newID: string, now: int): Outcome<Snapshot>
  {
    var rid := if amend == "" then newID else amend;
    if parent != Zero && parent !in s.snaps then Outcome(s, Err("parent snapshot not found"))
    else
      var base := if parent == Zero then EMPTY_TREE else TreeOf(s.snaps[parent].tree);
      var onto := if parent == Zero then [] else [parent];
      var parents := if amend == "" then onto else AmendParents(s, amend, onto);
      var tree := TreeID(ApplyEdits(base, EditsFor(cs)));
      var n := Seal(Snapshot(Zero, rid, parents, tree, description, author, now));
      var paths := seq(|cs|, i requires 0 <= i < |cs| => cs[i].path);
      Outcome(Install(s, n, Revision(rid, n.hash, now, "", paths)), Ok(n))
  }

  /** The current snapshot of a revision, or the error the operations report. */
  function Current(s: State, rid: string): Result<Snapshot> {
    if rid !in s.revs then Err("revision: not found")
    else if s.revs[rid].hash !in s.snaps then Err("store: not found")
    else Ok(s.snaps[s.revs[rid].hash])
  }

  function Derive(s: State, source: string, description: string, autoCommit: bool, newID: string,
      now: int): Outcome<Snapshot> {
    match Current(s, source)
    case Err(e) => Outcome(s, Err(e))
    case Ok(cur) =>
      var msg := if description == "" then cur.description else description;
      if cur.description == "" && !autoCommit then Outcome(s, Err("derive: source revision is not committed"))
      else if msg == "" then Outcome(s, Err("derive: a commit message is required"))
      else
        var n := Seal(Snapshot(Zero, newID, cur.parents, cur.tree, msg, cur.author, now));
        Outcome(Install(s, n, Revision(newID, n.hash, now, source, s.revs[source].changedPaths)), Ok(n))
  }

  function SetDescription(s: State, rid: string, description: string): Outcome<Snapshot> {
    match Current(s, rid)
    case Err(e) => Outcome(s, Err(e))
    case Ok(cur) =>
      var n := Seal(cur.(description := description));
      Outcome(Install(s, n, s.revs[rid].(hash := n.hash)), Ok(n))
  }

  // ---- Rebase, squash, revert -----------------------------------------------------------------

  function Rebase(s: State, rid: string, newParents: seq<ID>): Outcome<Snapshot> {
    if |newParents| != 1 then Outcome(s, Err("rebase: expected exactly one new parent"))
    else
      match Current(s, rid)
      case Err(e) => Outcome(s, Err(e))
      case Ok(cur) =>
        if newParents[0] !in s.snaps then Outcome(s, Err("rebase: new parent snapshot not found"))
        else
          var tree := MergeIDs(FirstParentTree(s, cur.parents), cur.tree, s.snaps[newParents[0]].tree);
          var n := Seal(cur.(revision := rid, parents := newParents, tree := tree));
          var paths := ChangedPaths(PutSnapshot(s, n), n.parents, n.hash);
          Outcome(Install(s, n, s.revs[rid].(hash := n.hash, changedPaths := paths)), Ok(n))
  }

  /** Rebases a list of revisions one after the other, each onto the result of the previous one; stops
      at the first failure and returns the new snapshots so far. */
  function RebaseMany(s: State, rids: seq<string>, onto: ID): Outcome<seq<Snapshot>>
    decreases |rids|
  {
    if rids == [] then Outcome(s, Ok([]))
    else
      var first := Rebase(s, rids[0], [onto]);
      if first.result.Err? then Outcome(first.state, Err(first.result.error))
      else
        var rest := RebaseMany(first.state, rids[1..], first.result.value.hash);
        Outcome(rest.state, if rest.result.Err? then rest.result else Ok([first.result.value] + rest.result.value))
  }

  /** Drop rebases every descendant, in the order given, onto the parent of the dropped revision. */
  function Drop(s: State, rid: string, descendants: seq<string>): Outcome<seq<Snapshot>> {
    match Current(s, rid)
    case Err(e) => Outcome(s, Err(e))
    case Ok(cur) =>
      if cur.parents == [] then Outcome(s, Err("drop: cannot drop a root revision"))
      else if cur.parents[0] !in s.snaps then Outcome(s, Err("store: not found"))
      else RebaseMany(s, descendants, s.snaps[cur.parents[0]].hash)
  }

  function Squash(s: State, child: string): Outcome<Snapshot> {
    match Current(s, child)
    case Err(e) => Outcome(s, Err(e))
    case Ok(c) =>
      if c.parents == [] then Outcome(s, Err("child revision has no parent to squash into"))
      else if c.parents[0] !in s.snaps then Outcome(s, Err("store: not found"))
      else
        var p := s.snaps[c.parents[0]];
        if p.revision !in s.revs then Outcome(s, Err("store: not found"))
        else
          var n := Seal(Snapshot(Zero, p.revision, p.parents, MergeIDs(p.tree, p.tree, c.tree), p.description,
            p.author, NO_TIME));
          Outcome(Install(s, n, s.revs[p.revision].(hash := n.hash)), Ok(n))
  }

  /** newestRevisionID over the id-ordered revision list. */
  function NewestOver(s: State, ids: seq<string>): (id: string)
    requires ids != [] && forall i :: 0 <= i < |ids| ==> ids[i] in s.revs
    ensures id in s.revs && id in ids
  {
    if |ids| == 1 then ids[0]
    else
      var last := ids[|ids| - 1];
      var best := NewestOver(s, ids[..|ids| - 1]);
      if s.revs[last].created > s.revs[best].created then last else best
  }

  function Newest(s: State): (id: string)
    requires s.revs != map[]
    ensures id in s.revs
  {
    var ids := Sorted(s.revs.Keys);
    assert forall i :: 0 <= i < |ids| ==> ids[i] in ids;
    assert s.revs.Keys != {};
    NewestOver(s, ids)
  }

  function Revert(s: State, rid: string, onto: ID, newID: string, now: int): Outcome<Snapshot> {
    match Current(s, rid)
    case Err(e) => Outcome(s, Err(e))
    case Ok(cur) =>
      if cur.parents != [] && cur.parents[0] !in s.snaps then Outcome(s, Err("store: not found"))
      else
        var target := if onto != Zero then onto else s.revs[Newest(s)].hash;
        if target !in s.snaps then Outcome(s, Err("revert: onto snapshot not found"))
        else
          var tree := MergeIDs(cur.tree, FirstParentTree(s, cur.parents), s.snaps[target].tree);
          Commit(s, newID, [s.snaps[target].hash], tree, "Revert " + rid, Author("easyvcs", "easyvcs@example.com"), now)
  }

  // ---- Resolve --------------------------------------------------------------------------------

  function RewriteTree(tree: ID, p: Path, chosen: ID): ID
    requires p != []
  {
    TreeID(Rewrite(TreeOf(tree), p, chosen, chosen == Zero))
  }

  /** Replace a revision's tree, keeping everything else. */
  function Retree(s: State, rid: string, cur: Snapshot, tree: ID): State
    requires rid in s.revs
  {
    var n := Seal(cur.(revision := rid, tree := tree));
    Install(s, n, s.revs[rid].(hash := n.hash))
  }

  /** A descendant that still carries the very same conflict object at the path follows suit. */
  function PropagateOne(s: State, d: string, p: Path, conflict: ID, chosen: ID): State
    requires p != []
  {
    match Current(s, d)
    case Err(_) => s
    case Ok(cur) =>
      if Find(TreeOf(cur.tree), p) == Some(Entry(KindConflict, conflict))
      then Retree(s, d, cur, RewriteTree(cur.tree, p, chosen))
      else s
  }

  function Propagate(s: State, ds: seq<string>, p: Path, conflict: ID, chosen: ID): State
    requires p != []
    decreases |ds|
  {
    if ds == [] then s
    else Propagate(PropagateOne(s, ds[0], p, conflict, chosen), ds[1..], p, conflict, chosen)
  }

  function Resolve(s: State, rid: string, path: string, side: int, ds: seq<string>): Outcome<Snapshot> {
    var p := Split(path);
    match Current(s, rid)
    case Err(e) => Outcome(s, Err(e))
    case Ok(cur) =>
      match PickTerm(TreeOf(cur.tree), p, side)
      case Err(e) => Outcome(s, Err(e))
      case Ok(term) =>
        var n := Seal(cur.(revision := rid, tree := RewriteTree(cur.tree, p, term.id)));
        var s1 := Retree(s, rid, cur, RewriteTree(cur.tree, p, term.id));
        Outcome(Propagate(s1, ds, p, Find(TreeOf(cur.tree), p).value.id, term.id), Ok(n))
  }
}
