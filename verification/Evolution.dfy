/** What every sequence of operations keeps. */
module Evolution {
  import opened Paths
  import opened Objects
  import opened TreeEdit
  import opened Resolution
  import opened History

  /** Each stored snapshot sits under its own canonical hash. */
  ghost predicate Sealed(s: State) {
    forall h :: h in s.snaps ==> s.snaps[h].hash == h && h == SnapshotID(s.snaps[h])
  }

  /** Each revision points at a stored snapshot that carries the revision's id. */
  ghost predicate Owned(s: State) {
    forall r :: r in s.revs ==>
      s.revs[r].id == r && s.revs[r].hash in s.snaps && s.snaps[s.revs[r].hash].revision == r
  }

  ghost predicate Inv(s: State) { Sealed(s) && Owned(s) }

  /** Content that must never change under a stored hash. */
  predicate SameContent(a: Snapshot, b: Snapshot) {
    a.hash == b.hash && a.revision == b.revision && a.tree == b.tree && a.parents == b.parents &&
    a.description == b.description && AuthorText(a.author) == AuthorText(b.author)
  }

  /** Nothing is lost: revisions stay, and stored snapshots keep their content. */
  ghost predicate Extends(s: State, t: State) {
    s.revs.Keys <= t.revs.Keys &&
    forall h :: h in s.snaps ==> h in t.snaps && SameContent(s.snaps[h], t.snaps[h])
  }

  lemma ExtendsTransitive(s: State, t: State, u: State)
    requires Extends(s, t) && Extends(t, u)
    ensures Extends(s, u)
  {
    forall h | h in s.snaps ensures h in u.snaps && SameContent(s.snaps[h], u.snaps[h]) {
      assert SameContent(s.snaps[h], t.snaps[h]);
      assert h in t.snaps;
      assert SameContent(t.snaps[h], u.snaps[h]);
    }
  }

  ghost predicate Keeps(s: State, t: State) { Inv(t) && Extends(s, t) }

  lemma KeepsTransitive(s: State, t: State, u: State)
    requires Keeps(s, t) && Keeps(t, u)
    ensures Keeps(s, u)
  {
    ExtendsTransitive(s, t, u);
  }

  lemma KeepsReflexive(s: State)
    requires Inv(s)
    ensures Keeps(s, s)
  {
  }

  /** The one move every operation is made of. */
  lemma InstallKeeps(s: State, n: Snapshot, r: Revision)
    requires Inv(s)
    requires n.hash == SnapshotID(n) && r.id == n.revision && r.hash == n.hash
    ensures Keeps(s, Install(s, n, r))
  {
  }

  datatype Op =
    | OpCommit(rid: string, parents: seq<ID>, tree: ID, description: string, author: Author, now: int)
    | OpCommitFromChanges(parent: ID, changes: seq<FileSpec>, description: string, author: Author, amend: string,
      newID: string, now: int)
    | OpDerive(source: string, description: string, autoCommit: bool, newID: string, now: int)
    | OpSetDescription(rid: string, description: string)
    | OpRebase(rid: string, parents: seq<ID>)
    | OpRebaseMany(rids: seq<string>, onto: ID)
    | OpSquash(child: string)
    | OpRevert(rid: string, onto: ID, newID: string, now: int)
    | OpResolve(rid: string, path: string, side: int, descendants: seq<string>)

  function Apply(s: State, op: Op): State {
    match op
    case OpCommit(rid, parents, tree, description, author, now) =>
      Commit(s, rid, parents, tree, description, author, now).state
    case OpCommitFromChanges(parent, changes, description, author, amend, newID, now) =>
      CommitFromChanges(s, parent, changes, description, author, amend, newID, now).state
    case OpDerive(source, description, autoCommit, newID, now) =>
      Derive(s, source, description, autoCommit, newID, now).state
    case OpSetDescription(rid, description) => SetDescription(s, rid, description).state
    case OpRebase(rid, parents) => Rebase(s, rid, parents).state
    case OpRebaseMany(rids, onto) => RebaseMany(s, rids, onto).state
    case OpSquash(child) => Squash(s, child).state
    case OpRevert(rid, onto, newID, now) => Revert(s, rid, onto, newID, now).state
    case OpResolve(rid, path, side, descendants) => Resolve(s, rid, path, side, descendants).state
  }

  lemma CurrentOwned(s: State, rid: string)
    requires Inv(s) && Current(s, rid).Ok?
    ensures var c := Current(s, rid).value;
      c.revision == rid && c.hash == SnapshotID(c) && c.hash in s.snaps && s.snaps[c.hash] == c
  {
  }

  lemma CommitKeeps(s: State, rid: string, parents: seq<ID>, tree: ID, description: string, author: Author, now: int)
    requires Inv(s)
    ensures Keeps(s, Commit(s, rid, parents, tree, description, author, now).state)
  {
    var n := Seal(Snapshot(Zero, rid, parents, tree, description, author, now));
    var paths := ChangedPaths(PutSnapshot(s, n), parents, n.hash);
    InstallKeeps(s, n, if rid in s.revs then s.revs[rid].(hash := n.hash, changedPaths := paths)
      else Revision(rid, n.hash, now, "", paths));
  }

  lemma CommitFromChangesKeeps(s: State, parent: ID, cs: seq<FileSpec>, description: string, author: Author,
      amend: string, newID: string, now: int)
    requires Inv(s)
    ensures Keeps(s, CommitFromChanges(s, parent, cs, description, author, amend, newID, now).state)
  {
    KeepsReflexive(s);
    var out := CommitFromChanges(s, parent, cs, description, author, amend, newID, now);
    if out.result.Ok? {
      var n := out.result.value;
      var paths := seq(|cs|, i requires 0 <= i < |cs| => cs[i].path);
      InstallKeeps(s, n, Revision(n.revision, n.hash, now, "", paths));
    }
  }

  lemma DeriveKeeps(s: State, source: string, description: string, autoCommit: bool, newID: string, now: int)
    requires Inv(s)
    ensures Keeps(s, Derive(s, source, description, autoCommit, newID, now).state)
  {
    KeepsReflexive(s);
    var out := Derive(s, source, description, autoCommit, newID, now);
    if out.result.Ok? {
      var n := out.result.value;
      InstallKeeps(s, n, Revision(newID, n.hash, now, source, s.revs[source].changedPaths));
    }
  }

  lemma SetDescriptionKeeps(s: State, rid: string, description: string)
    requires Inv(s)
    ensures Keeps(s, SetDescription(s, rid, description).state)
  {
    KeepsReflexive(s);
    if Current(s, rid).Ok? {
      CurrentOwned(s, rid);
      var n := SetDescription(s, rid, description).result.value;
      InstallKeeps(s, n, s.revs[rid].(hash := n.hash));
    }
  }

  lemma RebaseKeeps(s: State, rid: string, parents: seq<ID>)
    requires Inv(s)
    ensures Keeps(s, Rebase(s, rid, parents).state)
  {
    KeepsReflexive(s);
    var out := Rebase(s, rid, parents);
    if out.result.Ok? {
      var n := out.result.value;
      var paths := ChangedPaths(PutSnapshot(s, n), n.parents, n.hash);
      InstallKeeps(s, n, s.revs[rid].(hash := n.hash, changedPaths := paths));
    }
  }

  lemma {:induction false} RebaseManyKeeps(s: State, rids: seq<string>, onto: ID)
    requires Inv(s)
    ensures Keeps(s, RebaseMany(s, rids, onto).state)
    decreases |rids|
  {
    if rids == [] {
      KeepsReflexive(s);
    } else {
      var first := Rebase(s, rids[0], [onto]);
      RebaseKeeps(s, rids[0], [onto]);
      if first.result.Ok? {
        RebaseManyKeeps(first.state, rids[1..], first.result.value.hash);
      }
      RebaseManyStep(s, rids, onto, first);
    }
  }

  lemma RebaseManyStep(s: State, rids: seq<string>, onto: ID, first: Outcome<Snapshot>)
    requires rids != [] && first == Rebase(s, rids[0], [onto]) && Keeps(s, first.state)
    requires first.result.Ok? ==>
      Keeps(first.state, RebaseMany(first.state, rids[1..], first.result.value.hash).state)
    ensures Keeps(s, RebaseMany(s, rids, onto).state)
  {
    if first.result.Ok? {
      KeepsTransitive(s, first.state, RebaseMany(first.state, rids[1..], first.result.value.hash).state);
    }
  }

  lemma SquashKeeps(s: State, child: string)
    requires Inv(s)
    ensures Keeps(s, Squash(s, child).state)
  {
    KeepsReflexive(s);
    var out := Squash(s, child);
    if out.result.Ok? {
      var n := out.result.value;
      InstallKeeps(s, n, s.revs[n.revision].(hash := n.hash));
    }
  }

  lemma RevertKeeps(s: State, rid: string, onto: ID, newID: string, now: int)
    requires Inv(s)
    ensures Keeps(s, Revert(s, rid, onto, newID, now).state)
  {
    hide MergeIDs, ChangedPaths, Extends, Sealed, Owned, Newest;
    KeepsReflexive(s);
    var out := Revert(s, rid, onto, newID, now);
    if out.result.Ok? {
      var n := out.result.value;
      CommitKeeps(s, newID, n.parents, n.tree, n.description, n.author, now);
    }
  }

  lemma RetreeKeeps(s: State, rid: string, tree: ID)
    requires Inv(s) && Current(s, rid).Ok?
    ensures Keeps(s, Retree(s, rid, Current(s, rid).value, tree))
  {
    var cur := Current(s, rid).value;
    CurrentOwned(s, rid);
    var n := Seal(cur.(revision := rid, tree := tree));
    InstallKeeps(s, n, s.revs[rid].(hash := n.hash));
  }

  lemma PropagateOneKeeps(s: State, d: string, p: Path, conflict: ID, chosen: ID)
    requires p != [] && Inv(s)
    ensures Keeps(s, PropagateOne(s, d, p, conflict, chosen))
  {
    hide RewriteTree, Extends, Sealed, Owned;
    KeepsReflexive(s);
    if Current(s, d).Ok? {
      RetreeKeeps(s, d, RewriteTree(Current(s, d).value.tree, p, chosen));
    }
  }

  lemma {:induction false} PropagateKeeps(s: State, ds: seq<string>, p: Path, conflict: ID, chosen: ID)
    requires p != [] && Inv(s)
    ensures Keeps(s, Propagate(s, ds, p, conflict, chosen))
    decreases |ds|
  {
    if ds == [] {
      KeepsReflexive(s);
    } else {
      var s1 := PropagateOne(s, ds[0], p, conflict, chosen);
      PropagateOneKeeps(s, ds[0], p, conflict, chosen);
      PropagateKeeps(s1, ds[1..], p, conflict, chosen);
      KeepsTransitive(s, s1, Propagate(s1, ds[1..], p, conflict, chosen));
    }
  }

  lemma ResolveKeeps(s: State, rid: string, path: string, side: int, ds: seq<string>)
    requires Inv(s)
    ensures Keeps(s, Resolve(s, rid, path, side, ds).state)
  {
    KeepsReflexive(s);
    if Resolve(s, rid, path, side, ds).result.Ok? {
      var p := Split(path);
      var cur := Current(s, rid).value;
      var term := PickTerm(TreeOf(cur.tree), p, side).value;
      var conflict := Find(TreeOf(cur.tree), p).value.id;
      var s1 := Retree(s, rid, cur, RewriteTree(cur.tree, p, term.id));
      RetreeKeeps(s, rid, RewriteTree(cur.tree, p, term.id));
      PropagateKeeps(s1, ds, p, conflict, term.id);
      KeepsTransitive(s, s1, Propagate(s1, ds, p, conflict, term.id));
    }
  }

  /** Every operation, successful or not, keeps the invariant and loses nothing. */
  lemma ApplyKeeps(s: State, op: Op)
    requires Inv(s)
    ensures Keeps(s, Apply(s, op))
  {
    match op
    case OpCommit(rid, parents, tree, description, author, now) =>
      CommitKeeps(s, rid, parents, tree, description, author, now);
    case OpCommitFromChanges(parent, changes, description, author, amend, newID, now) =>
      CommitFromChangesKeeps(s, parent, changes, description, author, amend, newID, now);
    case OpDerive(source, description, autoCommit, newID, now) =>
      DeriveKeeps(s, source, description, autoCommit, newID, now);
    case OpSetDescription(rid, description) => SetDescriptionKeeps(s, rid, description);
    case OpRebase(rid, parents) => RebaseKeeps(s, rid, parents);
    case OpRebaseMany(rids, onto) => RebaseManyKeeps(s, rids, onto);
    case OpSquash(child) => SquashKeeps(s, child);
    case OpRevert(rid, onto, newID, now) => RevertKeeps(s, rid, onto, newID, now);
    case OpResolve(rid, path, side, descendants) => ResolveKeeps(s, rid, path, side, descendants);
  }

  const EMPTY_STATE := State(map[], map[])
}
