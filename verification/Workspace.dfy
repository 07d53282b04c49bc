/** The semantic layer: the operations of Workspace on a stored repository, each proved to carry out
    the corresponding function of History. */
module Workspace {
  import opened Prelude
  import opened Paths
  import opened Objects
  import opened TreeEdit
  import opened TreeStore
  import opened Resolution
  import opened History
  import opened Evolution
  import opened DropHistory
  import opened Descendants
  import opened Store

  lemma {:induction false} FoundConflictStored(objects: map<ID, Object>, t: Tree, p: Path)
    requires p != [] && Holds(objects, t) && Find(t, p).Some? && Find(t, p).value.kind == KindConflict
    ensures Find(t, p).value.id in objects
    decreases |p|
  {
    if |p| > 1 { FoundConflictStored(objects, t.entries[p[0]].id.obj.tree, p[1..]); }
  }

  /** Changed paths depend on the snapshot table alone. */
  lemma ChangedPathsOfSnapshots(s: State, t: State, parents: seq<ID>, cur: ID)
    requires s.snaps == t.snaps
    ensures ChangedPaths(s, parents, cur) == ChangedPaths(t, parents, cur)
  {
  }

  lemma RebaseInstalls(s: State, rid: string, newParents: seq<ID>, n: Snapshot)
    requires Inv(s) && Current(s, rid).Ok? && |newParents| == 1 && newParents[0] in s.snaps
    requires var cur := Current(s, rid).value;
      n == Seal(Snapshot(Zero, rid, newParents,
        MergeIDs(FirstParentTree(s, cur.parents), cur.tree, s.snaps[newParents[0]].tree),
        cur.description, cur.author, cur.time))
    ensures History.Rebase(s, rid, newParents) == Outcome(
      Install(s, n, s.revs[rid].(hash := n.hash, changedPaths := ChangedPaths(PutSnapshot(s, n), n.parents, n.hash))),
        Ok(n))
  {
  }

  lemma SquashInstalls(s: State, child: string, n: Snapshot)
    requires Inv(s) && Current(s, child).Ok?
    requires var c := Current(s, child).value;
      c.parents != [] && c.parents[0] in s.snaps && s.snaps[c.parents[0]].revision in s.revs &&
      var p := s.snaps[c.parents[0]];
      n == Seal(Snapshot(Zero, p.revision, p.parents, MergeIDs(p.tree, p.tree, c.tree), p.description, p.author,
        NO_TIME))
    ensures History.Squash(s, child) == Outcome(Install(s, n, s.revs[n.revision].(hash := n.hash)), Ok(n))
  {
  }

  lemma RevertCommits(s: State, rid: string, onto: ID, newID: string, now: int, tree: ID)
    requires Inv(s) && Current(s, rid).Ok?
    requires var c := Current(s, rid).value;
      var target := if onto != Zero then onto else s.revs[Newest(s)].hash;
      (c.parents != [] ==> c.parents[0] in s.snaps) && target in s.snaps &&
      tree == MergeIDs(c.tree, FirstParentTree(s, c.parents), s.snaps[target].tree)
    ensures var target := if onto != Zero then onto else s.revs[Newest(s)].hash;
      History.Revert(s, rid, onto, newID, now) ==
        History.Commit(s, newID, [s.snaps[target].hash], tree, "Revert " + rid,
          Author("easyvcs", "easyvcs@example.com"), now)
  {
  }

  lemma NoEdits(t: Tree, cs: seq<FileSpec>)
    ensures ApplyEdits(t, EditsFor(cs[..0])) == t
  {
  }

  lemma EditsStep(t: Tree, cs: seq<FileSpec>, i: nat)
    requires i < |cs|
    ensures ApplyEdits(t, EditsFor(cs[..i + 1])) ==
      Rewrite(ApplyEdits(t, EditsFor(cs[..i])), Split(cs[i].path),
        if cs[i].delete then Zero else Digest(Blob(cs[i].content)), cs[i].delete)
  {
    var pre := cs[..i + 1];
    assert pre[..|pre| - 1] == cs[..i] && pre[|pre| - 1] == cs[i];
    var es := EditsFor(pre);
    assert es[..|es| - 1] == EditsFor(cs[..i]) && es[|es| - 1] == EditFor(cs[i]);
  }

  lemma ResolveSplits(s: State, rid: string, path: string, side: int, ds: seq<string>, cur: Snapshot, term: Term,
      conflict: ID, n: Snapshot)
    requires Current(s, rid) == Ok(cur) && PickTerm(TreeOf(cur.tree), Split(path), side) == Ok(term)
    requires Find(TreeOf(cur.tree), Split(path)) == Some(Entry(KindConflict, conflict))
    requires n == Seal(cur.(revision := rid, tree := RewriteTree(cur.tree, Split(path), term.id)))
    ensures History.Resolve(s, rid, path, side, ds) == Outcome(
      Propagate(Retree(s, rid, cur, n.tree), ds, Split(path), conflict, term.id), Ok(n))
  {
  }

  /** Success and value agree; the error texts of the stored walk may be more specific. */
  predicate Agree<T(==)>(got: Result<T>, want: Result<T>) {
    (got.Ok? <==> want.Ok?) && (got.Ok? ==> got == want)
  }

  class Workspace {
    const store: Repo

    constructor (store: Repo)
      ensures this.store == store
    {
      this.store := store;
    }

    method ChangedPathsBetween(parents: seq<ID>, cur: ID) returns (paths: seq<string>)
      requires store.ObjectsValid() && store.TreesStored()
      ensures paths == ChangedPaths(store.State(), parents, cur)
    {
      var prevTree := Zero;
      if |parents| > 0 {
        match store.GetSnapshot(parents[0]) {
          case Ok(p) => prevTree := p.tree;
          case Err(_) =>
        }
      }
      assert prevTree == FirstParentTree(store.State(), parents);
      match store.GetSnapshot(cur) {
        case Err(_) => return [];
        case Ok(curSnap) =>
          if prevTree == Zero {
            paths := AllTreePaths(curSnap.tree, store);
          } else {
            var changes := DiffStored(prevTree, curSnap.tree, store);
            paths := RenderAll(changes);
          }
      }
    }

    method Commit(rid: string, parents: seq<ID>, tree: ID, description: string, author: Author, now: int)
      returns (snap: Snapshot)
      requires store.Valid() && HoldsID(store.objects, tree)
      modifies store
      ensures store.Valid() && store.objects == old(store.objects)
      ensures var want := History.Commit(old(store.State()), rid, parents, tree, description, author, now);
        store.State() == want.state && Ok(snap) == want.result
    {
      hide SnapshotID, Sealed, Owned, Extends, HoldsID, ChangedPaths;
      CommitKeeps(store.State(), rid, parents, tree, description, author, now);
      snap := Seal(Snapshot(Zero, rid, parents, tree, description, author, now));
      store.PutSnapshot(snap);
      var rev := match store.GetRevision(rid)
        case Ok(r) => r.(hash := snap.hash)
        case Err(_) => Revision(rid, snap.hash, now, "", []);
      var paths := ChangedPathsBetween(parents, snap.hash);
      store.PutRevision(rev.(changedPaths := paths));
    }

    method SetDescription(rid: string, description: string) returns (res: Result<Snapshot>)
      requires store.Valid()
      modifies store
      ensures store.Valid() && store.objects == old(store.objects)
      ensures var want := History.SetDescription(old(store.State()), rid, description);
        store.State() == want.state && Agree(res, want.result)
    {
      SetDescriptionKeeps(store.State(), rid, description);
      match store.GetRevision(rid) {
        case Err(e) => return Err(e);
        case Ok(rev) =>
          match store.GetSnapshot(rev.hash) {
            case Err(e) => return Err(e);
            case Ok(cur) =>
              var n := Seal(cur.(description := description));
              store.PutSnapshot(n);
              store.PutRevision(rev.(hash := n.hash));
              return Ok(n);
          }
      }
    }

    method Derive(source: string, description: string, autoCommit: bool, newID: string, now: int)
      returns (res: Result<Snapshot>)
      requires store.Valid()
      modifies store
      ensures store.Valid() && store.objects == old(store.objects)
      ensures var want := History.Derive(old(store.State()), source, description, autoCommit, newID, now);
        store.State() == want.state && Agree(res, want.result)
    {
      hide SnapshotID, Sealed, Owned, Extends, HoldsID;
      DeriveKeeps(store.State(), source, description, autoCommit, newID, now);
      match store.GetRevision(source) {
        case Err(e) => return Err(e);
        case Ok(src) =>
          match store.GetSnapshot(src.hash) {
            case Err(e) => return Err(e);
            case Ok(cur) =>
              var committed := cur.description != "";
              if !committed && !autoCommit { return Err("derive: source revision is not committed"); }
              var msg := description;
              if msg == "" { msg := cur.description; }
              if msg == "" { return Err("derive: a commit message is required"); }
              var n := Seal(Snapshot(Zero, newID, cur.parents, cur.tree, msg, cur.author, now));
              store.PutSnapshot(n);
              store.PutRevision(Revision(newID, n.hash, now, source, src.changedPaths));
              return Ok(n);
          }
      }
    }

    method Rebase(rid: string, newParents: seq<ID>) returns (res: Result<Snapshot>)
      requires store.Valid()
      modifies store
      ensures store.Valid() && Grows(old(store.objects), store.objects)
      ensures var want := History.Rebase(old(store.State()), rid, newParents);
        store.State() == want.state && Agree(res, want.result)
    {
      RebaseKeeps(store.State(), rid, newParents);
      if |newParents| != 1 { return Err("rebase: expected exactly one new parent"); }
      var rev0 := store.GetRevision(rid);
      if rev0.Err? { return Err("revision: not found"); }
      var rev := rev0.value;
      var cur0 := store.GetSnapshot(rev.hash);
      if cur0.Err? { return Err("store: not found"); }
      var cur := cur0.value;
      var newBase := store.GetSnapshot(newParents[0]);
      if newBase.Err? { return Err("rebase: new parent snapshot not found"); }
      var baseTree := Zero;
      if |cur.parents| > 0 {
        match store.GetSnapshot(cur.parents[0]) {
          case Ok(p) => baseTree := p.tree;
          case Err(_) =>
        }
      }
      assert baseTree == FirstParentTree(store.State(), cur.parents);
      res := RebaseOnto(rev, cur, baseTree, newParents, newBase.value);
    }

    /** The second half of Rebase: merge, store, repoint. */
    method RebaseOnto(rev: Revision, cur: Snapshot, baseTree: ID, newParents: seq<ID>, newBase: Snapshot)
      returns (res: Result<Snapshot>)
      requires store.Valid() && rev.id in store.revisions && store.revisions[rev.id] == rev
      requires rev.hash in store.snapshots && store.snapshots[rev.hash] == cur
      requires |newParents| == 1 && newParents[0] in store.snapshots && store.snapshots[newParents[0]] == newBase
      requires baseTree == FirstParentTree(store.State(), cur.parents)
      modifies store
      ensures store.ObjectsValid() && store.TreesStored() && Grows(old(store.objects), store.objects)
      ensures var want := History.Rebase(old(store.State()), rev.id, newParents);
        store.State() == want.state && res == want.result
    {
      ghost var objects := store.objects;
      var tree, atoms := MergeStored(baseTree, cur.tree, newBase.tree, store);
      StoredInGrows(objects, store.objects, store.snapshots);
      var n := Seal(Snapshot(Zero, rev.id, newParents, tree, cur.description, cur.author, cur.time));
      RebaseInstalls(store.State(), rev.id, newParents, n);
      res := Repoint(rev, cur.hash, n);
    }

    /** The writes at the end of Rebase: snapshot, guarded repoint, changed paths. */
    method Repoint(rev: Revision, expected: ID, n: Snapshot) returns (res: Result<Snapshot>)
      requires store.ObjectsValid() && store.TreesStored() && HoldsID(store.objects, n.tree)
      requires rev.id in store.revisions && store.revisions[rev.id] == rev && rev.hash == expected
      modifies store`snapshots, store`revisions
      ensures store.ObjectsValid() && store.TreesStored() && res == Ok(n)
      ensures var s := old(store.State());
        store.State() ==
          Install(s, n, rev.(hash := n.hash, changedPaths := ChangedPaths(PutSnapshot(s, n), n.parents, n.hash)))
    {
      hide ChangedPaths, HoldsID, Inv;
      store.PutSnapshot(n);
      var ok := store.UpdateRevisionHashCAS(rev.id, expected, n.hash);
      if !ok { return Err("store: revision changed concurrently"); }
      var paths := ChangedPathsBetween(n.parents, n.hash);
      ChangedPathsOfSnapshots(store.State(), PutSnapshot(old(store.State()), n), n.parents, n.hash);
      store.PutRevision(rev.(hash := n.hash, changedPaths := paths));
      return Ok(n);
    }

    /** RebaseMany: `moved` holds the new snapshots up to the first failure, the outcome of rebasing the
        revisions before it. */
    method RebaseMany(revs: seq<string>, onto: ID) returns (moved: seq<Snapshot>, ok: bool)
      requires store.Valid()
      modifies store
      ensures store.Valid() && Grows(old(store.objects), store.objects)
      ensures var want := History.RebaseMany(old(store.State()), revs, onto);
        store.State() == want.state && (ok <==> want.result.Ok?) && (ok ==> Ok(moved) == want.result)
      ensures MovedSoFar(old(store.State()), revs, onto, store.State(), moved, ok)
    {
      var parent := onto;
      moved := [];
      var i := 0;
      ghost var want := History.RebaseMany(store.State(), revs, onto);
      assert revs[0..] == revs && (want.result.Ok? ==> [] + want.result.value == want.result.value);
      while i < |revs|
        invariant i <= |revs|
        invariant store.Valid() && Grows(old(store.objects), store.objects)
        invariant want == After(moved, History.RebaseMany(store.State(), revs[i..], parent))
        invariant MovedPrefix(old(store.State()), revs, onto, i, store.State(), moved, parent)
      {
        ghost var before := store.State();
        var res := Rebase(revs[i], [parent]);
        RebaseManyUnfold(before, revs, i, parent, moved);
        MovedStep(old(store.State()), revs, onto, i, before, moved, parent);
        if res.Err? { return moved, false; }
        moved := moved + [res.value];
        parent := res.value.hash;
        i := i + 1;
      }
      RebaseManyEnd(store.State(), revs, parent, moved);
      return moved, true;
    }

    /** Drop: the descendants found are returned as a ghost. */
    method Drop(rid: string) returns (moved: seq<Snapshot>, ok: bool, ghost ds: seq<string>)
      requires store.Valid()
      modifies store
      ensures store.Valid() && Grows(old(store.objects), store.objects)
      ensures rid in old(store.revisions) ==> IsDescendantList(old(store.State()), rid, ds)
      ensures var want := History.Drop(old(store.State()), rid, ds);
        store.State() == want.state && (ok <==> want.result.Ok?) && (ok ==> Ok(moved) == want.result)
      ensures match DropBase(old(store.State()), rid)
        case None => !ok && moved == []
        case Some(base) => MovedSoFar(old(store.State()), ds, base, store.State(), moved, ok)
    {
      moved, ds := [], [];
      var rev := store.GetRevision(rid);
      if rev.Err? { return moved, false, ds; }
      var desc := DescendantsOf(rid, store);
      ds := desc.value;
      var snap := store.GetSnapshot(rev.value.hash);
      if snap.Err? { return moved, false, ds; }
      if |snap.value.parents| == 0 { return moved, false, ds; }
      var parentSnap := store.GetSnapshot(snap.value.parents[0]);
      if parentSnap.Err? { return moved, false, ds; }
      moved, ok := RebaseMany(desc.value, parentSnap.value.hash);
    }

    method Squash(child: string) returns (res: Result<Snapshot>)
      requires store.Valid()
      modifies store
      ensures store.Valid() && Grows(old(store.objects), store.objects)
      ensures var want := History.Squash(old(store.State()), child);
        store.State() == want.state && Agree(res, want.result)
    {
      SquashKeeps(store.State(), child);
      var rev := store.GetRevision(child);
      if rev.Err? { return Err("revision: not found"); }
      var childSnap := store.GetSnapshot(rev.value.hash);
      if childSnap.Err? { return Err("store: not found"); }
      if |childSnap.value.parents| == 0 { return Err("child revision has no parent to squash into"); }
      var parentSnap := store.GetSnapshot(childSnap.value.parents[0]);
      if parentSnap.Err? { return Err("store: not found"); }
      var parentRev := store.GetRevision(parentSnap.value.revision);
      if parentRev.Err? { return Err("store: not found"); }
      res := SquashInto(child, childSnap.value, parentSnap.value, parentRev.value);
    }

    /** The second half of Squash: merge, store, repoint the parent revision. */
    method SquashInto(child: string, childSnap: Snapshot, parentSnap: Snapshot, parentRev: Revision)
      returns (res: Result<Snapshot>)
      requires store.Valid() && Current(store.State(), child) == Ok(childSnap) && childSnap.parents != []
      requires childSnap.parents[0] in store.snapshots && store.snapshots[childSnap.parents[0]] == parentSnap
      requires parentSnap.revision in store.revisions && store.revisions[parentSnap.revision] == parentRev
      modifies store
      ensures store.ObjectsValid() && store.TreesStored() && Grows(old(store.objects), store.objects)
      ensures var want := History.Squash(old(store.State()), child);
        store.State() == want.state && res == want.result
    {
      hide Extends, HoldsID, MergeIDs, SnapshotID;
      ghost var objects := store.objects;
      var merged, atoms := MergeStored(parentSnap.tree, parentSnap.tree, childSnap.tree, store);
      StoredInGrows(objects, store.objects, store.snapshots);
      var n := Seal(Snapshot(Zero, parentRev.id, parentSnap.parents, merged, parentSnap.description,
        parentSnap.author, NO_TIME));
      SquashInstalls(store.State(), child, n);
      store.PutSnapshot(n);
      var ok := store.UpdateRevisionHashCAS(parentRev.id, parentRev.hash, n.hash);
      if !ok { return Err("store: revision changed concurrently"); }
      return Ok(n);
    }

    method Revert(rid: string, onto: ID, newID: string, now: int) returns (res: Result<Snapshot>)
      requires store.Valid()
      modifies store
      ensures store.Valid() && Grows(old(store.objects), store.objects)
      ensures var want := History.Revert(old(store.State()), rid, onto, newID, now);
        store.State() == want.state && Agree(res, want.result)
    {
      hide SnapshotID, Sealed, Owned, Extends, HoldsID, MergeIDs, History.Commit, Newest;
      var rev := store.GetRevision(rid);
      if rev.Err? { return Err("revision: not found"); }
      var revSnap := store.GetSnapshot(rev.value.hash);
      if revSnap.Err? { return Err("store: not found"); }
      var inverseBase := Zero;
      if |revSnap.value.parents| > 0 {
        var p := store.GetSnapshot(revSnap.value.parents[0]);
        if p.Err? { return Err("store: not found"); }
        inverseBase := p.value.tree;
      }
      var target := onto;
      if onto == Zero { target := store.revisions[Newest(store.State())].hash; }
      var ontoSnap := store.GetSnapshot(target);
      if ontoSnap.Err? { return Err("revert: onto snapshot not found"); }
      res := RevertOnto(rid, revSnap.value, inverseBase, target, ontoSnap.value, onto, newID, now);
    }

    /** The second half of Revert: merge and commit. */
    method RevertOnto(rid: string, revSnap: Snapshot, inverseBase: ID, target: ID, ontoSnap: Snapshot, ghost onto: ID,
        newID: string, now: int)
      returns (res: Result<Snapshot>)
      requires store.Valid() && Current(store.State(), rid) == Ok(revSnap)
      requires inverseBase == FirstParentTree(store.State(), revSnap.parents) &&
        (revSnap.parents != [] ==> revSnap.parents[0] in store.snapshots)
      requires target == if onto != Zero then onto else store.revisions[Newest(store.State())].hash
      requires target in store.snapshots && store.snapshots[target] == ontoSnap
      modifies store
      ensures store.Valid() && Grows(old(store.objects), store.objects)
      ensures var want := History.Revert(old(store.State()), rid, onto, newID, now);
        store.State() == want.state && res == want.result
    {
      var tree := MergeKept(revSnap.tree, inverseBase, ontoSnap.tree);
      RevertCommits(store.State(), rid, onto, newID, now, tree);
      var snap := Commit(newID, [ontoSnap.hash], tree, "Revert " + rid, Author("easyvcs", "easyvcs@example.com"), now);
      return Ok(snap);
    }

    /** Merge, leaving the revision and snapshot tables alone. */
    method MergeKept(base: ID, ours: ID, theirs: ID) returns (id: ID)
      requires store.Valid() && HoldsID(store.objects, base) && HoldsID(store.objects, ours) &&
        HoldsID(store.objects, theirs)
      modifies store`objects
      ensures store.Valid() && Grows(old(store.objects), store.objects)
      ensures id == MergeIDs(base, ours, theirs) && HoldsID(store.objects, id)
    {
      ghost var objects := store.objects;
      var atoms;
      id, atoms := MergeStored(base, ours, theirs, store);
      StoredInGrows(objects, store.objects, store.snapshots);
    }

    /** resolvePath on a stored tree, leaving the revision and snapshot tables alone. */
    method ResolveKept(tree: ID, path: string, chosen: ID) returns (id: ID)
      requires store.Valid() && HoldsID(store.objects, tree)
      modifies store`objects
      ensures store.Valid() && Grows(old(store.objects), store.objects)
      ensures id == RewriteTree(tree, Split(path), chosen) && HoldsID(store.objects, id)
    {
      ghost var objects := store.objects;
      store.MustTreeHeld(tree);
      id := ResolvePath(store.MustTree(tree), path, chosen, chosen == Zero, store);
      StoredInGrows(objects, store.objects, store.snapshots);
    }

    method CommitFromChanges(parent: ID, changes: seq<FileSpec>, description: string, author: Author, amend: string,
        newID: string, now: int)
      returns (res: Result<Snapshot>)
      requires store.Valid()
      modifies store
      ensures store.Valid() && Grows(old(store.objects), store.objects)
      ensures var want := History.CommitFromChanges(old(store.State()), parent, changes, description, author, amend,
        newID, now);
        store.State() == want.state && Agree(res, want.result)
    {
      hide SnapshotID, Sealed, Owned, Extends, HoldsID, ApplyEdits, EditsFor, TreeOf;
      CommitFromChangesKeeps(store.State(), parent, changes, description, author, amend, newID, now);
      var rid := if amend == "" then newID else amend;
      var baseTree := EMPTY_TREE;
      var parents: seq<ID> := [];
      if parent != Zero {
        var p := store.GetSnapshot(parent);
        if p.Err? { return Err("parent snapshot not found"); }
        store.MustTreeHeld(p.value.tree);
        baseTree := store.MustTree(p.value.tree);
        parents := [parent];
      }
      if amend != "" {
        match store.GetRevision(amend) {
          case Err(_) =>
          case Ok(prev) =>
            match store.GetSnapshot(prev.hash) {
              case Err(_) =>
              case Ok(prevSnap) => parents := prevSnap.parents;
            }
        }
      }
      ghost var objects := store.objects;
      var tree, changedPaths := ApplyChanges(baseTree, changes);
      StoredInGrows(objects, store.objects, store.snapshots);
      var n := Seal(Snapshot(Zero, rid, parents, tree, description, author, now));
      store.PutSnapshot(n);
      store.PutRevision(Revision(rid, n.hash, now, "", changedPaths));
      return Ok(n);
    }

    /** The loop that applies a batch of changes to the working tree and stores the root. */
    method ApplyChanges(baseTree: Tree, changes: seq<FileSpec>) returns (id: ID, changedPaths: seq<string>)
      requires store.ObjectsValid() && Holds(store.objects, baseTree)
      modifies store`objects
      ensures store.ObjectsValid() && Grows(old(store.objects), store.objects)
      ensures id == TreeID(ApplyEdits(baseTree, EditsFor(changes))) && HoldsID(store.objects, id)
      ensures changedPaths == seq(|changes|, i requires 0 <= i < |changes| => changes[i].path)
    {
      hide ApplyEdits, EditsFor, Holds, Rewrite, Split;
      changedPaths := [];
      var newTree := baseTree;
      NoEdits(baseTree, changes);
      var i := 0;
      while i < |changes|
        invariant i <= |changes|
        invariant store.ObjectsValid() && Grows(old(store.objects), store.objects)
        invariant newTree == ApplyEdits(baseTree, EditsFor(changes[..i])) && Holds(store.objects, newTree)
        invariant |changedPaths| == i && forall k :: 0 <= k < i ==> changedPaths[k] == changes[k].path
      {
        var c := changes[i];
        changedPaths := changedPaths + [c.path];
        EditsStep(baseTree, changes, i);
        newTree := ApplyChange(newTree, c);
        i := i + 1;
      }
      assert changes[..i] == changes;
      id := WriteTree(newTree, store);
    }

    method ApplyChange(t: Tree, c: FileSpec) returns (t': Tree)
      requires store.ObjectsValid() && Holds(store.objects, t)
      modifies store`objects
      ensures store.ObjectsValid() && Grows(old(store.objects), store.objects) && Holds(store.objects, t')
      ensures t' == Rewrite(t, Split(c.path), if c.delete then Zero else Digest(Blob(c.content)), c.delete)
    {
      var chosen := Zero;
      if !c.delete {
        ghost var before := store.objects;
        chosen := store.WriteObject(Blob(c.content));
        HoldsGrows(before, store.objects, t);
      }
      var tid := ResolvePath(t, c.path, chosen, c.delete, store);
      store.MustTreeHeld(tid);
      t' := store.MustTree(tid);
    }

    method Resolve(rid: string, path: string, side: int) returns (res: Result<Snapshot>, ghost ds: seq<string>)
      requires store.Valid()
      modifies store
      ensures store.Valid() && Grows(old(store.objects), store.objects)
      ensures rid in old(store.revisions) ==> IsForwardClosure(old(store.State()), old(store.revisions)[rid].hash, ds)
      ensures var want := History.Resolve(old(store.State()), rid, path, side, ds);
        store.State() == want.state && Agree(res, want.result)
    {
      ds := [];
      var rev := store.GetRevision(rid);
      if rev.Err? { return Err("revision: not found"), ds; }
      var descendants := DescendantsFromSnapshot(rev.value.hash, store);
      ds := descendants;
      var cur := store.GetSnapshot(rev.value.hash);
      if cur.Err? { return Err("store: not found"), ds; }
      store.MustTreeHeld(cur.value.tree);
      var tree := store.MustTree(cur.value.tree);
      var entry := FindEntry(tree, path, store);
      if entry.Err? { return Err("no entry at path"), ds; }
      if entry.value.kind != KindConflict { return Err("no conflict at path"), ds; }
      FoundConflictStored(store.objects, tree, Split(path));
      var conflict := store.ReadObject(entry.value.id);
      if conflict.Err? || !conflict.value.ConflictObject? { return Err("path does not hold a conflict"), ds; }
      var adds := conflict.value.conflict.adds;
      if side < 0 || side >= |adds| { return Err("side index out of range"), ds; }
      res := ResolveWith(rev.value, cur.value, path, side, entry.value.id, adds[side], descendants);
    }

    /** The writes of Resolve: the revision itself, then every descendant with the same conflict. */
    method ResolveWith(rev: Revision, cur: Snapshot, path: string, side: int, conflict: ID, term: Term,
        descendants: seq<string>)
      returns (res: Result<Snapshot>)
      requires store.Valid() && rev.id in store.revisions && store.revisions[rev.id] == rev &&
        Current(store.State(), rev.id) == Ok(cur)
      requires PickTerm(TreeOf(cur.tree), Split(path), side) == Ok(term)
      requires Find(TreeOf(cur.tree), Split(path)) == Some(Entry(KindConflict, conflict))
      modifies store
      ensures store.Valid() && Grows(old(store.objects), store.objects)
      ensures var want := History.Resolve(old(store.State()), rev.id, path, side, descendants);
        store.State() == want.state && res == want.result
    {
      ghost var s0 := store.State();
      ghost var p := Split(path);
      var n := RetreeStored(rev.id, cur, path, term.id);
      ResolveSplits(s0, rev.id, path, side, descendants, cur, term, conflict, n);
      ghost var s1 := store.State();
      var i := 0;
      assert descendants[0..] == descendants;
      while i < |descendants|
        invariant i <= |descendants|
        invariant store.Valid() && Grows(old(store.objects), store.objects)
        invariant Propagate(store.State(), descendants[i..], p, conflict, term.id) ==
          Propagate(s1, descendants, p, conflict, term.id)
      {
        assert descendants[i..][0] == descendants[i] && descendants[i..][1..] == descendants[i + 1..];
        PropagateStored(descendants[i], path, conflict, term.id);
        i := i + 1;
      }
      return Ok(n);
    }

    method RetreeStored(rid: string, cur: Snapshot, path: string, chosen: ID) returns (n: Snapshot)
      requires store.Valid() && Current(store.State(), rid) == Ok(cur)
      modifies store
      ensures store.Valid() && Grows(old(store.objects), store.objects)
      ensures var tree := RewriteTree(cur.tree, Split(path), chosen);
        store.State() == Retree(old(store.State()), rid, cur, tree) && n == Seal(cur.(revision := rid, tree := tree))
    {
      hide SnapshotID, Sealed, Owned, Extends, HoldsID, RewriteTree, Split;
      RetreeKeeps(store.State(), rid, RewriteTree(cur.tree, Split(path), chosen));
      var tree := ResolveKept(cur.tree, path, chosen);
      n := Seal(cur.(revision := rid, tree := tree));
      store.PutSnapshot(n);
      var ok := store.UpdateRevisionHash(rid, n.hash);
    }

    method PropagateStored(d: string, path: string, conflict: ID, chosen: ID)
      requires store.Valid()
      modifies store
      ensures store.Valid() && Grows(old(store.objects), store.objects)
      ensures store.State() == PropagateOne(old(store.State()), d, Split(path), conflict, chosen)
    {
      var rev := store.GetRevision(d);
      if rev.Err? { return; }
      var cur := store.GetSnapshot(rev.value.hash);
      if cur.Err? { return; }
      store.MustTreeHeld(cur.value.tree);
      var entry := FindEntry(store.MustTree(cur.value.tree), path, store);
      if entry.Err? || entry.value.kind != KindConflict || entry.value.id != conflict { return; }
      var n := RetreeStored(d, cur.value, path, chosen);
    }
  }

  /** The snapshot Drop rebases onto, if it gets that far. */
  ghost function DropBase(s: State, rid: string): Option<ID> {
    match Current(s, rid)
    case Err(_) => None
    case Ok(cur) => if cur.parents == [] || cur.parents[0] !in s.snaps then None else Some(s.snaps[cur.parents[0]].hash)
  }

  /** Where the next revision goes: onto the last one moved. */
  function LastHash(moved: seq<Snapshot>, onto: ID): ID {
    if moved == [] then onto else moved[|moved| - 1].hash
  }

  /** The first i revisions were rebased, to `moved`; `parent` is where the next one goes. */
  ghost predicate MovedPrefix(s: State, revs: seq<string>, onto: ID, i: nat, t: State, moved: seq<Snapshot>,
      parent: ID) {
    i <= |revs| && |moved| == i && History.RebaseMany(s, revs[..i], onto) == Outcome(t, Ok(moved)) &&
    parent == LastHash(moved, onto)
  }

  /** What is returned and what is stored when RebaseMany stops: the outcome for the revisions before the
      first one that cannot be rebased, or for all. */
  ghost predicate MovedSoFar(s: State, revs: seq<string>, onto: ID, t: State, moved: seq<Snapshot>, ok: bool) {
    var i := |moved|;
    i <= |revs| && History.RebaseMany(s, revs[..i], onto) == Outcome(t, Ok(moved)) && (ok <==> i == |revs|) &&
    (!ok ==> History.Rebase(t, revs[i], [LastHash(moved, onto)]).result.Err?)
  }

  /** Rebasing one more: at the end of the list, after a prefix that succeeded. */
  lemma {:induction false} RebaseManySnoc(s: State, revs: seq<string>, onto: ID, rid: string)
    requires History.RebaseMany(s, revs, onto).result.Ok?
    ensures |History.RebaseMany(s, revs, onto).result.value| == |revs|
    ensures var out := History.RebaseMany(s, revs, onto);
      var last := History.Rebase(out.state, rid, [LastHash(out.result.value, onto)]);
      last.result.Ok? ==>
        History.RebaseMany(s, revs + [rid], onto) == Outcome(last.state, Ok(out.result.value + [last.result.value]))
    decreases |revs|
  {
    hide History.Rebase;
    if revs == [] {
      assert revs + [rid] == [rid] && [rid][1..] == [];
      var last := History.Rebase(s, rid, [onto]);
      if last.result.Ok? {
        assert History.RebaseMany(last.state, [], last.result.value.hash) == Outcome(last.state, Ok([]));
        assert [last.result.value] + [] == [] + [last.result.value];
      }
    } else {
      var first := History.Rebase(s, revs[0], [onto]);
      var rest := History.RebaseMany(first.state, revs[1..], first.result.value.hash);
      RebaseManySnoc(first.state, revs[1..], first.result.value.hash, rid);
      assert (revs + [rid])[1..] == revs[1..] + [rid] && (revs + [rid])[0] == revs[0];
      var out := History.RebaseMany(s, revs, onto);
      assert out.result.value == [first.result.value] + rest.result.value;
      assert LastHash(out.result.value, onto) == LastHash(rest.result.value, first.result.value.hash);
      var last := History.Rebase(out.state, rid, [LastHash(out.result.value, onto)]);
      if last.result.Ok? {
        assert out.result.value + [last.result.value] ==
          [first.result.value] + (rest.result.value + [last.result.value]);
      }
    }
  }

  /** A failed rebase changes nothing; a successful one extends the prefix. */
  lemma MovedStep(s: State, revs: seq<string>, onto: ID, i: nat, t: State, moved: seq<Snapshot>, parent: ID)
    requires MovedPrefix(s, revs, onto, i, t, moved, parent) && i < |revs|
    ensures var next := History.Rebase(t, revs[i], [parent]);
      if next.result.Ok? then
        MovedPrefix(s, revs, onto, i + 1, next.state, moved + [next.result.value], next.result.value.hash)
      else next.state == t && MovedSoFar(s, revs, onto, t, moved, false)
  {
    hide History.Rebase, History.RebaseMany;
    FailedRebase(t, revs[i], parent);
    RebaseManySnoc(s, revs[..i], onto, revs[i]);
    assert revs[..i + 1] == revs[..i] + [revs[i]];
  }

  lemma FailedRebase(s: State, rid: string, parent: ID)
    ensures var out := History.Rebase(s, rid, [parent]); out.result.Err? ==> out.state == s
  {
  }

  /** Prefix the snapshots already made to the outcome of the rest. */
  ghost function After(moved: seq<Snapshot>, rest: Outcome<seq<Snapshot>>): Outcome<seq<Snapshot>> {
    Outcome(rest.state, if rest.result.Ok? then Ok(moved + rest.result.value) else rest.result)
  }

  lemma RebaseManyEnd(s: State, revs: seq<string>, parent: ID, moved: seq<Snapshot>)
    ensures After(moved, History.RebaseMany(s, revs[|revs|..], parent)) == Outcome(s, Ok(moved))
  {
    assert revs[|revs|..] == [] && moved + [] == moved;
  }

  lemma RebaseManyUnfold(s: State, revs: seq<string>, i: nat, parent: ID, moved: seq<Snapshot>)
    requires i < |revs|
    ensures var first := History.Rebase(s, revs[i], [parent]);
      After(moved, History.RebaseMany(s, revs[i..], parent)) ==
        if first.result.Err? then Outcome(first.state, Err(first.result.error))
        else After(moved + [first.result.value],
          History.RebaseMany(first.state, revs[i + 1..], first.result.value.hash))
  {
    assert revs[i..][0] == revs[i] && revs[i..][1..] == revs[i + 1..];
    var first := History.Rebase(s, revs[i], [parent]);
    if first.result.Ok? {
      var rest := History.RebaseMany(first.state, revs[i + 1..], first.result.value.hash);
      assert rest.result.Ok? ==>
        moved + ([first.result.value] + rest.result.value) == (moved + [first.result.value]) + rest.result.value;
    }
  }
}
