/** The persistence boundary: the tables of a repository and the row operations on them. */
module Store {
  import opened Prelude
  import opened Objects
  import opened History
  import opened Evolution

  /** Every directory and conflict object the tree refers to, at any depth, is stored. */
  predicate Holds(objects: map<ID, Object>, t: Tree)
    decreases t
  {
    forall n | n in t.entries ::
      var e := t.entries[n];
      (IsDir(e) ==> e.id in objects && Holds(objects, e.id.obj.tree)) && (e.kind == KindConflict ==> e.id in objects)
  }

  /** The id reads as a stored tree, or as no tree at all. */
  predicate HoldsID(objects: map<ID, Object>, id: ID) {
    IsTreeID(id) ==> id in objects && Holds(objects, id.obj.tree)
  }

  ghost predicate ContentAddressed(objects: map<ID, Object>) {
    forall id :: id in objects ==> id == Digest(objects[id])
  }

  ghost predicate Grows(before: map<ID, Object>, after: map<ID, Object>) {
    before.Keys <= after.Keys
  }

  lemma {:induction false} HoldsGrows(before: map<ID, Object>, after: map<ID, Object>, t: Tree)
    requires Grows(before, after) && Holds(before, t)
    ensures Holds(after, t)
    decreases t
  {
    forall n | n in t.entries && IsDir(t.entries[n]) ensures Holds(after, t.entries[n].id.obj.tree) {
      HoldsGrows(before, after, t.entries[n].id.obj.tree);
    }
  }

  lemma HoldsIDGrows(before: map<ID, Object>, after: map<ID, Object>, id: ID)
    requires Grows(before, after) && HoldsID(before, id)
    ensures HoldsID(after, id)
  {
    if IsTreeID(id) { HoldsGrows(before, after, id.obj.tree); }
  }

  /** The tree of every snapshot is stored. */
  predicate StoredIn(objects: map<ID, Object>, snaps: map<ID, Snapshot>) {
    forall h | h in snaps :: HoldsID(objects, snaps[h].tree)
  }

  lemma StoredInGrows(before: map<ID, Object>, after: map<ID, Object>, snaps: map<ID, Snapshot>)
    requires Grows(before, after) && StoredIn(before, snaps)
    ensures StoredIn(after, snaps)
  {
    forall h | h in snaps ensures HoldsID(after, snaps[h].tree) { HoldsIDGrows(before, after, snaps[h].tree); }
  }

  datatype RefKind = Branch | Tag

  /** A named pointer to a revision. */
  datatype Ref = Ref(name: string, kind: RefKind, target: string)

  class Repo {
    var objects: map<ID, Object>
    var snapshots: map<ID, Snapshot>
    var revisions: map<string, Revision>
    var refs: map<string, Ref>

    ghost predicate ObjectsValid()
      reads this`objects
    {
      ContentAddressed(objects)
    }

    function State(): State
      reads this`snapshots, this`revisions
    {
      History.State.State(snapshots, revisions)
    }

    ghost predicate TreesStored()
      reads this
    {
      StoredIn(objects, snapshots)
    }

    ghost predicate Valid()
      reads this
    {
      ObjectsValid() && Inv(State()) && TreesStored()
    }

    constructor ()
      ensures Valid() && objects == map[] && State() == EMPTY_STATE && refs == map[]
    {
      objects := map[];
      snapshots := map[];
      revisions := map[];
      refs := map[];
    }

    // ---- objects --------------------------------------------------------------------------------

    /** Content-addressed insert: an existing row is left alone. */
    method WriteObject(o: Object) returns (id: ID)
      requires ObjectsValid()
      modifies this`objects
      ensures id == Digest(o) && objects == old(objects)[id := o] && ObjectsValid()
    {
      id := Digest(o);
      if id !in objects {
        objects := objects[id := o];
      }
    }

    function ReadObject(id: ID): Result<Object>
      reads this`objects
    {
      if id in objects then Ok(objects[id]) else Err("store: not found")
    }

    function ReadTree(id: ID): Result<Tree>
      reads this`objects
    {
      match ReadObject(id)
      case Err(e) => Err(e)
      case Ok(o) => if o.TreeObject? then Ok(o.tree) else Err("object is not a tree")
    }

    /** Reads a tree, or falls back to an empty one. */
    function MustTree(id: ID): Tree
      reads this`objects
    {
      match ReadTree(id) case Ok(t) => t case Err(_) => EMPTY_TREE
    }

    lemma MustTreeHeld(id: ID)
      requires ObjectsValid() && HoldsID(objects, id)
      ensures MustTree(id) == TreeOf(id) && Holds(objects, TreeOf(id))
    {
    }

    /** Reading a directory entry of a held tree succeeds exactly for directories. */
    lemma ReadEntryHeld(t: Tree, n: string)
      requires ObjectsValid() && Holds(objects, t) && n in t.entries
      ensures var e := t.entries[n];
        if IsDir(e) then ReadTree(e.id) == Ok(e.id.obj.tree) && Holds(objects, e.id.obj.tree)
        else !(e.kind == KindTree && ReadTree(e.id).Ok?)
    {
    }

    // ---- snapshots and revisions ------------------------------------------------------------------

    method PutSnapshot(n: Snapshot)
      modifies this`snapshots
      ensures State() == History.PutSnapshot(old(State()), n)
    {
      snapshots := snapshots[n.hash := n];
    }

    function GetSnapshot(h: ID): Result<Snapshot>
      reads this`snapshots
    {
      if h in snapshots then Ok(snapshots[h]) else Err("store: not found")
    }

    method PutRevision(r: Revision)
      modifies this`revisions
      ensures State() == History.PutRevision(old(State()), r)
    {
      revisions := revisions[r.id := r];
    }

    function GetRevision(id: string): Result<Revision>
      reads this`revisions
    {
      if id in revisions then Ok(revisions[id]) else Err("store: not found")
    }

    /** Repoints a revision only if it still points at `expected`. */
    method UpdateRevisionHashCAS(id: string, expected: ID, hash: ID) returns (ok: bool)
      modifies this`revisions
      ensures ok <==> id in old(revisions) && old(revisions)[id].hash == expected
      ensures State() ==
        if ok then History.PutRevision(old(State()), old(revisions)[id].(hash := hash)) else old(State())
    {
      match GetRevision(id)
      case Err(_) => ok := false;
      case Ok(r) =>
        ok := r.hash == expected;
        if ok { PutRevision(r.(hash := hash)); }
    }

    method UpdateRevisionHash(id: string, hash: ID) returns (ok: bool)
      modifies this`revisions
      ensures ok <==> id in old(revisions)
      ensures State() ==
        if ok then History.PutRevision(old(State()), old(revisions)[id].(hash := hash)) else old(State())
    {
      match GetRevision(id)
      case Err(_) => ok := false;
      case Ok(r) =>
        PutRevision(r.(hash := hash));
        ok := true;
    }

    /** Revision ids in the order the table lists them. */
    function ListRevisions(): seq<string>
      reads this`revisions
    {
      Sorted(revisions.Keys)
    }

    method PutRef(r: Ref)
      modifies this`refs
      ensures refs == old(refs)[r.name := r]
    {
      refs := refs[r.name := r];
    }
  }
}
