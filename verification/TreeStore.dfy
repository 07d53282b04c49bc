/** Path reads and writes, diffs and conflict listings over stored trees (Workspace's tree walks). */
module TreeStore {
  import opened Prelude
  import opened Paths
  import opened Objects
  import opened Merge
  import opened MergeLaws
  import opened MergeStore
  import opened TreeEdit
  import opened TreeDiff
  import opened History
  import opened Store

  /** Merge: reads three trees, merges them, and stores the merged root. */
  method MergeStored(base: ID, ours: ID, theirs: ID, r: Repo) returns (id: ID, atoms: seq<Atom>)
    requires r.ObjectsValid()
    requires HoldsID(r.objects, base) && HoldsID(r.objects, ours) && HoldsID(r.objects, theirs)
    modifies r`objects
    ensures r.ObjectsValid() && Grows(old(r.objects), r.objects)
    ensures id == MergeIDs(base, ours, theirs) && HoldsID(r.objects, id)
    ensures atoms == MergeTrees(TreeOf(base), TreeOf(ours), TreeOf(theirs)).atoms
  {
    r.MustTreeHeld(base); r.MustTreeHeld(ours); r.MustTreeHeld(theirs);
    var merged;
    merged, atoms := Trees(r.MustTree(base), r.MustTree(ours), r.MustTree(theirs), r);
    id := WriteTree(merged, r);
  }

  method WriteTree(t: Tree, r: Repo) returns (id: ID)
    requires r.ObjectsValid() && Holds(r.objects, t)
    modifies r`objects
    ensures r.ObjectsValid() && Grows(old(r.objects), r.objects)
    ensures id == TreeID(t) && HoldsID(r.objects, id) && id in r.objects && Holds(r.objects, t)
  {
    ghost var before := r.objects;
    id := r.WriteObject(TreeObject(t));
    HoldsGrows(before, r.objects, t);
  }

  // ---- findEntry and resolvePath -----------------------------------------------------------------

  method FindEntry(t: Tree, path: string, r: Repo) returns (entry: Result<Entry>)
    requires r.ObjectsValid() && Holds(r.objects, t)
    ensures entry.Ok? <==> Find(t, Split(path)).Some?
    ensures entry.Ok? ==> Find(t, Split(path)) == Some(entry.value)
  {
    var components := SplitPath(path);
    if components[0] !in t.entries { return Err("no entry at path"); }
    var e := t.entries[components[0]];
    ghost var at := t;
    var i := 1;
    while i < |components|
      invariant 1 <= i <= |components|
      invariant components[i - 1] in at.entries && at.entries[components[i - 1]] == e
      invariant Holds(r.objects, at)
      invariant Find(t, components) == Find(at, components[i - 1..])
    {
      assert components[i - 1..][1..] == components[i..];
      r.ReadEntryHeld(at, components[i - 1]);
      if e.kind != KindTree { return Err("path traverses a non-tree"); }
      match r.ReadTree(e.id) {
        case Err(x) => return Err(x);
        case Ok(sub) =>
          if components[i] !in sub.entries { return Err("no entry at path"); }
          at := sub;
          e := sub.entries[components[i]];
      }
      i := i + 1;
    }
    return Ok(e);
  }

  /** The recursive closure of resolvePath, below component `idx`. */
  method RewriteStored(t: Tree, components: Path, idx: nat, chosen: ID, remove: bool, r: Repo) returns (clone: Tree)
    requires idx < |components|
    requires r.ObjectsValid() && Holds(r.objects, t)
    modifies r`objects
    ensures r.ObjectsValid() && Grows(old(r.objects), r.objects)
    ensures clone == Rewrite(t, components[idx..], chosen, remove) && Holds(r.objects, clone)
    decreases |components| - idx
  {
    var name := components[idx];
    ghost var before := r.objects;
    if idx == |components| - 1 {
      clone := if remove then Tree(t.entries - {name}) else Tree(t.entries[name := Entry(KindBlob, chosen)]);
      return;
    }
    assert components[idx..][1..] == components[idx + 1..];
    var child := EntryAt(t, name);
    var childTree := if name in t.entries && child.kind == KindTree then r.MustTree(child.id) else EMPTY_TREE;
    assert childTree == Child(t, name) && Holds(r.objects, childTree);
    var newChild := RewriteStored(childTree, components, idx + 1, chosen, remove, r);
    HoldsGrows(before, r.objects, t);
    if newChild.entries == map[] && remove {
      clone := Tree(t.entries - {name});
    } else {
      ghost var mid := r.objects;
      var id := WriteTree(newChild, r);
      HoldsGrows(mid, r.objects, t);
      clone := Tree(t.entries[name := Entry(KindTree, id)]);
    }
  }

  method ResolvePath(t: Tree, path: string, chosen: ID, remove: bool, r: Repo) returns (id: ID)
    requires r.ObjectsValid() && Holds(r.objects, t)
    modifies r`objects
    ensures r.ObjectsValid() && Grows(old(r.objects), r.objects)
    ensures id == TreeID(Rewrite(t, Split(path), chosen, remove)) && HoldsID(r.objects, id)
  {
    var components := SplitPath(path);
    var t' := RewriteStored(t, components, 0, chosen, remove, r);
    assert components[0..] == components;
    id := WriteTree(t', r);
  }

  // ---- Diff ---------------------------------------------------------------------------------------

  function Below(prefix: Path, cs: seq<FileChange>): (r: seq<FileChange>)
    ensures |r| == |cs| && forall i :: 0 <= i < |cs| ==> r[i] == cs[i].(path := prefix + cs[i].path)
  {
    seq(|cs|, i requires 0 <= i < |cs| => cs[i].(path := prefix + cs[i].path))
  }

  lemma BelowUnder(prefix: Path, n: string, cs: seq<FileChange>)
    ensures Below(prefix + [n], cs) == Below(prefix, Under(n, cs))
  {
    forall i | 0 <= i < |cs| ensures Below(prefix + [n], cs)[i] == Below(prefix, Under(n, cs))[i] {
      assert prefix + [n] + cs[i].path == prefix + ([n] + cs[i].path);
    }
  }

  lemma BelowConcat(prefix: Path, cs: seq<FileChange>, ds: seq<FileChange>)
    ensures Below(prefix, cs + ds) == Below(prefix, cs) + Below(prefix, ds)
  {
  }

  lemma BelowRoot(cs: seq<FileChange>)
    ensures Below([], cs) == cs
  {
    forall i | 0 <= i < |cs| ensures Below([], cs)[i] == cs[i] {
      assert [] + cs[i].path == cs[i].path;
    }
  }

  lemma FlattenOverStep(names: seq<string>, i: nat, t: Tree, status: Status, prefix: Path)
    requires i < |names|
    ensures Below(prefix, FlattenOver(names[i..], t, status)) ==
      Below(prefix, FlattenName(names[i], t, status)) + Below(prefix, FlattenOver(names[i + 1..], t, status))
  {
    assert names[i..][0] == names[i] && names[i..][1..] == names[i + 1..];
    BelowConcat(prefix, FlattenName(names[i], t, status), FlattenOver(names[i + 1..], t, status));
  }

  lemma FlattenNameBelow(prefix: Path, n: string, t: Tree, status: Status)
    requires n in t.entries
    ensures Below(prefix, FlattenName(n, t, status)) ==
      if IsDir(t.entries[n]) then Below(prefix + [n], Flatten(Child(t, n), status))
      else [FlattenLeaf(prefix + [n], t.entries[n].id, status)]
  {
    if IsDir(t.entries[n]) { BelowUnder(prefix, n, Flatten(Child(t, n), status)); }
  }

  /** What is left to append is shorter by the part just appended. */
  lemma Appended<T>(res: seq<T>, part: seq<T>, todo: seq<T>, rest: seq<T>, whole: seq<T>)
    requires res + todo == whole && todo == part + rest
    ensures (res + part) + rest == whole
  {
    assert (res + part) + rest == res + (part + rest);
  }

  /** flattenTree: appends one change for every leaf of a tree that is wholly added or removed. */
  method FlattenTree(prefix: Path, t: Tree, status: Status, out: seq<FileChange>, r: Repo)
    returns (res: seq<FileChange>)
    requires r.ObjectsValid() && Holds(r.objects, t)
    ensures res == out + Below(prefix, Flatten(t, status))
    decreases Height(t), 1
  {
    var names := Sorted(t.entries.Keys);
    WholeSlices(names);
    ghost var whole := out + Below(prefix, Flatten(t, status));
    res := out;
    var i := 0;
    while i < |names|
      invariant i <= |names|
      invariant res + Below(prefix, FlattenOver(names[i..], t, status)) == whole
    {
      assert names[i] in names;
      FlattenOverStep(names, i, t, status, prefix);
      FlattenNameBelow(prefix, names[i], t, status);
      Appended(res, Below(prefix, FlattenName(names[i], t, status)), Below(prefix, FlattenOver(names[i..], t, status)),
        Below(prefix, FlattenOver(names[i + 1..], t, status)), whole);
      res := FlattenOne(prefix, names[i], t, status, res, r);
      i := i + 1;
    }
  }

  method FlattenOne(prefix: Path, n: string, t: Tree, status: Status, out: seq<FileChange>, r: Repo)
    returns (res: seq<FileChange>)
    requires r.ObjectsValid() && Holds(r.objects, t) && n in t.entries
    ensures res == out + if IsDir(t.entries[n]) then Below(prefix + [n], Flatten(Child(t, n), status))
      else [FlattenLeaf(prefix + [n], t.entries[n].id, status)]
    decreases Height(t), 0
  {
    r.ReadEntryHeld(t, n);
    HeightChild(t, n);
    var sub := EntryAsTree(r, t.entries[n]);
    if sub.Some? {
      res := FlattenTree(prefix + [n], sub.value, status, out, r);
    } else {
      res := out + [FlattenLeaf(prefix + [n], t.entries[n].id, status)];
    }
  }

  lemma DiffOverStep(names: seq<string>, i: nat, a: Tree, b: Tree, prefix: Path)
    requires i < |names|
    ensures Below(prefix, DiffOver(names[i..], a, b)) ==
      Below(prefix, DiffName(names[i], a, b)) + Below(prefix, DiffOver(names[i + 1..], a, b))
  {
    assert names[i..][0] == names[i] && names[i..][1..] == names[i + 1..];
    BelowConcat(prefix, DiffName(names[i], a, b), DiffOver(names[i + 1..], a, b));
  }

  /** diffTree: appends the changes between two trees, in walk order. */
  method DiffTree(prefix: Path, a: Tree, b: Tree, out: seq<FileChange>, r: Repo) returns (res: seq<FileChange>)
    requires r.ObjectsValid() && Holds(r.objects, a) && Holds(r.objects, b)
    ensures res == out + Below(prefix, DiffTrees(a, b))
    decreases Height(a) + Height(b), 1
  {
    var names := Sorted(a.entries.Keys + b.entries.Keys);
    WholeSlices(names);
    ghost var whole := out + Below(prefix, DiffTrees(a, b));
    res := out;
    var i := 0;
    while i < |names|
      invariant i <= |names|
      invariant res + Below(prefix, DiffOver(names[i..], a, b)) == whole
    {
      DiffOverStep(names, i, a, b, prefix);
      Appended(res, Below(prefix, DiffName(names[i], a, b)), Below(prefix, DiffOver(names[i..], a, b)),
        Below(prefix, DiffOver(names[i + 1..], a, b)), whole);
      res := DiffEntry(prefix, names[i], a, b, res, r);
      i := i + 1;
    }
  }

  lemma DiffNameBelow(prefix: Path, n: string, a: Tree, b: Tree)
    ensures var ea, eb := EntryAt(a, n), EntryAt(b, n);
      Below(prefix, DiffName(n, a, b)) ==
        if IsDir(ea) && IsDir(eb) then Below(prefix + [n], DiffTrees(Child(a, n), Child(b, n)))
        else if IsDir(ea) then Below(prefix + [n], Flatten(Child(a, n), Removed))
        else if IsDir(eb) then Below(prefix + [n], Flatten(Child(b, n), Added))
        else Below(prefix, DiffName(n, a, b))
  {
    var ea, eb := EntryAt(a, n), EntryAt(b, n);
    if IsDir(ea) && IsDir(eb) { BelowUnder(prefix, n, DiffTrees(Child(a, n), Child(b, n))); }
    else if IsDir(ea) { BelowUnder(prefix, n, Flatten(Child(a, n), Removed)); }
    else if IsDir(eb) { BelowUnder(prefix, n, Flatten(Child(b, n), Added)); }
  }

  /** The body of diffTree's loop for one name. */
  method DiffEntry(prefix: Path, n: string, a: Tree, b: Tree, out: seq<FileChange>, r: Repo)
    returns (res: seq<FileChange>)
    requires r.ObjectsValid() && Holds(r.objects, a) && Holds(r.objects, b)
    ensures res == out + Below(prefix, DiffName(n, a, b))
    decreases Height(a) + Height(b), 0
  {
    var ea, eb := EntryAt(a, n), EntryAt(b, n);
    EntryAsTreeHeld(r, a, n); EntryAsTreeHeld(r, b, n);
    HeightChild(a, n); HeightChild(b, n);
    DiffNameBelow(prefix, n, a, b);
    var path := prefix + [n];
    var aTree, bTree := EntryAsTree(r, ea), EntryAsTree(r, eb);
    if aTree.Some? && bTree.Some? {
      res := DiffTree(path, aTree.value, bTree.value, out, r);
    } else if aTree.Some? {
      res := FlattenTree(path, aTree.value, Removed, out, r);
    } else if bTree.Some? {
      res := FlattenTree(path, bTree.value, Added, out, r);
    } else {
      var aBlob, bBlob := n in a.entries && ea.kind == KindBlob, n in b.entries && eb.kind == KindBlob;
      if aBlob && bBlob && ea.id == eb.id {
        res := out;
      } else if aBlob && bBlob {
        res := out + [FileChange(path, Modified, ea.id, eb.id)];
      } else if aBlob {
        res := out + [FileChange(path, Removed, ea.id, Zero)];
      } else if bBlob {
        res := out + [FileChange(path, Added, Zero, eb.id)];
      } else {
        res := out;
      }
    }
  }

  /** Diff: walk, then sort by path. */
  method DiffStored(a: ID, b: ID, r: Repo) returns (out: seq<FileChange>)
    requires r.ObjectsValid() && HoldsID(r.objects, a) && HoldsID(r.objects, b)
    ensures out == Diff(TreeOf(a), TreeOf(b))
  {
    r.MustTreeHeld(a); r.MustTreeHeld(b);
    var walk := DiffTree([], r.MustTree(a), r.MustTree(b), [], r);
    SortedWalk(walk, TreeOf(a), TreeOf(b));
    out := SortChanges(walk);
  }

  lemma SortedWalk(walk: seq<FileChange>, a: Tree, b: Tree)
    requires walk == [] + Below([], DiffTrees(a, b))
    ensures SortChanges(walk) == Diff(a, b)
  {
    BelowRoot(DiffTrees(a, b));
    assert walk == DiffTrees(a, b);
  }

  /** allTreePaths: every leaf path in walk order (collectPaths visits what flattenTree lists). */
  method AllTreePaths(id: ID, r: Repo) returns (paths: seq<string>)
    requires r.ObjectsValid() && HoldsID(r.objects, id)
    ensures paths == RenderAll(Flatten(TreeOf(id), Added))
  {
    r.MustTreeHeld(id);
    var out := FlattenTree([], r.MustTree(id), Added, [], r);
    BelowRoot(Flatten(TreeOf(id), Added));
    paths := RenderAll(out);
  }

  // ---- ConflictsInTree ------------------------------------------------------------------------------

  function AtomsBelow(prefix: Path, atoms: seq<Atom>): (r: seq<Atom>)
    ensures |r| == |atoms| && forall i :: 0 <= i < |atoms| ==> r[i] == Atom(prefix + atoms[i].path, atoms[i].id)
  {
    seq(|atoms|, i requires 0 <= i < |atoms| => Atom(prefix + atoms[i].path, atoms[i].id))
  }

  lemma AtomsBelowPrefixed(prefix: Path, n: string, atoms: seq<Atom>)
    ensures AtomsBelow(prefix + [n], atoms) == AtomsBelow(prefix, Prefixed(n, atoms))
  {
    forall i | 0 <= i < |atoms|
      ensures AtomsBelow(prefix + [n], atoms)[i] == AtomsBelow(prefix, Prefixed(n, atoms))[i]
    {
      assert prefix + [n] + atoms[i].path == prefix + ([n] + atoms[i].path);
    }
  }

  lemma ConflictsOverStep(names: seq<string>, i: nat, t: Tree, prefix: Path)
    requires i < |names|
    ensures AtomsBelow(prefix, ConflictsOver(names[i..], t)) ==
      AtomsBelow(prefix, ConflictsAtName(names[i], t)) + AtomsBelow(prefix, ConflictsOver(names[i + 1..], t))
  {
    assert names[i..][0] == names[i] && names[i..][1..] == names[i + 1..];
  }

  /** collectConflicts. */
  method CollectConflicts(prefix: Path, t: Tree, out: seq<Atom>, r: Repo) returns (res: seq<Atom>)
    requires r.ObjectsValid() && Holds(r.objects, t)
    ensures res == out + AtomsBelow(prefix, Conflicts(t))
    decreases Height(t), 1
  {
    var names := Sorted(t.entries.Keys);
    WholeSlices(names);
    ghost var whole := out + AtomsBelow(prefix, Conflicts(t));
    res := out;
    var i := 0;
    while i < |names|
      invariant i <= |names|
      invariant res + AtomsBelow(prefix, ConflictsOver(names[i..], t)) == whole
    {
      assert names[i] in names;
      ConflictsOverStep(names, i, t, prefix);
      Appended(res, AtomsBelow(prefix, ConflictsAtName(names[i], t)), AtomsBelow(prefix, ConflictsOver(names[i..], t)),
        AtomsBelow(prefix, ConflictsOver(names[i + 1..], t)), whole);
      res := CollectEntry(prefix, names[i], t, res, r);
      i := i + 1;
    }
  }

  method CollectEntry(prefix: Path, n: string, t: Tree, out: seq<Atom>, r: Repo) returns (res: seq<Atom>)
    requires r.ObjectsValid() && Holds(r.objects, t) && n in t.entries
    ensures res == out + AtomsBelow(prefix, ConflictsAtName(n, t))
    decreases Height(t), 0
  {
    var e := t.entries[n];
    r.ReadEntryHeld(t, n);
    HeightChild(t, n);
    if e.kind == KindConflict { return out + [Atom(prefix + [n], e.id)]; }
    var sub := EntryAsTree(r, e);
    if sub.Some? {
      AtomsBelowPrefixed(prefix, n, Conflicts(sub.value));
      res := CollectConflicts(prefix + [n], sub.value, out, r);
    } else {
      res := out;
    }
  }

  method ConflictsInTree(id: ID, r: Repo) returns (out: seq<Atom>)
    requires r.ObjectsValid() && HoldsID(r.objects, id)
    ensures out == Conflicts(TreeOf(id))
  {
    r.MustTreeHeld(id);
    out := CollectConflicts([], r.MustTree(id), [], r);
    var atoms := Conflicts(TreeOf(id));
    assert AtomsBelow([], atoms) == atoms by {
      forall i | 0 <= i < |atoms| ensures AtomsBelow([], atoms)[i] == atoms[i] {
        assert [] + atoms[i].path == atoms[i].path;
      }
    }
  }
}
