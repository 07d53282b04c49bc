/** Tree diff (Diff, diffTree, flattenTree) and its inverse. */
module TreeDiff {
  import opened Prelude
  import opened Paths
  import opened Objects
  import opened Merge
  import opened MergeLaws
  import opened TreeEdit

  datatype Status = Added | Modified | Removed

  /** Zero stands for the id a status does not carry. */
  datatype FileChange = FileChange(path: Path, status: Status, oldID: ID, newID: ID)

  function Under(name: string, cs: seq<FileChange>): (r: seq<FileChange>)
    ensures |r| == |cs|
    ensures forall i :: 0 <= i < |cs| ==> r[i] == cs[i].(path := [name] + cs[i].path)
  {
    seq(|cs|, i requires 0 <= i < |cs| => cs[i].(path := [name] + cs[i].path))
  }

  // ---- flattenTree -----------------------------------------------------------------------------

  function Flatten(t: Tree, status: Status): seq<FileChange>
    decreases t, 1, 0
  {
    FlattenOver(Sorted(t.entries.Keys), t, status)
  }

  function FlattenOver(names: seq<string>, t: Tree, status: Status): seq<FileChange>
    decreases t, 0, |names|
  {
    if names == [] then [] else FlattenName(names[0], t, status) + FlattenOver(names[1..], t, status)
  }

  function FlattenName(n: string, t: Tree, status: Status): seq<FileChange>
    decreases t, 0, 0
  {
    if n !in t.entries then []
    else if IsDir(t.entries[n]) then Under(n, Flatten(t.entries[n].id.obj.tree, status))
    else [FlattenLeaf([n], t.entries[n].id, status)]
  }

  function FlattenLeaf(p: Path, id: ID, status: Status): FileChange {
    if status == Removed then FileChange(p, status, id, Zero) else FileChange(p, status, Zero, id)
  }

  // ---- diffTree --------------------------------------------------------------------------------

  function DiffTrees(a: Tree, b: Tree): seq<FileChange>
    decreases Height(a) + Height(b), 1, 0
  {
    DiffOver(Sorted(a.entries.Keys + b.entries.Keys), a, b)
  }

  function DiffOver(names: seq<string>, a: Tree, b: Tree): seq<FileChange>
    decreases Height(a) + Height(b), 0, |names|
  {
    if names == [] then [] else DiffName(names[0], a, b) + DiffOver(names[1..], a, b)
  }

  function DiffName(n: string, a: Tree, b: Tree): seq<FileChange>
    decreases Height(a) + Height(b), 0, 0
  {
    var ea, eb := EntryAt(a, n), EntryAt(b, n);
    if IsDir(ea) && IsDir(eb) then
      HeightChild(a, n); HeightChild(b, n);
      Under(n, DiffTrees(ea.id.obj.tree, eb.id.obj.tree))
    else if IsDir(ea) then Under(n, Flatten(ea.id.obj.tree, Removed))
    else if IsDir(eb) then Under(n, Flatten(eb.id.obj.tree, Added))
    else
      var aBlob, bBlob := n in a.entries && ea.kind == KindBlob, n in b.entries && eb.kind == KindBlob;
      if aBlob && bBlob && ea.id == eb.id then []
      else if aBlob && bBlob then [FileChange([n], Modified, ea.id, eb.id)]
      else if aBlob then [FileChange([n], Removed, ea.id, Zero)]
      else if bBlob then [FileChange([n], Added, Zero, eb.id)]
      else []
  }

  // ---- What is listed --------------------------------------------------------------------------

  /** The change a reader expects at a path from the two leaves there. */
  function Expected(p: Path, x: Option<Entry>, y: Option<Entry>): Option<FileChange> {
    if x == y then None
    else if x.None? then Some(FileChange(p, Added, Zero, y.value.id))
    else if y.None? then Some(FileChange(p, Removed, x.value.id, Zero))
    else Some(FileChange(p, Modified, x.value.id, y.value.id))
  }

  /** The directory that holds `p` is there; the root always is. */
  predicate HolderAt(t: Tree, p: Path) { |p| <= 1 || DirAt(t, p[..|p| - 1]) }

  /** The leaf of `t` at `p`, as the walk sees it. A directory of the other tree hides it, and a conflict
      is seen only below a directory that the other tree does not have. */
  ghost function Seen(t: Tree, other: Tree, p: Path): Option<Entry> {
    var leaf := LeafAt(t, p);
    if DirAt(other, p) || (leaf.Some? && leaf.value.kind == KindConflict && HolderAt(other, p)) then None else leaf
  }

  /** Every path is listed at most once. */
  ghost predicate DistinctPaths(cs: seq<FileChange>) {
    forall i, j :: 0 <= i < j < |cs| ==> cs[i].path != cs[j].path
  }

  ghost predicate StartsIn(cs: seq<FileChange>, names: seq<string>) {
    forall c :: c in cs ==> c.path != [] && c.path[0] in names
  }

  lemma DistinctConcat(cs: seq<FileChange>, ds: seq<FileChange>, n: string, names: seq<string>)
    requires DistinctPaths(cs) && DistinctPaths(ds) && StartsIn(cs, [n]) && StartsIn(ds, names) && n !in names
    ensures DistinctPaths(cs + ds) && StartsIn(cs + ds, [n] + names)
  {
    forall i, j | 0 <= i < j < |cs + ds| ensures (cs + ds)[i].path != (cs + ds)[j].path {
      if i < |cs| <= j {
        assert cs[i] in cs && ds[j - |cs|] in ds;
      }
    }
  }

  lemma UnderStarts(n: string, cs: seq<FileChange>)
    requires DistinctPaths(cs)
    ensures DistinctPaths(Under(n, cs)) && StartsIn(Under(n, cs), [n])
  {
    forall i, j | 0 <= i < j < |cs| ensures Under(n, cs)[i].path != Under(n, cs)[j].path {
      assert ([n] + cs[i].path)[1..] == cs[i].path && ([n] + cs[j].path)[1..] == cs[j].path;
    }
  }

  lemma InUnder(n: string, cs: seq<FileChange>, c: FileChange)
    ensures c in Under(n, cs) <==> c.path != [] && c.path[0] == n && c.(path := c.path[1..]) in cs
  {
    if c in Under(n, cs) {
      var i :| 0 <= i < |cs| && Under(n, cs)[i] == c;
      assert ([n] + cs[i].path)[1..] == cs[i].path;
    }
    if c.path != [] && c.path[0] == n && c.(path := c.path[1..]) in cs {
      var i :| 0 <= i < |cs| && cs[i] == c.(path := c.path[1..]);
      assert c.path == [n] + cs[i].path;
      assert Under(n, cs)[i] == c;
    }
  }

  lemma {:induction false} FlattenExact(t: Tree, status: Status)
    ensures DistinctPaths(Flatten(t, status))
    ensures forall c :: c in Flatten(t, status) <==>
      LeafAt(t, c.path).Some? && c == FlattenLeaf(c.path, LeafAt(t, c.path).value.id, status)
    decreases t, 1, 0
  {
    SortedFresh(t.entries.Keys);
    FlattenOverExact(Sorted(t.entries.Keys), t, status);
  }

  lemma {:induction false} FlattenOverExact(names: seq<string>, t: Tree, status: Status)
    requires Fresh(names)
    ensures DistinctPaths(FlattenOver(names, t, status)) && StartsIn(FlattenOver(names, t, status), names)
    ensures forall c :: c in FlattenOver(names, t, status) <==>
      LeafAt(t, c.path).Some? && c.path[0] in names && c == FlattenLeaf(c.path, LeafAt(t, c.path).value.id, status)
    decreases t, 0, |names|
  {
    if names != [] {
      var n, rest := names[0], names[1..];
      FlattenNameExact(n, t, status);
      FlattenOverExact(rest, t, status);
      DistinctConcat(FlattenName(n, t, status), FlattenOver(rest, t, status), n, rest);
      assert names == [n] + rest;
    }
  }

  lemma {:induction false} FlattenNameExact(n: string, t: Tree, status: Status)
    ensures DistinctPaths(FlattenName(n, t, status)) && StartsIn(FlattenName(n, t, status), [n])
    ensures forall c :: c in FlattenName(n, t, status) <==>
      LeafAt(t, c.path).Some? && c.path[0] == n && c == FlattenLeaf(c.path, LeafAt(t, c.path).value.id, status)
    decreases t, 0, 0
  {
    if n in t.entries && IsDir(t.entries[n]) {
      var sub := t.entries[n].id.obj.tree;
      FlattenExact(sub, status);
      UnderStarts(n, Flatten(sub, status));
      forall c ensures c in FlattenName(n, t, status) <==>
        LeafAt(t, c.path).Some? && c.path[0] == n && c == FlattenLeaf(c.path, LeafAt(t, c.path).value.id, status)
      {
        InUnder(n, Flatten(sub, status), c);
      }
    } else {
      forall c ensures c in FlattenName(n, t, status) <==>
        LeafAt(t, c.path).Some? && c.path[0] == n && c == FlattenLeaf(c.path, LeafAt(t, c.path).value.id, status)
      {
        if LeafAt(t, c.path).Some? && c.path[0] == n {
          LeafOnlyAtName(t, n, c.path);
        }
      }
    }
  }

  lemma EmptyHasNothing(p: Path)
    ensures LeafAt(EMPTY_TREE, p) == None && !DirAt(EMPTY_TREE, p)
  {
  }

  lemma LeafOnlyAtName(t: Tree, n: string, p: Path)
    requires !IsDir(EntryAt(t, n)) && p != [] && p[0] == n && LeafAt(t, p).Some?
    ensures p == [n] && n in t.entries && LeafAt(t, p) == Some(t.entries[n])
  {
    EmptyHasNothing(p[1..]);
  }

  // ---- Diff is exact ---------------------------------------------------------------------------

  /**
   * Diff lists each path at most once, and lists a path exactly when what is visible there differs, with
   * the status and ids of the two leaves.
   */
  lemma {:induction false} DiffExact(a: Tree, b: Tree)
    requires WellTyped(a) && WellTyped(b)
    ensures DistinctPaths(DiffTrees(a, b))
    ensures forall c :: c in DiffTrees(a, b) <==> Expected(c.path, Seen(a, b, c.path), Seen(b, a, c.path)) == Some(c)
    decreases Height(a) + Height(b), 1, 0
  {
    var names := a.entries.Keys + b.entries.Keys;
    SortedFresh(names);
    DiffOverExact(Sorted(names), a, b);
    assert DiffTrees(a, b) == DiffOver(Sorted(names), a, b);
    hide Seen, LeafAt, DiffTrees, DiffOver, Sorted, WellTyped;
    forall c: FileChange | Expected(c.path, Seen(a, b, c.path), Seen(b, a, c.path)) == Some(c)
      ensures c.path != [] && c.path[0] in names
    {
      SeenAtName(a, b, c.path);
      SeenAtName(b, a, c.path);
    }
  }

  lemma SeenAtName(t: Tree, other: Tree, p: Path)
    ensures Seen(t, other, p).Some? ==> p != [] && p[0] in t.entries
  {
  }

  lemma {:induction false} DiffOverExact(names: seq<string>, a: Tree, b: Tree)
    requires WellTyped(a) && WellTyped(b) && Fresh(names)
    ensures DistinctPaths(DiffOver(names, a, b)) && StartsIn(DiffOver(names, a, b), names)
    ensures forall c :: c in DiffOver(names, a, b) <==>
      c.path != [] && c.path[0] in names && Expected(c.path, Seen(a, b, c.path), Seen(b, a, c.path)) == Some(c)
    decreases Height(a) + Height(b), 0, |names|
  {
    if names != [] {
      var n, rest := names[0], names[1..];
      DiffNameExact(n, a, b);
      DiffOverExact(rest, a, b);
      DistinctConcat(DiffName(n, a, b), DiffOver(rest, a, b), n, rest);
      assert names == [n] + rest;
    }
  }

  lemma {:induction false} DiffNameExact(n: string, a: Tree, b: Tree)
    requires WellTyped(a) && WellTyped(b)
    ensures DistinctPaths(DiffName(n, a, b)) && StartsIn(DiffName(n, a, b), [n])
    ensures forall c :: c in DiffName(n, a, b) <==>
      c.path != [] && c.path[0] == n && Expected(c.path, Seen(a, b, c.path), Seen(b, a, c.path)) == Some(c)
    decreases Height(a) + Height(b), 0, 0
  {
    if IsDir(EntryAt(a, n)) && IsDir(EntryAt(b, n)) {
      HeightChild(a, n); HeightChild(b, n);
      WellTypedChild(a, n); WellTypedChild(b, n);
      DiffExact(Child(a, n), Child(b, n));
      UnderStarts(n, DiffTrees(Child(a, n), Child(b, n)));
      forall c: FileChange ensures c in DiffName(n, a, b) <==>
        c.path != [] && c.path[0] == n && Expected(c.path, Seen(a, b, c.path), Seen(b, a, c.path)) == Some(c)
      {
        DiffNameBothDirs(n, a, b, c);
        assert ListsExactly(n, a, b, c);
      }
    } else if IsDir(EntryAt(a, n)) {
      FlattenExact(Child(a, n), Removed);
      UnderStarts(n, Flatten(Child(a, n), Removed));
      forall c: FileChange ensures c in DiffName(n, a, b) <==>
        c.path != [] && c.path[0] == n && Expected(c.path, Seen(a, b, c.path), Seen(b, a, c.path)) == Some(c)
      {
        DiffNameLeftDir(n, a, b, c);
        assert ListsExactly(n, a, b, c);
      }
    } else if IsDir(EntryAt(b, n)) {
      FlattenExact(Child(b, n), Added);
      UnderStarts(n, Flatten(Child(b, n), Added));
      forall c: FileChange ensures c in DiffName(n, a, b) <==>
        c.path != [] && c.path[0] == n && Expected(c.path, Seen(a, b, c.path), Seen(b, a, c.path)) == Some(c)
      {
        DiffNameRightDir(n, a, b, c);
        assert ListsExactly(n, a, b, c);
      }
    } else {
      forall c: FileChange ensures c in DiffName(n, a, b) <==>
        c.path != [] && c.path[0] == n && Expected(c.path, Seen(a, b, c.path), Seen(b, a, c.path)) == Some(c)
      {
        DiffNameLeaves(n, a, b, c);
        assert ListsExactly(n, a, b, c);
      }
    }
  }

  ghost predicate ListsExactly(n: string, a: Tree, b: Tree, c: FileChange) {
    c in DiffName(n, a, b) <==>
      c.path != [] && c.path[0] == n && Expected(c.path, Seen(a, b, c.path), Seen(b, a, c.path)) == Some(c)
  }

  /** Below a name at which the other tree has a directory, the walk goes on with both subtrees. */
  lemma SeenBelow(t: Tree, other: Tree, p: Path)
    requires |p| > 1 && IsDir(EntryAt(other, p[0]))
    ensures Seen(t, other, p) == Seen(Child(t, p[0]), Child(other, p[0]), p[1..])
  {
    assert p == [p[0]] + p[1..];
    LeafAtCons(t, p[0], p[1..]);
    LeafAtCons(other, p[0], p[1..]);
    HolderBelow(other, p);
  }

  lemma HolderBelow(t: Tree, p: Path)
    requires |p| > 1
    ensures HolderAt(t, p) <==> IsDir(EntryAt(t, p[0])) && HolderAt(Child(t, p[0]), p[1..])
  {
    var q := p[..|p| - 1];
    assert q[0] == p[0] && q[1..] == p[1..][..|p| - 2];
    if |p| > 2 {
      assert q == [p[0]] + q[1..];
      LeafAtCons(t, p[0], q[1..]);
    }
  }

  /** Below a name at which only this tree has a directory, every leaf of it is seen and none of the other. */
  lemma SeenBeside(t: Tree, other: Tree, p: Path)
    requires |p| > 1 && !IsDir(EntryAt(other, p[0]))
    ensures Seen(t, other, p) == LeafAt(Child(t, p[0]), p[1..]) && Seen(other, t, p) == None
  {
    assert p == [p[0]] + p[1..];
    LeafAtCons(t, p[0], p[1..]);
    LeafAtCons(other, p[0], p[1..]);
    EmptyHasNothing(p[1..]);
    HolderBelow(other, p);
  }

  lemma ExpectedUnder(n: string, p: Path, x: Option<Entry>, y: Option<Entry>)
    ensures Expected([n] + p, x, y) ==
      if Expected(p, x, y).None? then None else Some(Expected(p, x, y).value.(path := [n] + p))
  {
  }

  lemma DiffNameBothDirs(n: string, a: Tree, b: Tree, c: FileChange)
    requires IsDir(EntryAt(a, n)) && IsDir(EntryAt(b, n))
    requires forall d :: d in DiffTrees(Child(a, n), Child(b, n)) <==>
      Expected(d.path, Seen(Child(a, n), Child(b, n), d.path), Seen(Child(b, n), Child(a, n), d.path)) == Some(d)
    ensures ListsExactly(n, a, b, c)
  {
    InUnder(n, DiffTrees(Child(a, n), Child(b, n)), c);
    if c.path != [] && c.path[0] == n {
      var p := c.path[1..];
      assert c.path == [n] + p;
      if p != [] {
        SeenBelow(a, b, c.path); SeenBelow(b, a, c.path);
        ExpectedUnder(n, p, Seen(a, b, c.path), Seen(b, a, c.path));
      }
    }
  }

  lemma DiffNameLeftDir(n: string, a: Tree, b: Tree, c: FileChange)
    requires IsDir(EntryAt(a, n)) && !IsDir(EntryAt(b, n))
    requires forall d :: d in Flatten(Child(a, n), Removed) <==>
      LeafAt(Child(a, n), d.path).Some? && d == FlattenLeaf(d.path, LeafAt(Child(a, n), d.path).value.id, Removed)
    ensures ListsExactly(n, a, b, c)
  {
    InUnder(n, Flatten(Child(a, n), Removed), c);
    if c.path != [] && c.path[0] == n {
      var p := c.path[1..];
      assert c.path == [n] + p;
      if p != [] {
        SeenBeside(a, b, c.path);
        ExpectedUnder(n, p, Seen(a, b, c.path), Seen(b, a, c.path));
      }
    }
  }

  lemma DiffNameRightDir(n: string, a: Tree, b: Tree, c: FileChange)
    requires !IsDir(EntryAt(a, n)) && IsDir(EntryAt(b, n))
    requires forall d :: d in Flatten(Child(b, n), Added) <==>
      LeafAt(Child(b, n), d.path).Some? && d == FlattenLeaf(d.path, LeafAt(Child(b, n), d.path).value.id, Added)
    ensures ListsExactly(n, a, b, c)
  {
    InUnder(n, Flatten(Child(b, n), Added), c);
    if c.path != [] && c.path[0] == n {
      var p := c.path[1..];
      assert c.path == [n] + p;
      if p != [] {
        SeenBeside(b, a, c.path);
        ExpectedUnder(n, p, Seen(a, b, c.path), Seen(b, a, c.path));
      }
    }
  }

  lemma DiffNameLeaves(n: string, a: Tree, b: Tree, c: FileChange)
    requires WellTyped(a) && WellTyped(b)
    requires !IsDir(EntryAt(a, n)) && !IsDir(EntryAt(b, n))
    ensures ListsExactly(n, a, b, c)
  {
    assert LeafAt(a, [n]) == if n in a.entries then Some(a.entries[n]) else None;
    assert LeafAt(b, [n]) == if n in b.entries then Some(b.entries[n]) else None;
    assert n in a.entries ==> a.entries[n].kind != KindTree;
    assert n in b.entries ==> b.entries[n].kind != KindTree;
    if c.path != [] && c.path[0] == n {
      if LeafAt(a, c.path).Some? { LeafOnlyAtName(a, n, c.path); }
      if LeafAt(b, c.path).Some? { LeafOnlyAtName(b, n, c.path); }
    }
    assert |[n]| == 1;
  }

  ghost predicate ListsDifferences(a: Tree, b: Tree) {
    forall c :: c in DiffTrees(a, b) <==> Expected(c.path, LeafAt(a, c.path), LeafAt(b, c.path)) == Some(c)
  }

  /** The leaf at `p` is a conflict that the walk passes over, although the other tree differs there. */
  ghost predicate ConflictHidden(t: Tree, other: Tree, p: Path) {
    LeafAt(t, p).Some? && LeafAt(t, p).value.kind == KindConflict && HolderAt(other, p) &&
    LeafAt(t, p) != LeafAt(other, p)
  }

  ghost predicate ConflictsShown(t: Tree, other: Tree) { forall p :: !ConflictHidden(t, other, p) }

  lemma FreeMeansShown(t: Tree, other: Tree)
    requires ConflictFree(t)
    ensures ConflictsShown(t, other)
  {
    forall p ensures !ConflictHidden(t, other, p) { LeafConflictFree(t, p); }
  }

  lemma NothingHidden(a: Tree, b: Tree, p: Path)
    requires NoClash(a, b) && NoClash(b, a) && ConflictsShown(a, b) && ConflictsShown(b, a)
    ensures Expected(p, Seen(a, b, p), Seen(b, a, p)) == Expected(p, LeafAt(a, p), LeafAt(b, p))
  {
    hide LeafAt, DirAt;
    assert !ConflictHidden(a, b, p) && !ConflictHidden(b, a, p);
    assert LeafAt(a, p).Some? ==> !DirAt(b, p);
    assert LeafAt(b, p).Some? ==> !DirAt(a, p);
    if LeafAt(a, p).Some? { LeafImpliesHolder(a, p); }
    if LeafAt(b, p).Some? { LeafImpliesHolder(b, p); }
  }

  lemma LeafImpliesHolder(t: Tree, p: Path)
    requires LeafAt(t, p).Some?
    ensures p != [] && HolderAt(t, p)
  {
    if |p| > 1 {
      var q := p[..|p| - 1];
      assert p == q + [p[|p| - 1]];
      LeafImpliesDirs(t, q, [p[|p| - 1]]);
    }
  }

  /** A leaf that is not seen, where the trees differ, makes the list incomplete. */
  lemma Incomplete(a: Tree, b: Tree, p: Path)
    requires WellTyped(a) && WellTyped(b) && LeafAt(a, p) != LeafAt(b, p)
    requires Expected(p, Seen(a, b, p), Seen(b, a, p)) != Expected(p, LeafAt(a, p), LeafAt(b, p))
    ensures !ListsDifferences(a, b)
  {
    DiffExact(a, b);
    var c := Expected(p, LeafAt(a, p), LeafAt(b, p)).value;
    assert c.path == p && Expected(c.path, LeafAt(a, c.path), LeafAt(b, c.path)) == Some(c);
  }

  lemma ClashHides(a: Tree, b: Tree, p: Path)
    requires (LeafAt(a, p).Some? && DirAt(b, p)) || (LeafAt(b, p).Some? && DirAt(a, p))
    ensures LeafAt(a, p) != LeafAt(b, p)
    ensures Expected(p, Seen(a, b, p), Seen(b, a, p)) != Expected(p, LeafAt(a, p), LeafAt(b, p))
  {
    LeafNotDir(a, p);
    LeafNotDir(b, p);
  }

  lemma ConflictHides(a: Tree, b: Tree, p: Path)
    requires ConflictHidden(a, b, p) || ConflictHidden(b, a, p)
    ensures LeafAt(a, p) != LeafAt(b, p)
    ensures Expected(p, Seen(a, b, p), Seen(b, a, p)) != Expected(p, LeafAt(a, p), LeafAt(b, p))
  {
    hide LeafAt, DirAt;
  }

  /** Diff reports every differing leaf, each with its own status and ids, exactly when neither tree has a
      directory where the other has a leaf, nor a conflict beside something else: otherwise the leaf is not
      mentioned. */
  lemma DiffCompleteIffVisible(a: Tree, b: Tree)
    requires WellTyped(a) && WellTyped(b)
    ensures ListsDifferences(a, b) <==>
      NoClash(a, b) && NoClash(b, a) && ConflictsShown(a, b) && ConflictsShown(b, a)
  {
    hide LeafAt, DirAt, WellTyped;
    if NoClash(a, b) && NoClash(b, a) && ConflictsShown(a, b) && ConflictsShown(b, a) {
      DiffExact(a, b);
      forall c: FileChange ensures c in DiffTrees(a, b) <==>
        Expected(c.path, LeafAt(a, c.path), LeafAt(b, c.path)) == Some(c)
      {
        NothingHidden(a, b, c.path);
      }
    } else {
      var p :| (LeafAt(a, p).Some? && DirAt(b, p)) || (LeafAt(b, p).Some? && DirAt(a, p)) ||
        ConflictHidden(a, b, p) || ConflictHidden(b, a, p);
      if ConflictHidden(a, b, p) || ConflictHidden(b, a, p) { ConflictHides(a, b, p); } else { ClashHides(a, b, p); }
      Incomplete(a, b, p);
    }
  }

  /** A file that became a conflict is listed as removed, and not at all once it has been one on both sides. */
  lemma ConflictShownAsRemoved(v: ID, c: ID, d: ID)
    ensures var file, one, two := Tree(map["f" := Entry(KindBlob, v)]), Tree(map["f" := Entry(KindConflict, c)]),
        Tree(map["f" := Entry(KindConflict, d)]);
      DiffTrees(file, one) == [FileChange(["f"], Removed, v, Zero)] && DiffTrees(one, two) == []
  {
    var file, one, two := Tree(map["f" := Entry(KindBlob, v)]), Tree(map["f" := Entry(KindConflict, c)]),
      Tree(map["f" := Entry(KindConflict, d)]);
    LeqTotal("f", "f");
    LeastFirst({"f"}, "f");
    assert {"f"} - {"f"} == {} && Sorted({}) == [];
    assert file.entries.Keys + one.entries.Keys == {"f"} && one.entries.Keys + two.entries.Keys == {"f"};
    assert ["f"][1..] == [];
    assert DiffOver([], file, one) == [] && DiffOver([], one, two) == [];
    assert DiffName("f", file, one) == [FileChange(["f"], Removed, v, Zero)] && DiffName("f", one, two) == [];
  }

  // ---- The final sort --------------------------------------------------------------------------

  predicate PathLeq(c: FileChange, d: FileChange) { Leq(Render(c.path), Render(d.path)) }

  ghost predicate Ascending(cs: seq<FileChange>) {
    forall i, j :: 0 <= i < j < |cs| ==> PathLeq(cs[i], cs[j])
  }

  function Insert(c: FileChange, cs: seq<FileChange>): seq<FileChange> {
    if cs == [] || PathLeq(c, cs[0]) then [c] + cs else [cs[0]] + Insert(c, cs[1..])
  }

  /** sort.Slice by path. */
  function SortChanges(cs: seq<FileChange>): seq<FileChange> {
    if cs == [] then [] else Insert(cs[0], SortChanges(cs[1..]))
  }

  lemma {:induction false} InsertSorts(c: FileChange, cs: seq<FileChange>)
    requires Ascending(cs)
    ensures Ascending(Insert(c, cs)) && multiset(Insert(c, cs)) == multiset(cs) + multiset{c}
  {
    hide Leq, Render;
    if cs == [] {
    } else if PathLeq(c, cs[0]) {
      forall j | 0 <= j < |cs| ensures PathLeq(c, cs[j]) {
        if j > 0 { LeqTrans(Render(c.path), Render(cs[0].path), Render(cs[j].path)); }
      }
    } else {
      LeqTotal(Render(c.path), Render(cs[0].path));
      var rest := Insert(c, cs[1..]);
      InsertSorts(c, cs[1..]);
      assert cs == [cs[0]] + cs[1..];
      forall j | 0 <= j < |rest| ensures PathLeq(cs[0], rest[j]) {
        assert rest[j] in multiset(rest);
      }
    }
  }

  lemma {:induction false} SortChangesSorts(cs: seq<FileChange>)
    ensures Ascending(SortChanges(cs)) && multiset(SortChanges(cs)) == multiset(cs)
  {
    if cs != [] {
      SortChangesSorts(cs[1..]);
      InsertSorts(cs[0], SortChanges(cs[1..]));
      assert cs == [cs[0]] + cs[1..];
    }
  }

  lemma {:induction false} DistinctCounts(cs: seq<FileChange>, c: FileChange)
    requires DistinctPaths(cs)
    ensures multiset(cs)[c] <= 1
  {
    if cs != [] {
      DistinctCounts(cs[1..], c);
      assert cs == [cs[0]] + cs[1..];
      if c == cs[0] {
        assert c !in cs[1..];
      }
    }
  }

  lemma TwiceCounts(cs: seq<FileChange>, i: nat, j: nat)
    requires i < j < |cs| && cs[i] == cs[j]
    ensures multiset(cs)[cs[i]] >= 2
  {
    assert cs == cs[..j] + [cs[j]] + cs[j + 1..];
    assert cs[i] == cs[..j][i];
    assert cs[i] in multiset(cs[..j]);
  }

  lemma DistinctPermutation(cs: seq<FileChange>, ds: seq<FileChange>)
    requires multiset(cs) == multiset(ds) && DistinctPaths(cs)
    ensures DistinctPaths(ds)
    ensures forall c :: c in ds <==> c in cs
  {
    forall c ensures c in ds <==> c in cs {
      assert c in multiset(cs) <==> c in cs;
      assert c in multiset(ds) <==> c in ds;
    }
    forall i, j | 0 <= i < j < |ds| ensures ds[i].path != ds[j].path {
      assert ds[i] in cs && ds[j] in cs;
      if ds[i] == ds[j] {
        DistinctCounts(cs, ds[i]);
        TwiceCounts(ds, i, j);
      }
    }
  }

  /** Diff: sorted by path, no path twice, and (without clashes) exactly the differing leaves. */
  function Diff(a: Tree, b: Tree): seq<FileChange> { SortChanges(DiffTrees(a, b)) }

  lemma DiffSorted(a: Tree, b: Tree)
    requires WellTyped(a) && WellTyped(b)
    ensures Ascending(Diff(a, b)) && DistinctPaths(Diff(a, b))
    ensures forall c :: c in Diff(a, b) <==> Expected(c.path, Seen(a, b, c.path), Seen(b, a, c.path)) == Some(c)
  {
    DiffExact(a, b);
    SortChangesSorts(DiffTrees(a, b));
    DistinctPermutation(DiffTrees(a, b), Diff(a, b));
  }

  lemma DiffSortedExact(a: Tree, b: Tree)
    requires WellTyped(a) && WellTyped(b) && ConflictFree(a) && ConflictFree(b) && NoClash(a, b) && NoClash(b, a)
    ensures Ascending(Diff(a, b)) && DistinctPaths(Diff(a, b))
    ensures forall c :: c in Diff(a, b) <==> Expected(c.path, LeafAt(a, c.path), LeafAt(b, c.path)) == Some(c)
  {
    hide Diff, LeafAt, DirAt, WellTyped, ConflictFree;
    DiffSorted(a, b);
    FreeMeansShown(a, b);
    FreeMeansShown(b, a);
    forall c: FileChange ensures Expected(c.path, Seen(a, b, c.path), Seen(b, a, c.path)) ==
      Expected(c.path, LeafAt(a, c.path), LeafAt(b, c.path))
    {
      NothingHidden(a, b, c.path);
    }
  }

  /** The same change seen from the other side. */
  function Mirror(c: FileChange): FileChange {
    var status := if c.status == Added then Removed else if c.status == Removed then Added else Modified;
    FileChange(c.path, status, c.newID, c.oldID)
  }

  /** Swapping the trees turns every change round: additions become removals, and old and new ids swap. */
  lemma DiffMirrored(a: Tree, b: Tree, c: FileChange)
    requires WellTyped(a) && WellTyped(b)
    ensures c in Diff(a, b) <==> Mirror(c) in Diff(b, a)
  {
    DiffSorted(a, b);
    DiffSorted(b, a);
    hide Diff, Seen;
    assert Mirror(Mirror(c)) == c;
  }

  /** Every listed path is a leaf path of one of the trees. */
  lemma DiffListsLeaves(a: Tree, b: Tree, c: FileChange)
    requires WellTyped(a) && WellTyped(b) && c in DiffTrees(a, b)
    ensures LeafAt(a, c.path).Some? || LeafAt(b, c.path).Some?
  {
    DiffExact(a, b);
    hide LeafAt, DirAt, DiffTrees;
  }

  ghost predicate DistinctTexts(cs: seq<FileChange>) {
    forall i, j :: 0 <= i < j < |cs| ==> Render(cs[i].path) != Render(cs[j].path)
  }

  lemma AscendingFirst(cs: seq<FileChange>, ds: seq<FileChange>)
    requires Ascending(cs) && Ascending(ds) && DistinctTexts(cs) && cs != [] && ds != []
    requires cs[0] in ds && ds[0] in cs
    ensures cs[0] == ds[0]
  {
    hide Render, Leq;
    var i :| 0 <= i < |ds| && ds[i] == cs[0];
    var j :| 0 <= j < |cs| && cs[j] == ds[0];
    LeqTotal(Render(cs[0].path), Render(ds[0].path));
  }

  lemma TailCounts(cs: seq<FileChange>)
    requires cs != []
    ensures multiset(cs[1..]) == multiset(cs) - multiset{cs[0]} && cs[0] in multiset(cs)
  {
    assert cs == [cs[0]] + cs[1..];
  }

  lemma TailAscends(cs: seq<FileChange>)
    requires cs != [] && Ascending(cs)
    ensures Ascending(cs[1..]) && (DistinctTexts(cs) ==> DistinctTexts(cs[1..]))
  {
    hide PathLeq, Render;
  }

  /** Two ascending arrangements of changes with different path texts are the same. */
  lemma {:induction false} AscendingUnique(cs: seq<FileChange>, ds: seq<FileChange>)
    requires Ascending(cs) && Ascending(ds) && multiset(cs) == multiset(ds) && DistinctTexts(cs)
    ensures cs == ds
  {
    hide Ascending, DistinctTexts;
    assert |cs| == |multiset(cs)| == |multiset(ds)| == |ds|;
    if cs != [] {
      TailCounts(cs);
      TailCounts(ds);
      AscendingFirst(cs, ds);
      TailAscends(cs);
      TailAscends(ds);
      AscendingUnique(cs[1..], ds[1..]);
      assert cs == [cs[0]] + cs[1..] && ds == [ds[0]] + ds[1..];
    }
  }

  /** sort.Slice may leave changes with equal path texts in any order. In trees whose paths are valid
      there are none: every ascending arrangement of the walk is Diff. */
  lemma DiffAnySort(a: Tree, b: Tree, out: seq<FileChange>)
    requires WellTyped(a) && WellTyped(b) && ValidNames(a) && ValidNames(b)
    requires Ascending(out) && multiset(out) == multiset(DiffTrees(a, b))
    ensures out == Diff(a, b)
  {
    var walk := DiffTrees(a, b);
    DiffExact(a, b);
    SortChangesSorts(walk);
    DistinctPermutation(walk, out);
    hide Render, Leq, WellTyped, ConflictFree, ValidNames, DiffTrees, LeafAt;
    forall i, j | 0 <= i < j < |out| ensures Render(out[i].path) != Render(out[j].path) {
      assert out[i] in walk && out[j] in walk;
      ListedValid(a, b, out[i]);
      ListedValid(a, b, out[j]);
      if Render(out[i].path) == Render(out[j].path) { RenderInjective(out[i].path, out[j].path); }
    }
    AscendingUnique(out, SortChanges(walk));
  }

  lemma ListedValid(a: Tree, b: Tree, c: FileChange)
    requires WellTyped(a) && WellTyped(b) && ValidNames(a) && ValidNames(b)
    requires c in DiffTrees(a, b)
    ensures c.path != [] && ValidPath(c.path)
  {
    hide ValidNames, WellTyped, ConflictFree, DiffTrees;
    DiffListsLeaves(a, b, c);
    LeafNamesValid(a, c.path);
    LeafNamesValid(b, c.path);
  }

  // ---- Diff is invertible ----------------------------------------------------------------------

  predicate AppliesAsEdit(c: FileChange) { c.path != [] && (c.status != Removed ==> IsBlobID(c.newID)) }

  function EditOf(c: FileChange): Edit
    requires AppliesAsEdit(c)
  {
    Edit(c.path, if c.status == Removed then None else Some(c.newID))
  }

  function EditsOf(cs: seq<FileChange>): (es: seq<Edit>)
    requires forall i :: 0 <= i < |cs| ==> AppliesAsEdit(cs[i])
    ensures |es| == |cs| && forall i :: 0 <= i < |cs| ==> es[i] == EditOf(cs[i])
  {
    if cs == [] then [] else [EditOf(cs[0])] + EditsOf(cs[1..])
  }

  lemma ExpectedApplies(p: Path, a: Tree, b: Tree)
    requires WellTyped(a) && WellTyped(b) && ConflictFree(b)
    requires Expected(p, LeafAt(a, p), LeafAt(b, p)).Some?
    ensures var c := Expected(p, LeafAt(a, p), LeafAt(b, p)).value;
      AppliesAsEdit(c) && LeafOf(EditOf(c)) == LeafAt(b, p)
  {
    LeafTyped(b, p);
    LeafConflictFree(b, p);
  }

  /**
   * Applying the listed changes, in any order, turns the first tree into the second.
   */
  lemma DiffInvertible(a: Tree, b: Tree, cs: seq<FileChange>)
    requires WellTyped(a) && WellTyped(b) && ConflictFree(a) && ConflictFree(b)
    requires Canonical(a) && Canonical(b) && Compatible(a, b)
    requires multiset(cs) == multiset(Diff(a, b))
    ensures forall i :: 0 <= i < |cs| ==> AppliesAsEdit(cs[i])
    ensures ApplyEdits(a, EditsOf(cs)) == b
  {
    PrefixFreeIffNoClash(a, b);
    PrefixFreeIffNoClash(b, a);
    DiffSortedExact(a, b);
    DistinctPermutation(Diff(a, b), cs);
    forall i | 0 <= i < |cs| ensures AppliesAsEdit(cs[i]) {
      assert cs[i] in cs;
      ExpectedApplies(cs[i].path, a, b);
    }
    var es := EditsOf(cs);
    forall i, j | 0 <= i < j < |es| ensures Incomparable(es[i].path, es[j].path) {
      assert cs[i] in cs && cs[j] in cs;
      DifferingPathsIncomparable(a, b, cs[i].path, cs[j].path);
    }
    ApplyEditsWellFormed(a, es);
    forall q ensures LeafAt(ApplyEdits(a, es), q) == LeafAt(b, q) {
      AppliedLeaf(a, b, cs, q);
    }
    CanonicalExtensional(ApplyEdits(a, es), b);
  }

  lemma DifferingPathsIncomparable(a: Tree, b: Tree, p: Path, q: Path)
    requires Compatible(a, b) && p != q
    requires LeafAt(a, p).Some? || LeafAt(b, p).Some?
    requires LeafAt(a, q).Some? || LeafAt(b, q).Some?
    ensures Incomparable(p, q)
  {
    if LeafAt(a, p).Some? && LeafAt(a, q).Some? { LeafPathsIncomparable(a, p, q); }
    if LeafAt(b, p).Some? && LeafAt(b, q).Some? { LeafPathsIncomparable(b, p, q); }
  }

  lemma AppliedLeaf(a: Tree, b: Tree, cs: seq<FileChange>, q: Path)
    requires WellTyped(a) && WellTyped(b) && ConflictFree(b) && Compatible(a, b)
    requires forall i :: 0 <= i < |cs| ==> AppliesAsEdit(cs[i])
    requires PairwiseIncomparable(EditsOf(cs))
    requires forall c :: c in cs <==> Expected(c.path, LeafAt(a, c.path), LeafAt(b, c.path)) == Some(c)
    ensures LeafAt(ApplyEdits(a, EditsOf(cs)), q) == LeafAt(b, q)
  {
    hide LeafAt, ApplyEdits, WellTyped, ConflictFree;
    var es := EditsOf(cs);
    ApplyEditsLeaf(a, es, q);
    var x := Expected(q, LeafAt(a, q), LeafAt(b, q));
    if x.Some? {
      assert x.value in cs;
      var i :| 0 <= i < |cs| && cs[i] == x.value;
      assert es[i] in es;
      ExpectedApplies(q, a, b);
    } else {
      forall e | e in es ensures e.path != q && (!Incomparable(e.path, q) ==> LeafAt(a, q) == None) {
        var i :| 0 <= i < |es| && es[i] == e;
        assert cs[i] in cs;
        if LeafAt(a, q).Some? { DifferingPathsIncomparable(a, b, e.path, q); }
      }
      if forall e :: e in es ==> Incomparable(e.path, q) {
      } else {
        var e :| e in es && !Incomparable(e.path, q);
        assert LeafAt(a, q) == None;
      }
    }
  }
}
