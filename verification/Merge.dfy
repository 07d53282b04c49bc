/**
 * Three-way tree merge on tree values (merge/merge.go). The store-writing methods of Workspace
 * refine these functions; what a merge promises is proved here.
 */
module Merge {
  import opened Prelude
  import opened Paths
  import opened Objects

  /** Where a conflict object was recorded in a merged tree. */
  datatype Atom = Atom(path: Path, id: ID)

  /** The outcome for one name: the merged entry, if any, and the conflicts produced below it. */
  datatype Step = Step(entry: Option<Entry>, atoms: seq<Atom>)

  datatype Merged = Merged(tree: Tree, atoms: seq<Atom>)

  predicate Present(e: Entry) { e.id != Zero }

  /** The conflict object of three sides: removes holds the base; adds holds the present sides, then
      a zero-id term for an absent side, so that resolving to it is a deletion. */
  function ConflictOf(b: Entry, o: Entry, t: Entry): Conflict {
    Conflict(
      if Present(b) then [Term(b.id, "base")] else [],
      (if Present(o) then [Term(o.id, "ours")] else []) +
      (if Present(t) then [Term(t.id, "theirs")] else []) +
      (if !Present(o) && !Present(t) then [Term(Zero, "theirs")] else []) +
      (if !Present(o) && Present(t) then [Term(Zero, "ours")] else []) +
      (if !Present(t) && Present(o) then [Term(Zero, "theirs")] else []))
  }

  /** The leaf decision of mergeEntry, branch by branch. */
  function MergeLeaf(name: string, b: Entry, o: Entry, t: Entry): Step {
    var baseP, oursP, theirsP := Present(b), Present(o), Present(t);
    if oursP && theirsP && o.id == t.id then Step(Some(o), [])
    else if baseP && oursP && theirsP && o.id == b.id then Step(Some(t), [])
    else if baseP && oursP && theirsP && t.id == b.id then Step(Some(o), [])
    else if baseP && oursP && !theirsP && o.id == b.id then Step(None, [])
    else if baseP && theirsP && !oursP && t.id == b.id then Step(None, [])
    else if oursP && !theirsP && !baseP then Step(Some(o), [])
    else if !oursP && theirsP && !baseP then Step(Some(t), [])
    else if !oursP && !theirsP && baseP then Step(None, [])
    else
      var id := Digest(ConflictObject(ConflictOf(b, o, t)));
      Step(Some(Entry(KindConflict, id)), [Atom([name], id)])
  }

  function Names(b: Tree, o: Tree, t: Tree): set<string> {
    b.entries.Keys + o.entries.Keys + t.entries.Keys
  }

  function Prefixed(name: string, atoms: seq<Atom>): (r: seq<Atom>)
    ensures |r| == |atoms|
    ensures forall i :: 0 <= i < |atoms| ==> r[i] == Atom([name] + atoms[i].path, atoms[i].id)
  {
    seq(|atoms|, i requires 0 <= i < |atoms| => Atom([name] + atoms[i].path, atoms[i].id))
  }

  function MergeTrees(b: Tree, o: Tree, t: Tree): Merged
    decreases Height(b) + Height(o) + Height(t), 2, 0
  {
    Merged(
      Tree(map n | n in Names(b, o, t) && MergeName(n, b, o, t).entry.Some? ::
        MergeName(n, b, o, t).entry.value),
      AtomsOver(Sorted(Names(b, o, t)), b, o, t))
  }

  /** mergeEntry: if any side is a directory the sides merge as directories, a side that is not one
      counting as empty; otherwise the leaf decision applies. */
  function MergeName(name: string, b: Tree, o: Tree, t: Tree): Step
    decreases Height(b) + Height(o) + Height(t), 0, 0
  {
    if AnyDir(name, b, o, t) then
      HeightChild(b, name); HeightChild(o, name); HeightChild(t, name);
      var sub := MergeTrees(Child(b, name), Child(o, name), Child(t, name));
      Step(if sub.tree.entries == map[] then None else Some(Entry(KindTree, TreeID(sub.tree))),
           Prefixed(name, sub.atoms))
    else
      MergeLeaf(name, EntryAt(b, name), EntryAt(o, name), EntryAt(t, name))
  }

  predicate AnyDir(name: string, b: Tree, o: Tree, t: Tree) {
    IsDir(EntryAt(b, name)) || IsDir(EntryAt(o, name)) || IsDir(EntryAt(t, name))
  }

  function AtomsOver(names: seq<string>, b: Tree, o: Tree, t: Tree): seq<Atom>
    decreases Height(b) + Height(o) + Height(t), 1, |names|
  {
    if names == [] then []
    else MergeName(names[0], b, o, t).atoms + AtomsOver(names[1..], b, o, t)
  }

  // ---- The reference: textbook three-way merge of one path ------------------------------------

  function EntryOf(e: Option<Entry>): Entry { match e case Some(v) => v case None => NO_ENTRY }

  /** Take the side that changed; if both changed alike take either; otherwise conflict. */
  function Merge3(b: Option<Entry>, o: Option<Entry>, t: Option<Entry>): Option<Entry> {
    if o == t then o
    else if b == o then t
    else if b == t then o
    else Some(Entry(KindConflict, Digest(ConflictObject(ConflictOf(EntryOf(b), EntryOf(o), EntryOf(t))))))
  }

  ghost predicate DirInAny(b: Tree, o: Tree, t: Tree, p: Path) {
    DirAt(b, p) || DirAt(o, p) || DirAt(t, p)
  }

  /** The entry a merge leaves at a name. */
  lemma MergedEntry(b: Tree, o: Tree, t: Tree, n: string)
    ensures var m := MergeTrees(b, o, t).tree.entries;
      if n in Names(b, o, t)
      then MergeName(n, b, o, t).entry == (if n in m then Some(m[n]) else None)
      else n !in m
  {
  }

  /** A name where some side is a directory: the sides merge as directories. */
  lemma MergeNameDir(n: string, b: Tree, o: Tree, t: Tree)
    requires AnyDir(n, b, o, t)
    ensures var sub := MergeTrees(Child(b, n), Child(o, n), Child(t, n));
      MergeName(n, b, o, t) ==
        Step(if sub.tree.entries == map[] then None else Some(Entry(KindTree, TreeID(sub.tree))),
             Prefixed(n, sub.atoms))
  {
    hide MergeTrees;
  }

  lemma MergeNameLeaf(n: string, b: Tree, o: Tree, t: Tree)
    requires !AnyDir(n, b, o, t)
    ensures MergeName(n, b, o, t) == MergeLeaf(n, EntryAt(b, n), EntryAt(o, n), EntryAt(t, n))
  {
  }

  lemma MergedBelow(b: Tree, o: Tree, t: Tree, n: string)
    requires AnyDir(n, b, o, t)
    ensures n in Names(b, o, t)
    ensures Child(MergeTrees(b, o, t).tree, n) == MergeTrees(Child(b, n), Child(o, n), Child(t, n)).tree
    ensures LeafAt(MergeTrees(b, o, t).tree, [n]) == None
  {
    hide MergeTrees, MergeName, Height;
    MergedEntry(b, o, t, n);
    MergeNameDir(n, b, o, t);
  }

  lemma MergedLeaf(b: Tree, o: Tree, t: Tree, n: string)
    requires WellTyped(b) && WellTyped(o) && WellTyped(t) && !AnyDir(n, b, o, t)
    ensures Child(MergeTrees(b, o, t).tree, n) == EMPTY_TREE
    ensures LeafAt(MergeTrees(b, o, t).tree, [n]) == Merge3(LeafAt(b, [n]), LeafAt(o, [n]), LeafAt(t, [n]))
  {
    hide MergeTrees, MergeName, Height, WellTyped;
    MergedEntry(b, o, t, n);
    if n in Names(b, o, t) {
      MergeNameIsMerge3(n, b, o, t);
    }
  }

  lemma MergeNameIsMerge3(n: string, b: Tree, o: Tree, t: Tree)
    requires WellTyped(b) && WellTyped(o) && WellTyped(t) && !AnyDir(n, b, o, t) && n in Names(b, o, t)
    ensures var e := MergeName(n, b, o, t).entry;
      e == Merge3(LeafAt(b, [n]), LeafAt(o, [n]), LeafAt(t, [n])) && (e.Some? ==> !IsDir(e.value))
  {
    var eb, eo, et := EntryAt(b, n), EntryAt(o, n), EntryAt(t, n);
    assert MergeName(n, b, o, t) == MergeLeaf(n, eb, eo, et);
    assert n in b.entries <==> Present(eb);
    assert n in o.entries <==> Present(eo);
    assert n in t.entries <==> Present(et);
  }

  lemma WellTypedChild(t: Tree, n: string)
    requires WellTyped(t)
    ensures WellTyped(Child(t, n))
  {
  }

  /**
   * Merging is pointwise, for all well-typed trees: the merged tree has at every path the
   * three-way merge of the three leaves there, except that a leaf is discarded where another side
   * has a directory.
   */
  lemma {:induction false} MergePointwise(b: Tree, o: Tree, t: Tree, p: Path)
    requires WellTyped(b) && WellTyped(o) && WellTyped(t)
    ensures LeafAt(MergeTrees(b, o, t).tree, p) ==
      if DirInAny(b, o, t, p) then None else Merge3(LeafAt(b, p), LeafAt(o, p), LeafAt(t, p))
    decreases |p|
  {
    if |p| == 1 {
      assert p == [p[0]];
      MergePointwiseName(b, o, t, p[0]);
    } else if p != [] {
      var n, rest := p[0], p[1..];
      assert p == [n] + rest;
      WellTypedChild(b, n); WellTypedChild(o, n); WellTypedChild(t, n);
      MergePointwise(Child(b, n), Child(o, n), Child(t, n), rest);
      MergedChild(b, o, t, n);
      PointwiseBelow(b, o, t, MergeTrees(b, o, t).tree,
        MergeTrees(Child(b, n), Child(o, n), Child(t, n)).tree, n, rest);
    }
  }

  lemma PointwiseBelow(b: Tree, o: Tree, t: Tree, m: Tree, sub: Tree, n: string, rest: Path)
    requires rest != [] && SameLeaves(Child(m, n), sub)
    requires LeafAt(sub, rest) == if DirInAny(Child(b, n), Child(o, n), Child(t, n), rest) then None
      else Merge3(LeafAt(Child(b, n), rest), LeafAt(Child(o, n), rest), LeafAt(Child(t, n), rest))
    ensures LeafAt(m, [n] + rest) == if DirInAny(b, o, t, [n] + rest) then None
      else Merge3(LeafAt(b, [n] + rest), LeafAt(o, [n] + rest), LeafAt(t, [n] + rest))
  {
    LeafAtCons(b, n, rest); LeafAtCons(o, n, rest); LeafAtCons(t, n, rest); LeafAtCons(m, n, rest);
  }

  lemma MergePointwiseName(b: Tree, o: Tree, t: Tree, n: string)
    requires WellTyped(b) && WellTyped(o) && WellTyped(t)
    ensures LeafAt(MergeTrees(b, o, t).tree, [n]) ==
      if DirInAny(b, o, t, [n]) then None else Merge3(LeafAt(b, [n]), LeafAt(o, [n]), LeafAt(t, [n]))
  {
    assert DirInAny(b, o, t, [n]) == AnyDir(n, b, o, t);
    if AnyDir(n, b, o, t) {
      MergedBelow(b, o, t, n);
    } else {
      MergedLeaf(b, o, t, n);
    }
  }

  /** The merge of the children is the child of the merge, whether or not a directory is left. */
  lemma MergedChild(b: Tree, o: Tree, t: Tree, n: string)
    requires WellTyped(b) && WellTyped(o) && WellTyped(t)
    ensures SameLeaves(Child(MergeTrees(b, o, t).tree, n), MergeTrees(Child(b, n), Child(o, n), Child(t, n)).tree)
  {
    if AnyDir(n, b, o, t) {
      MergedBelow(b, o, t, n);
    } else {
      MergedLeaf(b, o, t, n);
      assert MergeTrees(EMPTY_TREE, EMPTY_TREE, EMPTY_TREE).tree.entries == map[];
    }
  }

  /** Whatever the inputs, the result has no empty directory. */
  lemma {:induction false} MergeCanonical(b: Tree, o: Tree, t: Tree)
    ensures Canonical(MergeTrees(b, o, t).tree)
    decreases Height(b) + Height(o) + Height(t)
  {
    var m := MergeTrees(b, o, t).tree;
    forall n | n in m.entries && IsDir(m.entries[n])
      ensures m.entries[n].id.obj.tree.entries != map[] && Canonical(m.entries[n].id.obj.tree)
    {
      MergedEntry(b, o, t, n);
      if AnyDir(n, b, o, t) {
        HeightChild(b, n); HeightChild(o, n); HeightChild(t, n);
        MergeCanonical(Child(b, n), Child(o, n), Child(t, n));
      } else {
        MergeLeafNeverDir(n, b, o, t);
      }
    }
  }

  lemma MergeLeafNeverDir(n: string, b: Tree, o: Tree, t: Tree)
    requires !AnyDir(n, b, o, t)
    ensures var e := MergeName(n, b, o, t).entry; e.Some? ==> !IsDir(e.value)
  {
  }

  predicate TypedEntry(e: Entry) {
    e.id.Digest? && KindOf(e.id.obj) == e.kind && (e.id.obj.TreeObject? ==> WellTyped(e.id.obj.tree))
  }

  lemma MergedLeafTyped(n: string, b: Entry, o: Entry, t: Entry)
    requires b == NO_ENTRY || TypedEntry(b)
    requires o == NO_ENTRY || TypedEntry(o)
    requires t == NO_ENTRY || TypedEntry(t)
    ensures var e := MergeLeaf(n, b, o, t).entry; e.Some? ==> TypedEntry(e.value)
  {
  }

  lemma {:induction false} MergeWellTyped(b: Tree, o: Tree, t: Tree)
    requires WellTyped(b) && WellTyped(o) && WellTyped(t)
    ensures WellTyped(MergeTrees(b, o, t).tree)
    decreases Height(b) + Height(o) + Height(t)
  {
    hide MergeTrees, MergeName, MergeLeaf, Height;
    var m := MergeTrees(b, o, t).tree;
    forall n | n in m.entries
      ensures TypedEntry(m.entries[n])
    {
      MergedEntry(b, o, t, n);
      if AnyDir(n, b, o, t) {
        MergeNameDir(n, b, o, t);
        HeightChild(b, n); HeightChild(o, n); HeightChild(t, n);
        WellTypedChild(b, n); WellTypedChild(o, n); WellTypedChild(t, n);
        MergeWellTyped(Child(b, n), Child(o, n), Child(t, n));
      } else {
        MergeNameLeaf(n, b, o, t);
        MergedLeafTyped(n, EntryAt(b, n), EntryAt(o, n), EntryAt(t, n));
      }
    }
  }
}
