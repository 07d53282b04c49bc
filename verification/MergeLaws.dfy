/** Consequences of MergePointwise: absorption, symmetry, disjoint edits, conflict accounting. */
module MergeLaws {
  import opened Prelude
  import opened Paths
  import opened Objects
  import opened Merge

  lemma MergeEquals(b: Tree, o: Tree, t: Tree, want: Tree)
    requires WellTyped(b) && WellTyped(o) && WellTyped(t) && WellTyped(want) && Canonical(want)
    requires forall p ::
      LeafAt(want, p) == (if DirInAny(b, o, t, p) then None else Merge3(LeafAt(b, p), LeafAt(o, p), LeafAt(t, p)))
    ensures MergeTrees(b, o, t).tree == want
  {
    forall p ensures LeafAt(MergeTrees(b, o, t).tree, p) == LeafAt(want, p) {
      MergePointwise(b, o, t, p);
    }
    MergeCanonical(b, o, t);
    MergeWellTyped(b, o, t);
    CanonicalExtensional(MergeTrees(b, o, t).tree, want);
  }

  /** Squash merges (parent, parent, child). The result is the child's tree exactly when the child
      has no file where the parent has a directory; such a file is lost. */
  lemma AbsorbTheirs(base: Tree, theirs: Tree)
    requires WellTyped(base) && WellTyped(theirs) && Canonical(theirs)
    ensures MergeTrees(base, base, theirs).tree == theirs <==> NoClash(theirs, base)
  {
    if NoClash(theirs, base) {
      forall p ensures LeafAt(theirs, p) ==
        if DirInAny(base, base, theirs, p) then None else Merge3(LeafAt(base, p), LeafAt(base, p), LeafAt(theirs, p))
      {
        LeafNotDir(theirs, p);
      }
      MergeEquals(base, base, theirs, theirs);
    }
    if MergeTrees(base, base, theirs).tree == theirs {
      forall p | LeafAt(theirs, p).Some? ensures !DirAt(base, p) {
        MergePointwise(base, base, theirs, p);
      }
    }
  }

  /** Rebase onto the own parent merges (parent, current, parent), and Revert of the tip merges
      (tip, parent, tip): the middle tree comes back under the same condition. */
  lemma AbsorbOurs(base: Tree, ours: Tree)
    requires WellTyped(base) && WellTyped(ours) && Canonical(ours)
    ensures MergeTrees(base, ours, base).tree == ours <==> NoClash(ours, base)
  {
    if NoClash(ours, base) {
      forall p ensures LeafAt(ours, p) ==
        if DirInAny(base, ours, base, p) then None else Merge3(LeafAt(base, p), LeafAt(ours, p), LeafAt(base, p))
      {
        LeafNotDir(ours, p);
      }
      MergeEquals(base, ours, base, ours);
    }
    if MergeTrees(base, ours, base).tree == ours {
      forall p | LeafAt(ours, p).Some? ensures !DirAt(base, p) {
        MergePointwise(base, ours, base, p);
      }
    }
  }

  /** The condition fails for a file that replaces a directory: squashing loses the file. */
  lemma AbsorbLosesFile()
    ensures
      var file := Entry(KindBlob, Digest(Blob([1])));
      var child := Tree(map["a" := file]);
      var parent := Tree(map["a" := Entry(KindTree, TreeID(Tree(map["b" := file])))]);
      WellTyped(parent) && WellTyped(child) && Canonical(child) &&
      MergeTrees(parent, parent, child).tree != child
  {
    var file := Entry(KindBlob, Digest(Blob([1])));
    var child := Tree(map["a" := file]);
    var sub := Tree(map["b" := file]);
    var parent := Tree(map["a" := Entry(KindTree, TreeID(sub))]);
    assert WellTyped(sub);
    assert LeafAt(child, ["a"]).Some? && DirAt(parent, ["a"]);
    AbsorbTheirs(parent, child);
  }

  // ---- Disjoint edits -------------------------------------------------------------------------

  /**
   * Re-applying an edit on a base that changed elsewhere. On a path of `moved` ours did not change
   * the base; off `moved` theirs did not. Then nothing conflicts: the result has theirs' leaf on
   * `moved` and ours' leaf elsewhere.
   */
  lemma DisjointMerge(b: Tree, o: Tree, t: Tree, moved: iset<Path>, p: Path)
    requires WellTyped(b) && WellTyped(o) && WellTyped(t)
    requires forall q :: q in moved ==> LeafAt(o, q) == LeafAt(b, q)
    requires forall q :: q !in moved ==> LeafAt(t, q) == LeafAt(b, q)
    requires LeafAt(o, p).Some? || LeafAt(t, p).Some? ==> !DirInAny(b, o, t, p)
    ensures LeafAt(MergeTrees(b, o, t).tree, p) == if p in moved then LeafAt(t, p) else LeafAt(o, p)
  {
    MergePointwise(b, o, t, p);
  }

  // ---- Symmetry -------------------------------------------------------------------------------

  function FlipSide(side: string): string {
    if side == "ours" then "theirs" else if side == "theirs" then "ours" else side
  }

  function FlipTerms(ts: seq<Term>): seq<Term> {
    seq(|ts|, i requires 0 <= i < |ts| => Term(ts[i].id, FlipSide(ts[i].side)))
  }

  /** Equal up to exchanging the labels of the two sides and the order of the added terms. */
  ghost predicate Mirrored(e: Option<Entry>, f: Option<Entry>) {
    e == f ||
    (e.Some? && f.Some? && e.value.kind == f.value.kind == KindConflict &&
     e.value.id.Digest? && e.value.id.obj.ConflictObject? && f.value.id.Digest? && f.value.id.obj.ConflictObject? &&
     var c, d := e.value.id.obj.conflict, f.value.id.obj.conflict;
     c.removes == d.removes && multiset(FlipTerms(c.adds)) == multiset(d.adds))
  }

  lemma ConflictMirrored(b: Entry, o: Entry, t: Entry)
    requires Present(o) || Present(t)
    ensures ConflictOf(b, o, t).removes == ConflictOf(b, t, o).removes
    ensures multiset(FlipTerms(ConflictOf(b, o, t).adds)) == multiset(ConflictOf(b, t, o).adds)
  {
    var c, d := ConflictOf(b, o, t).adds, ConflictOf(b, t, o).adds;
    hide FlipTerms;
    if Present(o) && Present(t) {
      assert c == [Term(o.id, "ours"), Term(t.id, "theirs")];
      assert d == [Term(t.id, "ours"), Term(o.id, "theirs")];
      FlipPair(o.id, "ours", t.id, "theirs");
    } else if Present(o) {
      assert c == [Term(o.id, "ours"), Term(Zero, "theirs")];
      assert d == [Term(o.id, "theirs"), Term(Zero, "ours")];
      FlipPair(o.id, "ours", Zero, "theirs");
    } else {
      assert c == [Term(t.id, "theirs"), Term(Zero, "ours")];
      assert d == [Term(t.id, "ours"), Term(Zero, "theirs")];
      FlipPair(t.id, "theirs", Zero, "ours");
    }
  }

  lemma FlipPair(a: ID, x: string, b: ID, y: string)
    ensures FlipTerms([Term(a, x), Term(b, y)]) == [Term(a, FlipSide(x)), Term(b, FlipSide(y))]
  {
  }

  /** Exchanging ours and theirs changes nothing but the labels and order of conflict terms. */
  lemma MergeSymmetric(b: Tree, o: Tree, t: Tree, p: Path)
    requires WellTyped(b) && WellTyped(o) && WellTyped(t)
    ensures Mirrored(LeafAt(MergeTrees(b, o, t).tree, p), LeafAt(MergeTrees(b, t, o).tree, p))
  {
    MergePointwise(b, o, t, p);
    MergePointwise(b, t, o, p);
    LeafTyped(b, p); LeafTyped(o, p); LeafTyped(t, p);
    Merge3Symmetric(LeafAt(b, p), LeafAt(o, p), LeafAt(t, p));
  }

  lemma Merge3Symmetric(b: Option<Entry>, o: Option<Entry>, t: Option<Entry>)
    requires o.Some? ==> Present(o.value)
    requires t.Some? ==> Present(t.value)
    ensures Mirrored(Merge3(b, o, t), Merge3(b, t, o))
  {
    if o != t && b != o && b != t {
      ConflictMirrored(EntryOf(b), EntryOf(o), EntryOf(t));
    }
  }

  lemma {:induction false} LeafTyped(t: Tree, p: Path)
    requires WellTyped(t)
    ensures LeafAt(t, p).Some? ==> TypedEntry(LeafAt(t, p).value) && LeafAt(t, p).value.kind != KindTree
    decreases |p|
  {
    if |p| > 1 {
      WellTypedChild(t, p[0]);
      LeafTyped(Child(t, p[0]), p[1..]);
    }
  }

  // ---- Conflicts are accounted for --------------------------------------------------------------

  /** collectConflicts: the conflict entries of a tree in walk order. */
  function Conflicts(t: Tree): seq<Atom>
    decreases t, 1, 0
  {
    ConflictsOver(Sorted(t.entries.Keys), t)
  }

  function ConflictsOver(names: seq<string>, t: Tree): seq<Atom>
    decreases t, 0, |names|
  {
    if names == [] then [] else ConflictsAtName(names[0], t) + ConflictsOver(names[1..], t)
  }

  function ConflictsAtName(n: string, t: Tree): seq<Atom>
    decreases t, 0, 0
  {
    if n !in t.entries then []
    else if t.entries[n].kind == KindConflict then [Atom([n], t.entries[n].id)]
    else if IsDir(t.entries[n]) then Prefixed(n, Conflicts(t.entries[n].id.obj.tree))
    else []
  }

  lemma {:induction false} ConflictsOverFilter(names: seq<string>, t: Tree)
    ensures ConflictsOver(names, t) == ConflictsOver(Filter(names, t.entries.Keys), t)
  {
    if names != [] {
      ConflictsOverFilter(names[1..], t);
      var kept := Filter(names[1..], t.entries.Keys);
      if names[0] in t.entries {
        assert ([names[0]] + kept)[1..] == kept;
      } else {
        assert [] + kept == kept;
      }
    }
  }

  /** On conflict-free inputs the atoms a merge returns are exactly the conflicts of its result, in
      walk order. */
  lemma {:induction false} MergeAtomsAreConflicts(b: Tree, o: Tree, t: Tree)
    requires WellTyped(b) && WellTyped(o) && WellTyped(t)
    requires ConflictFree(b) && ConflictFree(o) && ConflictFree(t)
    ensures MergeTrees(b, o, t).atoms == Conflicts(MergeTrees(b, o, t).tree)
    decreases Height(b) + Height(o) + Height(t), 1, 0
  {
    var m := MergeTrees(b, o, t).tree;
    var names := Names(b, o, t);
    forall n | n in m.entries ensures n in names { MergedEntry(b, o, t, n); }
    AtomsOverAreConflicts(Sorted(names), b, o, t);
    ConflictsOverFilter(Sorted(names), m);
    SortedFilter(names, m.entries.Keys);
  }

  lemma {:induction false} AtomsOverAreConflicts(names: seq<string>, b: Tree, o: Tree, t: Tree)
    requires WellTyped(b) && WellTyped(o) && WellTyped(t)
    requires ConflictFree(b) && ConflictFree(o) && ConflictFree(t)
    requires forall n :: n in names ==> n in Names(b, o, t)
    ensures AtomsOver(names, b, o, t) == ConflictsOver(names, MergeTrees(b, o, t).tree)
    decreases Height(b) + Height(o) + Height(t), 0, |names|
  {
    if names != [] {
      AtomsAtName(names[0], b, o, t);
      AtomsOverAreConflicts(names[1..], b, o, t);
    }
  }

  lemma {:induction false} AtomsAtName(n: string, b: Tree, o: Tree, t: Tree)
    requires WellTyped(b) && WellTyped(o) && WellTyped(t)
    requires ConflictFree(b) && ConflictFree(o) && ConflictFree(t)
    requires n in Names(b, o, t)
    ensures MergeName(n, b, o, t).atoms == ConflictsAtName(n, MergeTrees(b, o, t).tree)
    decreases Height(b) + Height(o) + Height(t), 0, 0
  {
    hide MergeTrees, MergeName, MergeLeaf, Conflicts, ConflictsAtName, Height, WellTyped;
    var m := MergeTrees(b, o, t).tree;
    MergedEntry(b, o, t, n);
    if AnyDir(n, b, o, t) {
      HeightChild(b, n); HeightChild(o, n); HeightChild(t, n);
      WellTypedChild(b, n); WellTypedChild(o, n); WellTypedChild(t, n);
      MergeAtomsAreConflicts(Child(b, n), Child(o, n), Child(t, n));
      MergeNameDir(n, b, o, t);
      DirAtoms(n, m, MergeTrees(Child(b, n), Child(o, n), Child(t, n)).tree);
    } else {
      MergeNameLeaf(n, b, o, t);
      LeafAtoms(n, EntryAt(b, n), EntryAt(o, n), EntryAt(t, n), m);
    }
  }

  lemma DirAtoms(n: string, m: Tree, sub: Tree)
    requires if sub.entries == map[] then n !in m.entries
      else n in m.entries && m.entries[n] == Entry(KindTree, TreeID(sub))
    ensures ConflictsAtName(n, m) == Prefixed(n, Conflicts(sub))
  {
  }

  lemma LeafAtoms(n: string, b: Entry, o: Entry, t: Entry, m: Tree)
    requires b.kind != KindConflict && o.kind != KindConflict && t.kind != KindConflict
    requires !IsDir(b) && !IsDir(o) && !IsDir(t)
    requires MergeLeaf(n, b, o, t).entry == if n in m.entries then Some(m.entries[n]) else None
    ensures MergeLeaf(n, b, o, t).atoms == ConflictsAtName(n, m)
  {
  }
}
