/** Reading and writing one path of a tree (findEntry, resolvePath) and batches of such writes. */
module TreeEdit {
  import opened Prelude
  import opened Paths
  import opened Objects
  import opened Merge

  /** findEntry: the entry at a path, directories included; no entry when the walk leaves the tree. */
  function Find(t: Tree, p: Path): Option<Entry>
    requires p != []
    decreases |p|
  {
    if p[0] !in t.entries then None
    else if |p| == 1 then Some(t.entries[p[0]])
    else if !IsDir(t.entries[p[0]]) then None
    else Find(t.entries[p[0]].id.obj.tree, p[1..])
  }

  /** resolvePath below one directory: replace the entry at `p` by a blob, or remove it, creating and
      pruning directories on the way. */
  function Rewrite(t: Tree, p: Path, chosen: ID, remove: bool): Tree
    requires p != []
    decreases |p|
  {
    if |p| == 1 then
      if remove then Tree(t.entries - {p[0]})
      else Tree(t.entries[p[0] := Entry(KindBlob, chosen)])
    else
      var child := Rewrite(Child(t, p[0]), p[1..], chosen, remove);
      if child.entries == map[] && remove then Tree(t.entries - {p[0]})
      else Tree(t.entries[p[0] := Entry(KindTree, TreeID(child))])
  }

  lemma {:induction false} FindIsLeaf(t: Tree, p: Path)
    requires p != [] && WellTyped(t)
    ensures LeafAt(t, p) == (if Find(t, p).Some? && Find(t, p).value.kind != KindTree then Find(t, p) else None)
    ensures DirAt(t, p) <==> Find(t, p).Some? && Find(t, p).value.kind == KindTree
    decreases |p|
  {
    if |p| > 1 {
      WellTypedChild(t, p[0]);
      FindIsLeaf(Child(t, p[0]), p[1..]);
    }
  }

  /** What a rewrite of a longer path leaves below each name. */
  lemma RewriteBelow(t: Tree, p: Path, chosen: ID, remove: bool, n: string)
    requires |p| > 1
    ensures var t' := Rewrite(t, p, chosen, remove);
      if n == p[0] then
        Child(t', n) == Rewrite(Child(t, n), p[1..], chosen, remove) && (n in t'.entries ==> IsDir(t'.entries[n]))
      else (n in t'.entries <==> n in t.entries) && EntryAt(t', n) == EntryAt(t, n)
  {
    if n == p[0] && Rewrite(Child(t, n), p[1..], chosen, remove).entries == map[] {
      assert Rewrite(Child(t, n), p[1..], chosen, remove) == EMPTY_TREE;
    }
  }

  /**
   * The effect of one write on every path, for all trees: the written path gets the blob or
   * nothing, anything above or below it is gone, and everything else is untouched.
   */
  lemma {:induction false} RewriteLeaf(t: Tree, p: Path, chosen: ID, remove: bool, q: Path)
    requires p != []
    ensures LeafAt(Rewrite(t, p, chosen, remove), q) ==
      if q == p then (if remove then None else Some(Entry(KindBlob, chosen)))
      else if p <= q || q <= p then None
      else LeafAt(t, q)
    decreases |p|
  {
    if q != [] && |p| > 1 {
      RewriteBelow(t, p, chosen, remove, q[0]);
      if q[0] == p[0] && |q| > 1 { RewriteLeaf(Child(t, p[0]), p[1..], chosen, remove, q[1..]); }
      hide Rewrite;
      LeafBelow(t, q);
      LeafBelow(Rewrite(t, p, chosen, remove), q);
      assert p == [p[0]] + p[1..] && q == [q[0]] + q[1..];
      assert q[0] == p[0] ==> (p[1..] <= q[1..] <==> p <= q) && (q[1..] <= p[1..] <==> q <= p);
    } else if q != [] {
      assert p == [p[0]] && q == [q[0]] + q[1..];
      RewriteShort(t, p[0], chosen, remove, q);
    }
  }

  lemma LeafBelow(t: Tree, q: Path)
    requires q != []
    ensures LeafAt(t, q) ==
      if |q| > 1 then LeafAt(Child(t, q[0]), q[1..])
      else if q[0] !in t.entries || IsDir(t.entries[q[0]]) then None else Some(EntryAt(t, q[0]))
  {
    if |q| > 1 { assert LeafAt(EMPTY_TREE, q[1..]) == None; }
  }

  lemma RewriteShort(t: Tree, n: string, chosen: ID, remove: bool, q: Path)
    requires q != []
    ensures LeafAt(Rewrite(t, [n], chosen, remove), q) ==
      if q == [n] then (if remove then None else Some(Entry(KindBlob, chosen)))
      else if q[0] == n then None
      else LeafAt(t, q)
  {
    LeafBelow(t, q);
    LeafBelow(Rewrite(t, [n], chosen, remove), q);
    if |q| > 1 { assert LeafAt(EMPTY_TREE, q[1..]) == None; }
    if |q| == 1 { assert q == [q[0]]; }
    hide LeafAt;
  }

  lemma {:induction false} RewriteCanonical(t: Tree, p: Path, chosen: ID, remove: bool)
    requires p != [] && Canonical(t)
    ensures Canonical(Rewrite(t, p, chosen, remove))
    decreases |p|
  {
    if |p| > 1 {
      RewriteCanonical(Child(t, p[0]), p[1..], chosen, remove);
      if !remove { RewriteNonEmpty(Child(t, p[0]), p[1..], chosen, remove); }
    }
  }

  lemma RewriteNonEmpty(t: Tree, p: Path, chosen: ID, remove: bool)
    requires p != [] && !remove
    ensures Rewrite(t, p, chosen, remove).entries != map[]
  {
    assert p[0] in Rewrite(t, p, chosen, remove).entries;
  }

  lemma {:induction false} RewriteWellTyped(t: Tree, p: Path, chosen: ID, remove: bool)
    requires p != [] && WellTyped(t)
    requires !remove ==> IsBlobID(chosen)
    ensures WellTyped(Rewrite(t, p, chosen, remove))
    decreases |p|
  {
    if |p| > 1 {
      WellTypedChild(t, p[0]);
      RewriteWellTyped(Child(t, p[0]), p[1..], chosen, remove);
    }
  }

  /** Leaf paths of one tree are prefix-free. */
  lemma LeafPathsIncomparable(t: Tree, p: Path, q: Path)
    requires LeafAt(t, p).Some? && LeafAt(t, q).Some? && p != q
    ensures Incomparable(p, q)
  {
    if p <= q {
      assert q == p + q[|p|..];
      LeafImpliesDirs(t, p, q[|p|..]);
      LeafNotDir(t, p);
    }
    if q <= p {
      assert p == q + p[|q|..];
      LeafImpliesDirs(t, q, p[|q|..]);
      LeafNotDir(t, q);
    }
  }

  /** Writing over an existing leaf changes no other leaf. */
  lemma RewriteAtLeaf(t: Tree, p: Path, chosen: ID, remove: bool, q: Path)
    requires p != [] && LeafAt(t, p).Some? && q != p
    ensures LeafAt(Rewrite(t, p, chosen, remove), q) == LeafAt(t, q)
  {
    RewriteLeaf(t, p, chosen, remove, q);
    if LeafAt(t, q).Some? { LeafPathsIncomparable(t, p, q); }
  }

  // ---- Batches ---------------------------------------------------------------------------------

  /** One file change: write a blob, or remove the path. */
  datatype EditData = Edit(path: Path, blob: Option<ID>)

  predicate IsBlobID(id: ID) { id.Digest? && id.obj.Blob? }

  type Edit = e: EditData | e.path != [] && (e.blob.Some? ==> IsBlobID(e.blob.value))
    witness Edit(["a"], None)

  function ApplyEdit(t: Tree, e: Edit): Tree {
    Rewrite(t, e.path, if e.blob.Some? then e.blob.value else Zero, e.blob.None?)
  }

  function ApplyEdits(t: Tree, es: seq<Edit>): Tree {
    if es == [] then t else ApplyEdit(ApplyEdits(t, es[..|es| - 1]), es[|es| - 1])
  }

  function LeafOf(e: Edit): Option<Entry> {
    if e.blob.Some? then Some(Entry(KindBlob, e.blob.value)) else None
  }

  ghost predicate PairwiseIncomparable(es: seq<Edit>) {
    forall i, j :: 0 <= i < j < |es| ==> Incomparable(es[i].path, es[j].path)
  }

  lemma {:induction false} ApplyEditsWellFormed(t: Tree, es: seq<Edit>)
    requires Canonical(t) && WellTyped(t)
    ensures Canonical(ApplyEdits(t, es)) && WellTyped(ApplyEdits(t, es))
  {
    if es != [] {
      var init, e := es[..|es| - 1], es[|es| - 1];
      ApplyEditsWellFormed(t, init);
      var chosen := if e.blob.Some? then e.blob.value else Zero;
      assert e.path != [] && (e.blob.Some? ==> IsBlobID(e.blob.value));
      RewriteCanonical(ApplyEdits(t, init), e.path, chosen, e.blob.None?);
      RewriteWellTyped(ApplyEdits(t, init), e.path, chosen, e.blob.None?);
    }
  }

  /** The effect of one edit on every path. */
  lemma ApplyEditLeaf(t: Tree, e: Edit, q: Path)
    ensures LeafAt(ApplyEdit(t, e), q) ==
      if q == e.path then LeafOf(e) else if e.path <= q || q <= e.path then None else LeafAt(t, q)
  {
    hide Rewrite, LeafAt;
    RewriteLeaf(t, e.path, if e.blob.Some? then e.blob.value else Zero, e.blob.None?, q);
  }

  /** A batch over pairwise incomparable paths, path by path. */
  lemma {:induction false} ApplyEditsLeaf(t: Tree, es: seq<Edit>, q: Path)
    requires PairwiseIncomparable(es)
    ensures forall e :: e in es && e.path == q ==> LeafAt(ApplyEdits(t, es), q) == LeafOf(e)
    ensures (exists e :: e in es && !Incomparable(e.path, q)) && (forall e :: e in es ==> e.path != q)
      ==> LeafAt(ApplyEdits(t, es), q) == None
    ensures (forall e :: e in es ==> Incomparable(e.path, q)) ==> LeafAt(ApplyEdits(t, es), q) == LeafAt(t, q)
  {
    hide ApplyEdit, LeafAt;
    if es != [] {
      var init, last := es[..|es| - 1], es[|es| - 1];
      assert es == init + [last];
      ApplyEditsLeaf(t, init, q);
      ApplyEditLeaf(ApplyEdits(t, init), last, q);
      forall e | e in init ensures Incomparable(e.path, last.path) {
        var i :| 0 <= i < |init| && init[i] == e;
        assert es[i] == e && es[|es| - 1] == last;
      }
    }
  }

  ghost predicate SameEdits(es: seq<Edit>, fs: seq<Edit>) {
    forall e :: e in es <==> e in fs
  }

  /** CommitFromChanges over pairwise incomparable paths does not depend on the order of the changes. */
  lemma ApplyEditsOrderIndependent(t: Tree, es: seq<Edit>, fs: seq<Edit>)
    requires PairwiseIncomparable(es) && PairwiseIncomparable(fs) && SameEdits(es, fs)
    requires Canonical(t) && WellTyped(t)
    ensures ApplyEdits(t, es) == ApplyEdits(t, fs)
  {
    ApplyEditsWellFormed(t, es);
    ApplyEditsWellFormed(t, fs);
    forall q ensures LeafAt(ApplyEdits(t, es), q) == LeafAt(ApplyEdits(t, fs), q) {
      ApplyEditsLeaf(t, es, q);
      ApplyEditsLeaf(t, fs, q);
    }
    CanonicalExtensional(ApplyEdits(t, es), ApplyEdits(t, fs));
  }
}
