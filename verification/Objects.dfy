/**
 * Content-addressed objects. An object id is modelled as a free term over the object it is the
 * digest of: two ids are equal exactly when the hashed values are equal, no digest is the zero id,
 * and no object can mention its own id. These are the properties the engine relies on BLAKE3 for,
 * and they stand for values whose names, labels, authors and revision ids hold no newline: only then
 * do the texts that are hashed determine the value (HashText, SnapshotText).
 */
module Objects {
  import opened Prelude
  import opened Paths

  datatype Kind = KindBlob | KindTree | KindConflict

  /** Zero is the absent id. SnapshotDigest is the digest of a snapshot's canonical text, which
      SnapshotText proves injective in the fields listed here, without newlines in the revision id
      and the author. */
  datatype ID =
    | Zero
    | Digest(obj: Object)
    | SnapshotDigest(revision: string, tree: ID, description: string, author: string, parents: seq<ID>)

  datatype Object =
    | Blob(data: seq<int>)
    | TreeObject(tree: Tree)
    | ConflictObject(conflict: Conflict)

  datatype Term = Term(id: ID, side: string)

  datatype Conflict = Conflict(removes: seq<Term>, adds: seq<Term>)

  /** A directory entry. The map key of Tree.entries is the entry's name. */
  datatype Entry = Entry(kind: Kind, id: ID)

  datatype Tree = Tree(entries: map<string, Entry>)

  const EMPTY_TREE := Tree(map[])

  /** The zero value Go yields for a missing map key. */
  const NO_ENTRY := Entry(KindBlob, Zero)

  function KindOf(o: Object): Kind {
    match o
    case Blob(_) => KindBlob
    case TreeObject(_) => KindTree
    case ConflictObject(_) => KindConflict
  }

  function TreeID(t: Tree): ID { Digest(TreeObject(t)) }

  predicate IsTreeID(id: ID) { id.Digest? && id.obj.TreeObject? }

  /** mustTree on a store that holds the tree. */
  function TreeOf(id: ID): Tree { if IsTreeID(id) then id.obj.tree else EMPTY_TREE }

  /** An entry that reads as a directory. */
  predicate IsDir(e: Entry) { e.kind == KindTree && IsTreeID(e.id) }

  function SubTree(e: Entry): Tree { if IsDir(e) then e.id.obj.tree else EMPTY_TREE }

  function EntryAt(t: Tree, name: string): Entry {
    if name in t.entries then t.entries[name] else NO_ENTRY
  }

  /** The subtree a walk descends into below `name`: empty when there is no directory there. */
  function Child(t: Tree, name: string): Tree { SubTree(EntryAt(t, name)) }

  // ---- Flattening a tree to its leaves -------------------------------------------------------

  /** The file or conflict stored at a path, if any. */
  function LeafAt(t: Tree, p: Path): Option<Entry>
    decreases |p|
  {
    if p == [] || p[0] !in t.entries then None
    else if |p| == 1 then (if IsDir(t.entries[p[0]]) then None else Some(t.entries[p[0]]))
    else LeafAt(Child(t, p[0]), p[1..])
  }

  predicate DirAt(t: Tree, p: Path)
    decreases |p|
  {
    p != [] && p[0] in t.entries && IsDir(t.entries[p[0]]) &&
    (|p| == 1 || DirAt(Child(t, p[0]), p[1..]))
  }

  ghost predicate SameLeaves(a: Tree, b: Tree) {
    forall p :: LeafAt(a, p) == LeafAt(b, p)
  }

  /** Every entry's id is a digest of an object of the entry's kind, at every depth. */
  predicate WellTyped(t: Tree)
    decreases t
  {
    forall n | n in t.entries ::
      var e := t.entries[n];
      e.id.Digest? && KindOf(e.id.obj) == e.kind && (e.id.obj.TreeObject? ==> WellTyped(e.id.obj.tree))
  }

  /** No empty directory below the root. */
  predicate Canonical(t: Tree)
    decreases t
  {
    forall n | n in t.entries ::
      var e := t.entries[n];
      IsDir(e) ==> e.id.obj.tree.entries != map[] && Canonical(e.id.obj.tree)
  }

  predicate ConflictFree(t: Tree)
    decreases t
  {
    forall n | n in t.entries ::
      var e := t.entries[n];
      e.kind != KindConflict && (IsDir(e) ==> ConflictFree(e.id.obj.tree))
  }

  /** No name at any depth holds a slash. */
  predicate SlashFreeNames(t: Tree)
    decreases t
  {
    forall n | n in t.entries ::
      SlashFree(n) && (IsDir(t.entries[n]) ==> SlashFreeNames(t.entries[n].id.obj.tree))
  }

  /** No directory at the root has the empty name. */
  predicate NamedRoot(t: Tree) { "" in t.entries ==> !IsDir(t.entries[""]) }

  /** Every path in the tree survives the path-splitting loop. */
  predicate ValidNames(t: Tree) { SlashFreeNames(t) && NamedRoot(t) }

  // ---- A bound on nesting, for the recursive walks -------------------------------------------

  ghost function MaxOf(s: set<nat>): (m: nat)
    ensures forall x :: x in s ==> x <= m
  {
    if s == {} then 0 else
      var x :| x in s;
      var r := MaxOf(s - {x});
      assert forall y | y in s :: y == x || y in s - {x};
      if x > r then x else r
  }

  ghost function Height(t: Tree): nat
    decreases t
  {
    if t.entries == map[] then 0 else
      1 + MaxOf(set n | n in t.entries && IsDir(t.entries[n]) :: Height(t.entries[n].id.obj.tree))
  }

  lemma HeightChild(t: Tree, name: string)
    ensures Height(Child(t, name)) <= Height(t)
    ensures name in t.entries && IsDir(t.entries[name]) ==> Height(Child(t, name)) < Height(t)
  {
    if name in t.entries && IsDir(t.entries[name]) {
      var s := set n | n in t.entries && IsDir(t.entries[n]) :: Height(t.entries[n].id.obj.tree);
      assert Height(Child(t, name)) in s;
    }
  }

  // ---- Leaf maps determine canonical trees ---------------------------------------------------

  lemma LeafAtCons(t: Tree, n: string, p: Path)
    requires p != []
    ensures LeafAt(t, [n] + p) == LeafAt(Child(t, n), p)
    ensures DirAt(t, [n] + p) == DirAt(Child(t, n), p)
  {
    assert ([n] + p)[1..] == p;
  }

  /** A non-empty canonical tree holds a leaf. */
  lemma {:induction false} CanonicalHasLeaf(t: Tree) returns (p: Path)
    requires Canonical(t) && t.entries != map[]
    ensures LeafAt(t, p).Some?
    decreases t
  {
    var n :| n in t.entries;
    if IsDir(t.entries[n]) {
      var q := CanonicalHasLeaf(t.entries[n].id.obj.tree);
      LeafAtCons(t, n, q);
      p := [n] + q;
    } else {
      p := [n];
    }
  }

  /** Two canonical, well-typed trees with the same leaves are the same tree. */
  lemma {:induction false} CanonicalExtensional(a: Tree, b: Tree)
    requires Canonical(a) && Canonical(b) && WellTyped(a) && WellTyped(b)
    requires SameLeaves(a, b)
    ensures a == b
    decreases a
  {
    forall n | n in a.entries || n in b.entries
      ensures n in a.entries && n in b.entries && a.entries[n] == b.entries[n]
    {
      assert LeafAt(a, [n]) == LeafAt(b, [n]);
      forall p ensures LeafAt(Child(a, n), p) == LeafAt(Child(b, n), p) {
        if p != [] {
          LeafAtCons(a, n, p);
          LeafAtCons(b, n, p);
          assert LeafAt(a, [n] + p) == LeafAt(b, [n] + p);
        }
      }
      if n in a.entries && IsDir(a.entries[n]) {
        var q := CanonicalHasLeaf(Child(a, n));
        CanonicalExtensional(Child(a, n), Child(b, n));
      } else if n in b.entries && IsDir(b.entries[n]) {
        var q := CanonicalHasLeaf(Child(b, n));
      }
    }
    assert a.entries.Keys == b.entries.Keys;
    assert a.entries == b.entries;
  }

  // ---- Shape --------------------------------------------------------------------------------

  /** No leaf of `a` sits where `b` has a directory. */
  ghost predicate NoClash(a: Tree, b: Tree) {
    forall p :: LeafAt(a, p).Some? ==> !DirAt(b, p)
  }

  /** No leaf path of `a` is a proper prefix of a leaf path of `b`: with both directions, the union
      of the leaf paths is prefix-free. */
  ghost predicate LeafPrefixFree(a: Tree, b: Tree) {
    forall p, q :: LeafAt(a, p).Some? && LeafAt(b, q).Some? && p <= q ==> p == q
  }

  ghost predicate Compatible(a: Tree, b: Tree) {
    LeafPrefixFree(a, b) && LeafPrefixFree(b, a)
  }

  /** In a canonical tree every directory has a leaf below it. */
  lemma {:induction false} DirHasLeaf(t: Tree, p: Path) returns (q: Path)
    requires Canonical(t) && DirAt(t, p)
    ensures q != [] && LeafAt(t, p + q).Some? && p <= p + q && p != p + q
    decreases |p|
  {
    var sub := Child(t, p[0]);
    if |p| == 1 {
      q := CanonicalHasLeaf(sub);
      LeafAtCons(t, p[0], q);
      assert p + q == [p[0]] + q;
    } else {
      q := DirHasLeaf(sub, p[1..]);
      LeafAtCons(t, p[0], p[1..] + q);
      assert p + q == [p[0]] + (p[1..] + q);
    }
  }

  lemma {:induction false} LeafImpliesDirs(t: Tree, p: Path, q: Path)
    requires q != [] && p != [] && LeafAt(t, p + q).Some?
    ensures DirAt(t, p)
    decreases |p|
  {
    assert (p + q)[1..] == p[1..] + q;
    if |p| > 1 { LeafImpliesDirs(Child(t, p[0]), p[1..], q); }
  }

  /** For a canonical right-hand tree, prefix-freeness and the absence of clashes are the same. */
  lemma PrefixFreeIffNoClash(a: Tree, b: Tree)
    requires Canonical(b)
    ensures LeafPrefixFree(a, b) <==> NoClash(a, b)
  {
    if LeafPrefixFree(a, b) {
      forall p | LeafAt(a, p).Some? ensures !DirAt(b, p) {
        if DirAt(b, p) {
          var q := DirHasLeaf(b, p);
        }
      }
    }
    if NoClash(a, b) {
      forall p, q | LeafAt(a, p).Some? && LeafAt(b, q).Some? && p <= q ensures p == q {
        if p != q {
          assert q == p + q[|p|..];
          LeafImpliesDirs(b, p, q[|p|..]);
        }
      }
    }
  }

  /** A tree never clashes with itself. */
  lemma {:induction false} LeafNotDir(t: Tree, p: Path)
    ensures !(LeafAt(t, p).Some? && DirAt(t, p))
    decreases |p|
  {
    if |p| > 1 { LeafNotDir(Child(t, p[0]), p[1..]); }
  }

  lemma {:induction false} LeafConflictFree(t: Tree, p: Path)
    requires ConflictFree(t)
    ensures LeafAt(t, p).Some? ==> LeafAt(t, p).value.kind != KindConflict
    decreases |p|
  {
    if |p| > 1 { LeafConflictFree(Child(t, p[0]), p[1..]); }
  }

  lemma {:induction false} LeafNamesSlashFree(t: Tree, p: Path)
    requires SlashFreeNames(t)
    ensures LeafAt(t, p).Some? ==> p != [] && NamesSlashFree(p)
    decreases |p|
  {
    if LeafAt(t, p).Some? && |p| > 1 {
      LeafNamesSlashFree(Child(t, p[0]), p[1..]);
      assert forall i :: 1 <= i < |p| ==> p[i] == p[1..][i - 1];
    }
  }

  lemma LeafNamesValid(t: Tree, p: Path)
    requires ValidNames(t)
    ensures LeafAt(t, p).Some? ==> p != [] && ValidPath(p)
  {
    hide SlashFreeNames;
    LeafNamesSlashFree(t, p);
    if |p| > 1 && p[0] == "" { assert LeafAt(EMPTY_TREE, p[1..]) == None; }
  }
}
