/** Dropping a revision from a linear history. */
module DropHistory {
  import opened Prelude
  import opened Paths
  import opened Objects
  import opened Merge
  import opened History
  import opened Evolution

  // ---- The descendants of a revision -------------------------------------------------------------

  /** `child`'s current snapshot has `parent`'s current snapshot as its first parent. */
  predicate IsChild(s: State, parent: string, child: string) {
    parent in s.revs && Current(s, child).Ok? && s.revs[child].hash != s.revs[parent].hash &&
    var c := Current(s, child).value;
    c.parents != [] && c.parents[0] == s.revs[parent].hash
  }

  /** What DescendantsOf returns: each revision once, each after its parent, and closed under children. */
  ghost predicate IsDescendantList(s: State, rid: string, out: seq<string>) {
    (forall i, j :: 0 <= i < j < |out| ==> out[i] != out[j]) &&
    (forall i ::
      0 <= i < |out| ==>
      out[i] != rid && (IsChild(s, rid, out[i]) || exists j :: 0 <= j < i && IsChild(s, out[j], out[i]))) &&
    (forall x, y :: (x == rid || x in out) && y != rid && IsChild(s, x, y) ==> y in out)
  }

  /** chain[0] is the dropped revision; each next one is the only child of the one before. */
  ghost predicate LinearChain(s: State, chain: seq<string>) {
    chain != [] && Current(s, chain[0]).Ok? &&
    (forall i :: 0 < i < |chain| ==> IsChild(s, chain[i - 1], chain[i])) &&
    (forall i, y :: 0 <= i < |chain| && IsChild(s, chain[i], y) ==> i + 1 < |chain| && y == chain[i + 1])
  }

  function FirstParentDepth(h: ID): nat {
    if h.SnapshotDigest? && h.parents != [] then 1 + FirstParentDepth(h.parents[0]) else 0
  }

  lemma {:induction false} ChainDepth(s: State, chain: seq<string>, i: nat)
    requires Inv(s) && LinearChain(s, chain) && i < |chain|
    ensures chain[i] in s.revs
    ensures FirstParentDepth(s.revs[chain[i]].hash) == FirstParentDepth(s.revs[chain[0]].hash) + i
  {
    if i > 0 {
      ChainDepth(s, chain, i - 1);
      assert IsChild(s, chain[i - 1], chain[i]);
      var c := Current(s, chain[i]).value;
      assert c.hash == SnapshotID(c);
    }
  }

  lemma ChainDistinct(s: State, chain: seq<string>)
    requires Inv(s) && LinearChain(s, chain)
    ensures forall i, j :: 0 <= i < j < |chain| ==> chain[i] != chain[j]
  {
    forall i, j | 0 <= i < j < |chain| ensures chain[i] != chain[j] {
      ChainDepth(s, chain, i);
      ChainDepth(s, chain, j);
    }
  }

  /** On a linear chain the descendant list is the rest of the chain, in order. */
  lemma LinearDescendants(s: State, chain: seq<string>, out: seq<string>)
    requires Inv(s) && LinearChain(s, chain) && IsDescendantList(s, chain[0], out)
    ensures out == chain[1..]
  {
    ChainDistinct(s, chain);
    DescendantsFollow(s, chain, out, |out|);
    if |out| + 1 < |chain| {
      ChainCovered(s, chain, out, |out| + 1);
    }
  }

  lemma {:induction false} ChainCovered(s: State, chain: seq<string>, out: seq<string>, n: nat)
    requires Inv(s) && LinearChain(s, chain) && IsDescendantList(s, chain[0], out) && n < |chain|
    ensures n == 0 || chain[n] in out
  {
    if n > 0 {
      ChainCovered(s, chain, out, n - 1);
      ChainDistinct(s, chain);
      assert IsChild(s, chain[n - 1], chain[n]);
    }
  }

  /** What is found next hangs off the start or off a revision found before. */
  lemma FoundNext(s: State, chain: seq<string>, out: seq<string>, i: nat) returns (k: nat)
    requires chain != [] && IsDescendantList(s, chain[0], out) && i < |out|
    requires forall m :: 0 <= m < i ==> m + 1 < |chain| && out[m] == chain[m + 1]
    ensures k <= i && k < |chain| && IsChild(s, chain[k], out[i])
    ensures k < i ==> out[k] != out[i]
  {
    hide IsChild;
    k := 0;
    if !IsChild(s, chain[0], out[i]) {
      var j :| 0 <= j < i && IsChild(s, out[j], out[i]);
      k := j + 1;
    }
  }

  lemma OnlyChild(s: State, chain: seq<string>, k: nat, y: string)
    requires LinearChain(s, chain) && k < |chain| && IsChild(s, chain[k], y)
    ensures k + 1 < |chain| && y == chain[k + 1]
  {
    hide IsChild;
  }

  lemma {:induction false} DescendantsFollow(s: State, chain: seq<string>, out: seq<string>, n: nat)
    requires LinearChain(s, chain) && IsDescendantList(s, chain[0], out) && n <= |out|
    ensures n + 1 <= |chain|
    ensures forall i :: 0 <= i < n ==> out[i] == chain[i + 1]
  {
    hide IsChild, IsDescendantList;
    if n > 0 {
      DescendantsFollow(s, chain, out, n - 1);
      var k := FoundNext(s, chain, out, n - 1);
      OnlyChild(s, chain, k, out[n - 1]);
      assert k == n - 1;
    }
  }

  // ---- Ancestry ------------------------------------------------------------------------------------

  /** Parent edges of a stored snapshot are part of its id, so ancestry can be read off the id. */
  ghost predicate IsAncestor(a: ID, h: ID)
    decreases h
  {
    a == h || (h.SnapshotDigest? && exists i :: 0 <= i < |h.parents| && IsAncestor(a, h.parents[i]))
  }

  ghost function Depth(h: ID): nat
    decreases h
  {
    if h.SnapshotDigest? then 1 + MaxOf(set i | 0 <= i < |h.parents| :: Depth(h.parents[i])) else 0
  }

  lemma DepthParent(h: ID, i: nat)
    requires h.SnapshotDigest? && i < |h.parents|
    ensures Depth(h.parents[i]) < Depth(h)
  {
    var ds := set i | 0 <= i < |h.parents| :: Depth(h.parents[i]);
    assert Depth(h.parents[i]) in ds;
  }

  lemma {:induction false} AncestorShallower(a: ID, h: ID)
    requires IsAncestor(a, h) && a != h
    ensures Depth(a) < Depth(h)
    decreases h
  {
    var i :| 0 <= i < |h.parents| && IsAncestor(a, h.parents[i]);
    DepthParent(h, i);
    if a != h.parents[i] { AncestorShallower(a, h.parents[i]); }
  }

  // ---- Re-applying a chain -------------------------------------------------------------------------

  ghost predicate PrefixFree(u: iset<Path>) {
    forall p, q :: p in u && q in u && p <= q ==> p == q
  }

  ghost predicate LeavesIn(t: Tree, u: iset<Path>) { forall p :: LeafAt(t, p).Some? ==> p in u }

  ghost predicate GoodTree(t: Tree, u: iset<Path>) {
    WellTyped(t) && Canonical(t) && LeavesIn(t, u)
  }

  /** The paths whose leaf differs between two trees. */
  ghost function Changes(a: Tree, b: Tree): iset<Path> { iset p: Path | LeafAt(a, p) != LeafAt(b, p) }

  lemma LeafInNoDir(t: Tree, u: iset<Path>, p: Path)
    requires GoodTree(t, u) && PrefixFree(u) && p in u
    ensures !DirAt(t, p)
  {
    if DirAt(t, p) {
      var q := DirHasLeaf(t, p);
    }
  }

  /** One step: `o` changed `b` only off `moved`, `n` differs from `b` only on `moved`. */
  lemma RebasedLeaf(b: Tree, o: Tree, n: Tree, u: iset<Path>, moved: iset<Path>, q: Path)
    requires PrefixFree(u) && GoodTree(b, u) && GoodTree(o, u) && GoodTree(n, u)
    requires Changes(b, o) !! moved && Changes(b, n) <= moved
    ensures LeafAt(MergeTrees(b, o, n).tree, q) == if q in moved then LeafAt(n, q) else LeafAt(o, q)
  {
    assert q in moved ==> q !in Changes(b, o);
    assert q !in moved ==> q !in Changes(b, n);
    if LeafAt(o, q).Some? || LeafAt(n, q).Some? {
      LeafInNoDir(b, u, q);
      LeafInNoDir(o, u, q);
      LeafInNoDir(n, u, q);
    }
    MergePointwise(b, o, n, q);
  }

  lemma RebasedTree(b: Tree, o: Tree, n: Tree, m: Tree, u: iset<Path>, moved: iset<Path>)
    requires PrefixFree(u) && GoodTree(b, u) && GoodTree(o, u) && GoodTree(n, u)
    requires Changes(b, o) !! moved && Changes(b, n) <= moved && m == MergeTrees(b, o, n).tree
    ensures GoodTree(m, u) && forall q :: LeafAt(m, q) == if q in moved then LeafAt(n, q) else LeafAt(o, q)
  {
    MergeWellTyped(b, o, n);
    MergeCanonical(b, o, n);
    forall q ensures LeafAt(m, q) == if q in moved then LeafAt(n, q) else LeafAt(o, q) {
      RebasedLeaf(b, o, n, u, moved, q);
    }
  }

  function RevTree(s: State, rid: string): Tree {
    if Current(s, rid).Ok? then TreeOf(Current(s, rid).value.tree) else EMPTY_TREE
  }

  function RevHash(s: State, rid: string): ID { if rid in s.revs then s.revs[rid].hash else Zero }

  /** A chain of revisions starting above the stored snapshot `base`. */
  ghost predicate ChainFrom(s: State, rids: seq<string>, base: ID) {
    (forall i, j :: 0 <= i < j < |rids| ==> rids[i] != rids[j]) &&
    forall i :: 0 <= i < |rids| ==>
      Current(s, rids[i]).Ok? && Current(s, rids[i]).value.parents != [] &&
      Current(s, rids[i]).value.parents[0] == HashBefore(s, rids, base, i)
  }

  function HashBefore(s: State, rids: seq<string>, base: ID, i: nat): ID
    requires i < |rids|
  {
    if i == 0 then base else RevHash(s, rids[i - 1])
  }

  function TreeBefore(s: State, rids: seq<string>, base: Tree, i: nat): Tree
    requires i < |rids|
  {
    if i == 0 then base else RevTree(s, rids[i - 1])
  }

  function ParentOf(out: seq<Snapshot>, onto: ID, i: nat): ID
    requires i < |out|
  {
    if i == 0 then onto else out[i - 1].hash
  }

  /** Every revision of the chain leaves `moved` alone. */
  ghost predicate LeavesAlone(s: State, rids: seq<string>, base: Tree, u: iset<Path>, moved: iset<Path>) {
    forall i :: 0 <= i < |rids| ==>
      GoodTree(RevTree(s, rids[i]), u) &&
      Changes(TreeBefore(s, rids, base, i), RevTree(s, rids[i])) !! moved
  }

  /** A moved revision: stacked on `parent`, its tree the old one with `moved` replaced from `target`. */
  ghost predicate MovedOne(before: Tree, t: State, rid: string, n: Snapshot, parent: ID, target: Tree, u: iset<Path>,
      moved: iset<Path>) {
    n.revision == rid && RevHash(t, rid) == n.hash == SnapshotID(n) && n.parents == [parent] &&
    GoodTree(TreeOf(n.tree), u) &&
    forall q :: LeafAt(TreeOf(n.tree), q) == if q in moved then LeafAt(target, q) else LeafAt(before, q)
  }

  /** The moved chain: the same revisions in the same order, on top of `onto`. */
  ghost predicate Moved(s: State, t: State, rids: seq<string>, out: seq<Snapshot>, onto: ID, target: Tree,
      u: iset<Path>, moved: iset<Path>) {
    |out| == |rids| &&
    forall i :: 0 <= i < |rids| ==>
      MovedOne(RevTree(s, rids[i]), t, rids[i], out[i], ParentOf(out, onto, i), target, u, moved)
  }

  ghost predicate SameRows(s: State, t: State, but: seq<string>) {
    forall x :: x in s.revs && x !in but ==> x in t.revs && t.revs[x] == s.revs[x]
  }

  /** `s1` and `n` are what rebasing `rid` onto `onto` leaves and returns. */
  ghost predicate Rebased(s: State, s1: State, rid: string, onto: ID, n: Snapshot) {
    Keeps(s, s1) && Current(s, rid).Ok? && onto in s.snaps &&
    n.revision == rid && n.parents == [onto] && n.hash == SnapshotID(n) &&
    n.tree == MergeIDs(FirstParentTree(s, Current(s, rid).value.parents), Current(s, rid).value.tree,
      s.snaps[onto].tree) &&
    n.hash in s1.snaps && s1.snaps[n.hash] == n && RevHash(s1, rid) == n.hash && SameRows(s, s1, [rid])
  }

  lemma RebaseFacts(s: State, rid: string, onto: ID)
    requires Inv(s) && Current(s, rid).Ok? && onto in s.snaps
    ensures var out := Rebase(s, rid, [onto]);
      out.result.Ok? && Rebased(s, out.state, rid, onto, out.result.value)
  {
    RebaseKeeps(s, rid, [onto]);
  }

  /** Revisions whose row did not change keep their content. */
  lemma SameRow(s: State, t: State, x: string)
    requires Inv(s) && Keeps(s, t) && x in s.revs && x in t.revs && s.revs[x] == t.revs[x]
    ensures Current(s, x).Ok? && Current(t, x).Ok? && SameContent(Current(s, x).value, Current(t, x).value)
    ensures RevTree(s, x) == RevTree(t, x) && RevHash(s, x) == RevHash(t, x)
  {
    var h := s.revs[x].hash;
    assert h in s.snaps && h in t.snaps;
  }

  ghost predicate SameChainRows(s: State, t: State, rids: seq<string>) {
    forall i :: 1 <= i < |rids| ==>
      Current(t, rids[i]).Ok? && Current(s, rids[i]).Ok? &&
        SameContent(Current(s, rids[i]).value, Current(t, rids[i]).value) &&
      RevTree(t, rids[i]) == RevTree(s, rids[i]) && RevHash(t, rids[i]) == RevHash(s, rids[i])
  }

  lemma ChainRows(s: State, t: State, rids: seq<string>, base: ID)
    requires Inv(s) && Keeps(s, t) && rids != [] && ChainFrom(s, rids, base) && SameRows(s, t, [rids[0]])
    ensures SameChainRows(s, t, rids)
  {
    hide Inv, RevTree, RevHash;
    forall i | 1 <= i < |rids|
      ensures Current(t, rids[i]).Ok? && Current(s, rids[i]).Ok? &&
        SameContent(Current(s, rids[i]).value, Current(t, rids[i]).value)
      ensures RevTree(s, rids[i]) == RevTree(t, rids[i]) && RevHash(s, rids[i]) == RevHash(t, rids[i])
    {
      SameRow(s, t, rids[i]);
    }
  }

  lemma ChainTail(s: State, t: State, rids: seq<string>, base: ID)
    requires rids != [] && ChainFrom(s, rids, base) && SameChainRows(s, t, rids)
    ensures ChainFrom(t, rids[1..], RevHash(s, rids[0]))
  {
    var rest := rids[1..];
    forall i | 0 <= i < |rest|
      ensures Current(t, rest[i]).Ok? && Current(t, rest[i]).value.parents != []
      ensures Current(t, rest[i]).value.parents[0] == HashBefore(t, rest, RevHash(s, rids[0]), i)
    {
      assert rest[i] == rids[i + 1];
      assert HashBefore(t, rest, RevHash(s, rids[0]), i) == HashBefore(s, rids, base, i + 1);
    }
    forall i, j | 0 <= i < j < |rest| ensures rest[i] != rest[j] {
      assert rest[i] == rids[i + 1] && rest[j] == rids[j + 1];
    }
  }

  lemma AloneTail(s: State, t: State, rids: seq<string>, baseTree: Tree, u: iset<Path>, moved: iset<Path>)
    requires rids != [] && LeavesAlone(s, rids, baseTree, u, moved) && SameChainRows(s, t, rids)
    ensures LeavesAlone(t, rids[1..], RevTree(s, rids[0]), u, moved)
  {
    var rest := rids[1..];
    forall i | 0 <= i < |rest|
      ensures GoodTree(RevTree(t, rest[i]), u)
      ensures Changes(TreeBefore(t, rest, RevTree(s, rids[0]), i), RevTree(t, rest[i])) !! moved
    {
      assert rest[i] == rids[i + 1];
      assert TreeBefore(t, rest, RevTree(s, rids[0]), i) == TreeBefore(s, rids, baseTree, i + 1);
    }
  }

  lemma MovedCons(s: State, s1: State, t: State, rids: seq<string>, n: Snapshot, rest: seq<Snapshot>, onto: ID,
      target: Tree, u: iset<Path>, moved: iset<Path>)
    requires rids != [] && Moved(s1, t, rids[1..], rest, n.hash, target, u, moved)
    requires SameChainRows(s, s1, rids)
    requires MovedOne(RevTree(s, rids[0]), t, rids[0], n, onto, target, u, moved)
    ensures Moved(s, t, rids, [n] + rest, onto, target, u, moved)
  {
    var out := [n] + rest;
    forall i | 0 <= i < |rids|
      ensures MovedOne(RevTree(s, rids[i]), t, rids[i], out[i], ParentOf(out, onto, i), target, u, moved)
    {
      if i > 0 { MovedLater(s, s1, t, rids, n, rest, onto, target, u, moved, i); }
    }
  }

  lemma MovedLater(s: State, s1: State, t: State, rids: seq<string>, n: Snapshot, rest: seq<Snapshot>, onto: ID,
      target: Tree, u: iset<Path>, moved: iset<Path>, i: nat)
    requires 1 <= i < |rids| && Moved(s1, t, rids[1..], rest, n.hash, target, u, moved)
    requires SameChainRows(s, s1, rids)
    ensures MovedOne(RevTree(s, rids[i]), t, rids[i], ([n] + rest)[i], ParentOf([n] + rest, onto, i), target, u, moved)
  {
    MovedAt(s1, t, rids[1..], rest, n.hash, target, u, moved, i - 1);
    LaterIndices(s, s1, rids, n, rest, onto, i);
  }

  lemma LaterIndices(s: State, s1: State, rids: seq<string>, n: Snapshot, rest: seq<Snapshot>, onto: ID, i: nat)
    requires 1 <= i < |rids| && |rest| == |rids| - 1 && SameChainRows(s, s1, rids)
    ensures rids[1..][i - 1] == rids[i] && ([n] + rest)[i] == rest[i - 1]
    ensures RevTree(s1, rids[1..][i - 1]) == RevTree(s, rids[i])
    ensures ParentOf(rest, n.hash, i - 1) == ParentOf([n] + rest, onto, i)
  {
  }

  lemma MovedAt(s: State, t: State, rids: seq<string>, out: seq<Snapshot>, onto: ID, target: Tree, u: iset<Path>,
      moved: iset<Path>, i: nat)
    requires i < |rids| && Moved(s, t, rids, out, onto, target, u, moved)
    ensures |out| == |rids| &&
      MovedOne(RevTree(s, rids[i]), t, rids[i], out[i], ParentOf(out, onto, i), target, u, moved)
  {
  }

  /** The new base of the rest of the chain again differs from the old one only on `moved`. */
  lemma RebasedBase(s: State, s1: State, rids: seq<string>, n: Snapshot, base: ID, onto: ID, target: Tree,
      u: iset<Path>, moved: iset<Path>)
    requires rids != [] && Inv(s) && Rebased(s, s1, rids[0], onto, n) && PrefixFree(u) && base in s.snaps
    requires GoodTree(TreeOf(s.snaps[base].tree), u) && GoodTree(TreeOf(s.snaps[onto].tree), u)
    requires ChainFrom(s, rids, base) && LeavesAlone(s, rids, TreeOf(s.snaps[base].tree), u, moved)
    requires Changes(TreeOf(s.snaps[base].tree), TreeOf(s.snaps[onto].tree)) <= moved
    requires forall q :: q in moved ==> LeafAt(TreeOf(s.snaps[onto].tree), q) == LeafAt(target, q)
    ensures MovedOne(RevTree(s, rids[0]), s1, rids[0], n, onto, target, u, moved)
    ensures Changes(RevTree(s, rids[0]), TreeOf(n.tree)) <= moved
    ensures forall q :: q in moved ==> LeafAt(TreeOf(n.tree), q) == LeafAt(target, q)
  {
    var b, o, t := TreeOf(s.snaps[base].tree), RevTree(s, rids[0]), TreeOf(s.snaps[onto].tree);
    RebasedIsMerge(s, s1, rids, n, base, onto);
    assert Changes(b, o) !! moved && GoodTree(o, u);
    RebasedLeaves(b, o, t, TreeOf(n.tree), target, u, moved);
  }

  lemma RebasedLeaves(b: Tree, o: Tree, t: Tree, m: Tree, target: Tree, u: iset<Path>, moved: iset<Path>)
    requires PrefixFree(u) && GoodTree(b, u) && GoodTree(o, u) && GoodTree(t, u) && m == MergeTrees(b, o, t).tree
    requires Changes(b, o) !! moved && Changes(b, t) <= moved
    requires forall q :: q in moved ==> LeafAt(t, q) == LeafAt(target, q)
    ensures GoodTree(m, u) && Changes(o, m) <= moved
    ensures forall q :: q in moved ==> LeafAt(m, q) == LeafAt(target, q)
    ensures forall q :: LeafAt(m, q) == if q in moved then LeafAt(target, q) else LeafAt(o, q)
  {
    RebasedTree(b, o, t, m, u, moved);
    ReplacedIn(o, m, t, target, moved);
  }

  lemma RebasedIsMerge(s: State, s1: State, rids: seq<string>, n: Snapshot, base: ID, onto: ID)
    requires rids != [] && Rebased(s, s1, rids[0], onto, n) && base in s.snaps && ChainFrom(s, rids, base)
    ensures TreeOf(n.tree) ==
      MergeTrees(TreeOf(s.snaps[base].tree), RevTree(s, rids[0]), TreeOf(s.snaps[onto].tree)).tree
  {
    var cur := Current(s, rids[0]).value;
    assert FirstParentTree(s, cur.parents) == s.snaps[base].tree;
  }

  lemma ReplacedIn(o: Tree, m: Tree, n: Tree, target: Tree, moved: iset<Path>)
    requires forall q :: LeafAt(m, q) == if q in moved then LeafAt(n, q) else LeafAt(o, q)
    requires forall q :: q in moved ==> LeafAt(n, q) == LeafAt(target, q)
    ensures Changes(o, m) <= moved
    ensures forall q :: q in moved ==> LeafAt(m, q) == LeafAt(target, q)
    ensures forall q :: LeafAt(m, q) == if q in moved then LeafAt(target, q) else LeafAt(o, q)
  {
  }

  /**
   * Rebasing a chain that never touches `moved` onto a snapshot that differs from the chain's old
   * base only on `moved`: it succeeds, keeps ids and order, and replaces exactly those paths.
   */
  lemma {:induction false} RebaseChain(s: State, rids: seq<string>, base: ID, onto: ID, target: Tree, u: iset<Path>,
      moved: iset<Path>)
    requires Inv(s) && PrefixFree(u) && base in s.snaps && onto in s.snaps
    requires GoodTree(TreeOf(s.snaps[base].tree), u) && GoodTree(TreeOf(s.snaps[onto].tree), u)
    requires ChainFrom(s, rids, base) && LeavesAlone(s, rids, TreeOf(s.snaps[base].tree), u, moved)
    requires Changes(TreeOf(s.snaps[base].tree), TreeOf(s.snaps[onto].tree)) <= moved
    requires forall q :: q in moved ==> LeafAt(TreeOf(s.snaps[onto].tree), q) == LeafAt(target, q)
    ensures var out := RebaseMany(s, rids, onto);
      out.result.Ok? && Moved(s, out.state, rids, out.result.value, onto, target, u, moved) &&
        SameRows(s, out.state, rids)
    decreases |rids|, 1
  {
    if rids != [] {
      var first := Rebase(s, rids[0], [onto]);
      RebaseFacts(s, rids[0], onto);
      RebaseChainStep(s, first.state, rids, first.result.value, base, onto, target, u, moved);
      RebaseManyCons(s, rids, onto, first, RebaseMany(first.state, rids[1..], first.result.value.hash));
    }
  }

  lemma RebaseManyCons(s: State, rids: seq<string>, onto: ID, first: Outcome<Snapshot>, rest: Outcome<seq<Snapshot>>)
    requires rids != [] && first == Rebase(s, rids[0], [onto]) && first.result.Ok?
    requires rest == RebaseMany(first.state, rids[1..], first.result.value.hash) && rest.result.Ok?
    ensures RebaseMany(s, rids, onto) == Outcome(rest.state, Ok([first.result.value] + rest.result.value))
  {
  }

  /** RebaseChain after its first rebase, which led from `s` to `s1` and produced `n`. */
  lemma {:induction false} RebaseChainStep(s: State, s1: State, rids: seq<string>, n: Snapshot, base: ID, onto: ID,
      target: Tree, u: iset<Path>, moved: iset<Path>)
    requires rids != [] && Inv(s) && Rebased(s, s1, rids[0], onto, n) && PrefixFree(u) && base in s.snaps
    requires GoodTree(TreeOf(s.snaps[base].tree), u) && GoodTree(TreeOf(s.snaps[onto].tree), u)
    requires ChainFrom(s, rids, base) && LeavesAlone(s, rids, TreeOf(s.snaps[base].tree), u, moved)
    requires Changes(TreeOf(s.snaps[base].tree), TreeOf(s.snaps[onto].tree)) <= moved
    requires forall q :: q in moved ==> LeafAt(TreeOf(s.snaps[onto].tree), q) == LeafAt(target, q)
    ensures var rest := RebaseMany(s1, rids[1..], n.hash);
      rest.result.Ok? && Moved(s, rest.state, rids, [n] + rest.result.value, onto, target, u, moved) &&
        SameRows(s, rest.state, rids)
    decreases |rids|, 0
  {
    RebasedBase(s, s1, rids, n, base, onto, target, u, moved);
    ChainRows(s, s1, rids, base);
    ChainTail(s, s1, rids, base);
    AloneTail(s, s1, rids, TreeOf(s.snaps[base].tree), u, moved);
    var prev := RevHash(s, rids[0]);
    assert prev in s1.snaps && TreeOf(s1.snaps[prev].tree) == RevTree(s, rids[0]);
    RebaseChain(s1, rids[1..], prev, n.hash, target, u, moved);
    var rest := RebaseMany(s1, rids[1..], n.hash);
    RebaseChainJoin(s, s1, rest.state, rids, n, rest.result.value, onto, target, u, moved);
  }

  lemma RebaseChainJoin(s: State, s1: State, t: State, rids: seq<string>, n: Snapshot, rest: seq<Snapshot>, onto: ID,
      target: Tree, u: iset<Path>, moved: iset<Path>)
    requires rids != [] && (forall i :: 0 < i < |rids| ==> rids[i] != rids[0]) && RevHash(s1, rids[0]) == n.hash
    requires SameRows(s, s1, [rids[0]]) && SameRows(s1, t, rids[1..]) && rids[0] in s1.revs
    requires MovedOne(RevTree(s, rids[0]), s1, rids[0], n, onto, target, u, moved)
    requires Moved(s1, t, rids[1..], rest, n.hash, target, u, moved)
    requires SameChainRows(s, s1, rids)
    ensures Moved(s, t, rids, [n] + rest, onto, target, u, moved) && SameRows(s, t, rids)
  {
    assert rids[0] !in rids[1..];
    assert rids == [rids[0]] + rids[1..];
    MovedCons(s, s1, t, rids, n, rest, onto, target, u, moved);
  }

  // ---- The theorem -----------------------------------------------------------------------------------

  /**
   * Dropping a revision of a linear history whose changed paths no later revision touches: every
   * descendant keeps its id and place, its tree is its old tree except that the dropped revision's
   * paths have the parent's values, and the line now stands on the dropped revision's parent.
   */
  lemma DropLinear(s: State, chain: seq<string>, ds: seq<string>, u: iset<Path>)
    requires Inv(s) && LinearChain(s, chain) && IsDescendantList(s, chain[0], ds)
    requires var cur := Current(s, chain[0]).value; cur.parents != [] && cur.parents[0] in s.snaps
    requires var parent := TreeOf(s.snaps[Current(s, chain[0]).value.parents[0]].tree);
      PrefixFree(u) && GoodTree(parent, u) && GoodTree(RevTree(s, chain[0]), u) &&
      LeavesAlone(s, chain[1..], RevTree(s, chain[0]), u, Changes(parent, RevTree(s, chain[0])))
    ensures var onto := Current(s, chain[0]).value.parents[0];
      var parent := TreeOf(s.snaps[onto].tree);
      var out := Drop(s, chain[0], ds);
      out.result.Ok? &&
      Moved(s, out.state, chain[1..], out.result.value, onto, parent, u, Changes(parent, RevTree(s, chain[0])))
  {
    LinearDescendants(s, chain, ds);
    var onto := Current(s, chain[0]).value.parents[0];
    var base := s.revs[chain[0]].hash;
    var parent := TreeOf(s.snaps[onto].tree);
    assert TreeOf(s.snaps[base].tree) == RevTree(s, chain[0]);
    assert s.snaps[onto].hash == onto;
    ChainDistinct(s, chain);
    LinearIsChainFrom(s, chain);
    RebaseChain(s, chain[1..], base, onto, parent, u, Changes(parent, RevTree(s, chain[0])));
  }

  lemma LinearIsChainFrom(s: State, chain: seq<string>)
    requires LinearChain(s, chain) && forall i, j :: 0 <= i < j < |chain| ==> chain[i] != chain[j]
    ensures ChainFrom(s, chain[1..], s.revs[chain[0]].hash)
  {
    var rest := chain[1..];
    forall i | 0 <= i < |rest|
      ensures Current(s, rest[i]).Ok? && Current(s, rest[i]).value.parents != []
      ensures Current(s, rest[i]).value.parents[0] == HashBefore(s, rest, s.revs[chain[0]].hash, i)
    {
      var k := i + 1;
      assert IsChild(s, chain[k - 1], chain[k]);
    }
  }

  /** The moved line never mentions the dropped snapshot again. */
  lemma {:induction false} DroppedIsGone(s: State, t: State, chain: seq<string>, out: seq<Snapshot>, onto: ID,
      target: Tree, u: iset<Path>, moved: iset<Path>, i: nat)
    requires Inv(s) && LinearChain(s, chain) && i < |chain| - 1
    requires var cur := Current(s, chain[0]).value; cur.parents != [] && cur.parents[0] == onto
    requires Moved(s, t, chain[1..], out, onto, target, u, moved)
    ensures !IsAncestor(s.revs[chain[0]].hash, out[i].hash)
  {
    hide Moved, LeafAt;
    var dropped := s.revs[chain[0]].hash;
    MovedAt(s, t, chain[1..], out, onto, target, u, moved, i);
    ChainDistinct(s, chain);
    assert dropped == SnapshotID(s.snaps[dropped]) && s.snaps[dropped].revision == chain[0];
    assert out[i].revision == chain[1..][i] == chain[i + 1];
    if i == 0 {
      DepthParent(dropped, 0);
      if IsAncestor(dropped, onto) { AncestorShallower(dropped, onto); }
    } else {
      DroppedIsGone(s, t, chain, out, onto, target, u, moved, i - 1);
    }
    assert out[i].hash.parents == [ParentOf(out, onto, i)];
  }

  /** No conflict appears. */
  lemma MovedConflictFree(s: State, t: State, rids: seq<string>, out: seq<Snapshot>, onto: ID,
      target: Tree, u: iset<Path>, moved: iset<Path>, i: nat)
    requires i < |rids| && Moved(s, t, rids, out, onto, target, u, moved)
    requires ConflictFree(target) && ConflictFree(RevTree(s, rids[i]))
    ensures ConflictFree(TreeOf(out[i].tree))
  {
    MovedAt(s, t, rids, out, onto, target, u, moved, i);
    var m := TreeOf(out[i].tree);
    forall p ensures LeafAt(m, p).Some? ==> LeafAt(m, p).value.kind != KindConflict {
      LeafConflictFree(target, p);
      LeafConflictFree(RevTree(s, rids[i]), p);
    }
    LeavesConflictFree(m);
  }

  lemma {:induction false} LeavesConflictFree(t: Tree)
    requires WellTyped(t) && forall p :: LeafAt(t, p).Some? ==> LeafAt(t, p).value.kind != KindConflict
    ensures ConflictFree(t)
    decreases t
  {
    forall n | n in t.entries
      ensures t.entries[n].kind != KindConflict && (IsDir(t.entries[n]) ==> ConflictFree(t.entries[n].id.obj.tree))
    {
      assert LeafAt(t, [n]) == if IsDir(t.entries[n]) then None else Some(t.entries[n]);
      if IsDir(t.entries[n]) {
        var sub := t.entries[n].id.obj.tree;
        forall p ensures LeafAt(sub, p).Some? ==> LeafAt(sub, p).value.kind != KindConflict {
          if p != [] { LeafAtCons(t, n, p); }
        }
        LeavesConflictFree(sub);
      }
    }
  }
}
