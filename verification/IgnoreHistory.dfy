/** Rewriting an ancestry so that ignored paths vanish from every tree (RewriteHistoryWithIgnores). */
module IgnoreHistory {
  import opened Prelude
  import opened Paths
  import opened Objects
  import opened History
  import opened Evolution
  import opened Store
  import opened SnapshotOwners
  import opened IgnoreRules
  import opened IgnoreFilter
  import opened DropHistory

  // ---- The rewritten graph -------------------------------------------------------------------------

  function FilteredTree(m: Matcher, id: ID): ID { TreeID(DropTree(m, TreeOf(id), "", true)) }

  /** The hash a snapshot gets: its tree filtered, every owned parent replaced by its own new hash. */
  function NewHash(s: State, m: Matcher, h: ID): ID
    decreases h
  {
    if Owner(s, h).None? || !h.SnapshotDigest? then h
    else SnapshotDigest(h.revision, FilteredTree(m, h.tree), h.description, h.author, NewHashes(s, m, h, |h.parents|))
  }

  function NewHashes(s: State, m: Matcher, h: ID, k: nat): (r: seq<ID>)
    requires h.SnapshotDigest? && k <= |h.parents|
    ensures |r| == k
    decreases h, k
  {
    if k == 0 then [] else NewHashes(s, m, h, k - 1) + [NewHash(s, m, h.parents[k - 1])]
  }

  /** `a` is reached from `h` over parent edges between current snapshots of revisions. */
  ghost predicate OwnedAncestor(s: State, a: ID, h: ID)
    decreases h
  {
    Owner(s, h).Some? &&
      (a == h || (h.SnapshotDigest? && exists i :: 0 <= i < |h.parents| && OwnedAncestor(s, a, h.parents[i])))
  }

  /** The rewritten parent edges, edge by edge. */
  lemma {:induction false} NewHashesAt(s: State, m: Matcher, h: ID, k: nat, i: nat)
    requires h.SnapshotDigest? && i < k <= |h.parents|
    ensures NewHashes(s, m, h, k)[i] == NewHash(s, m, h.parents[i])
  {
    if i < k - 1 { NewHashesAt(s, m, h, k - 1, i); }
  }

  /**
   * The rewrite is an isomorphism on the owned snapshots: ids and metadata are kept, the tree is the
   * filtered tree, each parent edge points at the new hash of the old parent, unowned parents stay,
   * and different snapshots get different hashes.
   */
  lemma RewriteIsomorphic(s: State, m: Matcher, h: ID, k: ID)
    requires Inv(s) && Owner(s, h).Some? && Owner(s, k).Some?
    ensures h.SnapshotDigest? && NewHash(s, m, h).SnapshotDigest?
    ensures var n := NewHash(s, m, h);
      n.revision == h.revision && n.description == h.description && n.author == h.author &&
      n.tree == FilteredTree(m, h.tree) && |n.parents| == |h.parents| &&
      forall i :: 0 <= i < |h.parents| ==>
        n.parents[i] == if Owner(s, h.parents[i]).Some? then NewHash(s, m, h.parents[i]) else h.parents[i]
    ensures NewHash(s, m, h) == NewHash(s, m, k) ==> h == k
  {
    assert h == SnapshotID(s.snaps[h]) && k == SnapshotID(s.snaps[k]);
    forall i | 0 <= i < |h.parents| ensures NewHash(s, m, h).parents[i] == NewHash(s, m, h.parents[i]) {
      NewHashesAt(s, m, h, |h.parents|, i);
    }
  }

  // ---- The recursion -------------------------------------------------------------------------------

  /** The new hash of every revision. */
  ghost function Targets(s: State, m: Matcher): map<string, ID> {
    map r | r in s.revs :: NewHash(s, m, s.revs[r].hash)
  }

  ghost predicate Covers(target: map<string, ID>, s: State) { target.Keys == s.revs.Keys }

  ghost function NewParent(s: State, target: map<string, ID>, p: ID): ID
    requires Covers(target, s)
  {
    if Owner(s, p).Some? then target[Owner(s, p).value] else p
  }

  ghost function Changed(s: State, target: map<string, ID>, done: set<string>): set<string>
    requires Covers(target, s)
  {
    set r | r in done && r in s.revs && target[r] != s.revs[r].hash
  }

  /** The rows after the revisions in `done` were rewritten. */
  ghost predicate RowsRewritten(s: State, t: State, target: map<string, ID>, done: set<string>)
    requires Covers(target, s)
  {
    t.revs.Keys == s.revs.Keys && done <= s.revs.Keys &&
    forall r :: r in s.revs ==> t.revs[r] == if r in done then s.revs[r].(hash := target[r]) else s.revs[r]
  }

  ghost predicate MemoRight(s: State, target: map<string, ID>, memo: map<ID, ID>, done: set<string>)
    requires Covers(target, s)
  {
    forall h ::
      if Owner(s, h).Some? && Owner(s, h).value in done then h in memo && memo[h] == target[Owner(s, h).value]
      else h !in memo
  }

  /** Every owned parent of a finished revision is finished. */
  ghost predicate ClosedUp(s: State, done: set<string>) {
    forall r, p ::
      r in done && r in s.revs && s.revs[r].hash.SnapshotDigest? && p in s.revs[r].hash.parents && Owner(s, p).Some? ==>
      Owner(s, p).value in done
  }

  ghost predicate AllTyped(s: State) { forall h :: h in s.snaps ==> WellTyped(TreeOf(s.snaps[h].tree)) }

  lemma {:induction false} OwnedIsAncestor(s: State, a: ID, h: ID)
    requires OwnedAncestor(s, a, h)
    ensures IsAncestor(a, h) && Owner(s, a).Some?
    decreases h
  {
    if a != h {
      var i :| 0 <= i < |h.parents| && OwnedAncestor(s, a, h.parents[i]);
      OwnedIsAncestor(s, a, h.parents[i]);
    }
  }

  /** An ancestor of a parent is never the snapshot itself. */
  lemma ParentAncestorDiffers(s: State, a: ID, h: ID, i: nat)
    requires h.SnapshotDigest? && i < |h.parents| && Owner(s, h).Some? && OwnedAncestor(s, a, h.parents[i])
    ensures a != h && OwnedAncestor(s, a, h)
  {
    OwnedIsAncestor(s, a, h.parents[i]);
    DepthParent(h, i);
    if a != h.parents[i] { AncestorShallower(a, h.parents[i]); }
  }

  ghost predicate OwnersDone(s: State, parents: seq<ID>, done: set<string>) {
    forall p :: p in parents && Owner(s, p).Some? ==> Owner(s, p).value in done
  }

  ghost predicate ParentsRewritten(s: State, target: map<string, ID>, parents: seq<ID>, newParents: seq<ID>)
    requires Covers(target, s)
  {
    |newParents| == |parents| && forall i :: 0 <= i < |parents| ==> newParents[i] == NewParent(s, target, parents[i])
  }

  lemma MemoLookup(s: State, target: map<string, ID>, memo: map<ID, ID>, done: set<string>, p: ID)
    requires Covers(target, s) && MemoRight(s, target, memo, done) && (Owner(s, p).Some? ==> Owner(s, p).value in done)
    ensures (if p in memo then memo[p] else p) == NewParent(s, target, p)
  {
  }

  lemma ParentStep(s: State, target: map<string, ID>, parents: seq<ID>, newParents: seq<ID>, before: set<string>,
      done: set<string>, p: ID, np: ID)
    requires Covers(target, s) && before <= done && OwnersDone(s, parents, before) &&
      ParentsRewritten(s, target, parents, newParents)
    requires np == NewParent(s, target, p) && (Owner(s, p).Some? ==> Owner(s, p).value in done)
    ensures OwnersDone(s, parents + [p], done) && ParentsRewritten(s, target, parents + [p], newParents + [np])
  {
  }

  lemma FinishRows(s: State, t: State, u: State, target: map<string, ID>, done: set<string>, id: string)
    requires Covers(target, s) && id in s.revs && RowsRewritten(s, t, target, done)
    requires u.revs == t.revs[id := s.revs[id].(hash := target[id])]
    ensures RowsRewritten(s, u, target, done + {id})
  {
  }

  lemma FinishMemo(s: State, target: map<string, ID>, memo: map<ID, ID>, done: set<string>, id: string)
    requires Inv(s) && Covers(target, s) && id in s.revs && MemoRight(s, target, memo, done)
    ensures MemoRight(s, target, memo[s.revs[id].hash := target[id]], done + {id})
  {
    OwnRow(s, id);
    forall k | Owner(s, k) == Some(id) ensures k == s.revs[id].hash { }
  }

  lemma FinishCount(s: State, target: map<string, ID>, done: set<string>, id: string)
    requires Covers(target, s) && id in s.revs && id !in done
    ensures |Changed(s, target, done + {id})| == |Changed(s, target, done)| +
      if target[id] != s.revs[id].hash then 1 else 0
  {
    assert Changed(s, target, done + {id}) == Changed(s, target, done) +
      if target[id] != s.revs[id].hash then {id} else {};
  }

  lemma FinishClosed(s: State, done: set<string>, id: string)
    requires id in s.revs && s.revs[id].hash.SnapshotDigest? && ClosedUp(s, done)
    requires OwnersDone(s, s.revs[id].hash.parents, done)
    ensures ClosedUp(s, done + {id})
  {
  }

  /** What holds between visits: `t` is the table state, the rest are the closure variables. */
  ghost predicate Sound(s: State, t: State, target: map<string, ID>, memo: map<ID, ID>, done: set<string>,
      rewritten: nat) {
    Covers(target, s) && Extends(s, t) &&
    RowsRewritten(s, t, target, done) && MemoRight(s, target, memo, done) && ClosedUp(s, done) &&
    rewritten == |Changed(s, target, done)|
  }

  /** One more revision finished, whether or not its hash changed. */
  lemma FinishAll(s: State, t: State, u: State, target: map<string, ID>, memo: map<ID, ID>, done: set<string>,
      rewritten: nat, id: string)
    requires Inv(s) && id in s.revs && id !in done && s.revs[id].hash.SnapshotDigest? &&
      Sound(s, t, target, memo, done, rewritten)
    requires OwnersDone(s, s.revs[id].hash.parents, done) && Extends(t, u)
    requires if target[id] == s.revs[id].hash then u == t else u.revs == t.revs[id := t.revs[id].(hash := target[id])]
    ensures Sound(s, u, target, memo[s.revs[id].hash := target[id]], done + {id},
      rewritten + if target[id] != s.revs[id].hash then 1 else 0)
  {
    assert t.revs[id] == s.revs[id];
    assert u.revs == t.revs[id := s.revs[id].(hash := target[id])];
    FinishRows(s, t, u, target, done, id);
    FinishMemo(s, target, memo, done, id);
    FinishCount(s, target, done, id);
    FinishClosed(s, done, id);
    ExtendsTransitive(s, t, u);
  }

  /** Facts about one revision not yet finished. */
  lemma NotYet(s: State, t: State, target: map<string, ID>, memo: map<ID, ID>, done: set<string>, rewritten: nat,
      id: string)
    requires Inv(s) && id in s.revs && id !in done && Sound(s, t, target, memo, done, rewritten)
    ensures id in t.revs && id in target
    ensures var h := s.revs[id].hash; h in s.snaps && h in t.snaps && SameContent(s.snaps[h], t.snaps[h])
  {
    OwnRow(s, id);
  }

  lemma ExtendsReflexive(s: State)
    ensures Extends(s, s)
  {
  }

  /** The snapshot written for a revision has that revision's target as its hash. */
  lemma TargetHash(s: State, m: Matcher, id: string, newParents: seq<ID>)
    requires Inv(s) && id in s.revs && s.revs[id].hash.SnapshotDigest?
    requires var h := s.revs[id].hash;
      ParentsRewritten(s, Targets(s, m), h.parents, newParents)
    ensures var h := s.revs[id].hash;
      Targets(s, m)[id] == SnapshotDigest(id, FilteredTree(m, h.tree), h.description, h.author, newParents)
  {
    var h := s.revs[id].hash;
    OwnRow(s, id);
    assert newParents == NewHashes(s, m, h, |h.parents|) by {
      forall i | 0 <= i < |newParents| ensures newParents[i] == NewHashes(s, m, h, |h.parents|)[i] {
        NewHashesAt(s, m, h, |h.parents|, i);
      }
    }
  }

  // ---- On a store ---------------------------------------------------------------------------------

  /** The closure variables of the rewrite: old to new hashes, finished revisions, and the count. */
  datatype Closure = Closure(memo: map<ID, ID>, done: set<string>, rewritten: nat)

  /** The fixed tables of one rewrite: the listed revisions and the owner of each current snapshot. */
  datatype Tables = Tables(byID: map<string, Revision>, snapOwner: map<ID, string>)

  ghost predicate TablesOf(tb: Tables, s: State) {
    Inv(s) && tb.byID == s.revs &&
    forall h ::
      if Owner(s, h).Some? then h in tb.snapOwner && tb.snapOwner[h] == Owner(s, h).value else h !in tb.snapOwner
  }

  ghost predicate SoundNow(s: State, r: Repo, target: map<string, ID>, c: Closure)
    reads r
  {
    Inv(s) && Sound(s, r.State(), target, c.memo, c.done, c.rewritten)
  }

  ghost predicate Ready(s: State, r: Repo, m: Matcher, c: Closure)
    reads r
  {
    r.Valid() && SoundNow(s, r, Targets(s, m), c)
  }

  /** The revisions finished since are ancestors of `id`. */
  ghost predicate OnlyAncestors(s: State, before: set<string>, after: set<string>, id: string)
    requires id in s.revs
  {
    before <= after && forall r ::
      r in after && r !in before ==> r in s.revs && OwnedAncestor(s, s.revs[r].hash, s.revs[id].hash)
  }

  /** The writes of one visit. */
  method Finish(id: string, cur: Snapshot, newSnap: Snapshot, r: Repo, c: Closure, ghost s: State,
      ghost target: map<string, ID>)
    returns (c': Closure)
    requires r.Valid() && SoundNow(s, r, target, c) && id in s.revs && id !in c.done
    requires cur.hash == s.revs[id].hash && cur.hash.SnapshotDigest? && id in target
    requires newSnap.hash == SnapshotID(newSnap) == target[id] && newSnap.revision == id &&
      HoldsID(r.objects, newSnap.tree)
    requires OwnersDone(s, s.revs[id].hash.parents, c.done)
    modifies r`snapshots, r`revisions
    ensures r.Valid() && SoundNow(s, r, target, c') && c'.done == c.done + {id}
  {
    hide Sound, Inv, Extends, OwnersDone, HoldsID;
    ghost var before := r.State();
    NotYet(s, before, target, c.memo, c.done, c.rewritten, id);
    if newSnap.hash != cur.hash {
      WriteRow(id, newSnap, r);
      c' := Closure(c.memo[cur.hash := newSnap.hash], c.done + {id}, c.rewritten + 1);
    } else {
      ExtendsReflexive(before);
      c' := Closure(c.memo[cur.hash := cur.hash], c.done + {id}, c.rewritten);
    }
    FinishAll(s, before, r.State(), target, c.memo, c.done, c.rewritten, id);
  }

  method WriteRow(id: string, newSnap: Snapshot, r: Repo)
    requires r.Valid() && id in r.revisions
    requires newSnap.hash == SnapshotID(newSnap) && newSnap.revision == id && HoldsID(r.objects, newSnap.tree)
    modifies r`snapshots, r`revisions
    ensures r.Valid() && Extends(old(r.State()), r.State())
    ensures r.revisions == old(r.revisions)[id := old(r.revisions)[id].(hash := newSnap.hash)]
  {
    InstallKeeps(r.State(), newSnap, r.revisions[id].(hash := newSnap.hash));
    r.PutSnapshot(newSnap);
    var ok := r.UpdateRevisionHash(id, newSnap.hash);
  }

  /** DropIgnoredPathsFromTree, leaving the revision and snapshot tables alone. */
  method DropStored(m: Matcher, tree: ID, r: Repo) returns (res: Result<ID>)
    requires r.Valid() && HoldsID(r.objects, tree)
    modifies r`objects
    ensures r.Valid() && Grows(old(r.objects), r.objects)
    ensures WellTyped(TreeOf(tree)) ==> res.Ok?
    ensures res.Ok? ==> res.value == FilteredTree(m, tree) && HoldsID(r.objects, res.value)
  {
    ghost var objects := r.objects;
    r.MustTreeHeld(tree);
    res := DropIgnored(m, r.MustTree(tree), "", r);
    StoredInGrows(objects, r.objects, r.snapshots);
  }

  /** Filter the tree of one revision, and store and repoint it if its hash changed. */
  method RewriteOne(id: string, cur: Snapshot, newParents: seq<ID>, m: Matcher, r: Repo, c: Closure, ghost s: State)
    returns (c': Closure, ok: bool)
    requires Ready(s, r, m, c) && id in s.revs && id !in c.done
    requires s.revs[id].hash in s.snaps && SameContent(s.snaps[s.revs[id].hash], cur)
    requires ParentsRewritten(s, Targets(s, m), cur.parents, newParents) && OwnersDone(s, cur.parents, c.done)
    modifies r
    ensures Ready(s, r, m, c')
    ensures c'.done == if ok then c.done + {id} else c.done
    ensures WellTyped(TreeOf(cur.tree)) ==> ok
  {
    hide Sound, Inv, Extends, OwnersDone, ParentsRewritten, Targets, Owner, FilteredTree;
    ghost var target := Targets(s, m);
    OwnRow(s, id);
    NotYet(s, r.State(), target, c.memo, c.done, c.rewritten, id);
    var filtered := DropStored(m, cur.tree, r);
    if filtered.Err? { return c, false; }
    TargetHash(s, m, id, newParents);
    var newSnap := Seal(Snapshot(Zero, cur.revision, newParents, filtered.value, cur.description, cur.author,
      cur.time));
    c' := Finish(id, cur, newSnap, r, c, s, target);
    ok := true;
  }

  /** visit: parents first, then this revision. */
  method Visit(id: string, m: Matcher, tb: Tables, r: Repo, c: Closure, ghost s: State) returns (c': Closure, ok: bool)
    requires Ready(s, r, m, c) && TablesOf(tb, s) && id in s.revs
    modifies r
    ensures Ready(s, r, m, c')
    ensures ok <==> id in c'.done
    ensures AllTyped(s) ==> ok
    ensures OnlyAncestors(s, c.done, c'.done, id)
    decreases s.revs[id].hash, 2
  {
    hide Targets, Sound, Extends, AllTyped, OwnersDone, ParentsRewritten, OnlyAncestors;
    NoParents(s, m, c.done, id);
    if id in c.done { return c, true; }
    ghost var h := s.revs[id].hash;
    OwnRow(s, id);
    NotYet(s, r.State(), Targets(s, m), c.memo, c.done, c.rewritten, id);
    var cur := r.GetSnapshot(tb.byID[id].hash);
    var newParents;
    newParents, c', ok := VisitParents(id, cur.value.parents, m, tb, r, c, s);
    if !ok { return; }
    CurrentTyped(s, h, cur.value);
    ghost var mid := c'.done;
    c', ok := RewriteOne(id, cur.value, newParents, m, r, c', s);
    SelfAncestor(s, c.done, mid, c'.done, id);
  }

  lemma CurrentTyped(s: State, h: ID, cur: Snapshot)
    requires h in s.snaps && SameContent(s.snaps[h], cur)
    ensures AllTyped(s) ==> WellTyped(TreeOf(cur.tree))
  {
  }

  lemma SelfAncestor(s: State, before: set<string>, mid: set<string>, after: set<string>, id: string)
    requires Inv(s) && id in s.revs && OnlyAncestors(s, before, mid, id) && (after == mid || after == mid + {id})
    ensures OnlyAncestors(s, before, after, id)
  {
    OwnRow(s, id);
  }

  lemma MoreAncestors(s: State, before: set<string>, mid: set<string>, after: set<string>, id: string)
    requires id in s.revs && OnlyAncestors(s, before, mid, id) && OnlyAncestors(s, mid, after, id)
    ensures OnlyAncestors(s, before, after, id) && mid <= after
  {
  }

  /** The loop over the parents. */
  method VisitParents(id: string, parents: seq<ID>, m: Matcher, tb: Tables, r: Repo, c: Closure, ghost s: State)
    returns (newParents: seq<ID>, c': Closure, ok: bool)
    requires Ready(s, r, m, c) && TablesOf(tb, s) && id in s.revs && id !in c.done
    requires s.revs[id].hash.SnapshotDigest? && parents == s.revs[id].hash.parents
    modifies r
    ensures Ready(s, r, m, c') && id !in c'.done
    ensures AllTyped(s) ==> ok
    ensures ok ==> ParentsRewritten(s, Targets(s, m), parents, newParents) && OwnersDone(s, parents, c'.done)
    ensures OnlyAncestors(s, c.done, c'.done, id)
    decreases s.revs[id].hash, 1
  {
    hide Targets, OwnersDone, ParentsRewritten, OnlyAncestors, Ready, TablesOf, AllTyped, Owner;
    ghost var target := Targets(s, m);
    newParents, c' := [], c;
    NoParents(s, m, c.done, id);
    var k := 0;
    while k < |parents|
      invariant k <= |parents|
      invariant Ready(s, r, m, c') && id !in c'.done
      invariant ParentsRewritten(s, target, parents[..k], newParents) && OwnersDone(s, parents[..k], c'.done)
      invariant OnlyAncestors(s, c.done, c'.done, id)
    {
      var p := parents[k];
      ghost var before := c'.done;
      var np;
      c', np, ok := VisitParent(id, k, p, m, tb, r, c', s);
      MoreAncestors(s, c.done, before, c'.done, id);
      if !ok { return; }
      TakeMore(parents, k);
      ParentStep(s, target, parents[..k], newParents, before, c'.done, p, np);
      newParents := newParents + [np];
      k := k + 1;
    }
    WholeSlices(parents);
    ok := true;
  }

  lemma NoParents(s: State, m: Matcher, done: set<string>, id: string)
    requires id in s.revs
    ensures Covers(Targets(s, m), s) && ParentsRewritten(s, Targets(s, m), [], []) && OwnersDone(s, [], done) &&
      OnlyAncestors(s, done, done, id)
  {
  }

  lemma OwnerRow(s: State, p: ID)
    ensures Owner(s, p).Some? ==> Owner(s, p).value in s.revs && s.revs[Owner(s, p).value].hash == p
  {
  }

  lemma MemoReady(s: State, r: Repo, m: Matcher, c: Closure, p: ID)
    requires Ready(s, r, m, c) && (Owner(s, p).Some? ==> Owner(s, p).value in c.done)
    ensures (if p in c.memo then c.memo[p] else p) == NewParent(s, Targets(s, m), p)
  {
    hide Targets, Owner;
    MemoLookup(s, Targets(s, m), c.memo, c.done, p);
  }

  /** Visit the owner of one parent, if it has one, and look up the parent's new hash. */
  method VisitParent(id: string, ghost k: nat, p: ID, m: Matcher, tb: Tables, r: Repo, c: Closure, ghost s: State)
    returns (c': Closure, np: ID, ok: bool)
    requires Ready(s, r, m, c) && TablesOf(tb, s) && id in s.revs && id !in c.done
    requires var h := s.revs[id].hash; h.SnapshotDigest? && k < |h.parents| && h.parents[k] == p
    modifies r
    ensures Ready(s, r, m, c') && id !in c'.done
    ensures AllTyped(s) ==> ok
    ensures ok ==> np == NewParent(s, Targets(s, m), p) && (Owner(s, p).Some? ==> Owner(s, p).value in c'.done)
    ensures OnlyAncestors(s, c.done, c'.done, id)
    decreases s.revs[id].hash, 0
  {
    hide Targets, Sound, OnlyAncestors, Extends, AllTyped, Owner, OwnedAncestor;
    c', ok := c, true;
    NoParents(s, m, c.done, id);
    OwnRow(s, id);
    OwnerRow(s, p);
    if p in tb.snapOwner {
      c', ok := Visit(tb.snapOwner[p], m, tb, r, c, s);
      ParentAncestors(s, c.done, c'.done, id, k);
    }
    if ok { MemoReady(s, r, m, c', p); }
    np := if p in c'.memo then c'.memo[p] else p;
  }

  lemma ParentAncestors(s: State, before: set<string>, after: set<string>, id: string, k: nat)
    requires Inv(s) && id in s.revs && s.revs[id].hash.SnapshotDigest? && k < |s.revs[id].hash.parents|
    requires Owner(s, s.revs[id].hash).Some? && id !in before
    requires var p := s.revs[id].hash.parents[k];
      Owner(s, p).Some? && OnlyAncestors(s, before, after, Owner(s, p).value)
    ensures OnlyAncestors(s, before, after, id) && id !in after
  {
    var h := s.revs[id].hash;
    forall x | x in after && x !in before ensures x != id && OwnedAncestor(s, s.revs[x].hash, h) {
      ParentAncestorDiffers(s, s.revs[x].hash, h, k);
    }
  }

  lemma {:induction false} AncestorsFinished(s: State, done: set<string>, id: string, a: ID, h: ID)
    requires Inv(s) && ClosedUp(s, done) && id in done && id in s.revs && s.revs[id].hash == h && done <= s.revs.Keys
    requires OwnedAncestor(s, a, h)
    ensures Owner(s, a).Some? && Owner(s, a).value in done
    decreases h
  {
    OwnRow(s, id);
    if a != h {
      var i :| 0 <= i < |h.parents| && OwnedAncestor(s, a, h.parents[i]);
      var p := h.parents[i];
      assert Owner(s, p).Some?;
      AncestorsFinished(s, done, Owner(s, p).value, a, p);
    }
  }

  /** The revisions in the ancestry of `id`, itself included. */
  ghost function Ancestry(s: State, id: string): set<string>
    requires id in s.revs
  {
    set x | x in s.revs && OwnedAncestor(s, s.revs[x].hash, s.revs[id].hash)
  }

  lemma FinishedIsAncestry(s: State, done: set<string>, id: string)
    requires Inv(s) && ClosedUp(s, done) && id in done && id in s.revs && done <= s.revs.Keys &&
      OnlyAncestors(s, {}, done, id)
    ensures done == Ancestry(s, id)
  {
    forall x | x in Ancestry(s, id) ensures x in done {
      AncestorsFinished(s, done, id, s.revs[x].hash, s.revs[id].hash);
      OwnRow(s, x);
    }
  }

  /** The state after rewriting the revisions in `done`: exactly these are repointed, each to its new
      hash, and each new hash is stored with the content it digests. */
  ghost predicate RevisionsRewritten(s: State, t: State, m: Matcher, done: set<string>) {
    Inv(t) && Extends(s, t) && t.revs.Keys == s.revs.Keys &&
    forall x :: x in s.revs ==>
      t.revs[x] == if x in done then s.revs[x].(hash := NewHash(s, m, s.revs[x].hash)) else s.revs[x]
  }

  ghost predicate AncestryRewritten(s: State, t: State, m: Matcher, id: string)
    requires id in s.revs
  {
    RevisionsRewritten(s, t, m, Ancestry(s, id))
  }

  /** The state after a rewrite that failed half way: part of the ancestry is rewritten, each revision
      with all of its own ancestors, and the start is not. */
  ghost predicate PartlyRewritten(s: State, t: State, m: Matcher, id: string)
    requires id in s.revs
  {
    exists done :: done <= Ancestry(s, id) - {id} && ClosedUp(s, done) && RevisionsRewritten(s, t, m, done)
  }

  /** A rewritten revision's snapshot in the new state. */
  lemma RewrittenSnapshot(s: State, t: State, m: Matcher, done: set<string>, x: string)
    requires Inv(s) && RevisionsRewritten(s, t, m, done) && x in s.revs && x in done
    ensures x in t.revs && s.revs[x].hash in s.snaps && t.revs[x].hash in t.snaps
    ensures var h, n := s.revs[x].hash, t.snaps[t.revs[x].hash];
      h.SnapshotDigest? && h.tree == s.snaps[h].tree && h.parents == s.snaps[h].parents &&
      h.description == s.snaps[h].description && h.author == AuthorText(s.snaps[h].author) &&
      n.hash == t.revs[x].hash == NewHash(s, m, h) && n.revision == x && n.tree == FilteredTree(m, h.tree) &&
      n.description == h.description && AuthorText(n.author) == h.author &&
      n.parents == NewHashes(s, m, h, |h.parents|)
  {
    hide FilteredTree, NewHashes;
    OwnRow(s, x);
    OwnRow(t, x);
  }

  /**
   * After the rewrite no revision of the ancestry holds an ignored file, and nothing else is missing: a
   * leaf is gone exactly when a prefix of its path is ignored.
   */
  lemma RewriteDropsIgnored(s: State, t: State, m: Matcher, id: string, x: string, p: Path)
    requires Inv(s) && id in s.revs && AncestryRewritten(s, t, m, id) && x in Ancestry(s, id)
    requires WellTyped(RevTree(s, x)) && NamedRoot(RevTree(s, x))
    ensures LeafAt(RevTree(t, x), p) ==
      if exists k :: 1 <= k <= |p| && IsIgnored(m, Render(p[..k])) then None else LeafAt(RevTree(s, x), p)
  {
    hide LeafAt, DropTree, IsIgnored, Render, WellTyped, NamedRoot;
    OwnRow(s, x);
    RewrittenSnapshot(s, t, m, Ancestry(s, id), x);
    OwnRow(t, x);
    DropKeepsUnignored(m, RevTree(s, x), true, p);
  }

  /** The ancestry holds the revision itself and, with each revision, every revision that one of its
      parents is the snapshot of; it is the least such set. */
  lemma AncestryLeast(s: State, id: string)
    requires Inv(s) && id in s.revs
    ensures id in Ancestry(s, id)
    ensures forall x, y :: x in Ancestry(s, id) && y in s.revs && s.revs[y].hash in RevParents(s, x) ==>
      y in Ancestry(s, id)
    ensures forall all: set<string> :: id in all && UpClosed(s, all) ==> Ancestry(s, id) <= all
  {
    hide Owner, OwnedAncestor, RevParents, UpClosed;
    SelfOwned(s, id);
    forall x, y | x in Ancestry(s, id) && y in s.revs && s.revs[y].hash in RevParents(s, x)
      ensures y in Ancestry(s, id)
    {
      ParentOwned(s, x, y);
      OwnedTransitive(s, s.revs[y].hash, s.revs[x].hash, s.revs[id].hash);
    }
    forall all: set<string> | id in all && UpClosed(s, all) ensures Ancestry(s, id) <= all {
      forall x | x in Ancestry(s, id) ensures x in all { OwnedInside(s, all, s.revs[x].hash, s.revs[id].hash, id, x); }
    }
  }

  /** The parents of a revision's current snapshot. */
  ghost function RevParents(s: State, x: string): seq<ID> {
    if x in s.revs && s.revs[x].hash in s.snaps then s.snaps[s.revs[x].hash].parents else []
  }

  ghost predicate UpClosed(s: State, all: set<string>) {
    forall x, y :: x in all && y in s.revs && s.revs[y].hash in RevParents(s, x) ==> y in all
  }

  lemma SelfOwned(s: State, id: string)
    requires Inv(s) && id in s.revs
    ensures OwnedAncestor(s, s.revs[id].hash, s.revs[id].hash)
  {
    OwnRow(s, id);
  }

  lemma ParentOwned(s: State, x: string, y: string)
    requires Inv(s) && x in s.revs && y in s.revs && s.revs[y].hash in RevParents(s, x)
    ensures OwnedAncestor(s, s.revs[y].hash, s.revs[x].hash)
  {
    OwnRow(s, x);
    SelfOwned(s, y);
    var ps := RevParents(s, x);
    var i :| 0 <= i < |ps| && ps[i] == s.revs[y].hash;
    assert OwnedAncestor(s, s.revs[y].hash, s.revs[x].hash.parents[i]);
  }

  lemma {:induction false} OwnedTransitive(s: State, a: ID, b: ID, h: ID)
    requires OwnedAncestor(s, a, b) && OwnedAncestor(s, b, h)
    ensures OwnedAncestor(s, a, h)
    decreases h
  {
    if b != h {
      var i :| 0 <= i < |h.parents| && OwnedAncestor(s, b, h.parents[i]);
      OwnedTransitive(s, a, b, h.parents[i]);
    }
  }

  lemma {:induction false} OwnedInside(s: State, all: set<string>, a: ID, h: ID, y: string, x: string)
    requires Inv(s) && UpClosed(s, all) && y in all && y in s.revs && s.revs[y].hash == h && OwnedAncestor(s, a, h)
    requires x in s.revs && s.revs[x].hash == a
    ensures x in all
    decreases h
  {
    OwnRow(s, y);
    OwnRow(s, x);
    if a != h {
      var i :| 0 <= i < |h.parents| && OwnedAncestor(s, a, h.parents[i]);
      OwnedHead(s, a, h.parents[i]);
      var z := Owner(s, h.parents[i]).value;
      OwnerRow(s, h.parents[i]);
      assert s.revs[z].hash in RevParents(s, y);
      OwnedInside(s, all, a, h.parents[i], z, x);
    }
  }

  lemma OwnedHead(s: State, a: ID, h: ID)
    requires OwnedAncestor(s, a, h)
    ensures Owner(s, h).Some?
  {
  }

  /**
   * The rewritten rows, in terms of the two states: metadata stays, and each parent edge goes to the
   * present snapshot of the revision whose snapshot it went to, or stays where no revision had it.
   */
  lemma RewrittenRow(s: State, t: State, m: Matcher, id: string, x: string, i: nat)
    requires Inv(s) && id in s.revs && AncestryRewritten(s, t, m, id) && x in Ancestry(s, id)
    requires i < |RevParents(s, x)|
    ensures x in t.revs && t.revs[x].hash in t.snaps && s.revs[x].hash in s.snaps
    ensures var before, n := s.snaps[s.revs[x].hash], t.snaps[t.revs[x].hash];
      n.revision == x && n.description == before.description && AuthorText(n.author) == AuthorText(before.author) &&
      |n.parents| == |before.parents| &&
      (forall y ::
        y in s.revs && s.revs[y].hash == before.parents[i] ==> y in t.revs && n.parents[i] == t.revs[y].hash) &&
      ((forall y :: y in s.revs ==> s.revs[y].hash != before.parents[i]) ==> n.parents[i] == before.parents[i])
  {
    hide FilteredTree, NewHash, Ancestry, UpClosed;
    RewrittenSnapshot(s, t, m, Ancestry(s, id), x);
    AncestryLeast(s, id);
    var h := s.revs[x].hash;
    var before := s.snaps[h];
    NewHashesAt(s, m, h, |h.parents|, i);
    forall y | y in s.revs && s.revs[y].hash == before.parents[i]
      ensures y in t.revs && NewHash(s, m, before.parents[i]) == t.revs[y].hash
    {
      assert y in Ancestry(s, id);
    }
    if forall y :: y in s.revs ==> s.revs[y].hash != before.parents[i] {
      OwnerRow(s, before.parents[i]);
      UnownedStays(s, m, before.parents[i]);
    }
  }

  /** Rows change their hash only, and those outside the ancestry not at all. */
  lemma RewriteFrame(s: State, t: State, m: Matcher, id: string, x: string)
    requires id in s.revs && AncestryRewritten(s, t, m, id)
    ensures t.revs.Keys == s.revs.Keys
    ensures x in s.revs ==> t.revs[x] == s.revs[x].(hash := t.revs[x].hash)
    ensures x in s.revs && x !in Ancestry(s, id) ==> t.revs[x] == s.revs[x]
  {
    hide NewHash, OwnedAncestor;
  }

  lemma UnownedStays(s: State, m: Matcher, h: ID)
    requires Owner(s, h).None?
    ensures NewHash(s, m, h) == h
  {
  }

  ghost function Repointed(s: State, m: Matcher, id: string): set<string>
    requires id in s.revs
  {
    set x | x in Ancestry(s, id) && NewHash(s, m, s.revs[x].hash) != s.revs[x].hash
  }

  /** The revisions that point elsewhere than before. */
  ghost function Moved(s: State, t: State): set<string> {
    set x | x in s.revs && x in t.revs && t.revs[x].hash != s.revs[x].hash
  }

  lemma RepointedMoved(s: State, t: State, m: Matcher, id: string)
    requires id in s.revs && AncestryRewritten(s, t, m, id)
    ensures Repointed(s, m, id) == Moved(s, t)
  {
    hide NewHash, OwnedAncestor;
  }

  lemma RewrittenState(s: State, r: Repo, m: Matcher, c: Closure)
    requires Ready(s, r, m, c)
    ensures RevisionsRewritten(s, r.State(), m, c.done) && ClosedUp(s, c.done) && c.done <= s.revs.Keys
  {
    hide Extends, Inv, NewHash, MemoRight, ClosedUp;
  }

  lemma RewrittenCount(s: State, r: Repo, m: Matcher, c: Closure, id: string)
    requires Ready(s, r, m, c) && id in s.revs && c.done == Ancestry(s, id)
    ensures c.rewritten == |Repointed(s, m, id)|
  {
    hide Extends, Inv, NewHash, Ancestry, MemoRight, ClosedUp;
    assert Changed(s, Targets(s, m), c.done) == Repointed(s, m, id);
  }

  lemma ReadyExtends(s: State, r: Repo, m: Matcher, c: Closure)
    requires Ready(s, r, m, c)
    ensures Extends(s, r.State())
  {
    hide Targets, Inv, RowsRewritten, MemoRight, ClosedUp, Extends;
  }

  lemma NothingDone(s: State, m: Matcher)
    ensures Sound(s, s, Targets(s, m), map[], {}, 0)
  {
    hide Owner, NewHash;
    ExtendsReflexive(s);
    hide Extends;
  }

  /** Before the first visit nothing is finished. */
  lemma StartReady(r: Repo, m: Matcher, snapOwner: map<ID, string>)
    requires r.Valid() && IsOwnerMap(r.State(), snapOwner)
    ensures Ready(r.State(), r, m, Closure(map[], {}, 0)) && TablesOf(Tables(r.revisions, snapOwner), r.State())
  {
    hide Owner, Sound, Targets, IsOwnerMap;
    NothingDone(r.State(), m);
    forall h { OwnerMapIsOwner(r.State(), snapOwner, h); }
  }

  lemma HalfWay(s: State, r: Repo, m: Matcher, c: Closure, id: string)
    requires Ready(s, r, m, c) && id in s.revs && id !in c.done && OnlyAncestors(s, {}, c.done, id)
    ensures PartlyRewritten(s, r.State(), m, id)
  {
    hide ClosedUp, RevisionsRewritten, Ready, OwnedAncestor;
    RewrittenState(s, r, m, c);
    assert c.done <= Ancestry(s, id) - {id};
  }

  /** RewriteHistoryWithIgnores: the number of rewritten snapshots. Nothing happens when no layer can
      reach the root. When a tree cannot be read half way, part of the ancestry is rewritten, and no
      revision and no content is lost. */
  method RewriteHistoryWithIgnores(m: Matcher, id: string, r: Repo) returns (n: nat, ok: bool)
    requires r.Valid()
    modifies r
    ensures r.Valid() && Extends(old(r.State()), r.State())
    ensures AllTyped(old(r.State())) ==> ok
    ensures !AnyMatchUnder(m, "") || id !in old(r.revisions) ==> ok && n == 0 && r.State() == old(r.State())
    ensures !ok ==> id in old(r.revisions) && PartlyRewritten(old(r.State()), r.State(), m, id)
    ensures ok && AnyMatchUnder(m, "") && id in old(r.revisions) ==>
      AncestryRewritten(old(r.State()), r.State(), m, id) && n == |Moved(old(r.State()), r.State())|
  {
    hide Extends, AllTyped, RevisionsRewritten, PartlyRewritten, Repointed, OnlyAncestors, AnyMatchUnder, TablesOf,
      Sound, IsOwnerMap, Ancestry, ClosedUp;
    ghost var s := r.State();
    var snapOwner := OwnerMap(r);
    StartReady(r, m, snapOwner);
    var any := HasAnyMatchUnder(m, "");
    ExtendsReflexive(s);
    if !any || id !in r.revisions { return 0, true; }
    var tb := Tables(r.revisions, snapOwner);
    var c := Closure(map[], {}, 0);
    c, ok := Visit(id, m, tb, r, c, s);
    ReadyExtends(s, r, m, c);
    if !ok {
      HalfWay(s, r, m, c, id);
      return 0, false;
    }
    RewrittenState(s, r, m, c);
    FinishedIsAncestry(s, c.done, id);
    RewrittenCount(s, r, m, c, id);
    RepointedMoved(s, r.State(), m, id);
    n := c.rewritten;
  }
}
