/** Which revision a snapshot belongs to, and the index the searches over histories build from it. */
module SnapshotOwners {
  import opened Prelude
  import opened Objects
  import opened History
  import opened Evolution
  import opened Store

  /** The revision that currently points at a snapshot. */
  function Owner(s: State, h: ID): Option<string> {
    if h in s.snaps && s.snaps[h].revision in s.revs && s.revs[s.snaps[h].revision].hash == h
    then Some(s.snaps[h].revision) else None
  }

  lemma OwnRow(s: State, id: string)
    requires Inv(s) && id in s.revs
    ensures var h := s.revs[id].hash;
      h in s.snaps && Owner(s, h) == Some(id) && h == SnapshotID(s.snaps[h]) == s.snaps[h].hash &&
        s.snaps[h].revision == id &&
      h.SnapshotDigest? && s.snaps[h].parents == h.parents && s.snaps[h].tree == h.tree
  {
  }

  /** snapOwner: for each current snapshot hash, a revision that points at it. */
  ghost predicate IsOwnerMap(s: State, m: map<ID, string>) {
    (forall h :: h in m ==> m[h] in s.revs && s.revs[m[h]].hash == h) &&
    (forall id :: id in s.revs ==> s.revs[id].hash in m)
  }

  method OwnerMap(r: Repo) returns (snapOwner: map<ID, string>)
    ensures IsOwnerMap(r.State(), snapOwner)
  {
    var ids := r.ListRevisions();
    snapOwner := map[];
    for i := 0 to |ids|
      invariant forall h :: h in snapOwner ==> snapOwner[h] in r.revisions && r.revisions[snapOwner[h]].hash == h
      invariant forall id :: id in ids[..i] ==> r.revisions[id].hash in snapOwner
    {
      TakeMore(ids, i);
      snapOwner := snapOwner[r.revisions[ids[i]].hash := ids[i]];
    }
    WholeSlices(ids);
  }

  /** Two revisions never share a snapshot, so the index has no choice. */
  lemma OwnerMapIsOwner(s: State, m: map<ID, string>, h: ID)
    requires Inv(s) && IsOwnerMap(s, m)
    ensures if Owner(s, h).Some? then h in m && m[h] == Owner(s, h).value else h !in m
  {
  }
}
