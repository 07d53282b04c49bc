/**
 * Concurrent pushes to one repository as a state machine. Every client acquires the repository's
 * lock, lists the refs, checks its bundle, applies or rejects it, and releases; the steps of
 * different clients interleave freely. Without the lock (locked == false) the same steps lose a
 * branch's history.
 */
module PushProtocol {
  import opened Prelude
  import opened Graphs
  import opened Objects
  import opened History
  import opened Ancestry
  import opened Push

  datatype Phase =
    | Waiting(bundle: Bundle)
    | Entered(bundle: Bundle)
    | Passed(bundle: Bundle)
    | Refused(bundle: Bundle)
    | Written(bundle: Bundle)

  datatype System = System(rows: Rows, holder: Option<nat>, clients: map<nat, Phase>)

  datatype Event =
    | Arrive(who: nat, what: Bundle)
    | Acquire(who: nat)
    | Check(who: nat)
    | Write(who: nat)
    | Release(who: nat)

  ghost predicate Moves(s: System, t: System, who: nat, phase: Phase) {
    t.clients == s.clients[who := phase]
  }

  /** One step of one client. The lock guards entry only when `locked`. */
  ghost predicate Next(locked: bool, s: System, t: System, e: Event) {
    match e
    case Arrive(i, b) =>
      i !in s.clients && Moves(s, t, i, Waiting(b)) && t.rows == s.rows && t.holder == s.holder
    case Acquire(i) =>
      i in s.clients && s.clients[i].Waiting? && (locked ==> s.holder == None) &&
      Moves(s, t, i, Entered(s.clients[i].bundle)) && t.rows == s.rows && t.holder == Some(i)
    case Check(i) =>
      i in s.clients && s.clients[i].Entered? &&
      (var b := s.clients[i].bundle; Moves(s, t, i, if AnyConflict(s.rows, b) then Refused(b) else Passed(b))) &&
      t.rows == s.rows && t.holder == s.holder
    case Write(i) =>
      i in s.clients && s.clients[i].Passed? &&
      Moves(s, t, i, Written(s.clients[i].bundle)) && t.rows == ApplyRows(s.rows, s.clients[i].bundle) &&
        t.holder == s.holder
    case Release(i) =>
      i in s.clients && (s.clients[i].Written? || s.clients[i].Refused?) &&
      t.clients == s.clients - {i} && t.rows == s.rows && t.holder == None
  }

  /** Bundles written in this run are content-addressed, re-point revisions only forward and change no
      ref's kind. */
  ghost predicate GoodWrite(s: System, e: Event) {
    e.Write? && e.who in s.clients ==> GoodBundle(s.rows, s.clients[e.who].bundle)
  }

  ghost predicate IsRun(locked: bool, run: seq<System>, events: seq<Event>) {
    |run| == |events| + 1 && forall k :: 0 <= k < |events| ==> Step(locked, run, events, k)
  }

  ghost predicate Step(locked: bool, run: seq<System>, events: seq<Event>, k: int)
    requires 0 <= k < |events| < |run|
  {
    Next(locked, run[k], run[k + 1], events[k]) && GoodWrite(run[k], events[k])
  }

  predicate Inside(p: Phase) { !p.Waiting? }

  /** Mutual exclusion, and what a client inside knows. */
  ghost predicate Safe(s: System) {
    GoodRows(s.rows) &&
    (forall i :: i in s.clients && Inside(s.clients[i]) ==> s.holder == Some(i)) &&
    (forall i :: i in s.clients && s.clients[i].Passed? ==> !AnyConflict(s.rows, s.clients[i].bundle))
  }

  lemma StepSafe(s: System, t: System, e: Event)
    requires Safe(s) && Next(true, s, t, e) && GoodWrite(s, e)
    ensures Safe(t)
  {
    hide AnyConflict, GoodRows, GoodBundle, ApplyRows;
    if e.Write? { WriteGood(s.rows, s.clients[e.who].bundle); }
  }

  lemma WriteGood(w: Rows, b: Bundle)
    requires GoodRows(w) && GoodBundle(w, b)
    ensures GoodRows(ApplyRows(w, b))
  {
    if Decodes(b.objects) { AppliedGraph(w, b); }
  }

  /** Every branch of `s` is a branch of `t` from whose tip its old tip is reachable; every revision is
      kept and moved, if at all, only forward; and no ancestry was lost. */
  ghost predicate Forward(s: Rows, t: Rows) {
    SubGraph(UnionGraph(s.state, NO_PACK), UnionGraph(t.state, NO_PACK)) &&
    (forall id :: id in s.state.revs ==> RevisionForward(s.state, t.state, id)) &&
    (forall n :: n in s.refs && s.refs[n].kind.Branch? ==> n in t.refs && t.refs[n].kind.Branch?) &&
    (forall n, h :: TipIs(s, n, h) ==> TipReaches(t, n, h))
  }

  /** The revision's snapshot in `s` is reachable from its snapshot in `t`. */
  ghost predicate RevisionForward(s: State, t: State, id: string) {
    id in s.revs && id in t.revs && Reaches(UnionGraph(t, NO_PACK), t.revs[id].hash, s.revs[id].hash)
  }

  lemma StepForward(s: System, t: System, e: Event)
    requires Safe(s) && Next(true, s, t, e) && GoodWrite(s, e)
    ensures Forward(s.rows, t.rows)
  {
    hide Forward, GoodBundle, AnyConflict, GoodRows;
    if e.Write? {
      WriteForward(s.rows, s.clients[e.who].bundle);
    } else {
      SameForward(s.rows);
    }
  }

  lemma SameForward(w: Rows)
    ensures Forward(w, w)
  {
    hide UnionGraph, Reaches;
    forall h: ID ensures Reaches(UnionGraph(w.state, NO_PACK), h, h) { ReachesSelf(UnionGraph(w.state, NO_PACK), h); }
  }

  lemma WrittenTip(w: Rows, b: Bundle, n: string, h: ID)
    requires GoodRows(w) && GoodBundle(w, b) && !AnyConflict(w, b) && TipIs(w, n, h)
    ensures TipReaches(ApplyRows(w, b), n, h)
  {
    hide AnyConflict, GoodRows, GoodBundle, ApplyRows, TipReaches, AncestorStored;
    PushFastForward(w, b, n);
  }

  lemma WrittenBranch(w: Rows, b: Bundle, n: string)
    requires GoodRows(w) && GoodBundle(w, b) && !AnyConflict(w, b) && n in w.refs && w.refs[n].kind.Branch?
    ensures n in ApplyRows(w, b).refs && ApplyRows(w, b).refs[n].kind.Branch?
  {
    hide AnyConflict, GoodRows, GoodBundle, ApplyRows, TipReaches, AncestorStored;
    PushFastForward(w, b, n);
  }

  lemma WrittenRevision(w: Rows, b: Bundle, id: string)
    requires GoodRows(w) && GoodBundle(w, b) && Decodes(b.objects) && id in w.state.revs
    ensures RevisionForward(w.state, ApplyRows(w, b).state, id)
  {
    hide GoodRows, GoodPack, RepointsForward, KeepsKinds, ApplyRows, UnionGraph, Reaches;
    AppliedForward(w, b, id);
  }

  lemma WriteForward(w: Rows, b: Bundle)
    requires GoodRows(w) && GoodBundle(w, b) && !AnyConflict(w, b)
    ensures Forward(w, ApplyRows(w, b))
  {
    if !Decodes(b.objects) {
      SameForward(w);
    } else {
      hide AnyConflict, GoodRows, GoodPack, RepointsForward, KeepsKinds, ApplyRows, UnionGraph, SubGraph, TipIs,
        TipReaches, RevisionForward;
      AppliedGraph(w, b);
      forall n | n in w.refs && w.refs[n].kind.Branch?
        ensures n in ApplyRows(w, b).refs && ApplyRows(w, b).refs[n].kind.Branch?
      {
        WrittenBranch(w, b, n);
      }
      forall n, h | TipIs(w, n, h) ensures TipReaches(ApplyRows(w, b), n, h) { WrittenTip(w, b, n, h); }
      forall id | id in w.state.revs ensures RevisionForward(w.state, ApplyRows(w, b).state, id) {
        WrittenRevision(w, b, id);
      }
    }
  }

  lemma ForwardTransitive(s: Rows, t: Rows, u: Rows)
    requires Forward(s, t) && Forward(t, u)
    ensures Forward(s, u)
  {
    hide UnionGraph, Reaches;
    forall n, h | TipIs(s, n, h) ensures TipReaches(u, n, h) {
      var x :| TipIs(t, n, x) && Reaches(UnionGraph(t.state, NO_PACK), x, h);
      var y :| TipIs(u, n, y) && Reaches(UnionGraph(u.state, NO_PACK), y, x);
      StillReaches(t.state, u.state, y, x, h);
    }
    forall id | id in s.state.revs ensures RevisionForward(s.state, u.state, id) {
      assert RevisionForward(s.state, t.state, id) && RevisionForward(t.state, u.state, id);
      StillReaches(t.state, u.state, u.state.revs[id].hash, t.state.revs[id].hash, s.state.revs[id].hash);
    }
  }

  lemma StillReaches(t: State, u: State, y: ID, x: ID, h: ID)
    requires SubGraph(UnionGraph(t, NO_PACK), UnionGraph(u, NO_PACK))
    requires Reaches(UnionGraph(u, NO_PACK), y, x) && Reaches(UnionGraph(t, NO_PACK), x, h)
    ensures Reaches(UnionGraph(u, NO_PACK), y, h)
  {
    ReachesMonotone(UnionGraph(t, NO_PACK), UnionGraph(u, NO_PACK), x, h);
    ReachesTransitive(UnionGraph(u, NO_PACK), y, x, h);
  }

  /**
   * Over every run of pushes, accepted or rejected and however interleaved, every revision and every
   * branch's tip at any point is reachable from what it has become at every later point.
   */
  lemma {:induction false} PushesMoveForward(run: seq<System>, events: seq<Event>, i: nat, j: nat)
    requires IsRun(true, run, events) && i <= j < |run| && Safe(run[0])
    ensures Safe(run[i]) && Safe(run[j]) && Forward(run[i].rows, run[j].rows)
    decreases j
  {
    hide Safe, Forward, Next, GoodWrite;
    if j == 0 {
      SameForward(run[0].rows);
    } else if i == j {
      PushesMoveForward(run, events, j - 1, j - 1);
      assert Step(true, run, events, j - 1);
      StepSafe(run[j - 1], run[j], events[j - 1]);
      SameForward(run[j].rows);
    } else {
      PushesMoveForward(run, events, i, j - 1);
      assert Step(true, run, events, j - 1);
      StepSafe(run[j - 1], run[j], events[j - 1]);
      StepForward(run[j - 1], run[j], events[j - 1]);
      ForwardTransitive(run[i].rows, run[j - 1].rows, run[j].rows);
    }
  }

  /** In terms of snapshots: a branch's earlier tip is reachable from its later tip. */
  lemma TipsMoveForward(run: seq<System>, events: seq<Event>, i: nat, j: nat, name: string, h: ID)
    requires IsRun(true, run, events) && i <= j < |run| && Safe(run[0]) && TipIs(run[i].rows, name, h)
    ensures TipReaches(run[j].rows, name, h)
  {
    hide Safe, IsRun, TipIs, TipReaches;
    PushesMoveForward(run, events, i, j);
  }

  // ---- The same for target revisions ---------------------------------------------------------------------

  ghost predicate Repointed(s: State, t: State, id: string) {
    id in s.revs && id in t.revs && s.revs[id].hash != t.revs[id].hash
  }

  /** The branch is at revision `a` or at one that `a` is an ancestor of. */
  ghost predicate AtOrAfter(w: Rows, name: string, a: string) {
    name in w.refs && w.refs[name].kind.Branch? && AncestorStored(w.state, a, w.refs[name].target)
  }

  lemma WriteKeepsTarget(w: Rows, b: Bundle, name: string, a: string)
    requires GoodRows(w) && GoodBundle(w, b) && !AnyConflict(w, b) && Decodes(b.objects)
    requires AtOrAfter(w, name, a) && !Repointed(w.state, ApplyRows(w, b).state, a)
    ensures AtOrAfter(ApplyRows(w, b), name, a)
  {
    hide AnyConflict, GoodRows, GoodPack, ApplyRows, UnionGraph, Reaches, RepointsForward, KeepsKinds, SubGraph;
    var after, c := ApplyRows(w, b), w.refs[name].target;
    PushFastForward(w, b, name);
    AppliedGraph(w, b);
    AppliedRevision(w, b, a);
    if a != c {
      var y :| TipIs(after, name, y) && Reaches(UnionGraph(after.state, NO_PACK), y, w.state.revs[c].hash);
      StillReaches(w.state, after.state, y, w.state.revs[c].hash, w.state.revs[a].hash);
    }
  }

  /** Between revisions: as long as a branch's target is not itself re-pointed, it is an ancestor of, or
      equal to, every later target. */
  lemma {:induction false} TargetsMoveForward(run: seq<System>, events: seq<Event>, i: nat, j: nat, name: string,
      a: string)
    requires IsRun(true, run, events) && i <= j < |run| && Safe(run[0]) && AtOrAfter(run[i].rows, name, a)
    requires forall k :: i <= k < j ==> !Repointed(run[k].rows.state, run[k + 1].rows.state, a)
    ensures AtOrAfter(run[j].rows, name, a)
    decreases j
  {
    hide AtOrAfter, Repointed, GoodBundle, AnyConflict, GoodRows, Forward;
    if i < j {
      TargetsMoveForward(run, events, i, j - 1, name, a);
      PushesMoveForward(run, events, i, j - 1);
      var s, t, e := run[j - 1], run[j], events[j - 1];
      assert Step(true, run, events, j - 1);
      assert !Repointed(run[j - 1].rows.state, run[j - 1 + 1].rows.state, a);
      if e.Write? && Decodes(s.clients[e.who].bundle.objects) {
        WriteKeepsTarget(s.rows, s.clients[e.who].bundle, name, a);
      }
    }
  }

  /** At most one client is past the lock. */
  lemma MutualExclusion(run: seq<System>, events: seq<Event>, k: nat, i: nat, j: nat)
    requires IsRun(true, run, events) && k < |run| && Safe(run[0])
    requires i in run[k].clients && j in run[k].clients && Inside(run[k].clients[i]) && Inside(run[k].clients[j])
    ensures i == j
  {
    PushesMoveForward(run, events, k, k);
  }
}
