/** Whole runs of the repository: any operations, history rewrites included, in any order. */
module Runs {
  import opened Objects
  import opened History
  import opened Evolution
  import opened IgnoreRules
  import opened IgnoreHistory

  /** One step: an operation with any arguments, successful or not, or an ignore-driven rewrite, whether
      it finishes or fails half way. */
  ghost predicate Next(s: State, t: State) {
    (exists op :: t == Apply(s, op)) ||
    (exists m: Matcher, id :: id in s.revs && AncestryRewritten(s, t, m, id)) ||
    (exists m: Matcher, id :: id in s.revs && PartlyRewritten(s, t, m, id))
  }

  /** A run: a sequence of states from the empty repository, each reached by a step. */
  ghost predicate IsRun(trace: seq<State>) {
    trace != [] && trace[0] == EMPTY_STATE && forall i :: 0 <= i < |trace| - 1 ==> StepAt(trace, i)
  }

  ghost predicate StepAt(trace: seq<State>, i: nat)
    requires i + 1 < |trace|
  {
    Next(trace[i], trace[i + 1])
  }

  lemma NextKeeps(s: State, t: State)
    requires Inv(s) && Next(s, t)
    ensures Keeps(s, t)
  {
    if op :| t == Apply(s, op) {
      ApplyKeeps(s, op);
    } else if m: Matcher, id :| id in s.revs && AncestryRewritten(s, t, m, id) {
    } else {
      var m: Matcher, id :| id in s.revs && PartlyRewritten(s, t, m, id);
    }
  }

  lemma EmptyInv()
    ensures Inv(EMPTY_STATE)
  {
  }

  lemma {:induction false} RunKeeps(trace: seq<State>, i: nat, j: nat)
    requires IsRun(trace) && i <= j < |trace|
    ensures Inv(trace[i]) && Keeps(trace[i], trace[j])
    decreases j
  {
    EmptyInv();
    hide Sealed, Owned, Extends, Next;
    if j == 0 {
      KeepsReflexive(EMPTY_STATE);
    } else {
      RunKeeps(trace, 0, j - 1);
      assert StepAt(trace, j - 1);
      NextKeeps(trace[j - 1], trace[j]);
      if i < j {
        RunKeeps(trace, i, j - 1);
        KeepsTransitive(trace[i], trace[j - 1], trace[j]);
      } else {
        KeepsReflexive(trace[j]);
      }
    }
  }

  /**
   * At every point of every run each revision points at a stored snapshot that carries its id and
   * whose canonical hash it is, and no two revisions share a snapshot.
   */
  lemma RunsNeverShare(trace: seq<State>, i: nat, r: string, q: string)
    requires IsRun(trace) && i < |trace| && r in trace[i].revs && q in trace[i].revs
    ensures var s := trace[i];
      s.revs[r].hash in s.snaps && s.snaps[s.revs[r].hash].revision == r &&
      s.revs[r].hash == SnapshotID(s.snaps[s.revs[r].hash]) &&
      (s.revs[r].hash == s.revs[q].hash ==> r == q)
  {
    RunKeeps(trace, i, i);
  }

  /** Between any two points of a run no revision id disappears, and no stored snapshot changes its
      tree, parents, description, author or owner. */
  lemma RunsLoseNothing(trace: seq<State>, i: nat, j: nat, h: ID)
    requires IsRun(trace) && i <= j < |trace|
    ensures trace[i].revs.Keys <= trace[j].revs.Keys
    ensures h in trace[i].snaps ==> h in trace[j].snaps && SameContent(trace[i].snaps[h], trace[j].snaps[h])
  {
    RunKeeps(trace, i, j);
  }
}
