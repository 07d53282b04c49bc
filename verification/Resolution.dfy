/** Resolving conflicts one at a time (the tree part of Resolve). */
module Resolution {
  import opened Prelude
  import opened Paths
  import opened Objects
  import opened Merge
  import opened MergeLaws
  import opened TreeEdit

  /** The term Resolve picks at a path, or the error it reports. */
  function PickTerm(t: Tree, p: Path, side: int): Result<Term>
    requires p != []
  {
    match Find(t, p)
    case None => Err("no entry at path")
    case Some(e) =>
      if e.kind != KindConflict then Err("no conflict at path")
      else if !e.id.Digest? || !e.id.obj.ConflictObject? then Err("path does not hold a conflict")
      else if side < 0 || side >= |e.id.obj.conflict.adds| then Err("side index out of range")
      else Ok(e.id.obj.conflict.adds[side])
  }

  /** A zero-id term resolves to a deletion. */
  function ResolveTree(t: Tree, p: Path, side: int): Result<Tree>
    requires p != []
  {
    match PickTerm(t, p, side)
    case Err(e) => Err(e)
    case Ok(term) => Ok(Rewrite(t, p, term.id, term.id == Zero))
  }

  function Without(atoms: seq<Atom>, p: Path): seq<Atom> {
    if atoms == [] then []
    else (if atoms[0].path == p then [] else [atoms[0]]) + Without(atoms[1..], p)
  }

  lemma {:induction false} WithoutConcat(a: seq<Atom>, b: seq<Atom>, p: Path)
    ensures Without(a + b, p) == Without(a, p) + Without(b, p)
  {
    if a == [] {
      assert a + b == b;
    } else {
      WithoutConcat(a[1..], b, p);
      assert (a + b)[1..] == a[1..] + b;
      var first := if a[0].path == p then [] else [a[0]];
      assert Without(a + b, p) == first + Without(a[1..] + b, p);
      assert first + (Without(a[1..], p) + Without(b, p)) == (first + Without(a[1..], p)) + Without(b, p);
    }
  }

  lemma {:induction false} WithoutAbsent(a: seq<Atom>, p: Path)
    requires forall x :: x in a ==> x.path != p
    ensures Without(a, p) == a
  {
    if a != [] { WithoutAbsent(a[1..], p); }
  }

  lemma {:induction false} WithoutPrefixed(n: string, a: seq<Atom>, p: Path)
    ensures Without(Prefixed(n, a), [n] + p) == Prefixed(n, Without(a, p))
  {
    if a != [] {
      WithoutPrefixed(n, a[1..], p);
      assert Prefixed(n, a)[1..] == Prefixed(n, a[1..]);
      assert ([n] + p)[1..] == p && ([n] + a[0].path)[1..] == a[0].path;
    }
  }

  lemma ConflictsAtNameStart(n: string, t: Tree)
    ensures forall x :: x in ConflictsAtName(n, t) ==> x.path != [] && x.path[0] == n
  {
  }

  predicate HoldsConflict(t: Tree, p: Path) {
    LeafAt(t, p).Some? && LeafAt(t, p).value.kind == KindConflict
  }

  /** Overwriting or removing one conflict removes exactly that atom from the list. */
  lemma {:induction false} RewriteRemovesConflict(t: Tree, p: Path, chosen: ID, remove: bool)
    requires p != [] && HoldsConflict(t, p)
    ensures Conflicts(Rewrite(t, p, chosen, remove)) == Without(Conflicts(t), p)
    ensures |Conflicts(Rewrite(t, p, chosen, remove))| == |Conflicts(t)| - 1
    decreases |p|
  {
    var names := t.entries.Keys;
    var t' := Rewrite(t, p, chosen, remove);
    if |p| > 1 {
      RewriteRemovesConflict(Child(t, p[0]), p[1..], chosen, remove);
    }
    ReplacedName(t, p, chosen, remove);
    forall k | k != p[0] ensures ConflictsAtName(k, t') == ConflictsAtName(k, t) {
      OtherName(t, p, chosen, remove, k);
    }
    SortedFresh(names);
    ConflictsOverReplace(Sorted(names), t, t', p);
    SortedFilter(names, t'.entries.Keys);
    ConflictsOverFilter(Sorted(names), t');
  }

  lemma OtherName(t: Tree, p: Path, chosen: ID, remove: bool, k: string)
    requires p != [] && k != p[0]
    ensures ConflictsAtName(k, Rewrite(t, p, chosen, remove)) == ConflictsAtName(k, t)
  {
    var t' := Rewrite(t, p, chosen, remove);
    assert k in t.entries <==> k in t'.entries;
    assert k in t.entries ==> t.entries[k] == t'.entries[k];
  }

  /** What a rewrite leaves at the first name of a longer path. */
  lemma RewrittenName(t: Tree, p: Path, chosen: ID, remove: bool)
    requires |p| > 1
    ensures var sub := Rewrite(Child(t, p[0]), p[1..], chosen, remove);
      var t' := Rewrite(t, p, chosen, remove);
      if sub.entries == map[] && remove then p[0] !in t'.entries
      else p[0] in t'.entries && t'.entries[p[0]] == Entry(KindTree, TreeID(sub))
  {
  }

  lemma ConflictsBelow(t: Tree, n: string)
    requires n in t.entries && IsDir(t.entries[n])
    ensures ConflictsAtName(n, t) == Prefixed(n, Conflicts(Child(t, n)))
  {
    hide Conflicts;
  }

  lemma NoEntriesNoConflicts(t: Tree)
    requires t.entries == map[]
    ensures Conflicts(t) == []
  {
    assert t.entries.Keys == {};
  }

  lemma HoldsBelow(t: Tree, p: Path)
    requires |p| > 1 && HoldsConflict(t, p)
    ensures p[0] in t.entries && IsDir(t.entries[p[0]])
  {
    assert LeafAt(EMPTY_TREE, p[1..]) == None;
  }

  lemma ReplacedLeaf(t: Tree, n: string, chosen: ID, remove: bool)
    requires HoldsConflict(t, [n])
    ensures n in t.entries
    ensures var t' := Rewrite(t, [n], chosen, remove);
      ConflictsAtName(n, t) == [Atom([n], t.entries[n].id)] && ConflictsAtName(n, t') == [] &&
        Without(ConflictsAtName(n, t), [n]) == []
  {
    hide Conflicts;
    assert [Atom([n], t.entries[n].id)][1..] == [];
  }

  lemma RewriteKeys(t: Tree, p: Path, chosen: ID, remove: bool)
    requires p != [] && p[0] in t.entries
    ensures Rewrite(t, p, chosen, remove).entries.Keys <= t.entries.Keys
  {
  }

  lemma ReplacedName(t: Tree, p: Path, chosen: ID, remove: bool)
    requires p != [] && HoldsConflict(t, p)
    requires |p| > 1 ==>
      var sub := Rewrite(Child(t, p[0]), p[1..], chosen, remove);
      Conflicts(sub) == Without(Conflicts(Child(t, p[0])), p[1..]) &&
        |Conflicts(sub)| == |Conflicts(Child(t, p[0]))| - 1
    ensures p[0] in t.entries
    ensures var t' := Rewrite(t, p, chosen, remove);
      t'.entries.Keys <= t.entries.Keys &&
      ConflictsAtName(p[0], t') == Without(ConflictsAtName(p[0], t), p) &&
      |ConflictsAtName(p[0], t')| == |ConflictsAtName(p[0], t)| - 1
  {
    hide Rewrite, Conflicts, Without, HoldsConflict, LeafAt;
    var n := p[0];
    if |p| == 1 {
      assert p == [n];
      ReplacedLeaf(t, n, chosen, remove);
    } else {
      var sub := Rewrite(Child(t, n), p[1..], chosen, remove);
      assert p == [n] + p[1..];
      HoldsBelow(t, p);
      ConflictsBelow(t, n);
      WithoutPrefixed(n, Conflicts(Child(t, n)), p[1..]);
      RewrittenName(t, p, chosen, remove);
      if sub.entries == map[] && remove {
        NoEntriesNoConflicts(sub);
      } else {
        ConflictsBelow(Rewrite(t, p, chosen, remove), n);
      }
    }
    RewriteKeys(t, p, chosen, remove);
  }

  lemma {:induction false} ConflictsOverReplace(names: seq<string>, t: Tree, t': Tree, p: Path)
    requires p != []
    requires Fresh(names)
    requires forall k :: k != p[0] ==> ConflictsAtName(k, t') == ConflictsAtName(k, t)
    requires ConflictsAtName(p[0], t') == Without(ConflictsAtName(p[0], t), p)
    requires |ConflictsAtName(p[0], t')| == |ConflictsAtName(p[0], t)| - 1
    ensures ConflictsOver(names, t') == Without(ConflictsOver(names, t), p)
    ensures |ConflictsOver(names, t')| == |ConflictsOver(names, t)| - if p[0] in names then 1 else 0
  {
    if names != [] {
      ConflictsOverReplace(names[1..], t, t', p);
      WithoutConcat(ConflictsAtName(names[0], t), ConflictsOver(names[1..], t), p);
      if names[0] != p[0] {
        ConflictsAtNameStart(names[0], t);
        WithoutAbsent(ConflictsAtName(names[0], t), p);
      }
    }
  }

  /** The list of conflicts is empty exactly for conflict-free trees. */
  lemma {:induction false} NoConflictsIffFree(t: Tree)
    ensures Conflicts(t) == [] <==> ConflictFree(t)
    decreases t
  {
    hide ConflictsAtName, ConflictsOver, Conflicts, ConflictFree;
    forall n | n in t.entries ensures ConflictsAtName(n, t) == [] <==> FreeEntry(t.entries[n]) {
      if IsDir(t.entries[n]) { NoConflictsIffFree(t.entries[n].id.obj.tree); }
      NoConflictsAtName(n, t);
    }
    ConflictsUnfold(t);
    ConflictsOverEmpty(Sorted(t.entries.Keys), t);
    FreeUnfold(t);
  }

  predicate FreeEntry(e: Entry) {
    e.kind != KindConflict && (IsDir(e) ==> ConflictFree(e.id.obj.tree))
  }

  lemma FreeUnfold(t: Tree)
    ensures ConflictFree(t) <==> forall n :: n in t.entries ==> FreeEntry(t.entries[n])
  {
  }

  lemma ConflictsUnfold(t: Tree)
    ensures Conflicts(t) == ConflictsOver(Sorted(t.entries.Keys), t)
    ensures forall n :: n in t.entries <==> n in Sorted(t.entries.Keys)
  {
    hide ConflictsOver;
  }

  lemma NoConflictsAtName(n: string, t: Tree)
    requires n in t.entries
    requires IsDir(t.entries[n]) ==>
      (Conflicts(t.entries[n].id.obj.tree) == [] <==> ConflictFree(t.entries[n].id.obj.tree))
    ensures ConflictsAtName(n, t) == [] <==> FreeEntry(t.entries[n])
  {
    hide Conflicts, ConflictFree;
  }

  lemma {:induction false} ConflictsOverEmpty(names: seq<string>, t: Tree)
    ensures ConflictsOver(names, t) == [] <==> forall n :: n in names ==> ConflictsAtName(n, t) == []
  {
    if names != [] {
      ConflictsOverEmpty(names[1..], t);
      assert forall n :: n in names <==> n == names[0] || n in names[1..];
      assert |ConflictsOver(names, t)| == |ConflictsAtName(names[0], t)| + |ConflictsOver(names[1..], t)|;
    }
  }

  /** What the path walk finds, other than a directory, is the leaf there. */
  lemma {:induction false} FindLeaf(t: Tree, p: Path)
    requires p != []
    ensures LeafAt(t, p) == if Find(t, p).Some? && !IsDir(Find(t, p).value) then Find(t, p) else None
    decreases |p|
  {
    if |p| > 1 {
      assert LeafAt(EMPTY_TREE, p[1..]) == None;
      if p[0] in t.entries && IsDir(t.entries[p[0]]) { FindLeaf(Child(t, p[0]), p[1..]); }
    }
  }

  /** One successful resolve removes exactly the conflict at its path and changes no other leaf. */
  lemma ResolveRemovesOne(t: Tree, p: Path, side: int)
    requires p != [] && ResolveTree(t, p, side).Ok?
    ensures var t' := ResolveTree(t, p, side).value;
      Conflicts(t') == Without(Conflicts(t), p) && |Conflicts(t')| == |Conflicts(t)| - 1 &&
      LeafAt(t', p) == TermLeaf(PickTerm(t, p, side).value) && forall q :: q != p ==> LeafAt(t', q) == LeafAt(t, q)
  {
    hide Rewrite, Conflicts, Without, LeafAt;
    FindLeaf(t, p);
    var term := PickTerm(t, p, side).value;
    RewriteRemovesConflict(t, p, term.id, term.id == Zero);
    RewriteLeaf(t, p, term.id, term.id == Zero, p);
    forall q | q != p ensures LeafAt(Rewrite(t, p, term.id, term.id == Zero), q) == LeafAt(t, q) {
      RewriteAtLeaf(t, p, term.id, term.id == Zero, q);
    }
  }

  /** What a chosen term leaves at its path: its blob, or nothing for the zero id. */
  function TermLeaf(term: Term): Option<Entry> {
    if term.id == Zero then None else Some(Entry(KindBlob, term.id))
  }

  // ---- Resolving everything ----------------------------------------------------------------------

  datatype Choice = Choice(path: Path, side: int)

  /** Every choice names a conflict of the tree it meets and a side that conflict has. */
  function ResolveAll(t: Tree, choices: seq<Choice>): Result<Tree>
    decreases |choices|
  {
    if choices == [] then Ok(t)
    else if choices[0].path == [] then Err("no entry at path")
    else
      match ResolveTree(t, choices[0].path, choices[0].side)
      case Err(e) => Err(e)
      case Ok(t') => ResolveAll(t', choices[1..])
  }

  /** A run of successful resolves of a tree with n conflicts is conflict-free exactly after n of them. */
  lemma {:induction false} ResolveAllCounts(t: Tree, choices: seq<Choice>)
    requires ResolveAll(t, choices).Ok?
    ensures |Conflicts(ResolveAll(t, choices).value)| == |Conflicts(t)| - |choices|
    ensures ConflictFree(ResolveAll(t, choices).value) <==> |choices| == |Conflicts(t)|
    decreases |choices|
  {
    hide ResolveTree, Conflicts, ConflictFree, PickTerm, LeafAt;
    if choices == [] {
      NoConflictsIffFree(t);
    } else {
      var c := choices[0];
      ResolveRemovesOne(t, c.path, c.side);
      ResolveAllCounts(ResolveTree(t, c.path, c.side).value, choices[1..]);
    }
  }

  ghost predicate Chosen(choices: seq<Choice>, p: Path) {
    exists i :: 0 <= i < |choices| && choices[i].path == p
  }

  lemma NotChosenAt(choices: seq<Choice>, p: Path, i: nat)
    requires !Chosen(choices, p) && i < |choices|
    ensures choices[i].path != p
  {
  }

  lemma ChosenStep(choices: seq<Choice>, p: Path)
    requires choices != []
    ensures Chosen(choices, p) <==> choices[0].path == p || Chosen(choices[1..], p)
  {
    if Chosen(choices[1..], p) {
      var i :| 0 <= i < |choices[1..]| && choices[1..][i].path == p;
      assert choices[i + 1].path == p;
    }
    if i :| 0 <= i < |choices| && choices[i].path == p {
      if i > 0 { assert choices[1..][i - 1].path == p; }
    }
  }

  /** A picked term depends on the leaf alone. */
  lemma PickFromLeaf(t: Tree, u: Tree, p: Path, side: int)
    requires p != [] && LeafAt(t, p) == LeafAt(u, p)
    ensures PickTerm(t, p, side).Ok? <==> PickTerm(u, p, side).Ok?
    ensures PickTerm(t, p, side).Ok? ==>
      HoldsConflict(t, p) && HoldsConflict(u, p) && PickTerm(t, p, side) == PickTerm(u, p, side)
  {
    FindLeaf(t, p);
    FindLeaf(u, p);
    hide Find, LeafAt;
  }

  /**
   * A successful run, choice by choice: each resolves a conflict of the tree the run began with, no
   * two the same, and leaves there the term it picks from it; every other leaf is untouched.
   */
  lemma {:induction false} ResolveAllLeaves(t: Tree, choices: seq<Choice>, p: Path)
    requires ResolveAll(t, choices).Ok?
    ensures var r := ResolveAll(t, choices).value;
      (forall i :: 0 <= i < |choices| && choices[i].path == p ==>
        p != [] && HoldsConflict(t, p) && PickTerm(t, p, choices[i].side).Ok? &&
        LeafAt(r, p) == TermLeaf(PickTerm(t, p, choices[i].side).value)) &&
      (!Chosen(choices, p) ==> LeafAt(r, p) == LeafAt(t, p))
    ensures forall i, j :: 0 <= i < j < |choices| ==> choices[i].path != p || choices[j].path != p
    decreases |choices|
  {
    hide ResolveTree, Conflicts, PickTerm, LeafAt, Chosen, HoldsConflict;
    if choices != [] {
      var c, rest := choices[0], choices[1..];
      var t' := ResolveTree(t, c.path, c.side).value;
      ResolveRemovesOne(t, c.path, c.side);
      ResolveAllLeaves(t', rest, p);
      ChosenStep(choices, p);
      if c.path == p {
        ResolvedOnce(t, p, c.side, rest);
      } else {
        forall i | 0 <= i < |choices| && choices[i].path == p
          ensures p != [] && HoldsConflict(t, p) && PickTerm(t, p, choices[i].side).Ok?
          ensures LeafAt(ResolveAll(t, choices).value, p) == TermLeaf(PickTerm(t, p, choices[i].side).value)
        {
          assert choices[i] == rest[i - 1];
          PickFromLeaf(t', t, p, choices[i].side);
        }
      }
      forall i, j | 0 <= i < j < |choices| ensures choices[i].path != p || choices[j].path != p {
        assert choices[j] == rest[j - 1];
        if i > 0 {
          assert choices[i] == rest[i - 1];
        } else if c.path == p {
          NotChosenAt(rest, p, j - 1);
        }
      }
    }
  }

  /** A path that has been resolved holds no conflict any more. */
  lemma ResolvedOnce(t: Tree, p: Path, side: int, rest: seq<Choice>)
    requires p != [] && ResolveTree(t, p, side).Ok?
    requires var t' := ResolveTree(t, p, side).value;
      forall i :: 0 <= i < |rest| && rest[i].path == p ==> HoldsConflict(t', p)
    ensures HoldsConflict(t, p) && PickTerm(t, p, side).Ok?
    ensures !Chosen(rest, p)
  {
    hide Conflicts, Without, Rewrite, Find;
    FindLeaf(t, p);
    ResolveRemovesOne(t, p, side);
  }

  // ---- When a complete run exists ------------------------------------------------------------------

  /** Every conflict of the tree has a side to resolve it to. */
  ghost predicate HasSides(t: Tree) {
    forall p :: p != [] && HoldsConflict(t, p) ==> PickTerm(t, p, 0).Ok?
  }

  /** A tree that is not conflict-free holds a conflict somewhere. */
  lemma {:induction false} SomeConflict(t: Tree) returns (p: Path)
    requires !ConflictFree(t)
    ensures p != [] && HoldsConflict(t, p)
    decreases t
  {
    FreeUnfold(t);
    var n :| n in t.entries && !FreeEntry(t.entries[n]);
    if IsDir(t.entries[n]) {
      var q := SomeConflict(t.entries[n].id.obj.tree);
      LeafAtCons(t, n, q);
      p := [n] + q;
    } else {
      p := [n];
    }
  }

  lemma {:induction false} FreeHoldsNone(t: Tree, p: Path)
    requires ConflictFree(t)
    ensures !HoldsConflict(t, p)
  {
    LeafConflictFree(t, p);
  }

  lemma ResolveKeepsSides(t: Tree, p: Path, side: int)
    requires p != [] && ResolveTree(t, p, side).Ok?
    ensures HasSides(t) <==> HasSides(ResolveTree(t, p, side).value)
  {
    hide Conflicts, Without, Rewrite, Find, LeafAt, ResolveTree;
    var t' := ResolveTree(t, p, side).value;
    ResolveRemovesOne(t, p, side);
    PickedHasFirst(t, p, side);
    forall q | q != [] && q != p ensures PickTerm(t, q, 0).Ok? <==> PickTerm(t', q, 0).Ok? {
      PickFromLeaf(t, t', q, 0);
    }
  }

  lemma PickedHasFirst(t: Tree, p: Path, side: int)
    requires p != [] && ResolveTree(t, p, side).Ok?
    ensures PickTerm(t, p, side).Ok? && PickTerm(t, p, 0).Ok?
  {
    hide Rewrite, Find;
  }

  /** From a tree whose conflicts all have sides a run of one resolve for each conflict succeeds. */
  lemma {:induction false} SomeCompleteRun(t: Tree) returns (choices: seq<Choice>)
    requires HasSides(t)
    ensures ResolveAll(t, choices).Ok? && ConflictFree(ResolveAll(t, choices).value)
    decreases |Conflicts(t)|
  {
    hide Conflicts, Without, Find, LeafAt, PickTerm, HasSides, ConflictFree, HoldsConflict;
    if ConflictFree(t) {
      choices := [];
    } else {
      var p := SomeConflict(t);
      ConflictHasSide(t, p);
      ResolveRemovesOne(t, p, 0);
      ResolveKeepsSides(t, p, 0);
      var rest := SomeCompleteRun(ResolveTree(t, p, 0).value);
      choices := [Choice(p, 0)] + rest;
      assert choices[1..] == rest;
    }
  }

  lemma ConflictHasSide(t: Tree, p: Path)
    requires HasSides(t) && p != [] && HoldsConflict(t, p)
    ensures ResolveTree(t, p, 0).Ok?
  {
    hide Rewrite, Find, LeafAt;
  }

  lemma {:induction false} CompleteRunHasSides(t: Tree, choices: seq<Choice>)
    requires ResolveAll(t, choices).Ok? && ConflictFree(ResolveAll(t, choices).value)
    ensures HasSides(t)
    decreases |choices|
  {
    hide Conflicts, Find, LeafAt, PickTerm, ConflictFree, ResolveTree;
    if choices == [] {
      forall p ensures !HoldsConflict(t, p) { FreeHoldsNone(t, p); }
    } else {
      ResolveKeepsSides(t, choices[0].path, choices[0].side);
      CompleteRunHasSides(ResolveTree(t, choices[0].path, choices[0].side).value, choices[1..]);
    }
  }

  /** Some run of resolves reaches a conflict-free tree exactly when every conflict has a side. */
  lemma ResolvableIff(t: Tree)
    ensures HasSides(t) <==>
      exists choices :: ResolveAll(t, choices).Ok? && ConflictFree(ResolveAll(t, choices).value)
  {
    hide HasSides, ConflictFree;
    if HasSides(t) { var choices := SomeCompleteRun(t); }
    if choices :| ResolveAll(t, choices).Ok? && ConflictFree(ResolveAll(t, choices).value) {
      CompleteRunHasSides(t, choices);
    }
  }

  // ---- Resolving a merge ---------------------------------------------------------------------------

  ghost predicate Mergeable(b: Tree, o: Tree, t: Tree) {
    WellTyped(b) && WellTyped(o) && WellTyped(t) && ConflictFree(b) && ConflictFree(o) && ConflictFree(t)
  }

  /** The leaf of a merge at a conflicted path, and of both sides there. */
  lemma ConflictedLeaf(b: Tree, o: Tree, t: Tree, p: Path)
    requires Mergeable(b, o, t) && HoldsConflict(MergeTrees(b, o, t).tree, p)
    ensures LeafAt(o, p) != LeafAt(t, p)
    ensures LeafAt(o, p).Some? ==> Present(LeafAt(o, p).value) && LeafAt(o, p).value.kind == KindBlob
    ensures LeafAt(t, p).Some? ==> Present(LeafAt(t, p).value) && LeafAt(t, p).value.kind == KindBlob
    ensures var id := LeafAt(MergeTrees(b, o, t).tree, p).value.id;
      id == Digest(ConflictObject(ConflictOf(EntryOf(LeafAt(b, p)), EntryOf(LeafAt(o, p)), EntryOf(LeafAt(t, p)))))
  {
    hide MergeTrees, LeafAt, WellTyped, ConflictFree, ConflictOf;
    MergePointwise(b, o, t, p);
    LeafTyped(o, p); LeafTyped(t, p);
    LeafConflictFree(b, p); LeafConflictFree(o, p); LeafConflictFree(t, p);
  }

  /** The term a resolve of a merge picks carries the label of a side, and is that side's leaf. */
  lemma MergePick(b: Tree, o: Tree, t: Tree, p: Path, side: int)
    requires Mergeable(b, o, t) && p != [] && PickTerm(MergeTrees(b, o, t).tree, p, side).Ok?
    ensures var term := PickTerm(MergeTrees(b, o, t).tree, p, side).value;
      (term.side == "ours" && TermLeaf(term) == LeafAt(o, p)) ||
        (term.side == "theirs" && TermLeaf(term) == LeafAt(t, p))
  {
    hide MergeTrees, Find, LeafAt, Mergeable, ConflictOf;
    var m := MergeTrees(b, o, t).tree;
    FindLeaf(m, p);
    ConflictedLeaf(b, o, t, p);
    SideTerm(LeafAt(b, p), LeafAt(o, p), LeafAt(t, p), side, PickTerm(m, p, side).value);
  }

  lemma SideTerm(b: Option<Entry>, o: Option<Entry>, t: Option<Entry>, side: int, term: Term)
    requires o.Some? ==> Present(o.value) && o.value.kind == KindBlob
    requires t.Some? ==> Present(t.value) && t.value.kind == KindBlob
    requires o != t
    requires var adds := ConflictOf(EntryOf(b), EntryOf(o), EntryOf(t)).adds; 0 <= side < |adds| && adds[side] == term
    ensures (term.side == "ours" && TermLeaf(term) == o) || (term.side == "theirs" && TermLeaf(term) == t)
  {
  }

  /** Every conflict of a merge has a side, so a complete run of resolves exists. */
  lemma MergeHasSides(b: Tree, o: Tree, t: Tree)
    requires Mergeable(b, o, t)
    ensures HasSides(MergeTrees(b, o, t).tree)
  {
    hide MergeTrees, Find, LeafAt, Mergeable;
    var m := MergeTrees(b, o, t).tree;
    forall p | p != [] && HoldsConflict(m, p) ensures PickTerm(m, p, 0).Ok? {
      FindLeaf(m, p);
      ConflictedLeaf(b, o, t, p);
    }
  }

  /** Resolving a conflict of a merge of conflict-free trees to the term labelled with a side restores
      exactly that side's leaf, or its absence. */
  lemma ResolveRestoresSide(b: Tree, o: Tree, t: Tree, p: Path, side: int)
    requires Mergeable(b, o, t)
    requires p != [] && ResolveTree(MergeTrees(b, o, t).tree, p, side).Ok?
    ensures var m := MergeTrees(b, o, t).tree;
      var term := PickTerm(m, p, side).value;
      var r := LeafAt(ResolveTree(m, p, side).value, p);
      (term.side == "ours" && r == LeafAt(o, p)) || (term.side == "theirs" && r == LeafAt(t, p))
  {
    hide MergeTrees, LeafAt, Mergeable, Conflicts, Without, PickTerm;
    ResolveRemovesOne(MergeTrees(b, o, t).tree, p, side);
    MergePick(b, o, t, p, side);
  }

  /** A leaf after a run of resolves of a merge: a side's leaf where the run chose one, the merge's elsewhere. */
  lemma ResolvedLeaf(b: Tree, o: Tree, t: Tree, choices: seq<Choice>, p: Path)
    requires Mergeable(b, o, t) && ResolveAll(MergeTrees(b, o, t).tree, choices).Ok?
    ensures var m := MergeTrees(b, o, t).tree;
      var r := ResolveAll(m, choices).value;
      if Chosen(choices, p) then HoldsConflict(m, p) && (LeafAt(r, p) == LeafAt(o, p) || LeafAt(r, p) == LeafAt(t, p))
      else LeafAt(r, p) == LeafAt(m, p)
  {
    hide MergeTrees, LeafAt, Mergeable, ResolveAll, PickTerm, HoldsConflict;
    var m := MergeTrees(b, o, t).tree;
    ResolveAllLeaves(m, choices, p);
    if i :| 0 <= i < |choices| && choices[i].path == p { MergePick(b, o, t, p, choices[i].side); }
  }

  /**
   * A merge of conflict-free trees can be resolved completely: some run of exactly as many resolves as
   * the merge reported conflicts succeeds and leaves no conflict.
   */
  lemma MergeResolvable(b: Tree, o: Tree, t: Tree) returns (choices: seq<Choice>)
    requires Mergeable(b, o, t)
    ensures var m := MergeTrees(b, o, t);
      ResolveAll(m.tree, choices).Ok? && ConflictFree(ResolveAll(m.tree, choices).value) && |choices| == |m.atoms|
  {
    hide MergeTrees, Conflicts, HasSides, ResolveAll;
    MergeHasSides(b, o, t);
    MergeAtomsAreConflicts(b, o, t);
    choices := SomeCompleteRun(MergeTrees(b, o, t).tree);
    ResolveAllCounts(MergeTrees(b, o, t).tree, choices);
  }

  // ---- By side number --------------------------------------------------------------------------------

  /** Resolving by number succeeds exactly at a conflict that has a side of that number; the path gets the
      blob of that side, or nothing for the zero id, and every other leaf stays. */
  lemma ResolveByNumber(t: Tree, p: Path, side: int, q: Path)
    requires p != []
    ensures ResolveTree(t, p, side).Ok? <==>
      HoldsConflict(t, p) && var id := LeafAt(t, p).value.id;
      id.Digest? && id.obj.ConflictObject? && 0 <= side < |id.obj.conflict.adds|
    ensures ResolveTree(t, p, side).Ok? ==>
      var id := LeafAt(t, p).value.id.obj.conflict.adds[side].id;
      LeafAt(ResolveTree(t, p, side).value, q) ==
        if q != p then LeafAt(t, q) else if id == Zero then None else Some(Entry(KindBlob, id))
  {
    hide Conflicts, Without, Rewrite, Find, LeafAt;
    FindLeaf(t, p);
    if ResolveTree(t, p, side).Ok? { ResolveRemovesOne(t, p, side); }
  }

  /** The conflict of three leaves: the base's, if any, is removed, and both sides are added, the present
      ones first. An absent side has the zero id. */
  function ConflictOfLeaves(x: Option<Entry>, y: Option<Entry>, z: Option<Entry>): Conflict {
    Conflict(
      if x.Some? then [Term(x.value.id, "base")] else [],
      if y.None? then (if z.Some? then [Term(z.value.id, "theirs"), Term(Zero, "ours")] else [])
      else [Term(y.value.id, "ours"), Term(if z.Some? then z.value.id else Zero, "theirs")])
  }

  /** What a merge of any trees leaves at a path: nothing where a tree has a directory, the side that changed
      where only one did or both agree, and otherwise the conflict of the three leaves. */
  lemma MergeOutcome(b: Tree, o: Tree, t: Tree, p: Path)
    requires WellTyped(b) && WellTyped(o) && WellTyped(t)
    ensures var x, y, z := LeafAt(b, p), LeafAt(o, p), LeafAt(t, p);
      LeafAt(MergeTrees(b, o, t).tree, p) ==
        if DirInAny(b, o, t, p) then None
        else if x == y then z
        else if x == z || y == z then y
        else Some(Entry(KindConflict, Digest(ConflictObject(ConflictOfLeaves(x, y, z)))))
  {
    hide MergeTrees, LeafAt, WellTyped, ConflictOf;
    MergePointwise(b, o, t, p);
    LeafTyped(b, p);
    LeafTyped(o, p);
    LeafTyped(t, p);
    var x, y, z := LeafAt(b, p), LeafAt(o, p), LeafAt(t, p);
    if y != z { ConflictTerms(x, y, z); }
  }

  /** In a merge of conflict-free trees a conflict stands exactly where both sides changed the base's leaf and
      differ, and no tree has a directory; it is the conflict of the three leaves. */
  lemma MergedConflict(b: Tree, o: Tree, t: Tree, p: Path)
    requires Mergeable(b, o, t)
    ensures var m, x, y, z := MergeTrees(b, o, t).tree, LeafAt(b, p), LeafAt(o, p), LeafAt(t, p);
      (HoldsConflict(m, p) <==> !DirInAny(b, o, t, p) && x != y && x != z && y != z) &&
      (HoldsConflict(m, p) ==>
        LeafAt(m, p) == Some(Entry(KindConflict, Digest(ConflictObject(ConflictOfLeaves(x, y, z))))))
  {
    hide MergeTrees, LeafAt, WellTyped, ConflictFree, ConflictOfLeaves;
    MergeOutcome(b, o, t, p);
    LeafConflictFree(b, p);
    LeafConflictFree(o, p);
    LeafConflictFree(t, p);
  }

  lemma ConflictTerms(x: Option<Entry>, y: Option<Entry>, z: Option<Entry>)
    requires x.Some? ==> Present(x.value)
    requires y.Some? ==> Present(y.value)
    requires z.Some? ==> Present(z.value)
    requires y != z
    ensures ConflictOf(EntryOf(x), EntryOf(y), EntryOf(z)) == ConflictOfLeaves(x, y, z)
  {
  }

  /**
   * A conflict of a merge of conflict-free trees has exactly two sides. Number 0 is ours and number 1 is
   * theirs; when ours is absent, number 0 is theirs and number 1 removes the path.
   */
  lemma ResolveSide(b: Tree, o: Tree, t: Tree, p: Path, side: int)
    requires Mergeable(b, o, t) && p != [] && HoldsConflict(MergeTrees(b, o, t).tree, p)
    ensures var r := ResolveTree(MergeTrees(b, o, t).tree, p, side);
      (r.Ok? <==> 0 <= side < 2) &&
      (r.Ok? ==> LeafAt(r.value, p) == if (side == 0) == LeafAt(o, p).Some? then LeafAt(o, p) else LeafAt(t, p))
  {
    hide MergeTrees, LeafAt, Mergeable, ResolveTree;
    ResolveByNumber(MergeTrees(b, o, t).tree, p, side, p);
    MergedConflict(b, o, t, p);
    ConflictedLeaf(b, o, t, p);
  }

  // ---- The list of conflicts -------------------------------------------------------------------------

  /** The first path is walked before the second: at the first name where they differ, it has the smaller. */
  ghost predicate WalkedBefore(p: Path, q: Path) {
    exists k :: 0 <= k < |p| && k < |q| && p[..k] == q[..k] && p[k] != q[k] && Leq(p[k], q[k])
  }

  ghost predicate Walked(atoms: seq<Atom>) {
    forall i, j :: 0 <= i < j < |atoms| ==> WalkedBefore(atoms[i].path, atoms[j].path)
  }

  /** The atom is a conflict of the tree. */
  ghost predicate ConflictAt(t: Tree, a: Atom) {
    a.path != [] && LeafAt(t, a.path) == Some(Entry(KindConflict, a.id))
  }

  /** The list holds each conflict of the tree, with the id of its object, exactly once and in the order of
      a walk over sorted names. */
  lemma {:induction false} ConflictsExact(t: Tree)
    ensures forall a :: a in Conflicts(t) <==> ConflictAt(t, a)
    ensures Walked(Conflicts(t))
    decreases t, 1, 0
  {
    SortedAscends(t.entries.Keys);
    hide Leq;
    ConflictsOverExact(Sorted(t.entries.Keys), t);
    assert Conflicts(t) == ConflictsOver(Sorted(t.entries.Keys), t);
    forall a ensures a in Conflicts(t) <==> ConflictAt(t, a) {
      assert a.path != [] && LeafAt(t, a.path).Some? ==> a.path[0] in t.entries;
    }
  }

  lemma {:induction false} ConflictsOverExact(names: seq<string>, t: Tree)
    requires Ascends(names)
    ensures forall a :: a in ConflictsOver(names, t) <==> ConflictAt(t, a) && a.path[0] in names
    ensures Walked(ConflictsOver(names, t))
    decreases t, 0, |names|
  {
    hide LeafAt, Leq, ConflictsAtName, WalkedBefore;
    if names != [] {
      ConflictsAtNameExact(names[0], t);
      ConflictsOverExact(names[1..], t);
      assert names == [names[0]] + names[1..];
      WalkedJoin(ConflictsAtName(names[0], t), ConflictsOver(names[1..], t), names);
    }
  }

  lemma {:induction false} ConflictsAtNameExact(n: string, t: Tree)
    ensures forall a :: a in ConflictsAtName(n, t) <==> a.path != [] && ConflictAt(t, a) && a.path[0] == n
    ensures Walked(ConflictsAtName(n, t))
    decreases t, 0, 0
  {
    hide Leq, WalkedBefore, ConflictAt, Conflicts;
    var dir := n in t.entries && IsDir(t.entries[n]);
    var sub := if dir then Conflicts(t.entries[n].id.obj.tree) else [];
    if dir {
      ConflictsExact(t.entries[n].id.obj.tree);
      WalkedPrefixed(n, sub);
    }
    forall a ensures a in ConflictsAtName(n, t) <==> a.path != [] && ConflictAt(t, a) && a.path[0] == n {
      InPrefixed(n, sub, a);
      ConflictHere(t, n, a);
    }
  }

  /** A conflict whose path starts with a given name lies in the directory of that name, or is the entry. */
  lemma ConflictHere(t: Tree, n: string, a: Atom)
    ensures ConflictAt(t, a) ==> a.path != []
    ensures a.path != [] && a.path[0] == n && n !in t.entries ==> !ConflictAt(t, a)
    ensures a.path != [] && a.path[0] == n && n in t.entries ==>
      (ConflictAt(t, a) <==>
        if IsDir(t.entries[n]) then ConflictAt(t.entries[n].id.obj.tree, Atom(a.path[1..], a.id))
        else t.entries[n].kind == KindConflict && a == Atom([n], t.entries[n].id))
  {
    if a.path != [] && a.path[0] == n {
      LeafBelow(t, a.path);
      assert LeafAt(EMPTY_TREE, a.path[1..]) == None;
      assert a.path == [n] + a.path[1..];
      hide LeafAt;
    }
  }

  lemma InPrefixed(n: string, atoms: seq<Atom>, a: Atom)
    ensures a in Prefixed(n, atoms) <==> a.path != [] && a.path[0] == n && Atom(a.path[1..], a.id) in atoms
  {
    if i :| 0 <= i < |atoms| && Prefixed(n, atoms)[i] == a { assert atoms[i] == Atom(a.path[1..], a.id); }
    if a.path != [] && a.path[0] == n && Atom(a.path[1..], a.id) in atoms {
      var i :| 0 <= i < |atoms| && atoms[i] == Atom(a.path[1..], a.id);
      assert a.path == [n] + a.path[1..];
      assert Prefixed(n, atoms)[i] == a;
    }
  }

  lemma WalkedPrefixed(n: string, atoms: seq<Atom>)
    requires Walked(atoms)
    ensures Walked(Prefixed(n, atoms))
  {
    hide WalkedBefore;
    forall i, j | 0 <= i < j < |atoms| ensures WalkedBefore([n] + atoms[i].path, [n] + atoms[j].path) {
      WalkedBelow(n, atoms[i].path, atoms[j].path);
    }
  }

  lemma WalkedBelow(n: string, p: Path, q: Path)
    requires WalkedBefore(p, q)
    ensures WalkedBefore([n] + p, [n] + q)
  {
    hide Leq;
    var k :| 0 <= k < |p| && k < |q| && p[..k] == q[..k] && p[k] != q[k] && Leq(p[k], q[k]);
    assert ([n] + p)[..k + 1] == [n] + p[..k] && ([n] + q)[..k + 1] == [n] + q[..k];
    assert ([n] + p)[k + 1] == p[k] && ([n] + q)[k + 1] == q[k];
  }

  lemma WalkedJoin(first: seq<Atom>, rest: seq<Atom>, names: seq<string>)
    requires Walked(first) && Walked(rest) && names != [] && Ascends(names)
    requires forall a :: a in first ==> a.path != [] && a.path[0] == names[0]
    requires forall a :: a in rest ==> a.path != [] && a.path[0] in names[1..]
    ensures Walked(first + rest)
  {
    hide Leq;
    forall i, j | 0 <= i < |first| && 0 <= j < |rest| ensures WalkedBefore(first[i].path, rest[j].path) {
      assert first[i] in first && rest[j] in rest;
      var m :| 0 <= m < |names| - 1 && names[1..][m] == rest[j].path[0];
      assert names[m + 1] == rest[j].path[0] && names[0] == first[i].path[0];
      assert first[i].path[..0] == rest[j].path[..0];
    }
  }
}
