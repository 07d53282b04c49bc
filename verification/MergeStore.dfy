/** The store-writing three-way merge: Trees and mergeEntry over a repository's object table. */
module MergeStore {
  import opened Prelude
  import opened Objects
  import opened Merge
  import opened Store

  /** entryAsTree: the directory an entry refers to, if it can be read. */
  function EntryAsTree(r: Repo, e: Entry): Option<Tree>
    reads r`objects
  {
    if e.kind != KindTree then None
    else match r.ReadTree(e.id) case Ok(t) => Some(t) case Err(_) => None
  }

  lemma EntryAsTreeHeld(r: Repo, t: Tree, n: string)
    requires r.ObjectsValid() && Holds(r.objects, t)
    ensures EntryAsTree(r, EntryAt(t, n)) == if IsDir(EntryAt(t, n)) then Some(Child(t, n)) else None
    ensures Holds(r.objects, Child(t, n))
  {
    if n in t.entries { r.ReadEntryHeld(t, n); }
  }

  ghost function Steps(b: Tree, o: Tree, t: Tree): map<string, Step> {
    map n | n in Names(b, o, t) :: MergeName(n, b, o, t)
  }

  ghost function AtomsOf(names: seq<string>, steps: map<string, Step>): seq<Atom>
    requires forall n :: n in names ==> n in steps
  {
    if names == [] then [] else steps[names[0]].atoms + AtomsOf(names[1..], steps)
  }

  lemma {:induction false} AtomsOfSteps(names: seq<string>, b: Tree, o: Tree, t: Tree)
    requires forall n :: n in names ==> n in Names(b, o, t)
    ensures AtomsOf(names, Steps(b, o, t)) == AtomsOver(names, b, o, t)
  {
    if names != [] { AtomsOfSteps(names[1..], b, o, t); }
  }

  /** The names done so far are merged, and the atoms of the others are still to come. */
  ghost predicate Progress(done: seq<string>, todo: seq<string>, entries: map<string, Entry>, atoms: seq<Atom>,
      total: seq<Atom>, steps: map<string, Step>) {
    (forall n :: n in done || n in todo ==> n in steps) &&
    (forall n :: n in entries ==> n in done) &&
    (forall n :: n in done ==> steps[n].entry == if n in entries then Some(entries[n]) else None) &&
    atoms + AtomsOf(todo, steps) == total
  }

  function Add(entries: map<string, Entry>, name: string, e: Option<Entry>): map<string, Entry> {
    if e.Some? then entries[name := e.value] else entries
  }

  lemma ProgressStep(done: seq<string>, todo: seq<string>, entries: map<string, Entry>, atoms: seq<Atom>,
      total: seq<Atom>, steps: map<string, Step>)
    requires todo != [] && todo[0] !in done && Progress(done, todo, entries, atoms, total, steps)
    ensures var step := steps[todo[0]];
      Progress(done + [todo[0]], todo[1..], Add(entries, todo[0], step.entry), atoms + step.atoms, total, steps)
  {
  }

  lemma ProgressDone(entries: map<string, Entry>, atoms: seq<Atom>, b: Tree, o: Tree, t: Tree)
    requires Progress(Sorted(Names(b, o, t)), [], entries, atoms, MergeTrees(b, o, t).atoms, Steps(b, o, t))
    ensures MergeTrees(b, o, t) == Merged(Tree(entries), atoms)
  {
    forall n | n in Names(b, o, t)
      ensures MergeName(n, b, o, t).entry == if n in entries then Some(entries[n]) else None
    {
      assert n in Sorted(Names(b, o, t));
      assert Steps(b, o, t)[n] == MergeName(n, b, o, t);
    }
    MergedEntries(b, o, t, entries);
  }

  lemma ProgressStart(b: Tree, o: Tree, t: Tree)
    ensures Progress([], Sorted(Names(b, o, t)), map[], [], MergeTrees(b, o, t).atoms, Steps(b, o, t))
  {
    AtomsOfSteps(Sorted(Names(b, o, t)), b, o, t);
  }

  lemma HoldsEntryAt(objects: map<ID, Object>, t: Tree, name: string)
    requires Holds(objects, t)
    ensures HoldsEntry(objects, EntryAt(t, name))
  {
  }

  /** The inputs and the entries so far are held by the object table. */
  ghost predicate AllHeld(objects: map<ID, Object>, b: Tree, o: Tree, t: Tree, entries: map<string, Entry>) {
    Holds(objects, b) && Holds(objects, o) && Holds(objects, t) && Holds(objects, Tree(entries))
  }

  lemma HoldsNothing(objects: map<ID, Object>)
    ensures Holds(objects, Tree(map[]))
  {
  }

  lemma AllHeldStep(before: map<ID, Object>, after: map<ID, Object>, b: Tree, o: Tree, t: Tree,
      entries: map<string, Entry>, name: string, e: Option<Entry>)
    requires AllHeld(before, b, o, t, entries) && Grows(before, after) && (e.Some? ==> HoldsEntry(after, e.value))
    ensures AllHeld(after, b, o, t, Add(entries, name, e))
  {
    HoldsGrows(before, after, b); HoldsGrows(before, after, o); HoldsGrows(before, after, t);
    HoldsGrows(before, after, Tree(entries));
    HoldsInsert(after, entries, name, e);
  }

  lemma LoopStep(all: seq<string>, i: nat, entries: map<string, Entry>, atoms: seq<Atom>, total: seq<Atom>,
      steps: map<string, Step>, step: Step)
    requires i < |all| && Fresh(all) && all[i] in steps && step == steps[all[i]]
    requires Progress(all[..i], all[i..], entries, atoms, total, steps)
    ensures Progress(all[..i + 1], all[i + 1..], Add(entries, all[i], step.entry), atoms + step.atoms, total, steps)
  {
    assert all[i] !in all[..i];
    ProgressStep(all[..i], all[i..], entries, atoms, total, steps);
    assert all[..i] + [all[i]] == all[..i + 1] && all[i..][1..] == all[i + 1..];
  }

  lemma StepAt(b: Tree, o: Tree, t: Tree, i: nat)
    requires i < |Names(b, o, t)|
    ensures var all := Sorted(Names(b, o, t));
      all[i] in Steps(b, o, t) && Steps(b, o, t)[all[i]] == MergeName(all[i], b, o, t)
  {
    assert Sorted(Names(b, o, t))[i] in Sorted(Names(b, o, t));
  }

  /** Trees: writes every merged subtree and conflict object, and returns the merged root unwritten. */
  method Trees(base: Tree, ours: Tree, theirs: Tree, r: Repo) returns (merged: Tree, atoms: seq<Atom>)
    requires r.ObjectsValid()
    requires Holds(r.objects, base) && Holds(r.objects, ours) && Holds(r.objects, theirs)
    modifies r`objects
    ensures r.ObjectsValid() && Grows(old(r.objects), r.objects)
    ensures Merged(merged, atoms) == MergeTrees(base, ours, theirs)
    ensures Holds(r.objects, merged)
    decreases Height(base) + Height(ours) + Height(theirs), 1
  {
    hide MergeTrees, MergeName, Progress, Height, Holds, ContentAddressed, Sorted, Names, EntryAt, Add, Steps;
    var all := Sorted(Names(base, ours, theirs));
    SortedFresh(Names(base, ours, theirs));
    var entries: map<string, Entry> := map[];
    ghost var steps, total := Steps(base, ours, theirs), MergeTrees(base, ours, theirs).atoms;
    atoms := [];
    var i := 0;
    ProgressStart(base, ours, theirs);
    HoldsNothing(r.objects);
    WholeSlices(all);
    while i < |all|
      invariant i <= |all|
      invariant r.ObjectsValid() && Grows(old(r.objects), r.objects)
      invariant AllHeld(r.objects, base, ours, theirs, entries)
      invariant Progress(all[..i], all[i..], entries, atoms, total, steps)
    {
      ghost var before := r.objects;
      var entry, below := MergeEntry(all[i], EntryAt(base, all[i]), EntryAt(ours, all[i]), EntryAt(theirs, all[i]),
        r, base, ours, theirs);
      AllHeldStep(before, r.objects, base, ours, theirs, entries, all[i], entry);
      StepAt(base, ours, theirs, i);
      LoopStep(all, i, entries, atoms, total, steps, Step(entry, below));
      atoms := atoms + below;
      entries := Add(entries, all[i], entry);
      i := i + 1;
    }
    merged := Tree(entries);
    ProgressDone(entries, atoms, base, ours, theirs);
  }

  predicate HoldsEntry(objects: map<ID, Object>, e: Entry) {
    (IsDir(e) ==> e.id in objects && Holds(objects, e.id.obj.tree)) && (e.kind == KindConflict ==> e.id in objects)
  }

  lemma HoldsInsert(objects: map<ID, Object>, entries: map<string, Entry>, name: string, e: Option<Entry>)
    requires Holds(objects, Tree(entries)) && (e.Some? ==> HoldsEntry(objects, e.value))
    ensures Holds(objects, Tree(Add(entries, name, e)))
  {
  }

  lemma LeafHeld(objects: map<ID, Object>, name: string, b: Entry, o: Entry, t: Entry)
    requires HoldsEntry(objects, o) && HoldsEntry(objects, t)
    ensures var s := MergeLeaf(name, b, o, t);
      s.entry.Some? && s.atoms == [] ==> HoldsEntry(objects, s.entry.value)
    ensures var s := MergeLeaf(name, b, o, t);
      s.atoms != [] ==> s.entry == Some(Entry(KindConflict, Digest(ConflictObject(ConflictOf(b, o, t)))))
  {
  }

  /** mergeEntry. The ghost trees are the directories the three entries come from. */
  method MergeEntry(name: string, base: Entry, ours: Entry, theirs: Entry, r: Repo,
      ghost b: Tree, ghost o: Tree, ghost t: Tree)
    returns (entry: Option<Entry>, atoms: seq<Atom>)
    requires base == EntryAt(b, name) && ours == EntryAt(o, name) && theirs == EntryAt(t, name)
    requires r.ObjectsValid() && Holds(r.objects, b) && Holds(r.objects, o) && Holds(r.objects, t)
    modifies r`objects
    ensures r.ObjectsValid() && Grows(old(r.objects), r.objects)
    ensures Step(entry, atoms) == MergeName(name, b, o, t)
    ensures entry.Some? ==> HoldsEntry(r.objects, entry.value)
    decreases Height(b) + Height(o) + Height(t), 0
  {
    EntryAsTreeHeld(r, b, name); EntryAsTreeHeld(r, o, name); EntryAsTreeHeld(r, t, name);
    HoldsEntryAt(r.objects, o, name); HoldsEntryAt(r.objects, t, name);
    var baseTree, oursTree, theirsTree := EntryAsTree(r, base), EntryAsTree(r, ours), EntryAsTree(r, theirs);
    if baseTree.Some? || oursTree.Some? || theirsTree.Some? {
      var bt := if baseTree.Some? then baseTree.value else EMPTY_TREE;
      var ot := if oursTree.Some? then oursTree.value else EMPTY_TREE;
      var tt := if theirsTree.Some? then theirsTree.value else EMPTY_TREE;
      HeightChild(b, name); HeightChild(o, name); HeightChild(t, name);
      var sub, subAtoms := Trees(bt, ot, tt, r);
      atoms := Prefixed(name, subAtoms);
      if sub.entries == map[] {
        entry := None;
      } else {
        ghost var before := r.objects;
        var id := r.WriteObject(TreeObject(sub));
        HoldsGrows(before, r.objects, sub);
        entry := Some(Entry(KindTree, id));
      }
    } else {
      var step := MergeLeaf(name, base, ours, theirs);
      LeafHeld(r.objects, name, base, ours, theirs);
      if step.atoms != [] {
        var id := r.WriteObject(ConflictObject(ConflictOf(base, ours, theirs)));
      }
      entry, atoms := step.entry, step.atoms;
    }
  }

  lemma MergedEntries(b: Tree, o: Tree, t: Tree, entries: map<string, Entry>)
    requires forall n :: n in entries ==> n in Names(b, o, t)
    requires forall n ::
      n in Names(b, o, t) ==> MergeName(n, b, o, t).entry == if n in entries then Some(entries[n]) else None
    ensures MergeTrees(b, o, t).tree == Tree(entries)
  {
    var m := MergeTrees(b, o, t).tree.entries;
    forall n ensures n in m <==> n in entries { MergedEntry(b, o, t, n); }
    forall n | n in m ensures m[n] == entries[n] { MergedEntry(b, o, t, n); }
    assert m == entries;
  }
}
