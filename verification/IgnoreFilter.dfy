/** Dropping ignored paths from a tree (dropIgnored). */
module IgnoreFilter {
  import opened Prelude
  import opened Paths
  import opened Objects
  import opened Merge
  import opened MergeStore
  import opened TreeStore
  import opened Store
  import opened IgnoreRules

  /** The tree without its ignored paths; `fast` keeps directories no layer touches without looking. */
  function DropTree(m: Matcher, t: Tree, prefix: string, fast: bool): Tree
    decreases t, 1
  {
    Tree(map n | n in t.entries && KeptEntry(m, t, n, prefix, fast).Some? :: KeptEntry(m, t, n, prefix, fast).value)
  }

  function KeptEntry(m: Matcher, t: Tree, n: string, prefix: string, fast: bool): Option<Entry>
    requires n in t.entries
    decreases t, 0
  {
    var rel := JoinPath(prefix, n);
    var e := t.entries[n];
    if fast && e.kind == KindTree && !AnyMatchUnder(m, rel) then Some(e)
    else if IsIgnored(m, rel) then None
    else if IsDir(e) then
      var sub := DropTree(m, e.id.obj.tree, rel, fast);
      if sub.entries == map[] then None else Some(Entry(KindTree, TreeID(sub)))
    else Some(e)
  }

  /** Some non-empty prefix of `p`, walked from `prefix`, is ignored. */
  predicate IgnoredOnTheWay(m: Matcher, prefix: string, p: Path)
    decreases |p|
  {
    p != [] && (IsIgnored(m, JoinPath(prefix, p[0])) || IgnoredOnTheWay(m, JoinPath(prefix, p[0]), p[1..]))
  }

  function RenderFrom(prefix: string, p: Path): string
    decreases |p|
  {
    if p == [] then prefix else RenderFrom(JoinPath(prefix, p[0]), p[1..])
  }

  lemma {:induction false} RenderFromSnoc(prefix: string, p: Path, n: string)
    ensures RenderFrom(prefix, p + [n]) == JoinPath(RenderFrom(prefix, p), n)
    decreases |p|
  {
    if p == [] {
      assert ([] + [n])[1..] == [];
    } else {
      assert (p + [n])[1..] == p[1..] + [n];
      RenderFromSnoc(JoinPath(prefix, p[0]), p[1..], n);
    }
  }

  lemma {:induction false} RenderFromRoot(p: Path)
    ensures RenderFrom("", p) == Render(p)
  {
    if p != [] {
      var init := p[..|p| - 1];
      RenderFromRoot(init);
      RenderFromSnoc("", init, p[|p| - 1]);
      assert p == init + [p[|p| - 1]];
    }
  }

  lemma {:induction false} IgnoredPrefix(m: Matcher, prefix: string, p: Path)
    ensures IgnoredOnTheWay(m, prefix, p) <==> exists k :: 1 <= k <= |p| && IsIgnored(m, RenderFrom(prefix, p[..k]))
    decreases |p|
  {
    if p != [] {
      var next := JoinPath(prefix, p[0]);
      IgnoredPrefix(m, next, p[1..]);
      assert RenderFrom(prefix, p[..1]) == next;
      forall k | 1 <= k <= |p[1..]| ensures RenderFrom(next, p[1..][..k]) == RenderFrom(prefix, p[..k + 1]) {
        assert p[..k + 1][1..] == p[1..][..k];
      }
      if exists k :: 1 <= k <= |p| && IsIgnored(m, RenderFrom(prefix, p[..k])) {
        var k :| 1 <= k <= |p| && IsIgnored(m, RenderFrom(prefix, p[..k]));
        if k > 1 {
          assert IsIgnored(m, RenderFrom(next, p[1..][..k - 1]));
        }
      }
      if IgnoredOnTheWay(m, next, p[1..]) {
        var k :| 1 <= k <= |p[1..]| && IsIgnored(m, RenderFrom(next, p[1..][..k]));
        assert IsIgnored(m, RenderFrom(prefix, p[..k + 1]));
      }
    }
  }

  /** Below a directory no layer touches, nothing is ignored on the way. */
  lemma {:induction false} UntouchedBelow(m: Matcher, dir: string, at: string, p: Path)
    requires dir != "" && !AnyMatchUnder(m, dir) && (at == dir || HasPrefix(at, dir + "/"))
    ensures !IgnoredOnTheWay(m, at, p)
    decreases |p|
  {
    if p != [] {
      var next := JoinPath(at, p[0]);
      assert next == at + "/" + p[0];
      assert HasPrefix(next, dir + "/") by {
        if at == dir { assert next[..|dir| + 1] == dir + "/"; } else { assert next[..|dir| + 1] == at[..|dir| + 1]; }
      }
      NoMatchMeansNothingIgnored(m, dir, next);
      UntouchedBelow(m, dir, next, p[1..]);
    }
  }

  lemma DroppedEntry(m: Matcher, t: Tree, n: string, prefix: string, fast: bool)
    ensures var d := DropTree(m, t, prefix, fast).entries;
      if n in t.entries then KeptEntry(m, t, n, prefix, fast) == (if n in d then Some(d[n]) else None) else n !in d
  {
  }

  /**
   * A leaf survives exactly when no non-empty prefix of its path is ignored, for every well-typed tree.
   * With the fast path this takes a root without a directory of the empty name.
   */
  lemma {:induction false} DropLeaf(m: Matcher, t: Tree, prefix: string, fast: bool, p: Path)
    requires WellTyped(t) && (fast && prefix == "" ==> NamedRoot(t))
    ensures LeafAt(DropTree(m, t, prefix, fast), p) == if IgnoredOnTheWay(m, prefix, p) then None else LeafAt(t, p)
    decreases t
  {
    if p != [] && p[0] in t.entries {
      var n, rel, e := p[0], JoinPath(prefix, p[0]), t.entries[p[0]];
      DroppedEntry(m, t, n, prefix, fast);
      if IsDir(e) {
        var sub := e.id.obj.tree;
        DropLeaf(m, sub, rel, fast, p[1..]);
        if fast && !AnyMatchUnder(m, rel) {
          UntouchedBelow(m, rel, rel, p[1..]);
          NoMatchMeansNothingIgnored(m, rel, rel);
        }
        DropLeafDir(m, t, prefix, fast, p, DropTree(m, t, prefix, fast), DropTree(m, sub, rel, fast));
      }
    } else if p != [] {
      DroppedEntry(m, t, p[0], prefix, fast);
    }
  }

  lemma DropLeafDir(m: Matcher, t: Tree, prefix: string, fast: bool, p: Path, d: Tree, sub: Tree)
    requires p != [] && p[0] in t.entries && IsDir(t.entries[p[0]])
    requires var rel := JoinPath(prefix, p[0]);
      var kept := if p[0] in d.entries then Some(d.entries[p[0]]) else None;
      if fast && !AnyMatchUnder(m, rel) then
        kept == Some(t.entries[p[0]]) && !IgnoredOnTheWay(m, prefix, p)
      else if IsIgnored(m, rel) then
        kept == None
      else
        kept == (if sub.entries == map[] then None else Some(Entry(KindTree, TreeID(sub)))) &&
        LeafAt(sub, p[1..]) == (if IgnoredOnTheWay(m, rel, p[1..]) then None else LeafAt(Child(t, p[0]), p[1..]))
    ensures LeafAt(d, p) == if IgnoredOnTheWay(m, prefix, p) then None else LeafAt(t, p)
  {
    if |p| > 1 {
      assert sub.entries == map[] ==> LeafAt(sub, p[1..]) == None;
    }
  }

  /** The same statement in terms of the rendered prefixes of the path. */
  lemma DropKeepsUnignored(m: Matcher, t: Tree, fast: bool, p: Path)
    requires WellTyped(t) && (fast ==> NamedRoot(t))
    ensures LeafAt(DropTree(m, t, "", fast), p) ==
      if exists k :: 1 <= k <= |p| && IsIgnored(m, Render(p[..k])) then None else LeafAt(t, p)
  {
    DropLeaf(m, t, "", fast, p);
    IgnoredPrefix(m, "", p);
    forall k | 1 <= k <= |p| ensures RenderFrom("", p[..k]) == Render(p[..k]) { RenderFromRoot(p[..k]); }
    if exists k :: 1 <= k <= |p| && IsIgnored(m, Render(p[..k])) {
      var k :| 1 <= k <= |p| && IsIgnored(m, Render(p[..k]));
      assert IsIgnored(m, RenderFrom("", p[..k]));
    }
    if exists k :: 1 <= k <= |p| && IsIgnored(m, RenderFrom("", p[..k])) {
      var k :| 1 <= k <= |p| && IsIgnored(m, RenderFrom("", p[..k]));
      assert IsIgnored(m, Render(p[..k]));
    }
  }

  lemma {:induction false} DropWellFormed(m: Matcher, t: Tree, prefix: string, fast: bool)
    requires WellTyped(t)
    ensures WellTyped(DropTree(m, t, prefix, fast))
    ensures Canonical(t) ==> Canonical(DropTree(m, t, prefix, fast))
    decreases t
  {
    var d := DropTree(m, t, prefix, fast);
    forall n | n in d.entries
      ensures TypedEntry(d.entries[n])
      ensures Canonical(t) && IsDir(d.entries[n]) ==>
        d.entries[n].id.obj.tree.entries != map[] && Canonical(d.entries[n].id.obj.tree)
    {
      DroppedEntry(m, t, n, prefix, fast);
      if IsDir(t.entries[n]) {
        DropWellFormed(m, t.entries[n].id.obj.tree, JoinPath(prefix, n), fast);
      }
    }
  }

  /** On canonical trees the fast path gives the very same tree as the full recursion. */
  lemma FastPathSameTree(m: Matcher, t: Tree, prefix: string)
    requires WellTyped(t) && Canonical(t) && (prefix == "" ==> NamedRoot(t))
    ensures DropTree(m, t, prefix, true) == DropTree(m, t, prefix, false)
  {
    DropWellFormed(m, t, prefix, true);
    DropWellFormed(m, t, prefix, false);
    forall p ensures LeafAt(DropTree(m, t, prefix, true), p) == LeafAt(DropTree(m, t, prefix, false), p) {
      DropLeaf(m, t, prefix, true, p);
      DropLeaf(m, t, prefix, false, p);
    }
    CanonicalExtensional(DropTree(m, t, prefix, true), DropTree(m, t, prefix, false));
  }

  // ---- On a store ---------------------------------------------------------------------------------

  /** The verdict on every entry of one directory. */
  ghost function Verdicts(m: Matcher, t: Tree, prefix: string): map<string, Option<Entry>> {
    map n | n in t.entries :: KeptEntry(m, t, n, prefix, true)
  }

  /** What is kept so far of the names walked so far. */
  ghost predicate Filtered(verdicts: map<string, Option<Entry>>, done: seq<string>, entries: map<string, Entry>) {
    (forall n :: n in entries ==> n in done) &&
    (forall n :: n in done ==> n in verdicts && verdicts[n] == if n in entries then Some(entries[n]) else None)
  }

  lemma FilteredDone(m: Matcher, t: Tree, prefix: string, entries: map<string, Entry>)
    requires Filtered(Verdicts(m, t, prefix), Sorted(t.entries.Keys), entries)
    ensures Tree(entries) == DropTree(m, t, prefix, true)
  {
    var d := DropTree(m, t, prefix, true).entries;
    forall n
      ensures if n !in t.entries then n !in entries
        else KeptEntry(m, t, n, prefix, true) == if n in entries then Some(entries[n]) else None
    {
      if n in t.entries {
        assert n in Sorted(t.entries.Keys) && Verdicts(m, t, prefix)[n] == KeptEntry(m, t, n, prefix, true);
      }
    }
    forall n ensures (n in d <==> n in entries) && (n in d ==> d[n] == entries[n]) {
      DroppedEntry(m, t, n, prefix, true);
    }
    assert d == entries;
  }

  lemma FilterLoopStep(verdicts: map<string, Option<Entry>>, names: seq<string>, i: nat, entries: map<string, Entry>,
      kept: Option<Entry>)
    requires i < |names| && Fresh(names) && Filtered(verdicts, names[..i], entries)
    requires names[i] in verdicts && verdicts[names[i]] == kept
    ensures Filtered(verdicts, names[..i + 1], Add(entries, names[i], kept))
  {
    assert names[i] !in names[..i];
    TakeMore(names, i);
  }

  ghost predicate BothHeld(objects: map<ID, Object>, t: Tree, entries: map<string, Entry>) {
    Holds(objects, t) && Holds(objects, Tree(entries))
  }

  lemma BothHeldStep(before: map<ID, Object>, after: map<ID, Object>, t: Tree, entries: map<string, Entry>, n: string,
      e: Option<Entry>)
    requires BothHeld(before, t, entries) && Grows(before, after) && (e.Some? ==> HoldsEntry(after, e.value))
    ensures BothHeld(after, t, Add(entries, n, e))
  {
    HoldsGrows(before, after, t);
    HoldsGrows(before, after, Tree(entries));
    HoldsInsert(after, entries, n, e);
  }

  /** dropIgnored: rewrites the tree bottom-up and stores every filtered directory. */
  method DropIgnored(m: Matcher, t: Tree, prefix: string, r: Repo) returns (res: Result<ID>)
    requires r.ObjectsValid() && Holds(r.objects, t)
    modifies r`objects
    ensures r.ObjectsValid() && Grows(old(r.objects), r.objects)
    ensures WellTyped(t) ==> res.Ok?
    ensures res.Ok? ==> res.value == TreeID(DropTree(m, t, prefix, true)) && HoldsID(r.objects, res.value)
    decreases t, 2
  {
    var entries := FilterEntries(m, t, prefix, r);
    if entries.Err? { return Err(entries.error); }
    FilteredDone(m, t, prefix, entries.value);
    var id := WriteTree(Tree(entries.value), r);
    return Ok(id);
  }

  /** The loop of dropIgnored. */
  method FilterEntries(m: Matcher, t: Tree, prefix: string, r: Repo) returns (res: Result<map<string, Entry>>)
    requires r.ObjectsValid() && Holds(r.objects, t)
    modifies r`objects
    ensures r.ObjectsValid() && Grows(old(r.objects), r.objects)
    ensures WellTyped(t) ==> res.Ok?
    ensures res.Ok? ==>
      Filtered(Verdicts(m, t, prefix), Sorted(t.entries.Keys), res.value) && Holds(r.objects, Tree(res.value))
    decreases t, 1
  {
    var names := Sorted(t.entries.Keys);
    SortedFresh(t.entries.Keys);
    assert names[..0] == [];
    ghost var verdicts := Verdicts(m, t, prefix);
    var entries: map<string, Entry> := map[];
    var i := 0;
    while i < |names|
      invariant i <= |names|
      invariant r.ObjectsValid() && Grows(old(r.objects), r.objects) && BothHeld(r.objects, t, entries)
      invariant Filtered(verdicts, names[..i], entries)
    {
      assert names[i] in names;
      ghost var before := r.objects;
      var kept := FilterEntry(m, t, names[i], prefix, r);
      if kept.Err? { return Err(kept.error); }
      BothHeldStep(before, r.objects, t, entries, names[i], kept.value);
      FilterLoopStep(verdicts, names, i, entries, kept.value);
      entries := Add(entries, names[i], kept.value);
      i := i + 1;
    }
    WholeSlices(names);
    return Ok(entries);
  }

  /** The body of dropIgnored's loop for one entry. */
  method FilterEntry(m: Matcher, t: Tree, n: string, prefix: string, r: Repo) returns (kept: Result<Option<Entry>>)
    requires r.ObjectsValid() && Holds(r.objects, t) && n in t.entries
    modifies r`objects
    ensures r.ObjectsValid() && Grows(old(r.objects), r.objects)
    ensures WellTyped(t) ==> kept.Ok?
    ensures kept.Ok? ==> kept.value == KeptEntry(m, t, n, prefix, true)
    ensures kept.Ok? && kept.value.Some? ==> HoldsEntry(r.objects, kept.value.value)
    decreases t, 0
  {
    var e := t.entries[n];
    var rel := JoinPath(prefix, n);
    r.ReadEntryHeld(t, n);
    HoldsEntryAt(r.objects, t, n);
    var any := HasAnyMatchUnder(m, rel);
    if e.kind == KindTree && !any { return Ok(Some(e)); }
    var ignored := Ignored(m, rel);
    if ignored { return Ok(None); }
    if e.kind != KindTree { return Ok(Some(e)); }
    var sub := r.ReadTree(e.id);
    if sub.Err? { return Err(sub.error); }
    var newID := DropIgnored(m, sub.value, rel, r);
    if newID.Err? { return Err(newID.error); }
    r.MustTreeHeld(newID.value);
    var newSub := r.MustTree(newID.value);
    if newSub.entries == map[] { return Ok(None); }
    return Ok(Some(Entry(KindTree, newID.value)));
  }
}
