/** Repository paths: slash-separated strings and the component lists the tree walks work on. */
module Paths {

  type Path = seq<string>

  /** joinPath: the root prefix is the empty string. */
  function JoinPath(parent: string, child: string): string {
    if parent == "" then child else parent + "/" + child
  }

  /** What a walk that calls JoinPath on every step accumulates. */
  function Render(p: Path): string {
    if p == [] then "" else JoinPath(Render(p[..|p| - 1]), p[|p| - 1])
  }

  predicate SlashFree(s: string) { '/' !in s }

  predicate NamesSlashFree(p: Path) { forall i :: 0 <= i < |p| ==> SlashFree(p[i]) }

  /** A path the splitting loop can give back: no name holds a slash, and nothing lies below the empty
      name at the root, which JoinPath takes for the root itself. */
  predicate ValidPath(p: Path) {
    NamesSlashFree(p) && (|p| > 1 ==> p[0] != "")
  }

  /** Length of the part before the first slash, or of the whole string. */
  function SlashIndex(s: string): (i: nat)
    ensures i <= |s| && SlashFree(s[..i])
    ensures i < |s| ==> s[i] == '/'
  {
    if s == "" || s[0] == '/' then 0
    else
      var i := 1 + SlashIndex(s[1..]);
      assert s[..i] == [s[0]] + s[1..][..i - 1];
      i
  }

  function Split(s: string): (p: Path)
    ensures |p| >= 1 && NamesSlashFree(p)
    decreases |s|
  {
    var i := SlashIndex(s);
    assert s[..|s|] == s;
    if i == |s| then [s] else [s[..i]] + Split(s[i + 1..])
  }

  /** The splitting loop at the head of findEntry and resolvePath. */
  method SplitPath(path: string) returns (components: Path)
    ensures components == Split(path)
  {
    components := [];
    var cur := path;
    while true
      invariant Split(path) == components + Split(cur)
      decreases |cur|
    {
      var idx := SlashIndex(cur);
      if idx == |cur| {
        components := components + [cur];
        break;
      }
      components := components + [cur[..idx]];
      cur := cur[idx + 1..];
    }
  }

  lemma SlashIndexUnique(a: string, rest: string)
    requires SlashFree(a)
    ensures SlashIndex(a) == |a|
    ensures SlashIndex(a + "/" + rest) == |a|
  {
    var s := a + "/" + rest;
    var i := SlashIndex(s);
    assert s[|a|] == '/';
    assert forall k :: 0 <= k < |a| ==> a[k] in a && s[k] == a[k];
    assert forall k :: 0 <= k < i ==> s[..i][k] in s[..i] && s[..i][k] == s[k];
  }

  lemma {:induction false} SplitAppend(s: string, name: string)
    requires SlashFree(name)
    ensures Split(s + "/" + name) == Split(s) + [name]
    decreases |s|
  {
    var i := SlashIndex(s);
    SlashIndexUnique(name, "");
    if i == |s| {
      SlashIndexUnique(s, name);
      assert (s + "/" + name)[|s| + 1..] == name;
      assert (s + "/" + name)[..|s|] == s;
    } else {
      var rest := s[i + 1..];
      assert s + "/" + name == s[..i] + "/" + (rest + "/" + name);
      SlashIndexUnique(s[..i], rest + "/" + name);
      assert (s + "/" + name)[i + 1..] == rest + "/" + name;
      assert (s + "/" + name)[..i] == s[..i];
      SplitAppend(rest, name);
    }
  }

  lemma {:induction false} SplitValid(p: Path)
    requires p != [] && ValidPath(p)
    ensures Split(Render(p)) == p && (p[0] != "" ==> Render(p) != "")
  {
    hide SlashIndex;
    var init, last := p[..|p| - 1], p[|p| - 1];
    assert p == init + [last];
    SlashIndexUnique(last, "");
    if init == [] {
      assert Render(p) == last;
      SplitOne(last);
    } else {
      SplitValid(init);
      SplitAppend(Render(init), last);
    }
  }

  lemma SplitOne(name: string)
    requires SlashFree(name)
    ensures Split(name) == [name]
  {
    SlashIndexUnique(name, "");
  }

  /** Splitting never gives more components than were joined. */
  lemma {:induction false} SplitBounded(p: Path)
    requires p != [] && NamesSlashFree(p)
    ensures |Split(Render(p))| <= |p|
  {
    hide SlashIndex;
    var init, last := p[..|p| - 1], p[|p| - 1];
    SplitOne(last);
    if init != [] {
      SplitBounded(init);
      SplitAppend(Render(init), last);
    }
  }

  /** An empty name at the root leaves no trace. */
  lemma {:induction false} EmptyRootName(p: Path)
    requires p != [] && p[0] == ""
    ensures Render(p) == Render(p[1..])
  {
    var init := p[..|p| - 1];
    if init != [] {
      EmptyRootName(init);
      assert p[1..][..|p[1..]| - 1] == init[1..];
    } else {
      assert p[1..] == [] && Render(p) == "";
    }
  }

  /** Splitting a joined path gives its components back exactly when the path is valid. */
  lemma SplitRender(p: Path)
    requires p != []
    ensures Split(Render(p)) == p <==> ValidPath(p)
  {
    hide Split, Render;
    if ValidPath(p) {
      SplitValid(p);
    } else if NamesSlashFree(p) {
      EmptyRootName(p);
      SplitBounded(p[1..]);
    }
  }

  /** A concrete pair: a file "b" below an empty name at the root is shown as the file "b". */
  lemma RootSlashCollides()
    ensures Split("/b") == ["", "b"] && Render(["", "b"]) == Render(["b"]) == "b"
  {
    assert "/b" == "" + "/" + "b";
    SplitOne("");
    SplitOne("b");
    SplitAppend("", "b");
    EmptyRootName(["", "b"]);
    assert ["", "b"][1..] == ["b"] && ["b"][..0] == [];
  }

  /** Rendering is injective on valid paths. */
  lemma RenderInjective(p: Path, q: Path)
    requires p != [] && q != [] && ValidPath(p) && ValidPath(q) && Render(p) == Render(q)
    ensures p == q
  {
    SplitRender(p);
    SplitRender(q);
  }

  /** Neither path lies at or below the other. */
  predicate Incomparable(p: Path, q: Path) { !(p <= q) && !(q <= p) }
}
