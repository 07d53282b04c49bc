/** Layered ignore rules (ignore/ignore.go). The pattern engine of one ignore file is a function from a
    layer-relative path to its verdict: not mentioned, or mentioned and ignored or not. */
module IgnoreRules {
  import opened Prelude

  datatype Layer = Layer(dir: string, verdict: string -> Option<bool>)

  type Matcher = seq<Layer>

  predicate HasPrefix(s: string, prefix: string) { prefix <= s }

  predicate IsRoot(dir: string) { dir == "" || dir == "." }

  /** The path a layer is asked about, if the layer covers it at all. */
  function Candidate(dir: string, rel: string): Option<string> {
    if IsRoot(dir) then Some(rel)
    else if !HasPrefix(rel, dir + "/") && rel != dir then None
    else if rel != dir then Some(rel[|dir| + 1..])
    else Some("")
  }

  function LayerVerdict(l: Layer, rel: string): Option<bool> {
    match Candidate(l.dir, rel) case Some(c) => l.verdict(c) case None => None
  }

  /** The last layer that mentions the path decides. */
  function LastVerdict(m: Matcher, rel: string): Option<bool> {
    if m == [] then None
    else
      var last := LayerVerdict(m[|m| - 1], rel);
      if last.Some? then last else LastVerdict(m[..|m| - 1], rel)
  }

  predicate IsIgnored(m: Matcher, rel: string) { LastVerdict(m, rel) == Some(true) }

  method Ignored(m: Matcher, rel: string) returns (result: bool)
    ensures result == IsIgnored(m, rel)
  {
    result := false;
    var i := 0;
    while i < |m|
      invariant i <= |m|
      invariant result == IsIgnored(m[..i], rel)
    {
      assert m[..i + 1][..i] == m[..i];
      match Candidate(m[i].dir, rel) {
        case None =>
        case Some(candidate) =>
          match m[i].verdict(candidate) {
            case None =>
            case Some(ignored) => result := ignored;
          }
      }
      i := i + 1;
    }
    assert m[..i] == m;
  }

  /** Some layer's directory is the root, or equals, contains or lies below `dir`. */
  predicate AnyMatchUnder(m: Matcher, dir: string) {
    var d := if IsRoot(dir) then "." else dir;
    exists i :: 0 <= i < |m| && Touches(m[i].dir, d)
  }

  predicate Touches(layer: string, d: string) {
    IsRoot(layer) || d == layer || HasPrefix(d, layer + "/") || HasPrefix(layer, d + "/")
  }

  method HasAnyMatchUnder(m: Matcher, dir: string) returns (found: bool)
    ensures found == AnyMatchUnder(m, dir)
  {
    var d := if IsRoot(dir) then "." else dir;
    var i := 0;
    while i < |m|
      invariant i <= |m|
      invariant forall k :: 0 <= k < i ==> !Touches(m[k].dir, d)
    {
      if Touches(m[i].dir, d) { return true; }
      i := i + 1;
    }
    return false;
  }

  lemma {:induction false} NoVerdict(m: Matcher, rel: string)
    requires forall i :: 0 <= i < |m| ==> LayerVerdict(m[i], rel) == None
    ensures LastVerdict(m, rel) == None
  {
    if m != [] { NoVerdict(m[..|m| - 1], rel); }
  }

  lemma CoveredMeansTouched(layer: string, d: string, rel: string)
    requires d != "" && Candidate(layer, rel).Some? && (rel == d || HasPrefix(rel, d + "/"))
    ensures Touches(layer, d)
  {
    if !IsRoot(layer) {
      assert forall k :: 0 <= k < |d| && k < |layer| ==> rel[k] == d[k] && rel[k] == layer[k];
      if |layer| < |d| {
        assert d[..|layer|] == layer && rel[|layer|] == '/' && d[|layer|] == rel[|layer|];
        assert layer + "/" == d[..|layer| + 1];
      } else if |d| < |layer| {
        assert layer[..|d|] == d && rel[|d|] == '/' && layer[|d|] == rel[|d|];
        assert d + "/" == layer[..|d| + 1];
      } else {
        assert d == layer;
      }
    }
  }

  /** For every directory below the root, a negative answer means that nothing at or below it is
      mentioned by any layer, so nothing there is ignored. */
  lemma NoMatchMeansNothingIgnored(m: Matcher, dir: string, rel: string)
    requires dir != "" && !AnyMatchUnder(m, dir) && (rel == dir || HasPrefix(rel, dir + "/"))
    ensures LastVerdict(m, rel) == None && !IsIgnored(m, rel)
  {
    forall i | 0 <= i < |m| ensures LayerVerdict(m[i], rel) == None {
      if Candidate(m[i].dir, rel).Some? { CoveredMeansTouched(m[i].dir, dir, rel); }
    }
    NoVerdict(m, rel);
  }

  /** The root is the exception: with only nested layers the answer for it is no, although paths below
      a nested layer may be ignored. */
  lemma RootAnswerIsNotConservative()
    ensures var m := [Layer("a", _ => Some(true))]; !AnyMatchUnder(m, "") && IsIgnored(m, "a/b")
  {
    var m := [Layer("a", _ => Some(true))];
    assert !Touches("a", ".");
    assert "a" + "/" == "a/" && "a/" <= "a/b";
    assert m[|m| - 1] == m[0];
    assert LayerVerdict(m[0], "a/b") == Some(true);
  }

  /** The directories of the layers: all that the answer for a directory looks at. */
  function DirsOf(m: Matcher): (ds: seq<string>)
    ensures |ds| == |m|
  {
    seq(|m|, i requires 0 <= i < |m| => m[i].dir)
  }

  /** A layer that the answer for the root takes notice of. */
  predicate AtRoot(dir: string) { IsRoot(dir) || HasPrefix(dir, "./") }

  lemma RootTouched(dir: string)
    ensures Touches(dir, ".") <==> AtRoot(dir)
  {
    assert "." + "/" == "./";
    if HasPrefix(".", dir + "/") { assert |dir + "/"| <= 1; }
  }

  /** A negative answer for the root is borne out: nothing at all is ignored. */
  ghost predicate RootConservative(m: Matcher) {
    !AnyMatchUnder(m, "") ==> forall rel :: !IsIgnored(m, rel)
  }

  /** The matcher whose layers all ignore everything they cover. */
  function IgnoringAll(ds: seq<string>): (m: Matcher)
    ensures DirsOf(m) == ds
  {
    seq(|ds|, i requires 0 <= i < |ds| => Layer(ds[i], _ => Some(true)))
  }

  /** A matcher that ignores everything it covers ignores its last layer's directory. */
  lemma LastDirIgnored(ds: seq<string>)
    requires ds != []
    ensures IsIgnored(IgnoringAll(ds), ds[|ds| - 1])
  {
    var m, dir := IgnoringAll(ds), ds[|ds| - 1];
    assert LayerVerdict(m[|m| - 1], dir) == Some(true);
  }

  /**
   * A negative answer for the root is right for every choice of rules in these directories exactly
   * when there is no layer at all or some layer counts as the root's.
   */
  lemma RootAnswer(ds: seq<string>)
    ensures (forall m: Matcher | DirsOf(m) == ds :: RootConservative(m)) <==> ds == [] || exists i ::
      0 <= i < |ds| && AtRoot(ds[i])
  {
    forall i | 0 <= i < |ds| ensures Touches(ds[i], ".") <==> AtRoot(ds[i]) { RootTouched(ds[i]); }
    if i :| 0 <= i < |ds| && AtRoot(ds[i]) {
      forall m: Matcher | DirsOf(m) == ds ensures RootConservative(m) { assert m[i].dir == DirsOf(m)[i]; }
    } else if ds != [] {
      var m := IgnoringAll(ds);
      forall i | 0 <= i < |m| ensures !Touches(m[i].dir, ".") { assert m[i].dir == DirsOf(m)[i]; }
      LastDirIgnored(ds);
      assert !RootConservative(m);
    }
  }

  // ---- What the answers mean -----------------------------------------------------------------------

  /** The layer says of the path whether it is ignored. A root layer is asked about the whole path; a
      nested one about the part below its directory, which is empty for the directory itself, and about
      nothing outside it. */
  ghost predicate Says(l: Layer, rel: string, ignored: bool) {
    if l.dir == "" || l.dir == "." then l.verdict(rel) == Some(ignored)
    else
      (rel == l.dir && l.verdict("") == Some(ignored)) ||
      exists below :: rel == l.dir + "/" + below && l.verdict(below) == Some(ignored)
  }

  lemma SaysIsVerdict(l: Layer, rel: string, ignored: bool)
    ensures Says(l, rel, ignored) <==> LayerVerdict(l, rel) == Some(ignored)
  {
    if !IsRoot(l.dir) && HasPrefix(rel, l.dir + "/") {
      assert rel == l.dir + "/" + rel[|l.dir| + 1..];
      assert forall below :: rel == l.dir + "/" + below ==> below == rel[|l.dir| + 1..];
    } else if !IsRoot(l.dir) {
      assert forall below :: rel == l.dir + "/" + below ==> HasPrefix(rel, l.dir + "/");
    }
  }

  lemma SilentIsNone(l: Layer, rel: string)
    ensures LayerVerdict(l, rel) == None <==> !Says(l, rel, true) && !Says(l, rel, false)
  {
    SaysIsVerdict(l, rel, true);
    SaysIsVerdict(l, rel, false);
    match LayerVerdict(l, rel)
    case None =>
    case Some(ignored) => if ignored { assert Says(l, rel, true); } else { assert Says(l, rel, false); }
  }

  /** The layer has the last word on the path. */
  ghost predicate LastWord(m: Matcher, rel: string, k: int, ignored: bool) {
    0 <= k < |m| && Says(m[k], rel, ignored) &&
    forall j :: k < j < |m| ==> !Says(m[j], rel, true) && !Says(m[j], rel, false)
  }

  lemma LastWordSnoc(m: Matcher, rel: string, k: int, ignored: bool)
    requires m != []
    ensures LastWord(m, rel, k, ignored) <==>
      if k == |m| - 1 then Says(m[k], rel, ignored)
      else LastWord(m[..|m| - 1], rel, k, ignored) && !Says(m[|m| - 1], rel, true) && !Says(m[|m| - 1], rel, false)
  {
    hide Says;
    assert forall j :: 0 <= j < |m| - 1 ==> m[..|m| - 1][j] == m[j];
  }

  lemma {:induction false} VerdictIsLastWord(m: Matcher, rel: string, ignored: bool)
    ensures LastVerdict(m, rel) == Some(ignored) <==> exists k :: LastWord(m, rel, k, ignored)
  {
    if m != [] {
      var init, last := m[..|m| - 1], |m| - 1;
      VerdictIsLastWord(init, rel, ignored);
      SaysIsVerdict(m[last], rel, ignored);
      SilentIsNone(m[last], rel);
      hide Says, LastWord, LayerVerdict;
      if k :| LastWord(m, rel, k, ignored) {
        LastWordSnoc(m, rel, k, ignored);
        LastWordIndex(m, rel, k, ignored);
      }
      if LastVerdict(m, rel) == Some(ignored) {
        var k := if LayerVerdict(m[last], rel).Some? then last else var k :| LastWord(init, rel, k, ignored); k;
        LastWordSnoc(m, rel, k, ignored);
        if k == last && LayerVerdict(m[last], rel) == None { LastWordIndex(init, rel, k, ignored); }
        assert LastWord(m, rel, k, ignored);
      }
    } else {
      assert forall k :: !LastWord(m, rel, k, ignored);
    }
  }

  lemma LastWordIndex(m: Matcher, rel: string, k: int, ignored: bool)
    requires LastWord(m, rel, k, ignored)
    ensures 0 <= k < |m|
  {
  }

  /** A path is ignored exactly when the last layer that says anything about it says so. */
  lemma IgnoredByLastWord(m: Matcher, rel: string)
    ensures IsIgnored(m, rel) <==> exists k :: LastWord(m, rel, k, true)
  {
    VerdictIsLastWord(m, rel, true);
  }

  predicate AtOrBelow(rel: string, dir: string) { rel == dir || HasPrefix(rel, dir + "/") }

  lemma {:induction false} AllIgnoredWhereCovered(ds: seq<string>, rel: string, i: nat)
    requires i < |ds| && Candidate(ds[i], rel).Some?
    ensures IsIgnored(IgnoringAll(ds), rel)
  {
    var m, last := IgnoringAll(ds), |ds| - 1;
    if LayerVerdict(m[last], rel) == None {
      AllIgnoredWhereCovered(ds[..last], rel, i);
      assert IgnoringAll(ds[..last]) == m[..last] by { SameLayers(ds, last); }
    }
  }

  lemma SameLayers(ds: seq<string>, n: nat)
    requires n <= |ds|
    ensures IgnoringAll(ds[..n]) == IgnoringAll(ds)[..n]
  {
  }

  /**
   * The answer for a directory below the root is exact: it is yes exactly when some choice of rules in
   * these layers' directories ignores the directory or something below it.
   */
  lemma UnderAnswer(m: Matcher, dir: string)
    requires dir != ""
    ensures AnyMatchUnder(m, dir) <==>
      exists n: Matcher, rel :: DirsOf(n) == DirsOf(m) && AtOrBelow(rel, dir) && IsIgnored(n, rel)
  {
    var ds := DirsOf(m);
    if AnyMatchUnder(m, dir) {
      var i :| 0 <= i < |m| && Touches(m[i].dir, dir);
      var rel := if HasPrefix(m[i].dir, dir + "/") then m[i].dir else dir;
      assert m[i].dir == ds[i];
      AllIgnoredWhereCovered(ds, rel, i);
      assert DirsOf(IgnoringAll(ds)) == ds && AtOrBelow(rel, dir);
    }
    if n: Matcher, rel :| DirsOf(n) == ds && AtOrBelow(rel, dir) && IsIgnored(n, rel) {
      SameAnswer(m, n, dir);
      if !AnyMatchUnder(n, dir) { NoMatchMeansNothingIgnored(n, dir, rel); }
    }
  }

  lemma SameAnswer(m: Matcher, n: Matcher, dir: string)
    requires DirsOf(m) == DirsOf(n)
    ensures AnyMatchUnder(m, dir) <==> AnyMatchUnder(n, dir)
  {
    hide Touches;
    assert |m| == |n|;
    forall i | 0 <= i < |m| ensures m[i].dir == n[i].dir { assert DirsOf(m)[i] == DirsOf(n)[i]; }
  }
}
