/** Line-level blame: replaying a file's edits to find the segment that introduced each line. */
module Annotate {
  import opened Prelude
  import opened LineDiff
  import opened Hunks
  import opened Text

  /** One content of the file in its history, oldest first. Absent content is empty. */
  datatype Segment = Segment(revision: string, message: string, author: string, content: string)

  datatype AnnotationLine = AnnotationLine(number: nat, revision: string, message: string, author: string,
    content: string)

  // ---- One transition ------------------------------------------------------------------------------

  /** The owners after a transition, by the script read from the end. */
  function Replay<T>(ops: seq<EditOp<T>>, owners: seq<nat>, newOwner: nat): seq<nat> {
    if ops == [] then []
    else
      var init := Init(ops);
      Replay(init, owners, newOwner) +
      match Last(ops)
      case Keep(_, _) => (var oi := |OldLines(init)|; if oi < |owners| then [owners[oi]] else [newOwner])
      case Del(_) => []
      case Add(_) => [newOwner]
  }

  /** replayOwnership. */
  method ReplayOwnership<T(==)>(oldLines: seq<T>, owners: seq<nat>, newLines: seq<T>, newOwner: nat)
    returns (newOwners: seq<nat>)
    ensures newOwners == Replay(Script(oldLines, newLines), owners, newOwner)
  {
    hide Script;
    var ops := LcsOps(oldLines, newLines);
    newOwners := [];
    var oi := 0;
    assert ops[..0] == [];
    for k := 0 to |ops|
      invariant newOwners == Replay(ops[..k], owners, newOwner)
      invariant oi == |OldLines(ops[..k])|
    {
      assert Init(ops[..k + 1]) == ops[..k] && Last(ops[..k + 1]) == ops[k];
      match ops[k]
      case Keep(_, _) =>
        if oi < |owners| {
          newOwners := newOwners + [owners[oi]];
        } else {
          newOwners := newOwners + [newOwner];
        }
        oi := oi + 1;
      case Del(_) => oi := oi + 1;
      case Add(_) => newOwners := newOwners + [newOwner];
    }
    assert ops[..|ops|] == ops;
  }

  /** Operation i of the script writes new line k. */
  ghost predicate Writes<T>(ops: seq<EditOp<T>>, i: int, k: nat) {
    0 <= i < |ops| && !ops[i].Del? && |NewLines(ops[..i])| == k
  }

  lemma {:induction false} WriterExists<T>(ops: seq<EditOp<T>>, k: nat) returns (i: nat)
    requires k < |NewLines(ops)|
    ensures Writes(ops, i, k)
  {
    if k < |NewLines(Init(ops))| {
      i := WriterExists(Init(ops), k);
      assert Init(ops)[..i] == ops[..i];
    } else {
      i := |ops| - 1;
    }
  }

  lemma NewLinesGrow<T>(ops: seq<EditOp<T>>, i: nat)
    requires i < |ops|
    ensures |NewLines(ops)| == |NewLines(ops[..i])| + |NewLines(ops[i..])|
    ensures !ops[i].Del? ==> |NewLines(ops[i..])| > 0
  {
    SplitAt(ops, i);
    SplitAt(ops[i..], 1);
    assert ops[i..][..1] == [ops[i]];
    SingleLines(ops[i]);
  }

  lemma WritersApart<T>(ops: seq<EditOp<T>>, i: nat, j: nat)
    requires i < j <= |ops| && !ops[i].Del?
    ensures |NewLines(ops[..i])| < |NewLines(ops[..j])|
  {
    NewLinesGrow(ops[..j], i);
    assert ops[..j][..i] == ops[..i];
  }

  lemma WriterUnique<T>(ops: seq<EditOp<T>>, i: nat, j: nat, k: nat)
    requires Writes(ops, i, k) && Writes(ops, j, k)
    ensures i == j
  {
    if i < j { WritersApart(ops, i, j); }
    if j < i { WritersApart(ops, j, i); }
  }

  /** What a transition does to the line operation i writes, and the line's text. */
  lemma {:induction false} ReplayAt<T>(ops: seq<EditOp<T>>, owners: seq<nat>, newOwner: nat, i: nat, k: nat)
    requires Writes(ops, i, k)
    ensures |Replay(ops, owners, newOwner)| == |NewLines(ops)| && k < |NewLines(ops)|
    ensures var oi := |OldLines(ops[..i])|;
      Replay(ops, owners, newOwner)[k] == if ops[i].Keep? && oi < |owners| then owners[oi] else newOwner
    ensures NewLines(ops)[k] == if ops[i].Keep? then ops[i].newLine else ops[i].line
    ensures ops[i].Keep? ==>
      |OldLines(ops[..i])| < |OldLines(ops)| && OldLines(ops)[|OldLines(ops[..i])|] == ops[i].oldLine
  {
    ReplayCount(ops, owners, newOwner);
    ReplayCount(Init(ops), owners, newOwner);
    if i < |ops| - 1 {
      assert Init(ops)[..i] == ops[..i];
      ReplayAt(Init(ops), owners, newOwner, i, k);
    } else {
      assert ops[..i] == Init(ops);
    }
  }

  lemma {:induction false} ReplayCount<T>(ops: seq<EditOp<T>>, owners: seq<nat>, newOwner: nat)
    ensures |Replay(ops, owners, newOwner)| == |NewLines(ops)|
  {
    if ops != [] { ReplayCount(Init(ops), owners, newOwner); }
  }

  // ---- The whole history -----------------------------------------------------------------------------

  function Lines(segs: seq<Segment>, t: nat): seq<string>
    requires t < |segs|
  {
    LinesOf(segs[t].content)
  }

  /** The owner of every line of segment t. */
  function Blame(segs: seq<Segment>, t: nat): seq<nat>
    requires t < |segs|
  {
    if t == 0 then seq(|Lines(segs, 0)|, _ => 0)
    else Replay(Script(Lines(segs, t - 1), Lines(segs, t)), Blame(segs, t - 1), t)
  }

  /** Line k of segment t entered the file at segment `owner`, as an addition or as a line of the
      first segment, with this very text, and every transition since has kept it. */
  ghost predicate Entered(segs: seq<Segment>, t: nat, k: nat, owner: nat, text: string)
    requires t < |segs|
    decreases t
  {
    k < |Lines(segs, t)| && Lines(segs, t)[k] == text &&
    if t == 0 then owner == 0
    else
      var ops := Script(Lines(segs, t - 1), Lines(segs, t));
      (owner == t && exists i :: Writes(ops, i, k) && ops[i].Add?) ||
      (owner < t && exists i ::
        Writes(ops, i, k) && ops[i].Keep? && Entered(segs, t - 1, |OldLines(ops[..i])|, owner, text))
  }

  /** Blame is sound and complete: a line's owner is the one segment it entered at and survived from. */
  lemma {:induction false} BlameExact(segs: seq<Segment>, t: nat, k: nat)
    requires t < |segs| && k < |Lines(segs, t)|
    ensures |Blame(segs, t)| == |Lines(segs, t)| && Blame(segs, t)[k] <= t
    ensures forall s :: Entered(segs, t, k, s, Lines(segs, t)[k]) <==> s == Blame(segs, t)[k]
    decreases t
  {
    hide Script, OldLines, NewLines, Replay, LinesOf;
    if t > 0 {
      var a, b := Lines(segs, t - 1), Lines(segs, t);
      var ops := Script(a, b);
      ScriptIsScript(a, b);
      var i := WriterExists(ops, k);
      BlameLength(segs, t - 1);
      ReplayAt(ops, Blame(segs, t - 1), t, i, k);
      forall j | Writes(ops, j, k) ensures j == i { WriterUnique(ops, i, j, k); }
      if ops[i].Keep? { BlameExact(segs, t - 1, |OldLines(ops[..i])|); }
    }
  }

  /** After every segment owners and lines have equal length. */
  lemma {:induction false} BlameLength(segs: seq<Segment>, t: nat)
    requires t < |segs|
    ensures |Blame(segs, t)| == |Lines(segs, t)|
  {
    if t > 0 {
      var a, b := Lines(segs, t - 1), Lines(segs, t);
      ScriptIsScript(a, b);
      ReplayCount(Script(a, b), Blame(segs, t - 1), t);
    }
  }

  ghost predicate Annotated(l: AnnotationLine, segs: seq<Segment>, i: nat)
    requires segs != []
  {
    var t := |segs| - 1;
    i < |Blame(segs, t)| == |Lines(segs, t)| && Blame(segs, t)[i] < |segs| &&
    var s := segs[Blame(segs, t)[i]];
    l == AnnotationLine(i + 1, s.revision, s.message, s.author, Lines(segs, t)[i])
  }

  /** The loop of AnnotateAt over the collected segments. The invalid-owner error never happens. */
  method AnnotateSegments(segs: seq<Segment>) returns (r: Result<seq<AnnotationLine>>)
    ensures r.Ok?
    ensures segs == [] ==> r.value == []
    ensures segs != [] ==>
      |r.value| == |Lines(segs, |segs| - 1)| && forall i :: 0 <= i < |r.value| ==> Annotated(r.value[i], segs, i)
  {
    hide Script, Replay, LinesOf;
    var lines: seq<string> := [];
    var owners: seq<nat> := [];
    var cur := -1;
    for i := 0 to |segs|
      invariant cur == i - 1
      invariant i > 0 ==> lines == Lines(segs, i - 1) && owners == Blame(segs, i - 1)
    {
      var newLines := LinesOf(segs[i].content);
      if cur == -1 {
        lines := newLines;
        owners := seq(|newLines|, _ => i);
        cur := i;
        continue;
      }
      var oldLines := LinesOf(segs[cur].content);
      owners := ReplayOwnership(oldLines, owners, newLines, i);
      lines := newLines;
      cur := i;
    }
    if cur == -1 { return Ok([]); }
    var out: seq<AnnotationLine> := [];
    BlameLength(segs, |segs| - 1);
    for i := 0 to |lines|
      invariant |out| == i && forall k :: 0 <= k < i ==> Annotated(out[k], segs, k)
    {
      var owner := owners[i];
      BlameExact(segs, |segs| - 1, i);
      if owner < 0 || owner >= |segs| {
        return Err("annotate: invalid owner");
      }
      var s := segs[owner];
      out := out + [AnnotationLine(i + 1, s.revision, s.message, s.author, lines[i])];
    }
    r := Ok(out);
  }
}
