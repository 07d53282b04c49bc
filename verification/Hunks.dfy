/** Grouping an edit script into hunks (buildHunks, UnifiedDiff), and hunks as a patch. */
module Hunks {
  import opened LineDiff
  import opened Text

  datatype LineKind = Context | Deleted | Added

  datatype DiffLine<T> = DiffLine(kind: LineKind, text: T)

  datatype Hunk<T> = Hunk(oldStart: int, newStart: int, oldCount: nat, newCount: nat, lines: seq<DiffLine<T>>)

  /** Lines of context either side of a change. */
  const CTX := 3

  // ---- Scripts by slices -----------------------------------------------------------------------

  lemma {:induction false} OldLinesConcat<T>(x: seq<EditOp<T>>, y: seq<EditOp<T>>)
    ensures OldLines(x + y) == OldLines(x) + OldLines(y)
    ensures NewLines(x + y) == NewLines(x) + NewLines(y)
    decreases |y|
  {
    if y == [] {
      assert x + y == x;
    } else {
      OldLinesConcat(x, Init(y));
      assert Init(x + y) == x + Init(y);
    }
  }

  lemma OldLinesStep<T>(ops: seq<EditOp<T>>, i: nat)
    requires i < |ops|
    ensures OldLines(ops[..i + 1]) == OldLines(ops[..i]) + OldLines([ops[i]])
    ensures NewLines(ops[..i + 1]) == NewLines(ops[..i]) + NewLines([ops[i]])
  {
    assert ops[..i + 1] == ops[..i] + [ops[i]];
    OldLinesConcat(ops[..i], [ops[i]]);
  }

  lemma SingleLines<T>(op: EditOp<T>)
    ensures OldLines([op]) == match op case Keep(o, _) => [o] case Del(l) => [l] case Add(_) => []
    ensures NewLines([op]) == match op case Keep(_, n) => [n] case Del(_) => [] case Add(l) => [l]
  {
    assert Init([op]) == [];
  }

  predicate Honest<T(==)>(ops: seq<EditOp<T>>) {
    forall i :: 0 <= i < |ops| && ops[i].Keep? ==> ops[i].oldLine == ops[i].newLine
  }

  /** A run of keeps reads the same on both sides. */
  lemma {:induction false} KeepsAgree<T>(ops: seq<EditOp<T>>)
    requires Honest(ops) && forall i :: 0 <= i < |ops| ==> ops[i].Keep?
    ensures OldLines(ops) == NewLines(ops)
  {
    if ops != [] { KeepsAgree(Init(ops)); }
  }

  // ---- Positions ---------------------------------------------------------------------------------

  /** An operation with the old and new line index it consumes, or -1. */
  datatype Positioned<T> = Positioned(op: EditOp<T>, oldIdx: int, newIdx: int)

  ghost predicate PositionedAt<T>(p: Positioned<T>, ops: seq<EditOp<T>>, i: nat)
    requires i < |ops|
  {
    p.op == ops[i] &&
    p.oldIdx == (if ops[i].Add? then -1 else |OldLines(ops[..i])|) &&
    p.newIdx == (if ops[i].Del? then -1 else |NewLines(ops[..i])|)
  }

  ghost predicate Positions<T>(pos: seq<Positioned<T>>, ops: seq<EditOp<T>>) {
    |pos| == |ops| && forall i :: 0 <= i < |ops| ==> PositionedAt(pos[i], ops, i)
  }

  method Position<T>(ops: seq<EditOp<T>>) returns (pos: seq<Positioned<T>>)
    ensures Positions(pos, ops)
  {
    hide OldLines, NewLines;
    EmptyWindow(ops, 0);
    assert ops[..0] == ops[0..0];
    pos := [];
    var oi, ni := 0, 0;
    for k := 0 to |ops|
      invariant |pos| == k && forall i :: 0 <= i < k ==> PositionedAt(pos[i], ops, i)
      invariant oi == |OldLines(ops[..k])| && ni == |NewLines(ops[..k])|
    {
      OldLinesStep(ops, k);
      SingleLines(ops[k]);
      match ops[k]
      case Keep(_, _) =>
        pos := pos + [Positioned(ops[k], oi, ni)];
        oi, ni := oi + 1, ni + 1;
      case Del(_) =>
        pos := pos + [Positioned(ops[k], oi, -1)];
        oi := oi + 1;
      case Add(_) =>
        pos := pos + [Positioned(ops[k], -1, ni)];
        ni := ni + 1;
    }
  }

  // ---- Groups of changes ---------------------------------------------------------------------------

  /** Inclusive indices of the first and the last change of a hunk. */
  datatype Group = Group(start: nat, end: nat)

  predicate ChangedAt<T>(ops: seq<EditOp<T>>, i: int) { 0 <= i < |ops| && !ops[i].Keep? }

  /** The changed indices below `bound`, ascending. */
  ghost predicate ChangeList<T>(ops: seq<EditOp<T>>, changes: seq<nat>, bound: nat) {
    (forall k :: 0 <= k < |changes| ==> changes[k] < bound && ChangedAt(ops, changes[k])) &&
    (forall k, l :: 0 <= k < l < |changes| ==> changes[k] < changes[l]) &&
    (forall i :: 0 <= i < bound && ChangedAt(ops, i) ==> i in changes)
  }

  predicate InGroup(g: Group, i: int) { g.start <= i <= g.end }

  predicate Covered(groups: seq<Group>, i: int) {
    exists k :: 0 <= k < |groups| && InGroup(groups[k], i)
  }

  /** The next change after `i`, at most six operations on, is no later than `end`. */
  predicate ChangeNear<T>(ops: seq<EditOp<T>>, i: int, end: int) {
    exists j :: i < j <= i + 2 * CTX && j <= end && ChangedAt(ops, j)
  }

  /** No run of more than six keeps inside the group. */
  predicate Tight<T>(ops: seq<EditOp<T>>, g: Group) {
    forall i :: g.start <= i < g.end ==> ChangeNear(ops, i, g.end)
  }

  ghost predicate GroupOf<T>(ops: seq<EditOp<T>>, g: Group) {
    g.start <= g.end && ChangedAt(ops, g.start) && ChangedAt(ops, g.end) && Tight(ops, g)
  }

  /** The groups are ordered, with more than six operations from one's last change to the next one's first. */
  ghost predicate AllApart(groups: seq<Group>) {
    forall k, l :: 0 <= k < l < |groups| ==> groups[l].start - groups[k].end > 2 * CTX
  }

  ghost predicate Covers<T>(ops: seq<EditOp<T>>, groups: seq<Group>, bound: nat) {
    forall i :: 0 <= i < bound && ChangedAt(ops, i) ==> Covered(groups, i)
  }

  /** The groups of the changes below `bound`. */
  ghost predicate Grouping<T>(ops: seq<EditOp<T>>, groups: seq<Group>, bound: nat) {
    (forall k :: 0 <= k < |groups| ==> GroupOf(ops, groups[k])) && AllApart(groups) && Covers(ops, groups, bound)
  }

  method FindChanges<T>(pos: seq<Positioned<T>>, ghost ops: seq<EditOp<T>>) returns (changes: seq<nat>)
    requires Positions(pos, ops)
    ensures ChangeList(ops, changes, |ops|)
  {
    changes := [];
    for i := 0 to |pos|
      invariant ChangeList(ops, changes, i)
    {
      assert PositionedAt(pos[i], ops, i);
      if !pos[i].op.Keep? { changes := changes + [i]; }
    }
  }

  method GroupChanges<T>(changes: seq<nat>, ghost ops: seq<EditOp<T>>) returns (groups: seq<Group>)
    requires ChangeList(ops, changes, |ops|)
    ensures Grouping(ops, groups, |ops|)
  {
    hide Grouping, ChangeList;
    groups := [];
    FirstGrouping(ops, changes);
    for k := 0 to |changes|
      invariant Grouping(ops, groups, Bound(ops, changes, k))
      invariant groups == [] <==> k == 0
      invariant k > 0 ==> groups[|groups| - 1].end == changes[k - 1]
    {
      var c := changes[k];
      NextBound(ops, changes, k);
      if groups == [] || c - groups[|groups| - 1].end > 2 * CTX {
        NewGroup(ops, c, Bound(ops, changes, k + 1), groups);
        groups := groups + [Group(c, c)];
      } else {
        var g := groups[|groups| - 1];
        GrownGroup(ops, c, Bound(ops, changes, k + 1), groups);
        groups := groups[|groups| - 1 := if c > g.end then Group(g.start, c) else g];
      }
    }
  }

  /** The first change not yet grouped, or the end. */
  function Bound<T>(ops: seq<EditOp<T>>, changes: seq<nat>, k: nat): nat
    requires k <= |changes|
  {
    if k == |changes| then |ops| else changes[k]
  }

  lemma FirstGrouping<T>(ops: seq<EditOp<T>>, changes: seq<nat>)
    requires ChangeList(ops, changes, |ops|)
    ensures Grouping(ops, [], Bound(ops, changes, 0))
  {
  }

  /** Between one listed change and the next there is no other. */
  lemma NextBound<T>(ops: seq<EditOp<T>>, changes: seq<nat>, k: nat)
    requires ChangeList(ops, changes, |ops|) && k < |changes|
    ensures ChangedAt(ops, changes[k]) && (k > 0 ==> changes[k - 1] < changes[k])
    ensures forall i :: changes[k] < i < Bound(ops, changes, k + 1) ==> !ChangedAt(ops, i)
  {
    forall i | changes[k] < i < Bound(ops, changes, k + 1) ensures !ChangedAt(ops, i) {
      assert i !in changes by {
        assert forall m :: 0 <= m < |changes| ==> changes[m] <= changes[k] || Bound(ops, changes, k + 1) <= changes[m];
      }
    }
  }

  /** Groups that only grew, with the change `c` in the last one, cover one change more. */
  lemma CoverMore<T>(ops: seq<EditOp<T>>, c: nat, bound: nat, groups: seq<Group>, after: seq<Group>)
    requires Covers(ops, groups, c) && forall i :: c < i < bound ==> !ChangedAt(ops, i)
    requires |groups| <= |after| && after != [] && InGroup(after[|after| - 1], c)
    requires forall k :: 0 <= k < |groups| ==> after[k].start <= groups[k].start && groups[k].end <= after[k].end
    ensures Covers(ops, after, bound)
  {
    forall i | 0 <= i < bound && ChangedAt(ops, i) ensures Covered(after, i) {
      if i < c {
        var m :| 0 <= m < |groups| && InGroup(groups[m], i);
        assert InGroup(after[m], i);
      } else {
        assert InGroup(after[|after| - 1], i);
      }
    }
  }

  lemma NewGroup<T>(ops: seq<EditOp<T>>, c: nat, bound: nat, groups: seq<Group>)
    requires Grouping(ops, groups, c) && ChangedAt(ops, c)
    requires forall i :: c < i < bound ==> !ChangedAt(ops, i)
    requires groups != [] ==> c - groups[|groups| - 1].end > 2 * CTX
    ensures Grouping(ops, groups + [Group(c, c)], bound)
  {
    hide ChangedAt, Tight, Covers;
    var after, n := groups + [Group(c, c)], |groups| - 1;
    CoverMore(ops, c, bound, groups, after);
    assert GroupOf(ops, Group(c, c)) by { TightSingle(ops, c); }
    forall k, l | 0 <= k < l < |after| ensures after[l].start - after[k].end > 2 * CTX {
      if l == |groups| && k < n {
        assert groups[n].start - groups[k].end > 2 * CTX && GroupOf(ops, groups[n]);
      }
    }
  }

  lemma TightSingle<T>(ops: seq<EditOp<T>>, c: nat)
    ensures Tight(ops, Group(c, c))
  {
  }

  lemma GrownGroup<T>(ops: seq<EditOp<T>>, c: nat, bound: nat, groups: seq<Group>)
    requires groups != [] && Grouping(ops, groups, c) && ChangedAt(ops, c)
    requires forall i :: c < i < bound ==> !ChangedAt(ops, i)
    requires 0 < c - groups[|groups| - 1].end <= 2 * CTX
    ensures var n := |groups| - 1; Grouping(ops, groups[n := Group(groups[n].start, c)], bound)
  {
    hide ChangedAt, Tight, Covers;
    var n := |groups| - 1;
    var last := Group(groups[n].start, c);
    var after := groups[n := last];
    assert GroupOf(ops, groups[n]);
    CoverMore(ops, c, bound, groups, after);
    TightGrown(ops, groups[n], c);
    forall k | 0 <= k < |after| ensures GroupOf(ops, after[k]) {
      if k < n { assert after[k] == groups[k]; }
    }
    forall k, l | 0 <= k < l < |after| ensures after[l].start - after[k].end > 2 * CTX {
      assert groups[l].start - groups[k].end > 2 * CTX;
    }
  }

  lemma TightGrown<T>(ops: seq<EditOp<T>>, g: Group, c: nat)
    requires GroupOf(ops, g) && ChangedAt(ops, c) && 0 < c - g.end <= 2 * CTX
    ensures Tight(ops, Group(g.start, c))
  {
    forall i | g.start <= i < c ensures ChangeNear(ops, i, c) {
      if i < g.end {
        assert ChangeNear(ops, i, g.end);
      } else {
        assert ChangedAt(ops, c);
      }
    }
  }

  // ---- Hunks --------------------------------------------------------------------------------------

  function Lo(g: Group): nat { if g.start < CTX then 0 else g.start - CTX }

  /** One past the last operation of the window. */
  function Hi(g: Group, n: nat): nat { if g.end + CTX >= n then n else g.end + CTX + 1 }

  function Show<T>(op: EditOp<T>): DiffLine<T> {
    match op
    case Keep(o, _) => DiffLine(Context, o)
    case Del(l) => DiffLine(Deleted, l)
    case Add(l) => DiffLine(Added, l)
  }

  /** What a hunk says was there: context and deleted lines. */
  function Before<T>(lines: seq<DiffLine<T>>): seq<T> {
    if lines == [] then []
    else Before(Init(lines)) + if Last(lines).kind == Added then [] else [Last(lines).text]
  }

  /** What a hunk puts there: context and added lines. */
  function After<T>(lines: seq<DiffLine<T>>): seq<T> {
    if lines == [] then []
    else After(Init(lines)) + if Last(lines).kind == Deleted then [] else [Last(lines).text]
  }

  /** The hunk of the operations from `lo` up to `hi`, but for its NewStart. */
  ghost predicate HunkOf<T>(h: Hunk<T>, ops: seq<EditOp<T>>, lo: nat, hi: nat)
    requires lo <= hi <= |ops|
  {
    h.oldStart == |OldLines(ops[..lo])| + 1 &&
    h.oldCount == |OldLines(ops[lo..hi])| && h.newCount == |NewLines(ops[lo..hi])| &&
    Before(h.lines) == OldLines(ops[lo..hi]) && After(h.lines) == NewLines(ops[lo..hi]) &&
    |h.lines| == hi - lo && forall i :: 0 <= i < hi - lo ==> h.lines[i] == Show(ops[lo + i])
  }

  /** NewStart as the window scan leaves it after the operations up to `i`: -1 while unset. A first
      keep overwrites it when no old line was seen yet. */
  ghost function NewStartAt<T>(ops: seq<EditOp<T>>, lo: nat, i: nat): int
    requires lo <= i <= |ops|
  {
    if i == lo then -1
    else
      var before := NewStartAt(ops, lo, i - 1);
      var here := |NewLines(ops[..i - 1])| + 1;
      match ops[i - 1]
      case Keep(_, _) => if OldLines(ops[lo..i - 1]) == [] then here else before
      case Del(_) => before
      case Add(_) => if before < 0 then here else before
  }

  lemma ShowStep<T>(lines: seq<DiffLine<T>>, op: EditOp<T>)
    requires op.Keep? ==> op.oldLine == op.newLine
    ensures Before(lines + [Show(op)]) == Before(lines) + OldLines([op])
    ensures After(lines + [Show(op)]) == After(lines) + NewLines([op])
  {
    assert Init(lines + [Show(op)]) == lines;
    SingleLines(op);
    hide OldLines, NewLines;
  }

  lemma WindowStep<T>(ops: seq<EditOp<T>>, lo: nat, i: nat, lines: seq<DiffLine<T>>)
    requires lo <= i < |ops| && Honest(ops)
    requires Before(lines) == OldLines(ops[lo..i]) && After(lines) == NewLines(ops[lo..i])
    ensures ops[lo..i + 1] == ops[lo..i] + [ops[i]]
    ensures OldLines(ops[lo..i + 1]) == OldLines(ops[lo..i]) + OldLines([ops[i]])
    ensures NewLines(ops[lo..i + 1]) == NewLines(ops[lo..i]) + NewLines([ops[i]])
    ensures Before(lines + [Show(ops[i])]) == OldLines(ops[lo..i + 1])
    ensures After(lines + [Show(ops[i])]) == NewLines(ops[lo..i + 1])
    ensures OldLines(ops[..i]) == OldLines(ops[..lo]) + OldLines(ops[lo..i])
  {
    hide OldLines, NewLines, Before, After;
    assert ops[lo..i + 1] == ops[lo..i] + [ops[i]];
    OldLinesConcat(ops[lo..i], [ops[i]]);
    ShowStep(lines, ops[i]);
    assert ops[..i] == ops[..lo] + ops[lo..i];
    OldLinesConcat(ops[..lo], ops[lo..i]);
  }

  /** NewStart of a hunk, with the fallback. */
  ghost predicate NewStartOf<T>(h: Hunk<T>, ops: seq<EditOp<T>>, lo: nat, hi: nat)
    requires lo <= hi <= |ops|
  {
    var r := NewStartAt(ops, lo, hi);
    h.newStart == if r < 0 then 1 else r
  }

  /** One hunk: the body of the last loop of buildHunks. */
  method BuildHunk<T>(pos: seq<Positioned<T>>, lo: nat, hi: nat, ghost ops: seq<EditOp<T>>) returns (h: Hunk<T>)
    requires Positions(pos, ops) && Honest(ops) && lo <= hi <= |ops|
    requires OldLines(ops[lo..hi]) == [] ==> OldLines(ops[..lo]) == []
    ensures HunkOf(h, ops, lo, hi)
    ensures NewStartOf(h, ops, lo, hi)
  {
    hide OldLines, NewLines, Before, After;
    var lines: seq<DiffLine<T>> := [];
    var oldCount, newCount, oldStart, newStart := 0, 0, -1, -1;
    EmptyWindow(ops, lo);
    for i := lo to hi
      invariant |lines| == i - lo && forall k :: 0 <= k < |lines| ==> lines[k] == Show(ops[lo + k])
      invariant Before(lines) == OldLines(ops[lo..i]) && After(lines) == NewLines(ops[lo..i])
      invariant oldCount == |OldLines(ops[lo..i])| && newCount == |NewLines(ops[lo..i])|
      invariant oldStart == if OldLines(ops[lo..i]) == [] then -1 else |OldLines(ops[..lo])| + 1
      invariant newStart == NewStartAt(ops, lo, i)
    {
      var p := pos[i];
      assert PositionedAt(p, ops, i);
      WindowStep(ops, lo, i, lines);
      SingleLines(ops[i]);
      match p.op
      case Keep(o, _) =>
        lines := lines + [DiffLine(Context, o)];
        oldCount, newCount := oldCount + 1, newCount + 1;
        if oldStart < 0 {
          oldStart := p.oldIdx + 1;
          newStart := p.newIdx + 1;
        }
      case Del(l) =>
        lines := lines + [DiffLine(Deleted, l)];
        oldCount := oldCount + 1;
        if oldStart < 0 { oldStart := p.oldIdx + 1; }
      case Add(l) =>
        lines := lines + [DiffLine(Added, l)];
        newCount := newCount + 1;
        if newStart < 0 { newStart := p.newIdx + 1; }
    }
    if oldStart < 0 { oldStart := 1; }
    if newStart < 0 { newStart := 1; }
    h := Hunk(oldStart, newStart, oldCount, newCount, lines);
  }

  lemma EmptyWindow<T>(ops: seq<EditOp<T>>, lo: nat)
    requires lo <= |ops|
    ensures OldLines(ops[lo..lo]) == [] && NewLines(ops[lo..lo]) == []
    ensures Before<T>([]) == [] && After<T>([]) == []
  {
  }

  // ---- Windows -------------------------------------------------------------------------------------

  lemma GroupBounds<T>(ops: seq<EditOp<T>>, groups: seq<Group>, k: nat)
    requires Grouping(ops, groups, |ops|) && k < |groups|
    ensures groups[k].start <= groups[k].end < |ops| && ChangedAt(ops, groups[k].start) && ChangedAt(ops, groups[k].end)
  {
    hide Tight, Covers;
    assert GroupOf(ops, groups[k]);
  }

  lemma GroupsApart<T>(ops: seq<EditOp<T>>, groups: seq<Group>, k: nat, l: nat)
    requires Grouping(ops, groups, |ops|) && k < l < |groups|
    ensures groups[l].start - groups[k].end > 2 * CTX
  {
    hide Tight, Covers;
  }

  lemma GroupHolding<T>(ops: seq<EditOp<T>>, groups: seq<Group>, i: nat) returns (k: nat)
    requires Grouping(ops, groups, |ops|) && ChangedAt(ops, i)
    ensures k < |groups| && InGroup(groups[k], i)
  {
    hide Tight;
    assert Covered(groups, i);
    k :| 0 <= k < |groups| && InGroup(groups[k], i);
  }

  /** Where the group before group k ends. */
  function GroupEnd(groups: seq<Group>, k: nat): nat
    requires k <= |groups|
  {
    if k == 0 then 0 else groups[k - 1].end + 1
  }

  /** Between two neighbouring groups, before the first and after the last, all operations are keeps. */
  lemma KeepsBetween<T>(ops: seq<EditOp<T>>, groups: seq<Group>, k: nat)
    requires Grouping(ops, groups, |ops|) && k <= |groups|
    ensures forall i ::
      GroupEnd(groups, k) <= i < (if k == |groups| then |ops| else groups[k].start) && i < |ops| ==> ops[i].Keep?
  {
    hide Grouping;
    forall i | GroupEnd(groups, k) <= i < (if k == |groups| then |ops| else groups[k].start) && i < |ops|
      ensures ops[i].Keep?
    {
      if ChangedAt(ops, i) {
        var m := GroupHolding(ops, groups, i);
        if m > k {
          GroupsApart(ops, groups, k, m);
          GroupBounds(ops, groups, k);
        } else if m + 1 < k {
          GroupsApart(ops, groups, m, k - 1);
          GroupBounds(ops, groups, k - 1);
        }
      }
    }
  }

  /** Where the window before group k ends. */
  function WindowEnd(groups: seq<Group>, k: nat, n: nat): nat
    requires k <= |groups|
  {
    if k == 0 then 0 else Hi(groups[k - 1], n)
  }

  /** Group k's window comes after the one before it, and starts with a keep unless it starts the script. */
  lemma WindowBounds<T>(ops: seq<EditOp<T>>, groups: seq<Group>, k: nat)
    requires Grouping(ops, groups, |ops|) && k < |groups|
    ensures GroupEnd(groups, k) <= WindowEnd(groups, k, |ops|) <= Lo(groups[k]) <= groups[k].start
    ensures groups[k].end < Hi(groups[k], |ops|) <= |ops| && Lo(groups[k]) < Hi(groups[k], |ops|)
    ensures Lo(groups[k]) == 0 || ops[Lo(groups[k])].Keep?
  {
    hide Grouping;
    GroupBounds(ops, groups, k);
    KeepsBetween(ops, groups, k);
    if k > 0 {
      GroupBounds(ops, groups, k - 1);
      GroupsApart(ops, groups, k - 1, k);
    }
  }

  predicate InWindow(g: Group, n: nat, i: int) { Lo(g) <= i < Hi(g, n) }

  /** Hunk windows are ordered and pairwise disjoint. */
  lemma WindowsDisjoint<T>(ops: seq<EditOp<T>>, groups: seq<Group>, k: nat, l: nat)
    requires Grouping(ops, groups, |ops|) && k < l < |groups|
    ensures Hi(groups[k], |ops|) <= Lo(groups[l])
  {
    hide Grouping;
    GroupsApart(ops, groups, k, l);
  }

  /** Every changed operation lies in exactly one window. */
  lemma ChangeInOneWindow<T>(ops: seq<EditOp<T>>, groups: seq<Group>, i: nat) returns (k: nat)
    requires Grouping(ops, groups, |ops|) && ChangedAt(ops, i)
    ensures k < |groups| && InWindow(groups[k], |ops|, i)
    ensures forall l :: 0 <= l < |groups| && InWindow(groups[l], |ops|, i) ==> l == k
  {
    hide Grouping;
    k := GroupHolding(ops, groups, i);
    WindowBounds(ops, groups, k);
    forall l | 0 <= l < |groups| && InWindow(groups[l], |ops|, i) ensures l == k {
      if l < k { WindowsDisjoint(ops, groups, l, k); }
      if k < l { WindowsDisjoint(ops, groups, k, l); }
    }
  }

  ghost predicate HunksOf<T>(hunks: seq<Hunk<T>>, ops: seq<EditOp<T>>, groups: seq<Group>) {
    |hunks| == |groups| && forall k :: 0 <= k < |groups| ==>
      Lo(groups[k]) < Hi(groups[k], |ops|) <= |ops| && HunkOf(hunks[k], ops, Lo(groups[k]), Hi(groups[k], |ops|))
  }

  lemma PositionCount<T>(pos: seq<Positioned<T>>, ops: seq<EditOp<T>>)
    requires Positions(pos, ops)
    ensures |pos| == |ops|
  {
  }

  /** A window without old lines starts the script. */
  lemma WindowOldLines<T>(ops: seq<EditOp<T>>, groups: seq<Group>, k: nat)
    requires Grouping(ops, groups, |ops|) && k < |groups|
    ensures Lo(groups[k]) < Hi(groups[k], |ops|) <= |ops|
    ensures OldLines(ops[Lo(groups[k])..Hi(groups[k], |ops|)]) == [] ==> OldLines(ops[..Lo(groups[k])]) == []
  {
    hide Grouping;
    WindowBounds(ops, groups, k);
    var lo, hi := Lo(groups[k]), Hi(groups[k], |ops|);
    if lo == 0 {
      assert ops[..0] == [];
    } else {
      assert ops[lo..hi] == [ops[lo]] + ops[lo + 1..hi];
      OldLinesConcat([ops[lo]], ops[lo + 1..hi]);
      SingleLines(ops[lo]);
    }
  }

  // ---- Hunks as a patch ------------------------------------------------------------------------------

  /** From the old line index `at` on, every hunk's old side is found where the hunk says it is. */
  predicate Applies<T(==)>(lines: seq<T>, at: nat, hunks: seq<Hunk<T>>)
    decreases |hunks|
  {
    hunks == [] || (
      var h := hunks[0];
      var from := h.oldStart - 1;
      at <= from && from + h.oldCount <= |lines| && lines[from..from + h.oldCount] == Before(h.lines) &&
      |After(h.lines)| == h.newCount && Applies(lines, from + h.oldCount, hunks[1..]))
  }

  /** Replaces OldCount lines at OldStart by the context and added lines of each hunk. */
  function Patch<T(==)>(lines: seq<T>, at: nat, hunks: seq<Hunk<T>>): seq<T>
    requires at <= |lines| && Applies(lines, at, hunks)
    decreases |hunks|
  {
    if hunks == [] then lines[at..]
    else
      var h := hunks[0];
      var from := h.oldStart - 1;
      lines[at..from] + After(h.lines) + Patch(lines, from + h.oldCount, hunks[1..])
  }

  lemma SplitAt<T>(ops: seq<EditOp<T>>, i: nat)
    requires i <= |ops|
    ensures OldLines(ops) == OldLines(ops[..i]) + OldLines(ops[i..])
    ensures NewLines(ops) == NewLines(ops[..i]) + NewLines(ops[i..])
  {
    assert ops == ops[..i] + ops[i..];
    OldLinesConcat(ops[..i], ops[i..]);
  }

  lemma SplitSlice<T>(ops: seq<EditOp<T>>, i: nat, j: nat)
    requires i <= j <= |ops|
    ensures OldLines(ops[..j]) == OldLines(ops[..i]) + OldLines(ops[i..j])
    ensures NewLines(ops[i..]) == NewLines(ops[i..j]) + NewLines(ops[j..])
  {
    hide OldLines, NewLines;
    assert ops[..j][..i] == ops[..i] && ops[..j][i..] == ops[i..j];
    SplitAt(ops[..j], i);
    assert ops[i..][..j - i] == ops[i..j] && ops[i..][j - i..] == ops[j..];
    SplitAt(ops[i..], j - i);
  }

  lemma EmptyPatch<T>(lines: seq<T>, at: nat)
    requires at <= |lines|
    ensures Applies(lines, at, []) && Patch(lines, at, []) == lines[at..]
  {
  }

  /** The hunks from the k-th on patch the rest of the old lines to the rest of the new ones. */
  lemma {:induction false} PatchRest<T>(ops: seq<EditOp<T>>, groups: seq<Group>, hunks: seq<Hunk<T>>, k: nat)
    requires Honest(ops) && Grouping(ops, groups, |ops|) && HunksOf(hunks, ops, groups) && k <= |groups|
    ensures WindowEnd(groups, k, |ops|) <= |ops|
    ensures var at := |OldLines(ops[..WindowEnd(groups, k, |ops|)])|;
      at <= |OldLines(ops)| && Applies(OldLines(ops), at, hunks[k..]) &&
      Patch(OldLines(ops), at, hunks[k..]) == NewLines(ops[WindowEnd(groups, k, |ops|)..])
    decreases |groups| - k
  {
    hide Grouping, OldLines, NewLines, Before, After, Applies, Patch;
    var n := |ops|;
    var e := WindowEnd(groups, k, n);
    KeepsBetween(ops, groups, k);
    if k == |groups| {
      if k > 0 { WindowBounds(ops, groups, k - 1); }
      SplitAt(ops, e);
      KeepsAgree(ops[e..]);
      assert hunks[k..] == [];
      EmptyPatch(OldLines(ops), |OldLines(ops[..e])|);
    } else {
      var lo, hi := Lo(groups[k]), Hi(groups[k], n);
      WindowBounds(ops, groups, k);
      KeepsAgree(ops[e..lo]);
      SplitAt(ops, hi);
      SplitSlice(ops, e, lo);
      SplitSlice(ops, lo, hi);
      PatchRest(ops, groups, hunks, k + 1);
      assert hunks[k..][0] == hunks[k] && hunks[k..][1..] == hunks[k + 1..];
      assert HunkOf(hunks[k], ops, lo, hi);
      PatchStep(OldLines(ops), hunks[k..], OldLines(ops[..e]), OldLines(ops[e..lo]), OldLines(ops[lo..hi]),
                OldLines(ops[hi..]));
    }
  }

  lemma PatchStep<T>(all: seq<T>, hunks: seq<Hunk<T>>, head: seq<T>, gap: seq<T>, body: seq<T>, tail: seq<T>)
    requires all == head + gap + body + tail && hunks != []
    requires hunks[0].oldStart == |head| + |gap| + 1 && hunks[0].oldCount == |body| && Before(hunks[0].lines) == body
    requires |After(hunks[0].lines)| == hunks[0].newCount
    requires Applies(all, |head| + |gap| + |body|, hunks[1..])
    ensures Applies(all, |head|, hunks)
    ensures Patch(all, |head|, hunks) == gap + After(hunks[0].lines) + Patch(all, |head| + |gap| + |body|, hunks[1..])
  {
    hide Before, After;
    Middle(head, gap, body + tail);
    Middle(head + gap, body, tail);
    assert head + gap + (body + tail) == all;
  }

  lemma Middle<T>(x: seq<T>, y: seq<T>, z: seq<T>)
    ensures (x + y + z)[|x|..|x| + |y|] == y
  {
  }

  /** The hunks of a script, applied to its old lines, give its new lines. */
  lemma PatchCorrect<T>(ops: seq<EditOp<T>>, groups: seq<Group>, hunks: seq<Hunk<T>>)
    requires Honest(ops) && Grouping(ops, groups, |ops|) && HunksOf(hunks, ops, groups)
    ensures Applies(OldLines(ops), 0, hunks) && Patch(OldLines(ops), 0, hunks) == NewLines(ops)
  {
    hide Grouping;
    PatchRest(ops, groups, hunks, 0);
    assert hunks[0..] == hunks && ops[..0] == [] && ops[0..] == ops;
  }

  /** buildHunks. */
  method BuildHunks<T>(ops: seq<EditOp<T>>) returns (hunks: seq<Hunk<T>>, ghost groups: seq<Group>)
    requires Honest(ops)
    ensures Applies(OldLines(ops), 0, hunks) && Patch(OldLines(ops), 0, hunks) == NewLines(ops)
    ensures Grouping(ops, groups, |ops|) && HunksOf(hunks, ops, groups)
    ensures forall k :: 0 <= k < |hunks| ==> NewStartOf(hunks[k], ops, Lo(groups[k]), Hi(groups[k], |ops|))
  {
    hide Grouping, HunkOf, Positions, ChangeList, Applies, Patch, OldLines, NewLines;
    var pos := Position(ops);
    PositionCount(pos, ops);
    var changes := FindChanges(pos, ops);
    var gs := GroupChanges(changes, ops);
    groups := gs;
    hunks := [];
    for k := 0 to |gs|
      invariant |hunks| == k
      invariant forall l :: 0 <= l < k ==>
        Lo(gs[l]) < Hi(gs[l], |ops|) <= |ops| && HunkOf(hunks[l], ops, Lo(gs[l]), Hi(gs[l], |ops|)) &&
        NewStartOf(hunks[l], ops, Lo(gs[l]), Hi(gs[l], |ops|))
    {
      var g := gs[k];
      WindowOldLines(ops, gs, k);
      var h := BuildHunk(pos, Lo(g), Hi(g, |pos|), ops);
      hunks := hunks + [h];
    }
    PatchCorrect(ops, groups, hunks);
  }

  /** A script without changes has the same lines on both sides, and no hunks. */
  lemma NoHunks<T>(ops: seq<EditOp<T>>, groups: seq<Group>)
    requires Honest(ops) && Grouping(ops, groups, |ops|) && OldLines(ops) != NewLines(ops)
    ensures groups != []
  {
    hide Grouping;
    if groups == [] {
      KeepsBetween(ops, groups, 0);
      KeepsAgree(ops);
    }
  }

  /**
   * UnifiedDiff: a patch that turns the old lines into the new ones, over a shortest edit script, and
   * nothing at all exactly when the contents are the same but for the newline that ends the file.
   */
  method UnifiedDiff(before: string, after: string) returns (hunks: seq<Hunk<string>>, ghost groups: seq<Group>)
    ensures Applies(LinesOf(before), 0, hunks) && Patch(LinesOf(before), 0, hunks) == LinesOf(after)
    ensures hunks == [] <==> before == after || OnlyTerminalNewline(before, after) || OnlyTerminalNewline(after, before)
    ensures hunks != [] ==>
      var ops := Script(LinesOf(before), LinesOf(after));
      Grouping(ops, groups, |ops|) && HunksOf(hunks, ops, groups) && forall k :: 0 <= k < |hunks| ==>
        NewStartOf(hunks[k], ops, Lo(groups[k]), Hi(groups[k], |ops|))
  {
    hide Script, Grouping, HunksOf, LinesOf, Pieces, Applies, Patch, NewStartOf;
    var oldLines, newLines := LinesOf(before), LinesOf(after);
    LinesOfSame(before, after);
    if oldLines == newLines {
      hunks, groups := [], [];
      EmptyPatch(oldLines, 0);
      return;
    }
    var ops := LcsOps(oldLines, newLines);
    ScriptIsScript(oldLines, newLines);
    hunks, groups := BuildHunks(ops);
    PatchCorrect(ops, groups, hunks);
    NoHunks(ops, groups);
    HunkCount(ops, groups, hunks);
  }

  lemma HunkCount<T>(ops: seq<EditOp<T>>, groups: seq<Group>, hunks: seq<Hunk<T>>)
    requires HunksOf(hunks, ops, groups)
    ensures |hunks| == |groups|
  {
  }

  // ---- The shape of a hunk ---------------------------------------------------------------------------

  ghost predicate FirstChange<T>(h: Hunk<T>, i: int) {
    0 <= i < |h.lines| && h.lines[i].kind != Context && forall j :: 0 <= j < i ==> h.lines[j].kind == Context
  }

  ghost predicate LastChange<T>(h: Hunk<T>, i: int) {
    0 <= i < |h.lines| && h.lines[i].kind != Context && forall j :: i < j < |h.lines| ==> h.lines[j].kind == Context
  }

  lemma {:induction false} KeepsCount<T>(ops: seq<EditOp<T>>)
    requires forall i :: 0 <= i < |ops| ==> ops[i].Keep?
    ensures |OldLines(ops)| == |ops|
  {
    if ops != [] { KeepsCount(Init(ops)); }
  }

  lemma WindowKeeps<T>(ops: seq<EditOp<T>>, groups: seq<Group>, k: nat)
    requires Grouping(ops, groups, |ops|) && k < |groups|
    ensures var g := groups[k];
      Lo(g) <= g.start <= g.end < Hi(g, |ops|) <= |ops| &&
      (forall i :: Lo(g) <= i < g.start ==> ops[i].Keep?) && forall i :: g.end < i < Hi(g, |ops|) ==> ops[i].Keep?
  {
    hide Grouping;
    GroupBounds(ops, groups, k);
    WindowBounds(ops, groups, k);
    KeepsBetween(ops, groups, k);
    KeepsBetween(ops, groups, k + 1);
    if k + 1 < |groups| { WindowBounds(ops, groups, k + 1); }
  }

  /** The lines of a hunk around its group: keeps before the first change and after the last one. */
  lemma HunkEdges<T>(ops: seq<EditOp<T>>, groups: seq<Group>, hunks: seq<Hunk<T>>, k: nat)
    requires Grouping(ops, groups, |ops|) && HunksOf(hunks, ops, groups) && k < |groups|
    ensures var g, h := groups[k], hunks[k];
      FirstChange(h, g.start - Lo(g)) && LastChange(h, g.end - Lo(g)) && |h.lines| == Hi(g, |ops|) - Lo(g) &&
      forall i :: 0 <= i < |h.lines| ==> h.lines[i] == Show(ops[Lo(g) + i])
  {
    hide Grouping, OldLines, NewLines, Before, After;
    var g, h := groups[k], hunks[k];
    assert HunkOf(h, ops, Lo(g), Hi(g, |ops|));
    GroupBounds(ops, groups, k);
    WindowKeeps(ops, groups, k);
  }

  /** The six lines after the i-th are context. */
  ghost predicate SixContexts<T>(h: Hunk<T>, i: int) {
    0 <= i && i + 6 < |h.lines| && forall j :: i < j <= i + 6 ==> h.lines[j].kind == Context
  }

  /** The only first and last change of a hunk. */
  lemma EdgesUnique<T>(h: Hunk<T>, i: int, j: int)
    ensures FirstChange(h, i) && FirstChange(h, j) ==> i == j
    ensures LastChange(h, i) && LastChange(h, j) ==> i == j
  {
  }

  /**
   * A hunk has three lines of context before its first change, fewer only at the start of the file, and
   * three after its last change, fewer only at the end. Between the two no six lines in a row are context.
   */
  lemma HunkShape<T>(ops: seq<EditOp<T>>, groups: seq<Group>, hunks: seq<Hunk<T>>, k: nat)
      returns (first: nat, last: nat)
    requires Grouping(ops, groups, |ops|) && HunksOf(hunks, ops, groups) && k < |hunks|
    ensures FirstChange(hunks[k], first) && LastChange(hunks[k], last) && first <= last
    ensures first == 3 || (first < 3 && hunks[k].oldStart == 1)
    ensures var h := hunks[k];
      var after := |h.lines| - 1 - last;
      after == 3 || (after < 3 && h.oldStart - 1 + h.oldCount == |OldLines(ops)|)
    ensures forall i :: first <= i && i + 6 <= last ==> !SixContexts(hunks[k], i)
  {
    hide Grouping, OldLines, NewLines, Before, After;
    var g, h := groups[k], hunks[k];
    var lo, hi := Lo(g), Hi(g, |ops|);
    GroupBounds(ops, groups, k);
    HunkEdges(ops, groups, hunks, k);
    first, last := g.start - lo, g.end - lo;
    assert HunkOf(h, ops, lo, hi);
    SplitSlice(ops, lo, hi);
    EmptyWindow(ops, 0);
    assert ops[..0] == ops[0..0] && ops[..|ops|] == ops;
    forall i | first <= i && i + 6 <= last ensures !SixContexts(h, i) {
      var j := TightHere(ops, groups, k, lo + i);
      assert h.lines[j - lo] == Show(ops[j]);
    }
  }

  lemma TightHere<T>(ops: seq<EditOp<T>>, groups: seq<Group>, k: nat, i: nat) returns (j: nat)
    requires Grouping(ops, groups, |ops|) && k < |groups| && groups[k].start <= i < groups[k].end
    ensures i < j <= i + 6 && j <= groups[k].end && ChangedAt(ops, j)
  {
    hide Covers;
    assert GroupOf(ops, groups[k]) && ChangeNear(ops, i, groups[k].end);
    j :| i < j <= i + 2 * CTX && j <= groups[k].end && ChangedAt(ops, j);
  }

  /** A stretch of keeps counts line for line. */
  lemma KeptStretch<T>(ops: seq<EditOp<T>>, i: nat, j: nat)
    requires i <= j <= |ops| && forall k :: i <= k < j ==> ops[k].Keep?
    ensures |OldLines(ops[..j])| == |OldLines(ops[..i])| + (j - i)
  {
    hide OldLines, NewLines;
    KeepsCount(ops[i..j]);
    SplitSlice(ops, i, j);
  }

  /** Where the first change of a hunk stands in the old file. */
  lemma FirstChangeAt<T>(ops: seq<EditOp<T>>, groups: seq<Group>, hunks: seq<Hunk<T>>, k: nat, first: int)
    requires Grouping(ops, groups, |ops|) && HunksOf(hunks, ops, groups) && k < |groups|
    requires FirstChange(hunks[k], first)
    ensures groups[k].start < |ops| && |OldLines(ops[..groups[k].start])| == hunks[k].oldStart - 1 + first
  {
    hide Grouping, OldLines, NewLines, Before, After;
    var g, h := groups[k], hunks[k];
    HunkEdges(ops, groups, hunks, k);
    EdgesUnique(h, first, g.start - Lo(g));
    assert HunkOf(h, ops, Lo(g), Hi(g, |ops|));
    WindowKeeps(ops, groups, k);
    hide *;
    KeptStretch(ops, Lo(g), g.start);
  }

  /** Where the last change of a hunk ends in the old file. */
  lemma LastChangeAt<T>(ops: seq<EditOp<T>>, groups: seq<Group>, hunks: seq<Hunk<T>>, k: nat, last: int)
    requires Grouping(ops, groups, |ops|) && HunksOf(hunks, ops, groups) && k < |groups|
    requires LastChange(hunks[k], last)
    ensures var h := hunks[k];
      groups[k].end < |ops| &&
      |OldLines(ops[..groups[k].end + 1])| == h.oldStart - 1 + h.oldCount - (|h.lines| - 1 - last)
  {
    hide Grouping, OldLines, NewLines, Before, After;
    var g, h := groups[k], hunks[k];
    HunkEdges(ops, groups, hunks, k);
    EdgesUnique(h, last, g.end - Lo(g));
    assert HunkOf(h, ops, Lo(g), Hi(g, |ops|));
    WindowKeeps(ops, groups, k);
    hide *;
    KeptStretch(ops, g.end + 1, Hi(g, |ops|));
    SplitSlice(ops, Lo(g), Hi(g, |ops|));
  }

  lemma GapKeeps<T>(ops: seq<EditOp<T>>, groups: seq<Group>, k: nat)
    requires Grouping(ops, groups, |ops|) && k + 1 < |groups|
    ensures var e, s := groups[k].end + 1, groups[k + 1].start;
      e + 6 <= s <= |ops| && |OldLines(ops[..s])| == |OldLines(ops[..e])| + (s - e)
  {
    hide Grouping, OldLines;
    GroupBounds(ops, groups, k + 1);
    GroupsApart(ops, groups, k, k + 1);
    KeepsBetween(ops, groups, k + 1);
    KeptStretch(ops, groups[k].end + 1, groups[k + 1].start);
  }

  /** At least six old lines lie between the last change of a hunk and the first change of the next. */
  lemma HunkGap<T>(ops: seq<EditOp<T>>, groups: seq<Group>, hunks: seq<Hunk<T>>, k: nat, last: nat, first: nat)
    requires Grouping(ops, groups, |ops|) && HunksOf(hunks, ops, groups) && k + 1 < |hunks|
    requires LastChange(hunks[k], last) && FirstChange(hunks[k + 1], first)
    ensures var h, next := hunks[k], hunks[k + 1];
      (next.oldStart + first) - (h.oldStart + h.oldCount - (|h.lines| - 1 - last)) >= 6
  {
    HunkCount(ops, groups, hunks);
    hide *;
    GapKeeps(ops, groups, k);
    LastChangeAt(ops, groups, hunks, k, last);
    FirstChangeAt(ops, groups, hunks, k + 1, first);
  }

  // ---- NewStart --------------------------------------------------------------------------------------

  predicate OnlyAdds<T>(ops: seq<EditOp<T>>) { forall i :: 0 <= i < |ops| ==> ops[i].Add? }

  predicate OverwrittenAt<T>(w: seq<EditOp<T>>, p: int) { 0 < p < |w| && w[p].Keep? && OnlyAdds(w[..p]) }

  predicate LateAddAt<T>(w: seq<EditOp<T>>, q: int) {
    0 < q < |w| && w[q].Add? && (forall i :: 0 <= i < q ==> !w[i].Add?) && exists i :: 0 <= i < q && w[i].Keep?
  }

  /** The two shapes of a window whose NewStart is not the number of its first new line: additions
      straight before the first keep, or a leading deletion whose first addition comes after a keep. */
  ghost predicate Misnumbered<T>(w: seq<EditOp<T>>) {
    w != [] && ((exists p :: OverwrittenAt(w, p)) || (w[0].Del? && exists q :: LateAddAt(w, q)))
  }

  lemma {:induction false} NoLines<T>(ops: seq<EditOp<T>>)
    ensures OldLines(ops) == [] <==> OnlyAdds(ops)
    ensures NewLines(ops) == [] <==> forall i :: 0 <= i < |ops| ==> ops[i].Del?
  {
    if ops != [] {
      var init, last := Init(ops), Last(ops);
      NoLines(init);
      assert ops == init + [last];
      OldLinesConcat(init, [last]);
      SingleLines(last);
      hide OldLines, NewLines;
      assert OnlyAdds(ops) <==> OnlyAdds(init) && last.Add?;
      assert (forall i :: 0 <= i < |ops| ==> ops[i].Del?) <==>
        (forall i :: 0 <= i < |init| ==> init[i].Del?) && last.Del?;
    }
  }

  lemma {:induction false} StartsWithKeep<T>(ops: seq<EditOp<T>>, lo: nat, i: nat)
    requires lo < i <= |ops| && ops[lo].Keep?
    ensures NewStartAt(ops, lo, i) == |NewLines(ops[..lo])| + 1
    decreases i
  {
    if i == lo + 1 {
      assert ops[lo..lo] == [];
    } else {
      StartsWithKeep(ops, lo, i - 1);
      NoLines(ops[lo..i - 1]);
      assert ops[lo..i - 1][0].Keep?;
    }
  }

  lemma {:induction false} StartsWithAdd<T>(ops: seq<EditOp<T>>, i: nat)
    requires 0 < i <= |ops| && ops[0].Add?
    ensures NewStartAt(ops, 0, i) >= 1
    ensures NewStartAt(ops, 0, i) == 1 <==> forall p :: p < i ==> !OverwrittenAt(ops, p)
    decreases i
  {
    hide OldLines, NewLines;
    var j := i - 1;
    if j == 0 {
      assert ops[..0] == [];
      NoLines(ops[..0]);
    } else {
      StartsWithAdd(ops, j);
      NoLines(ops[0..j]);
      NoLines(ops[..j]);
      assert ops[0..j] == ops[..j] && ops[..j][0].Add?;
      assert OverwrittenAt(ops, j) <==> ops[j].Keep? && OnlyAdds(ops[..j]);
      assert NewStartAt(ops, 0, i) == if OverwrittenAt(ops, j) then |NewLines(ops[..j])| + 1 else NewStartAt(ops, 0, j);
      assert |NewLines(ops[..j])| > 0;
    }
  }

  lemma {:induction false} StartsWithDel<T>(ops: seq<EditOp<T>>, i: nat)
    requires 0 < i <= |ops| && ops[0].Del?
    ensures var r := NewStartAt(ops, 0, i);
      (r < 0 <==> forall k :: 0 <= k < i ==> !ops[k].Add?) && r != 0 &&
      (r <= 1 <==> forall q :: q < i ==> !LateAddAt(ops, q))
    decreases i
  {
    hide OldLines, NewLines;
    var j := i - 1;
    if j > 0 {
      StartsWithDel(ops, j);
      NoLines(ops[0..j]);
      NoLines(ops[..j]);
      assert ops[0..j][0].Del? && ops[..j] == ops[0..j];
      if ops[j].Add? && NewStartAt(ops, 0, j) < 0 {
        assert LateAddAt(ops, j) <==> exists k :: 0 <= k < j && ops[k].Keep?;
      } else {
        assert !LateAddAt(ops, j);
      }
    }
  }

  /** The shapes of a window that starts the script, read off the script. */
  lemma MisnumberedPrefix<T>(ops: seq<EditOp<T>>, hi: nat)
    requires 0 < hi <= |ops| && !ops[0].Keep?
    ensures Misnumbered(ops[0..hi]) <==>
      if ops[0].Add? then exists p :: p < hi && OverwrittenAt(ops, p) else exists q :: q < hi && LateAddAt(ops, q)
  {
    var w := ops[0..hi];
    forall p | 0 < p < hi ensures w[..p] == ops[..p] {}
    forall p | p < hi ensures OverwrittenAt(w, p) <==> OverwrittenAt(ops, p) {
      if 0 < p { assert w[..p] == ops[..p]; }
    }
    forall q | q < hi ensures LateAddAt(w, q) <==> LateAddAt(ops, q) {
      if 0 < q { assert forall k :: 0 <= k < q ==> w[k] == ops[k]; }
    }
    if ops[0].Del? {
      forall p ensures !OverwrittenAt(w, p) {
        if 0 < p < |w| { assert w[..p][0] == w[0]; }
      }
    }
  }

  /** NewStart is right exactly when the window has neither of the two shapes. */
  lemma NewStartRight<T>(ops: seq<EditOp<T>>, lo: nat, hi: nat, h: Hunk<T>)
    requires lo < hi <= |ops| && (lo == 0 || ops[lo].Keep?) && NewStartOf(h, ops, lo, hi)
    ensures h.newStart == |NewLines(ops[..lo])| + 1 <==> !Misnumbered(ops[lo..hi])
  {
    hide Misnumbered, NewStartAt, OverwrittenAt, LateAddAt;
    if ops[lo].Keep? {
      StartsWithKeep(ops, lo, hi);
      KeepFirst(ops[lo..hi]);
    } else {
      assert ops[..0] == [];
      MisnumberedPrefix(ops, hi);
      if ops[0].Add? { StartsWithAdd(ops, hi); } else { StartsWithDel(ops, hi); }
    }
  }

  lemma KeepFirst<T>(w: seq<EditOp<T>>)
    requires w != [] && w[0].Keep?
    ensures !Misnumbered(w)
  {
    forall p ensures !OverwrittenAt(w, p) {
      if 0 < p < |w| { assert w[..p][0] == w[0]; }
    }
  }

  /** Prepending one line to a one-line file: the hunk says its new side starts at line 2. */
  lemma NewStartWrong<T>(h: Hunk<T>, x: T, y: T)
    requires NewStartOf(h, Script([y], [x, y]), 0, |Script([y], [x, y])|)
    ensures h.newStart == 2
  {
    PrependScript(x, y);
    var ops := [Add(x), Keep(y, y)];
    NoLines(ops[0..1]);
    assert ops[..1] == [Add(x)];
    SingleLines(ops[0]);
  }

  lemma PrependScript<T>(x: T, y: T)
    ensures Script([y], [x, y]) == [Add(x), Keep(y, y)]
  {
    assert Init([y]) == [] && Init([x, y]) == [x] && Init([x]) == [];
    assert Script<T>([], []) == [];
    assert Script([], [x]) == [Add(x)];
  }

  // ---- One diff in full ------------------------------------------------------------------------------

  lemma ReplaceScript<T>(x: T, y: T, z: T)
    requires x != z && y != z
    ensures Script([x, y], [x, z]) == [Keep(x, x), Add(z), Del(y)]
  {
    var a, b := [x, y], [x, z];
    assert Init(a) == [x] && Init(b) == [x] && Init([x]) == [];
    assert Lcs([x], [x]) == 1 by { assert Lcs<T>([], []) == 0; }
    assert Lcs<T>([], b) == 0 && Lcs([x], b) == 1;
    assert Lcs(a, [x]) <= 1 by { LcsShorter(a, [x]); assert Lcs<T>(a, []) == 0; }
    assert Script([x], [x]) == [Keep(x, x)] by { assert Script<T>([], []) == []; }
    assert Script([x], b) == [Keep(x, x), Add(z)];
  }

  lemma ReplaceGroup<T>(ops: seq<EditOp<T>>, groups: seq<Group>)
    requires |ops| == 3 && ops[0].Keep? && ops[1].Add? && ops[2].Del? && Grouping(ops, groups, 3) && groups != []
    ensures |groups| == 1 && Lo(groups[0]) == 0 && Hi(groups[0], 3) == 3
  {
    hide Grouping;
    GroupBounds(ops, groups, 0);
    if |groups| > 1 {
      GroupBounds(ops, groups, 1);
      GroupsApart(ops, groups, 0, 1);
    }
  }

  lemma ReplaceHunk<T>(x: T, y: T, z: T, h: Hunk<T>)
    requires var ops := [Keep(x, x), Add(z), Del(y)]; HunkOf(h, ops, 0, 3) && NewStartOf(h, ops, 0, 3)
    ensures h == Hunk(1, 1, 2, 2, [DiffLine(Context, x), DiffLine(Added, z), DiffLine(Deleted, y)])
  {
    var ops := [Keep(x, x), Add(z), Del(y)];
    assert ops[0..3] == ops && ops[..0] == [] && ops[0..0] == [];
    StartsWithKeep(ops, 0, 3);
    hide NewStartAt;
    assert ops == [ops[0]] + [ops[1]] + [ops[2]];
    OldLinesConcat([ops[0]] + [ops[1]], [ops[2]]);
    OldLinesConcat([ops[0]], [ops[1]]);
    SingleLines(ops[0]);
    SingleLines(ops[1]);
    SingleLines(ops[2]);
    EmptyWindow(ops, 0);
    hide OldLines, NewLines, Before, After;
    assert h.lines == [h.lines[0], h.lines[1], h.lines[2]];
  }

  /** Changing the second of two lines: one hunk, the new line before the old one. */
  lemma ReplaceShown<T>(x: T, y: T, z: T, ops: seq<EditOp<T>>, groups: seq<Group>, hunks: seq<Hunk<T>>)
    requires x != z && y != z && ops == Script([x, y], [x, z])
    requires Grouping(ops, groups, |ops|) && HunksOf(hunks, ops, groups) && hunks != []
    requires NewStartOf(hunks[0], ops, Lo(groups[0]), Hi(groups[0], |ops|))
    ensures hunks == [Hunk(1, 1, 2, 2, [DiffLine(Context, x), DiffLine(Added, z), DiffLine(Deleted, y)])]
  {
    hide *;
    ReplaceScript(x, y, z);
    HunkCount(ops, groups, hunks);
    ReplaceGroup(ops, groups);
    FirstHunk(ops, groups, hunks);
    ReplaceHunk(x, y, z, hunks[0]);
  }

  lemma FirstHunk<T>(ops: seq<EditOp<T>>, groups: seq<Group>, hunks: seq<Hunk<T>>)
    requires HunksOf(hunks, ops, groups) && groups != []
    ensures var lo, hi := Lo(groups[0]), Hi(groups[0], |ops|); lo < hi <= |ops| && HunkOf(hunks[0], ops, lo, hi)
  {
  }
}
