/** Line-level diff (lcsOps): a dynamic-programming table, a backtrack, and a reversal. */
module LineDiff {

  /** One line operation. Keep carries both sides' line, as the source does. */
  datatype EditOp<T> = Keep(oldLine: T, newLine: T) | Del(line: T) | Add(line: T)

  function Max(a: nat, b: nat): nat { if a >= b then a else b }

  function Init<T>(s: seq<T>): seq<T>
    requires s != []
  {
    s[..|s| - 1]
  }

  function Last<T>(s: seq<T>): T
    requires s != []
  {
    s[|s| - 1]
  }

  /** Length of a longest common subsequence, by the recurrence the table is filled with. */
  function Lcs<T(==)>(a: seq<T>, b: seq<T>): nat
    decreases |a| + |b|
  {
    if a == [] || b == [] then 0
    else if Last(a) == Last(b) then Lcs(Init(a), Init(b)) + 1
    else Max(Lcs(Init(a), b), Lcs(a, Init(b)))
  }

  /** The script the backtrack produces, read forwards. Ties go to the deletion. */
  function Script<T(==)>(a: seq<T>, b: seq<T>): seq<EditOp<T>>
    decreases |a| + |b|
  {
    if a == [] && b == [] then []
    else if b == [] then Script(Init(a), b) + [Del(Last(a))]
    else if a == [] then Script(a, Init(b)) + [Add(Last(b))]
    else if Last(a) == Last(b) then Script(Init(a), Init(b)) + [Keep(Last(a), Last(b))]
    else if Lcs(Init(a), b) >= Lcs(a, Init(b)) then Script(Init(a), b) + [Del(Last(a))]
    else Script(a, Init(b)) + [Add(Last(b))]
  }

  // ---- What a script means -------------------------------------------------------------------------

  /** The lines a script consumes: keeps and deletions. */
  function OldLines<T>(ops: seq<EditOp<T>>): seq<T> {
    if ops == [] then []
    else OldLines(Init(ops)) + match Last(ops) case Keep(o, _) => [o] case Del(l) => [l] case Add(_) => []
  }

  /** The lines a script produces: keeps and additions. */
  function NewLines<T>(ops: seq<EditOp<T>>): seq<T> {
    if ops == [] then []
    else NewLines(Init(ops)) + match Last(ops) case Keep(_, n) => [n] case Del(_) => [] case Add(l) => [l]
  }

  function Keeps<T>(ops: seq<EditOp<T>>): nat {
    if ops == [] then 0 else Keeps(Init(ops)) + if Last(ops).Keep? then 1 else 0
  }

  function Changes<T>(ops: seq<EditOp<T>>): nat {
    if ops == [] then 0 else Changes(Init(ops)) + if Last(ops).Keep? then 0 else 1
  }

  /** A script that turns `a` into `b`, keeping only lines that are equal on both sides. */
  ghost predicate IsScript<T>(ops: seq<EditOp<T>>, a: seq<T>, b: seq<T>) {
    OldLines(ops) == a && NewLines(ops) == b && forall i ::
      0 <= i < |ops| && ops[i].Keep? ==> ops[i].oldLine == ops[i].newLine
  }

  /** `c` is a subsequence of `a`: its lines occur in `a` in order. */
  predicate IsSubsequence<T(==)>(c: seq<T>, a: seq<T>)
    decreases |a|
  {
    c == [] || (a != [] && (IsSubsequence(c, Init(a)) || (Last(c) == Last(a) && IsSubsequence(Init(c), Init(a)))))
  }

  /** One more operation at the end of a script. */
  lemma AppendOp<T>(ops: seq<EditOp<T>>, op: EditOp<T>, a: seq<T>, b: seq<T>)
    requires IsScript(ops, a, b) && (op.Keep? ==> op.oldLine == op.newLine)
    ensures IsScript(ops + [op],
      match op case Keep(o, _) => a + [o] case Del(l) => a + [l] case Add(_) => a,
      match op case Keep(_, n) => b + [n] case Del(_) => b case Add(l) => b + [l])
    ensures Keeps(ops + [op]) == Keeps(ops) + if op.Keep? then 1 else 0
  {
    assert Init(ops + [op]) == ops;
  }

  lemma InitLast<T>(a: seq<T>)
    requires a != []
    ensures a == Init(a) + [Last(a)]
  {
  }

  lemma {:induction false} ScriptIsScript<T>(a: seq<T>, b: seq<T>)
    ensures IsScript(Script(a, b), a, b) && Keeps(Script(a, b)) == Lcs(a, b)
    decreases |a| + |b|
  {
    hide IsScript, Keeps, OldLines, NewLines;
    if a != [] { InitLast(a); }
    if b != [] { InitLast(b); }
    if a == [] && b == [] {
      NoScript<T>();
    } else if b == [] || (a != [] && Last(a) != Last(b) && Lcs(Init(a), b) >= Lcs(a, Init(b))) {
      ScriptIsScript(Init(a), b);
      AppendOp(Script(Init(a), b), Del(Last(a)), Init(a), b);
    } else if a == [] || Last(a) != Last(b) {
      ScriptIsScript(a, Init(b));
      AppendOp(Script(a, Init(b)), Add(Last(b)), a, Init(b));
    } else {
      ScriptIsScript(Init(a), Init(b));
      AppendOp(Script(Init(a), Init(b)), Keep(Last(a), Last(b)), Init(a), Init(b));
    }
  }

  lemma NoScript<T>()
    ensures IsScript<T>([], [], []) && Keeps<T>([]) == 0
  {
  }

  lemma {:induction false} LcsShorter<T>(a: seq<T>, b: seq<T>)
    ensures a != [] ==> Lcs(Init(a), b) <= Lcs(a, b) <= Lcs(Init(a), b) + 1
    ensures b != [] ==> Lcs(a, Init(b)) <= Lcs(a, b) <= Lcs(a, Init(b)) + 1
    decreases |a| + |b|
  {
    if a != [] && b != [] {
      LcsShorter(Init(a), b);
      LcsShorter(a, Init(b));
      if Last(a) == Last(b) {
        LcsShorter(Init(a), Init(b));
      }
    }
  }

  /** No common subsequence is longer than Lcs. */
  lemma {:induction false} LcsBounds<T>(c: seq<T>, a: seq<T>, b: seq<T>)
    requires IsSubsequence(c, a) && IsSubsequence(c, b)
    ensures |c| <= Lcs(a, b)
    decreases |a| + |b|
  {
    if c != [] {
      LcsShorter(a, b);
      if IsSubsequence(c, Init(a)) {
        LcsBounds(c, Init(a), b);
      } else if IsSubsequence(c, Init(b)) {
        LcsBounds(c, a, Init(b));
      } else {
        LcsBounds(Init(c), Init(a), Init(b));
      }
    }
  }

  /** The kept lines of a script are a common subsequence. */
  function KeptLines<T>(ops: seq<EditOp<T>>): seq<T> {
    if ops == [] then [] else KeptLines(Init(ops)) + if Last(ops).Keep? then [Last(ops).oldLine] else []
  }

  lemma {:induction false} KeptIsCommon<T>(ops: seq<EditOp<T>>)
    requires forall i :: 0 <= i < |ops| && ops[i].Keep? ==> ops[i].oldLine == ops[i].newLine
    ensures IsSubsequence(KeptLines(ops), OldLines(ops)) && IsSubsequence(KeptLines(ops), NewLines(ops))
    ensures |KeptLines(ops)| == Keeps(ops)
    ensures Changes(ops) == |OldLines(ops)| + |NewLines(ops)| - 2 * Keeps(ops)
  {
    if ops != [] {
      var init := Init(ops);
      KeptIsCommon(init);
      match Last(ops) {
        case Keep(o, n) =>
          SubsequenceBoth(KeptLines(init), OldLines(init), o);
          SubsequenceBoth(KeptLines(init), NewLines(init), n);
        case Del(l) =>
          assert KeptLines(ops) == KeptLines(init) && NewLines(ops) == NewLines(init);
          SubsequenceSkip(KeptLines(init), OldLines(init), l);
        case Add(l) =>
          assert KeptLines(ops) == KeptLines(init) && OldLines(ops) == OldLines(init);
          SubsequenceSkip(KeptLines(init), NewLines(init), l);
      }
    }
  }

  lemma SubsequenceSkip<T>(c: seq<T>, a: seq<T>, x: T)
    requires IsSubsequence(c, a)
    ensures IsSubsequence(c, a + [x])
  {
    assert Init(a + [x]) == a;
  }

  lemma SubsequenceBoth<T>(c: seq<T>, a: seq<T>, x: T)
    requires IsSubsequence(c, a)
    ensures IsSubsequence(c + [x], a + [x])
  {
    assert Init(a + [x]) == a && Init(c + [x]) == c;
  }

  /**
   * The edit script is valid and optimal: it spells both files, no common subsequence is longer than
   * its keeps, and no valid script has fewer deletions and additions.
   */
  lemma ScriptOptimal<T>(a: seq<T>, b: seq<T>, other: seq<EditOp<T>>, c: seq<T>)
    ensures IsScript(Script(a, b), a, b)
    ensures IsSubsequence(c, a) && IsSubsequence(c, b) ==> |c| <= Keeps(Script(a, b))
    ensures IsScript(other, a, b) ==> Changes(Script(a, b)) <= Changes(other)
  {
    ScriptIsScript(a, b);
    KeptIsCommon(Script(a, b));
    if IsSubsequence(c, a) && IsSubsequence(c, b) { LcsBounds(c, a, b); }
    if IsScript(other, a, b) {
      KeptIsCommon(other);
      LcsBounds(KeptLines(other), a, b);
    }
  }

  // ---- The algorithm -------------------------------------------------------------------------------

  lemma PrefixInit<T>(a: seq<T>, i: nat)
    requires 0 < i <= |a|
    ensures a[..i] != [] && Init(a[..i]) == a[..i - 1] && Last(a[..i]) == a[i - 1]
  {
  }

  ghost predicate Filled<T>(dp: array2<nat>, a: seq<T>, b: seq<T>)
    reads dp
  {
    dp.Length0 == |a| + 1 && dp.Length1 == |b| + 1 &&
    forall i, j :: 0 <= i <= |a| && 0 <= j <= |b| ==> dp[i, j] == Lcs(a[..i], b[..j])
  }

  /** dp[i, j] is the length of a longest common subsequence of the first i and the first j lines. */
  method FillTable<T(==)>(a: seq<T>, b: seq<T>) returns (dp: array2<nat>)
    ensures fresh(dp) && Filled(dp, a, b)
  {
    var n, m := |a|, |b|;
    dp := new nat[n + 1, m + 1]((i, j) => 0);
    var i := 1;
    while i <= n
      invariant 1 <= i <= n + 1
      invariant forall x, y :: 0 <= x < i && 0 <= y <= m ==> dp[x, y] == Lcs(a[..x], b[..y])
      invariant forall x, y :: i <= x <= n && 0 <= y <= m ==> dp[x, y] == 0
    {
      var j := 1;
      while j <= m
        invariant 1 <= j <= m + 1
        invariant forall x, y :: 0 <= x < i && 0 <= y <= m ==> dp[x, y] == Lcs(a[..x], b[..y])
        invariant forall y :: 0 <= y < j ==> dp[i, y] == Lcs(a[..i], b[..y])
        invariant forall x, y :: i < x <= n && 0 <= y <= m ==> dp[x, y] == 0
      {
        PrefixInit(a, i);
        PrefixInit(b, j);
        if a[i - 1] == b[j - 1] {
          dp[i, j] := dp[i - 1, j - 1] + 1;
        } else if dp[i - 1, j] >= dp[i, j - 1] {
          dp[i, j] := dp[i - 1, j];
        } else {
          dp[i, j] := dp[i, j - 1];
        }
        j := j + 1;
      }
      i := i + 1;
    }
  }

  function Reversed<T>(s: seq<T>): (r: seq<T>)
    ensures |r| == |s|
  {
    if s == [] then [] else Reversed(s[1..]) + [s[0]]
  }

  lemma {:induction false} ReversedSnoc<T>(s: seq<T>, x: T)
    ensures Reversed(s + [x]) == [x] + Reversed(s)
  {
    if s == [] {
      assert [] + [x] == [x];
    } else {
      ReversedSnoc(s[1..], x);
      assert (s + [x])[1..] == s[1..] + [x];
    }
  }

  lemma {:induction false} ReversedAt<T>(s: seq<T>, k: nat)
    requires k < |s|
    ensures Reversed(s)[k] == s[|s| - 1 - k]
  {
    if |s| > 1 { ReversedAt(s[1..], if k < |s| - 1 then k else 0); }
  }

  /** The in-place reversal at the end of lcsOps. */
  method Reverse<T>(s: seq<T>) returns (r: seq<T>)
    ensures r == Reversed(s)
  {
    r := s;
    var n := |s|;
    var i := 0;
    while i < n - 1 - i
      invariant |r| == n && 0 <= 2 * i <= n
      invariant forall k :: 0 <= k < i ==> r[k] == s[n - 1 - k]
      invariant forall k :: n - i <= k < n ==> r[k] == s[n - 1 - k]
      invariant forall k :: i <= k < n - i ==> r[k] == s[k]
    {
      var x, y := r[i], r[n - 1 - i];
      r := r[i := y][n - 1 - i := x];
      i := i + 1;
    }
    forall k | 0 <= k < n ensures r[k] == Reversed(s)[k] { ReversedAt(s, k); }
    assert r == Reversed(s);
  }

  /** Where the backtrack stands: `back` is the tail of the script, reversed. */
  ghost predicate Backtracked<T>(a: seq<T>, b: seq<T>, i: nat, j: nat, back: seq<EditOp<T>>)
    requires i <= |a| && j <= |b|
  {
    Script(a, b) == Script(a[..i], b[..j]) + Reversed(back)
  }

  lemma BackStep<T>(a: seq<T>, b: seq<T>, i: nat, j: nat, i': nat, j': nat, back: seq<EditOp<T>>, op: EditOp<T>)
    requires i' <= i <= |a| && j' <= j <= |b| && Backtracked(a, b, i, j, back)
    requires Script(a[..i], b[..j]) == Script(a[..i'], b[..j']) + [op]
    ensures Backtracked(a, b, i', j', back + [op])
  {
    ReversedSnoc(back, op);
  }

  lemma BackStart<T>(a: seq<T>, b: seq<T>)
    ensures Backtracked(a, b, |a|, |b|, [])
  {
    assert a[..|a|] == a && b[..|b|] == b;
  }

  /** The last operation of a script of two prefixes. */
  lemma ScriptLast<T>(a: seq<T>, b: seq<T>, i: nat, j: nat)
    requires i <= |a| && j <= |b| && (i > 0 || j > 0)
    ensures Script(a[..i], b[..j]) ==
      if j == 0 then Script(a[..i - 1], b[..j]) + [Del(a[i - 1])]
      else if i == 0 then Script(a[..i], b[..j - 1]) + [Add(b[j - 1])]
      else if a[i - 1] == b[j - 1] then Script(a[..i - 1], b[..j - 1]) + [Keep(a[i - 1], b[j - 1])]
      else if Lcs(a[..i - 1], b[..j]) >= Lcs(a[..i], b[..j - 1]) then Script(a[..i - 1], b[..j]) + [Del(a[i - 1])]
      else Script(a[..i], b[..j - 1]) + [Add(b[j - 1])]
  {
    if i > 0 { PrefixInit(a, i); }
    if j > 0 { PrefixInit(b, j); }
  }

  /** lcsOps. */
  method LcsOps<T(==)>(a: seq<T>, b: seq<T>) returns (ops: seq<EditOp<T>>)
    ensures ops == Script(a, b)
  {
    hide Script;
    var dp := FillTable(a, b);
    var back: seq<EditOp<T>> := [];
    var i, j := |a|, |b|;
    BackStart(a, b);
    while i > 0 && j > 0
      invariant 0 <= i <= |a| && 0 <= j <= |b| && Filled(dp, a, b) && Backtracked(a, b, i, j, back)
    {
      ScriptLast(a, b, i, j);
      if a[i - 1] == b[j - 1] {
        BackStep(a, b, i, j, i - 1, j - 1, back, Keep(a[i - 1], b[j - 1]));
        back := back + [Keep(a[i - 1], b[j - 1])];
        i, j := i - 1, j - 1;
      } else if dp[i - 1, j] >= dp[i, j - 1] {
        BackStep(a, b, i, j, i - 1, j, back, Del(a[i - 1]));
        back := back + [Del(a[i - 1])];
        i := i - 1;
      } else {
        BackStep(a, b, i, j, i, j - 1, back, Add(b[j - 1]));
        back := back + [Add(b[j - 1])];
        j := j - 1;
      }
    }
    while i > 0
      invariant 0 <= i <= |a| && 0 <= j <= |b| && (i == 0 || j == 0) && Backtracked(a, b, i, j, back)
    {
      ScriptLast(a, b, i, j);
      BackStep(a, b, i, j, i - 1, j, back, Del(a[i - 1]));
      back := back + [Del(a[i - 1])];
      i := i - 1;
    }
    while j > 0
      invariant i == 0 && 0 <= j <= |b| && Backtracked(a, b, i, j, back)
    {
      ScriptLast(a, b, i, j);
      BackStep(a, b, i, j, i, j - 1, back, Add(b[j - 1]));
      back := back + [Add(b[j - 1])];
      j := j - 1;
    }
    EmptyScript(a, b);
    ops := Reverse(back);
  }

  lemma EmptyScript<T>(a: seq<T>, b: seq<T>)
    ensures Script(a[..0], b[..0]) == []
  {
  }

  // ---- Ties --------------------------------------------------------------------------------------------

  predicate DelThenAdd<T>(ops: seq<EditOp<T>>, i: int) { 0 <= i && i + 1 < |ops| && ops[i].Del? && ops[i + 1].Add? }

  /** Taking the deletion on a tie while walking backwards lists additions first: no deletion stands right
      before an addition. */
  lemma {:induction false} AddsFirst<T>(a: seq<T>, b: seq<T>, i: int)
    ensures !DelThenAdd(Script(a, b), i)
    decreases |a| + |b|
  {
    var ops := Script(a, b);
    if ops != [] {
      var last := |ops| - 1;
      LastOp(a, b);
      if ops[last].Del? { AddsFirst(Init(a), b, i); }
      if ops[last].Keep? { AddsFirst(Init(a), Init(b), i); }
      if ops[last].Add? {
        AddsFirst(a, Init(b), i);
        if DelThenAdd(ops, i) && i + 1 == last { TieToDel(a, b); }
      }
    }
  }

  /** The last operation of a script, and the script before it. */
  lemma LastOp<T>(a: seq<T>, b: seq<T>)
    requires Script(a, b) != []
    ensures var ops := Script(a, b);
      match Last(ops)
      case Keep(_, _) => a != [] && b != [] && Init(ops) == Script(Init(a), Init(b))
      case Del(_) => a != [] && Init(ops) == Script(Init(a), b) && (b == [] || Lcs(Init(a), b) == Lcs(a, b))
      case Add(_) => b != [] && Init(ops) == Script(a, Init(b)) && (a == [] || Lcs(Init(a), b) < Lcs(a, Init(b)))
  {
  }

  lemma TieToDel<T>(a: seq<T>, b: seq<T>)
    requires b != [] && Script(a, b) != [] && Last(Script(a, b)).Add? && Script(a, Init(b)) != []
    ensures !Last(Script(a, Init(b))).Del?
  {
    LastOp(a, b);
    LastOp(a, Init(b));
    if a != [] { LcsShorter(Init(a), b); }
  }
}
