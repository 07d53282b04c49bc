/** Option and Result values, and the byte-string order the engine sorts names by. */
module Prelude {

  datatype Option<+T> = None | Some(value: T)

  /** A Go result: a value, or an error that names the failing step. */
  datatype Result<+T> = Ok(value: T) | Err(error: string)

  /** The lexicographic order of Go strings (sort.Strings). */
  predicate Leq(a: string, b: string) {
    a == [] || (b != [] && (a[0] < b[0] || (a[0] == b[0] && Leq(a[1..], b[1..]))))
  }

  lemma {:induction false} LeqTotal(a: string, b: string)
    ensures Leq(a, b) || Leq(b, a)
    ensures Leq(a, a)
    ensures Leq(a, b) && Leq(b, a) ==> a == b
  {
    if a != [] {
      LeqTotal(a[1..], if b == [] then b else b[1..]);
      if b != [] && a[0] == b[0] && a[1..] == b[1..] {
        assert a == [a[0]] + a[1..] && b == [b[0]] + b[1..];
      }
    }
  }

  lemma {:induction false} LeqTrans(a: string, b: string, c: string)
    requires Leq(a, b) && Leq(b, c)
    ensures Leq(a, c)
  {
    if a != [] && a[0] == b[0] && b[0] == c[0] {
      LeqTrans(a[1..], b[1..], c[1..]);
    }
  }

  predicate IsLeast(m: string, s: set<string>) {
    m in s && forall x :: x in s ==> Leq(m, x)
  }

  lemma {:induction false} LeastExists(s: set<string>)
    requires s != {}
    ensures exists m :: IsLeast(m, s)
    decreases s
  {
    var x :| x in s;
    LeqTotal(x, x);
    if s == {x} {
      assert IsLeast(x, s);
    } else {
      LeastExists(s - {x});
      var m :| IsLeast(m, s - {x});
      LeqTotal(x, m);
      if Leq(m, x) {
        assert IsLeast(m, s);
      } else {
        forall y | y in s ensures Leq(x, y) {
          if y != x { LeqTrans(x, m, y); }
        }
        assert IsLeast(x, s);
      }
    }
  }

  /** The names of a set in ascending order: the key collection and sort.Strings of every tree walk. */
  function Sorted(s: set<string>): (r: seq<string>)
    ensures forall x :: x in r <==> x in s
    ensures |r| == |s|
    decreases s
  {
    if s == {} then [] else
      LeastExists(s);
      assert forall m, m' | IsLeast(m, s) && IsLeast(m', s) :: m == m' by {
        forall m, m' | IsLeast(m, s) && IsLeast(m', s) ensures m == m' { LeqTotal(m, m'); }
      }
      var m :| IsLeast(m, s);
      [m] + Sorted(s - {m})
  }

  lemma SortedUnfold(s: set<string>)
    requires s != {}
    ensures Sorted(s) != [] && IsLeast(Sorted(s)[0], s) && Sorted(s)[1..] == Sorted(s - {Sorted(s)[0]})
  {
    LeastExists(s);
    forall m, m' | IsLeast(m, s) && IsLeast(m', s) ensures m == m' { LeqTotal(m, m'); }
  }

  /** Sorted is ascending and free of repetitions. */
  lemma {:induction false} SortedAscending(s: set<string>, i: nat, j: nat)
    requires i < j < |s|
    ensures Leq(Sorted(s)[i], Sorted(s)[j]) && Sorted(s)[i] != Sorted(s)[j]
    decreases s
  {
    hide Leq;
    var r := Sorted(s);
    var rest := s - {r[0]};
    SortedUnfold(s);
    hide Sorted;
    assert r[j] == Sorted(rest)[j - 1] && r[j] in Sorted(rest);
    if i > 0 {
      assert r[i] == Sorted(rest)[i - 1];
      SortedAscending(rest, i - 1, j - 1);
    }
  }

  ghost predicate Ascends(names: seq<string>) {
    forall i, j :: 0 <= i < j < |names| ==> Leq(names[i], names[j]) && names[i] != names[j]
  }

  lemma SortedAscends(s: set<string>)
    ensures Ascends(Sorted(s))
  {
    forall i, j | 0 <= i < j < |s| ensures Leq(Sorted(s)[i], Sorted(s)[j]) && Sorted(s)[i] != Sorted(s)[j] {
      SortedAscending(s, i, j);
    }
  }

  predicate Fresh(names: seq<string>) {
    forall i, j :: 0 <= i < j < |names| ==> names[i] != names[j]
  }

  lemma SortedFresh(s: set<string>)
    ensures Fresh(Sorted(s))
  {
    forall i, j | 0 <= i < j < |s| ensures Sorted(s)[i] != Sorted(s)[j] { SortedAscending(s, i, j); }
  }

  function Filter(names: seq<string>, keep: set<string>): seq<string> {
    if names == [] then []
    else (if names[0] in keep then [names[0]] else []) + Filter(names[1..], keep)
  }

  lemma LeastFirst(s: set<string>, m: string)
    requires IsLeast(m, s)
    ensures Sorted(s) == [m] + Sorted(s - {m})
  {
    hide Leq;
    SortedUnfold(s);
    LeqTotal(m, Sorted(s)[0]);
    hide Sorted;
  }

  /** Sorting a subset is the same as sorting everything and keeping the subset. */
  lemma {:induction false} SortedFilter(s: set<string>, keep: set<string>)
    requires keep <= s
    ensures Sorted(keep) == Filter(Sorted(s), keep)
    decreases s
  {
    if s != {} {
      hide Sorted, IsLeast, Filter;
      var r := Sorted(s);
      var m := r[0];
      SortedUnfold(s);
      SortedFilter(s - {m}, keep - {m});
      FilterIrrelevant(r[1..], keep, m);
      FilterUnfold(r, keep);
      if m in keep {
        LeastOfPart(s, keep, m);
        LeastFirst(keep, m);
      } else {
        assert keep - {m} == keep;
      }
    }
  }

  lemma FilterUnfold(names: seq<string>, keep: set<string>)
    requires names != []
    ensures Filter(names, keep) == (if names[0] in keep then [names[0]] else []) + Filter(names[1..], keep)
  {
  }

  lemma LeastOfPart(s: set<string>, part: set<string>, m: string)
    requires IsLeast(m, s) && m in part && part <= s
    ensures IsLeast(m, part)
  {
    hide Leq;
  }

  lemma {:induction false} FilterIrrelevant(names: seq<string>, keep: set<string>, m: string)
    requires m !in names
    ensures Filter(names, keep) == Filter(names, keep - {m})
  {
    if names != [] { FilterIrrelevant(names[1..], keep, m); }
  }

  // ---- Slices in loops -----------------------------------------------------------------------

  lemma TakeMore<T>(s: seq<T>, i: nat)
    requires i < |s|
    ensures s[..i + 1] == s[..i] + [s[i]] && s[i] in s
  {
  }

  lemma WholeSlices<T>(s: seq<T>)
    ensures s[..0] == [] && s[0..] == s && s[..|s|] == s && s[|s|..] == []
  {
  }

  lemma TakeInit<T>(s: seq<T>, i: nat)
    requires i < |s|
    ensures s[..i + 1] != [] && s[..i + 1][..i] == s[..i] && s[..i + 1][i] == s[i]
  {
  }

  ghost predicate NoRepeats<T>(s: seq<T>) { forall i, j :: 0 <= i < j < |s| ==> s[i] != s[j] }

  // ---- Sizes of sets ----------------------------------------------------------------------------

  lemma Shrinks<T>(all: set<T>, a: set<T>, b: set<T>)
    requires a <= b <= all && a != b
    ensures |all - b| < |all - a|
  {
    var x :| x in b && x !in a;
    assert all - b < all - a;
    SmallerSubset(all - b, all - a);
  }

  lemma {:induction false} SmallerSubset<T>(a: set<T>, b: set<T>)
    requires a < b
    ensures |a| < |b|
    decreases a
  {
    if a != {} {
      var x :| x in a;
      SmallerSubset(a - {x}, b - {x});
    }
  }
}
