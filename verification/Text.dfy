/** Splitting text at newlines, as strings.Split(s, "\n") does, and putting it back together. */
module Text {

  predicate OneLine(s: string) { forall i :: 0 <= i < |s| ==> s[i] != '\n' }

  /** The pieces between newlines. There is always at least one, and the last may be empty. */
  function Pieces(s: string): (r: seq<string>)
    ensures r != []
  {
    if s == [] then [""]
    else
      var rest := Pieces(s[1..]);
      if s[0] == '\n' then [""] + rest else [[s[0]] + rest[0]] + rest[1..]
  }

  function Join(pieces: seq<string>): string
    requires pieces != []
  {
    if |pieces| == 1 then pieces[0] else pieces[0] + "\n" + Join(pieces[1..])
  }

  lemma {:induction false} JoinPieces(s: string)
    ensures Join(Pieces(s)) == s
  {
    if s != [] {
      JoinPieces(s[1..]);
      var rest := Pieces(s[1..]);
      assert s == [s[0]] + s[1..];
      if s[0] == '\n' {
        assert Pieces(s)[1..] == rest;
      } else if |rest| > 1 {
        assert Pieces(s)[1..] == rest[1..];
      }
    }
  }

  /** The first piece ends at the first newline. */
  lemma {:induction false} PiecesFirst(line: string, rest: string)
    requires OneLine(line)
    ensures Pieces(line + "\n" + rest) == [line] + Pieces(rest)
  {
    var s := line + "\n" + rest;
    if line == [] {
      assert s[1..] == rest;
    } else {
      PiecesFirst(line[1..], rest);
      assert s[1..] == line[1..] + "\n" + rest && line == [line[0]] + line[1..];
    }
  }

  lemma {:induction false} PiecesOneLine(line: string)
    requires OneLine(line)
    ensures Pieces(line) == [line]
  {
    if line != [] {
      PiecesOneLine(line[1..]);
      assert line == [line[0]] + line[1..];
    }
  }

  lemma {:induction false} PiecesSnoc(s: string)
    ensures Pieces(s + "\n") == Pieces(s) + [""]
  {
    if s == [] {
      assert s + "\n" == "\n";
      assert ("\n")[1..] == "";
    } else {
      PiecesSnoc(s[1..]);
      assert (s + "\n")[1..] == s[1..] + "\n";
    }
  }

  predicate EndsLine(s: string) { s != [] && s[|s| - 1] == '\n' }

  lemma {:induction false} LastPiece(s: string)
    ensures var r := Pieces(s); r[|r| - 1] == "" <==> s == "" || EndsLine(s)
  {
    if |s| > 0 { LastPiece(s[1..]); }
  }

  lemma PiecesInjective(s: string, t: string)
    requires Pieces(s) == Pieces(t)
    ensures s == t
  {
    JoinPieces(s);
    JoinPieces(t);
  }

  /** splitLines: a terminal newline ends the last line instead of starting an empty one. */
  function LinesOf(s: string): seq<string> {
    if s == "" then []
    else
      var r := Pieces(s);
      if r[|r| - 1] == "" then r[..|r| - 1] else r
  }

  /** The two contents are one file, with and without the newline that ends it. */
  predicate OnlyTerminalNewline(s: string, t: string) {
    s != "" && !EndsLine(s) && t == s + "\n"
  }

  /** Contents with the same lines are identical, up to one terminal newline. */
  lemma LinesOfSame(s: string, t: string)
    ensures LinesOf(s) == LinesOf(t) <==> s == t || OnlyTerminalNewline(s, t) || OnlyTerminalNewline(t, s)
  {
    LastPiece(s);
    LastPiece(t);
    PiecesSnoc(s);
    PiecesSnoc(t);
    if LinesOf(s) == LinesOf(t) {
      SameLines(s, t);
    }
  }

  lemma SameLines(s: string, t: string)
    requires LinesOf(s) == LinesOf(t)
    ensures s == t || OnlyTerminalNewline(s, t) || OnlyTerminalNewline(t, s)
  {
    LastPiece(s);
    LastPiece(t);
    if s == "" || t == "" {
      JoinPieces(s);
      JoinPieces(t);
    } else {
      var p, q := Pieces(s), Pieces(t);
      if (p[|p| - 1] == "") == (q[|q| - 1] == "") {
        assert p == LinesOf(s) + p[|LinesOf(s)|..] && q == LinesOf(t) + q[|LinesOf(t)|..];
        PiecesInjective(s, t);
      } else if p[|p| - 1] == "" {
        assert p == q + [""];
        PiecesSnoc(t);
        PiecesInjective(s, t + "\n");
      } else {
        assert q == p + [""];
        PiecesSnoc(s);
        PiecesInjective(t, s + "\n");
      }
    }
  }

  lemma {:induction false} PiecesHoldNoNewline(s: string)
    ensures forall i :: 0 <= i < |Pieces(s)| ==> OneLine(Pieces(s)[i])
  {
    if s != [] {
      PiecesHoldNoNewline(s[1..]);
      var rest := Pieces(s[1..]);
      forall i | 0 <= i < |Pieces(s)| ensures OneLine(Pieces(s)[i]) {
        if s[0] != '\n' && i > 0 { assert Pieces(s)[i] == rest[i]; }
      }
    }
  }

  lemma {:induction false} JoinSnoc(pieces: seq<string>, last: string)
    requires pieces != []
    ensures Join(pieces + [last]) == Join(pieces) + "\n" + last
  {
    if |pieces| == 1 {
      assert (pieces + [last])[1..] == [last];
    } else {
      JoinSnoc(pieces[1..], last);
      assert (pieces + [last])[1..] == pieces[1..] + [last];
      assert pieces[0] + "\n" + (Join(pieces[1..]) + "\n" + last) == pieces[0] + "\n" + Join(pieces[1..]) + "\n" + last;
    }
  }

  /** splitLines, without its body: no line holds a newline, and joining the lines gives the content back,
      but for the newline that ends it. Only the empty content has no lines. */
  lemma LinesExact(s: string)
    ensures forall i :: 0 <= i < |LinesOf(s)| ==> OneLine(LinesOf(s)[i])
    ensures LinesOf(s) == [] <==> s == ""
    ensures s != "" ==> s == Join(LinesOf(s)) + if EndsLine(s) then "\n" else ""
  {
    PiecesHoldNoNewline(s);
    JoinPieces(s);
    LastPiece(s);
    if s != "" {
      var r := Pieces(s);
      if r[|r| - 1] == "" {
        var init := r[..|r| - 1];
        assert r == init + [""];
        if init != [] { JoinSnoc(init, ""); }
      }
    }
  }
}
