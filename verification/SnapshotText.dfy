/** The canonical text whose digest names a snapshot (snapshotID), and why it names only one. */
module SnapshotText {
  import opened Prelude
  import opened Text
  import opened Codec
  import opened ObjectCodec

  /** The hashed fields of a snapshot. The author is already rendered. */
  datatype Fields = Fields(revision: string, tree: RawID, description: string, author: string, parents: seq<RawID>)

  predicate ByteIDs(f: Fields) { IsBytes(f.tree) && forall p :: p in f.parents ==> IsBytes(p) }

  /** No newline in the revision id or the rendered author. The description is free. */
  predicate Plain(f: Fields) { OneLine(f.revision) && OneLine(f.author) }

  function ParentLine(p: RawID): string
    requires IsBytes(p)
  {
    "parent=" + Hex(p)
  }

  function ParentLines(ps: seq<RawID>): seq<string>
    requires forall p :: p in ps ==> IsBytes(p)
  {
    seq(|ps|, i requires 0 <= i < |ps| => ParentLine(ps[i]))
  }

  function CanonicalText(f: Fields): string
    requires ByteIDs(f)
  {
    "revision=" + f.revision + "\n" + "tree=" + Hex(f.tree) + "\n" + "description=" + f.description + "\n" +
    "author=" + f.author + "\n" + Unlines(ParentLines(f.parents))
  }

  /** snapshotID, up to the digest. */
  method BuildText(f: Fields) returns (b: string)
    requires ByteIDs(f)
    ensures b == CanonicalText(f)
  {
    hide Hex, Unlines, CanonicalText;
    b := "";
    b := b + "revision=" + f.revision + "\n";
    b := b + "tree=" + Hex(f.tree) + "\n";
    b := b + "description=" + f.description + "\n";
    b := b + "author=" + f.author + "\n";
    ghost var head := b;
    TextStart(f);
    NoLines();
    for i := 0 to |f.parents|
      invariant b == head + Unlines(ParentLines(f.parents)[..i])
    {
      var ls := ParentLines(f.parents);
      TakeMore(ls, i);
      UnlinesSnoc(ls[..i], ls[i]);
      b := b + "parent=" + Hex(f.parents[i]) + "\n";
    }
    WholeSlices(ParentLines(f.parents));
  }

  lemma TextStart(f: Fields)
    requires ByteIDs(f)
    ensures CanonicalText(f) ==
      ("" + "revision=" + f.revision + "\n") + "tree=" + Hex(f.tree) + "\n" + "description=" + f.description + "\n" +
      "author=" + f.author + "\n" + Unlines(ParentLines(f.parents))
  {
    assert "" + "revision=" == "revision=";
    hide Hex, Unlines;
  }

  lemma NoLines()
    ensures Unlines([]) == ""
  {
  }

  lemma PiecesCons(c: char, s: string)
    ensures Pieces([c] + s) == if c == '\n' then [""] + Pieces(s) else [[c] + Pieces(s)[0]] + Pieces(s)[1..]
  {
    assert ([c] + s)[1..] == s;
  }

  lemma {:induction false} PiecesConcat(s: string, t: string)
    ensures Pieces(s + "\n" + t) == Pieces(s) + Pieces(t)
  {
    hide Pieces;
    if s == "" {
      PiecesOneLine("");
      assert s + "\n" + t == ['\n'] + t;
      PiecesCons('\n', t);
    } else {
      PiecesConcat(s[1..], t);
      assert s + "\n" + t == [s[0]] + (s[1..] + "\n" + t) && s == [s[0]] + s[1..];
      PiecesCons(s[0], s[1..] + "\n" + t);
      PiecesCons(s[0], s[1..]);
    }
  }

  /** The lines of the text. Only the description may take more than one. */
  lemma TextLines(f: Fields)
    requires ByteIDs(f) && Plain(f)
    ensures Pieces(CanonicalText(f)) ==
      ["revision=" + f.revision, "tree=" + Hex(f.tree)] + Pieces("description=" + f.description) +
        ["author=" + f.author] + ParentLines(f.parents) + [""]
  {
    hide Hex, Unlines, Pieces;
    var a, b, c, d := "revision=" + f.revision, "tree=" + Hex(f.tree), "description=" + f.description,
      "author=" + f.author;
    var e := Unlines(ParentLines(f.parents));
    UnhexHex(f.tree);
    assert OneLine(a) && OneLine(b) && OneLine(d);
    assert CanonicalText(f) == a + "\n" + (b + "\n" + (c + "\n" + (d + "\n" + e)));
    PiecesConcat(a, b + "\n" + (c + "\n" + (d + "\n" + e)));
    PiecesConcat(b, c + "\n" + (d + "\n" + e));
    PiecesConcat(c, d + "\n" + e);
    PiecesConcat(d, e);
    PiecesOneLine(a);
    PiecesOneLine(b);
    PiecesOneLine(d);
    ParentsPlain(f.parents);
    PiecesUnlines(ParentLines(f.parents), "");
    PiecesOneLine("");
    assert e + "" == e;
  }

  lemma ParentsPlain(ps: seq<RawID>)
    requires forall p :: p in ps ==> IsBytes(p)
    ensures AllOneLine(ParentLines(ps))
  {
    forall i | 0 <= i < |ps| ensures OneLine(ParentLines(ps)[i]) { UnhexHex(ps[i]); }
  }

  predicate IsParentLine(l: string) { "parent=" <= l }

  lemma ParentsAfter(x: seq<string>, a: string, p: seq<string>)
    requires forall i :: 0 <= i < |p| ==> IsParentLine(p[i])
    ensures forall j :: |x| < j < |x + [a] + p| ==> IsParentLine((x + [a] + p)[j])
  {
  }

  /** Trailing parent lines are told apart from the author line before them. */
  lemma SplitAtAuthor(x: seq<string>, a: string, p: seq<string>, y: seq<string>, b: string, q: seq<string>)
    requires x + [a] + p == y + [b] + q
    requires !IsParentLine(a) && !IsParentLine(b)
    requires forall i :: 0 <= i < |p| ==> IsParentLine(p[i])
    requires forall i :: 0 <= i < |q| ==> IsParentLine(q[i])
    ensures x == y && a == b && p == q
  {
    var l := x + [a] + p;
    ParentsAfter(x, a, p);
    ParentsAfter(y, b, q);
    assert l[|x|] == a && l[|y|] == b;
    assert l[..|x|] == x && l[..|y|] == y && l[|x| + 1..] == p && l[|y| + 1..] == q;
  }

  lemma AuthorIsNoParent(s: string)
    ensures !IsParentLine("author=" + s)
  {
    assert ("author=" + s)[0] == 'a' && ("parent=")[0] == 'p';
  }

  lemma ParentLinesInjective(ps: seq<RawID>, qs: seq<RawID>)
    requires (forall p :: p in ps ==> IsBytes(p)) && (forall q :: q in qs ==> IsBytes(q))
    requires ParentLines(ps) == ParentLines(qs)
    ensures ps == qs
  {
    assert |ps| == |ParentLines(ps)| == |qs|;
    forall i | 0 <= i < |ps| ensures ps[i] == qs[i] {
      assert ParentLine(ps[i]) == ParentLines(ps)[i] == ParentLine(qs[i]);
      SamePrefix("parent=", Hex(ps[i]), Hex(qs[i]));
      UnhexHex(ps[i]);
      UnhexHex(qs[i]);
    }
  }

  lemma SamePrefix(p: string, s: string, t: string)
    requires p + s == p + t
    ensures s == t
  {
    assert (p + s)[|p|..] == s && (p + t)[|p|..] == t;
  }

  /** The canonical text determines every field, for descriptions of any number of lines. */
  lemma CanonicalTextInjective(f: Fields, g: Fields)
    requires ByteIDs(f) && ByteIDs(g) && Plain(f) && Plain(g)
    requires CanonicalText(f) == CanonicalText(g)
    ensures f == g
  {
    hide Hex, Pieces, CanonicalText, IsParentLine;
    TextLines(f);
    TextLines(g);
    var l := Pieces(CanonicalText(f));
    var x, y := Pieces("description=" + f.description), Pieces("description=" + g.description);
    var p, q := ParentLines(f.parents), ParentLines(g.parents);
    var a, b := "author=" + f.author, "author=" + g.author;
    assert l[0] == "revision=" + f.revision == "revision=" + g.revision;
    assert l[1] == "tree=" + Hex(f.tree) == "tree=" + Hex(g.tree);
    SamePrefix("revision=", f.revision, g.revision);
    SamePrefix("tree=", Hex(f.tree), Hex(g.tree));
    UnhexHex(f.tree);
    UnhexHex(g.tree);
    assert l[2..|l| - 1] == x + [a] + p && l[2..|l| - 1] == y + [b] + q;
    AuthorIsNoParent(f.author);
    AuthorIsNoParent(g.author);
    ParentsStart(f.parents);
    ParentsStart(g.parents);
    SplitAtAuthor(x, a, p, y, b, q);
    SamePrefix("author=", f.author, g.author);
    ParentLinesInjective(f.parents, g.parents);
    PiecesInjective("description=" + f.description, "description=" + g.description);
    SamePrefix("description=", f.description, g.description);
  }

  lemma ParentsStart(ps: seq<RawID>)
    requires forall p :: p in ps ==> IsBytes(p)
    ensures forall i :: 0 <= i < |ps| ==> IsParentLine(ParentLines(ps)[i])
  {
  }

  /** A newline in the author can pass for a parent: two different snapshots, one text. */
  lemma AuthorNewlineCollides(f: Fields, p: RawID)
    requires ByteIDs(f) && IsBytes(p) && f.parents == []
    ensures var g := f.(author := f.author + "\n" + ParentLine(p)); var h := f.(parents := [p]);
      ByteIDs(g) && ByteIDs(h) && g != h && CanonicalText(g) == CanonicalText(h)
  {
    hide Hex;
    var ls := ParentLines([p]);
    assert ls == [ParentLine(p)] && ls[1..] == [] && ParentLines([]) == [];
    assert Unlines(ls) == ParentLine(p) + "\n";
    assert f.author != f.author + "\n" + ParentLine(p) by { assert |f.author + "\n" + ParentLine(p)| > |f.author|; }
  }
}
