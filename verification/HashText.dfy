/** The text whose digest is an object's id (HashID), and why it names only one object. */
module HashText {
  import opened Prelude
  import opened Text
  import opened Codec
  import opened ObjectCodec

  predicate ByteTree(t: RawTree) { forall k | k in t :: IsBytes(t[k].id) }

  /** Ids are bytes. */
  predicate Hashable(o: RawObject) {
    match o
    case RawBlob(_) => true
    case RawTreeObject(t) => ByteTree(t)
    case RawConflictObject(c) => ByteTerms(c.removes) && ByteTerms(c.adds)
  }

  /** Keys are entry names, and no name or label holds a newline. */
  predicate Plain(o: RawObject) {
    match o
    case RawBlob(_) => true
    case RawTreeObject(t) => NamedByKey(t) && forall k | k in t :: OneLine(k)
    case RawConflictObject(c) => PlainTerms(c.removes) && PlainTerms(c.adds)
  }

  /** Name, kind and id of each entry, a line each, in key order. */
  function EntryLines(t: RawTree, keys: seq<string>): seq<string>
    requires ByteTree(t) && forall k :: k in keys ==> k in t
  {
    if keys == [] then []
    else [t[keys[0]].name, Decimal(t[keys[0]].kind as int), Hex(t[keys[0]].id)] + EntryLines(t, keys[1..])
  }

  function TreeLines(t: RawTree): seq<string>
    requires ByteTree(t)
  {
    [Decimal(|t|)] + EntryLines(t, Sorted(t.Keys))
  }

  /** What HashID writes into the digest. */
  function HashedText(o: RawObject): string
    requires Hashable(o)
  {
    match o
    case RawBlob(d) => "0\n" + Decimal(|d|) + "\n" + d
    case RawTreeObject(t) => Unlines(["1"] + TreeLines(t))
    case RawConflictObject(c) => Unlines(["2"] + CountedTerms(c.removes) + CountedTerms(c.adds))
  }

  lemma {:induction false} EntryLinesPlain(t: RawTree, keys: seq<string>)
    requires ByteTree(t) && Plain(RawTreeObject(t)) && forall k :: k in keys ==> k in t
    ensures AllOneLine(EntryLines(t, keys)) && |EntryLines(t, keys)| == 3 * |keys|
  {
    hide Hex, Decimal;
    if keys != [] {
      EntryLinesPlain(t, keys[1..]);
      ScanDecimal(t[keys[0]].kind as int);
      UnhexHex(t[keys[0]].id);
      DigitsOneLine(Decimal(t[keys[0]].kind as int));
    }
  }

  lemma DigitsOneLine(s: string)
    requires forall i :: 0 <= i < |s| ==> IsDigit(s[i])
    ensures OneLine(s)
  {
  }

  /** The lines give back the keys and, under them, the entries. */
  lemma {:induction false} EntryLinesInjective(t: RawTree, keys: seq<string>, u: RawTree, names: seq<string>)
    requires ByteTree(t) && Plain(RawTreeObject(t)) && forall k :: k in keys ==> k in t
    requires ByteTree(u) && Plain(RawTreeObject(u)) && forall k :: k in names ==> k in u
    requires EntryLines(t, keys) == EntryLines(u, names)
    ensures keys == names && forall k :: k in keys ==> t[k] == u[k]
    decreases |keys|
  {
    hide Hex, Decimal;
    EntryLinesPlain(t, keys);
    EntryLinesPlain(u, names);
    if keys != [] {
      var l := EntryLines(t, keys);
      var a, b := t[keys[0]], u[names[0]];
      assert l[0] == a.name == b.name && l[1] == Decimal(a.kind as int) == Decimal(b.kind as int) &&
        l[2] == Hex(a.id) == Hex(b.id);
      assert l[3..] == EntryLines(t, keys[1..]) && l[3..] == EntryLines(u, names[1..]);
      ScanDecimal(a.kind as int);
      ScanDecimal(b.kind as int);
      UnhexHex(a.id);
      UnhexHex(b.id);
      EntryLinesInjective(t, keys[1..], u, names[1..]);
      assert keys == [keys[0]] + keys[1..] && names == [names[0]] + names[1..];
    }
  }

  lemma TreeTextInjective(t: RawTree, u: RawTree)
    requires ByteTree(t) && ByteTree(u) && Plain(RawTreeObject(t)) && Plain(RawTreeObject(u))
    requires TreeLines(t) == TreeLines(u)
    ensures t == u
  {
    hide Decimal, EntryLines;
    var ks, ns := Sorted(t.Keys), Sorted(u.Keys);
    assert TreeLines(t)[1..] == EntryLines(t, ks) && TreeLines(u)[1..] == EntryLines(u, ns);
    EntryLinesInjective(t, ks, u, ns);
    assert forall k :: k in t <==> k in ks;
    assert forall k :: k in u <==> k in ns;
    assert t == u;
  }

  lemma ConflictTextInjective(c: RawConflict, d: RawConflict)
    requires Hashable(RawConflictObject(c)) && Hashable(RawConflictObject(d))
    requires CountedTerms(c.removes) + CountedTerms(c.adds) == CountedTerms(d.removes) + CountedTerms(d.adds)
    ensures c == d
  {
    hide Scan, TermsFrom, CountedTerms;
    var lines := CountedTerms(c.removes) + CountedTerms(c.adds);
    CountedLines(lines, 0, c.removes);
    CountedLines(lines, |CountedTerms(c.removes)|, c.adds);
    CountedLines(lines, 0, d.removes);
    CountedLines(lines, |CountedTerms(d.removes)|, d.adds);
  }

  /** The lines of the hashed text of a tree or a conflict. */
  function HashLines(o: RawObject): seq<string>
    requires Hashable(o) && !o.RawBlob?
  {
    match o
    case RawTreeObject(t) => ["1"] + TreeLines(t)
    case RawConflictObject(c) => ["2"] + CountedTerms(c.removes) + CountedTerms(c.adds)
  }

  lemma HashedPieces(o: RawObject)
    requires Hashable(o) && Plain(o) && !o.RawBlob?
    ensures Pieces(HashedText(o)) == HashLines(o) + [""]
  {
    hide Unlines, Pieces, Decimal, EntryLines, TermLines;
    match o {
      case RawTreeObject(t) =>
        EntryLinesPlain(t, Sorted(t.Keys));
        ScanDecimal(|t|);
        DigitsOneLine(Decimal(|t|));
      case RawConflictObject(c) =>
        TermLinesPlain(c.removes);
        TermLinesPlain(c.adds);
        ScanDecimal(|c.removes|);
        ScanDecimal(|c.adds|);
        DigitsOneLine(Decimal(|c.removes|));
        DigitsOneLine(Decimal(|c.adds|));
    }
    assert AllOneLine(HashLines(o));
    PiecesUnlines(HashLines(o), "");
    PiecesOneLine("");
    assert Unlines(HashLines(o)) + "" == HashedText(o);
  }

  /** The text starts with the kind. */
  lemma KindFirst(o: RawObject)
    requires Hashable(o)
    ensures HashedText(o) != "" &&
      HashedText(o)[0] == match o case RawBlob(_) => '0' case RawTreeObject(_) => '1' case RawConflictObject(_) => '2'
  {
    hide Decimal, TreeLines, CountedTerms;
    match o
    case RawBlob(d) =>
    case RawTreeObject(t) => assert (["1"] + TreeLines(t))[0] == "1";
    case RawConflictObject(c) => assert (["2"] + CountedTerms(c.removes) + CountedTerms(c.adds))[0] == "2";
  }

  /** The hashed text determines the object, as long as no entry name and no label holds a newline. */
  lemma HashedTextInjective(o: RawObject, p: RawObject)
    requires Hashable(o) && Hashable(p) && Plain(o) && Plain(p) && HashedText(o) == HashedText(p)
    ensures o == p
  {
    hide HashedText, TreeLines, CountedTerms, Pieces;
    KindFirst(o);
    KindFirst(p);
    if o.RawBlob? {
      BlobTextInjective(o.data, p.data);
    } else {
      HashedPieces(o);
      HashedPieces(p);
      var a, b := HashLines(o), HashLines(p);
      assert (a + [""])[..|a|] == a && (b + [""])[..|b|] == b && |a| == |a + [""]| - 1;
      match o
      case RawTreeObject(t) =>
        assert a[1..] == TreeLines(t) && b[1..] == TreeLines(p.tree);
        TreeTextInjective(t, p.tree);
      case RawConflictObject(c) =>
        assert a[1..] == CountedTerms(c.removes) + CountedTerms(c.adds) &&
          b[1..] == CountedTerms(p.conflict.removes) + CountedTerms(p.conflict.adds);
        ConflictTextInjective(c, p.conflict);
    }
  }

  lemma BlobTextInjective(d: string, e: string)
    requires HashedText(RawBlob(d)) == HashedText(RawBlob(e))
    ensures d == e
  {
    hide Decimal;
    var x, y := Decimal(|d|), Decimal(|e|);
    assert x + "\n" + d == HashedText(RawBlob(d))[2..] == y + "\n" + e;
    ScanDecimal(|d|);
    ScanDecimal(|e|);
    DigitsOneLine(x);
    DigitsOneLine(y);
    PiecesFirst(x, d);
    PiecesFirst(y, e);
    assert ([x] + Pieces(d))[0] == ([y] + Pieces(e))[0];
    assert (x + "\n" + d)[|x| + 1..] == d && (y + "\n" + e)[|y| + 1..] == e;
  }

  lemma SortedPair(p: string, q: string)
    requires p != "" && q != "" && p[0] < q[0]
    ensures Sorted({p, q}) == [p, q]
  {
    var r := Sorted({p, q});
    assert IsLeast(r[0], {p, q});
    assert !Leq(q, p);
    assert {p, q} - {p} == {q} && r[1..] == Sorted({q});
    assert {q} - {q} == {};
    assert Sorted({q})[0] in {q};
  }

  /** A tree of two entries of kind 0. */
  function Two(p: string, x: RawID, q: string, z: RawID): RawTree {
    map[p := RawEntry(p, '\0', x), q := RawEntry(q, '\0', z)]
  }

  lemma TwoText(p: string, x: RawID, q: string, z: RawID)
    requires IsBytes(x) && IsBytes(z) && p != "" && q != "" && p[0] < q[0]
    ensures HashedText(RawTreeObject(Two(p, x, q, z))) ==
      "1\n" + "2\n" + (p + "\n0\n" + Hex(x) + "\n") + (q + "\n0\n" + Hex(z) + "\n")
  {
    hide Hex, Sorted, Unlines, Decimal;
    var t := Two(p, x, q, z);
    assert t.Keys == {p, q};
    SortedPair(p, q);
    assert |t| == 2 by { TwoCount(p, q); }
    DecimalDigits();
    var keys := [p, q];
    assert keys[1..] == [q] && [q][1..] == [];
    assert EntryLines(t, [q]) == [q, "0", Hex(z)];
    assert EntryLines(t, keys) == [p, "0", Hex(x)] + [q, "0", Hex(z)];
    LinesText(["1", "2"], p, Hex(x), q, Hex(z));
    assert TreeLines(t) == ["2"] + EntryLines(t, keys);
    assert ["1"] + TreeLines(t) == ["1", "2"] + ([p, "0", Hex(x)] + [q, "0", Hex(z)]);
  }

  lemma TwoCount(p: string, q: string)
    requires p != q
    ensures |{p, q}| == 2
  {
  }

  lemma DecimalDigits()
    ensures Decimal(2) == "2" && Decimal(0) == "0"
  {
  }

  lemma LinesText(head: seq<string>, p: string, x: string, q: string, z: string)
    requires head == ["1", "2"]
    ensures Unlines(head + ([p, "0", x] + [q, "0", z])) ==
      "1\n" + "2\n" + (p + "\n0\n" + x + "\n") + (q + "\n0\n" + z + "\n")
  {
    UnlinesConcat(head, [p, "0", x] + [q, "0", z]);
    UnlinesConcat([p, "0", x], [q, "0", z]);
    ThreeLines(p, "0", x);
    ThreeLines(q, "0", z);
    assert head[1..] == ["2"] && ["2"][1..] == [];
  }

  lemma ThreeLines(a: string, b: string, c: string)
    ensures Unlines([a, b, c]) == a + "\n" + b + "\n" + c + "\n"
  {
    UnlinesSnoc([], a);
    UnlinesSnoc([a], b);
    UnlinesSnoc([a, b], c);
    assert [] + [a] == [a] && [a] + [b] == [a, b] && [a, b] + [c] == [a, b, c];
    assert Unlines([]) == "";
  }

  /** A newline in an entry name can hide one entry's fields in another's name: two different trees, one text. */
  lemma NameNewlineCollides(x: RawID, y: RawID, z: RawID)
    requires IsBytes(x) && IsBytes(y) && IsBytes(z)
    ensures var t := Two("a", x, "b\n0\n" + Hex(y) + "\nc", z);
      var u := Two("a\n0\n" + Hex(x) + "\nb", y, "c", z);
      t != u && HashedText(RawTreeObject(t)) == HashedText(RawTreeObject(u))
  {
    hide Hex, HashedText;
    var m, n := "b\n0\n" + Hex(y) + "\nc", "a\n0\n" + Hex(x) + "\nb";
    TwoText("a", x, m, z);
    TwoText(n, y, "c", z);
    assert "c" in Two(n, y, "c", z) && "c" !in Two("a", x, m, z);
    assert ("a" + "\n0\n" + Hex(x) + "\n") + (m + "\n0\n" + Hex(z) + "\n") ==
      (n + "\n0\n" + Hex(y) + "\n") + ("c" + "\n0\n" + Hex(z) + "\n");
  }
}
