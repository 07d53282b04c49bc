/**
 * The stored and hashed forms on small values, byte by byte and line by line. A reader or a writer of
 * another program can be checked against these.
 */
module Layouts {
  import opened Prelude
  import opened Varint
  import opened Codec
  import opened ObjectCodec
  import HashText
  import SnapshotText
  import opened Framing
  import History

  /** A length below 128 is one byte; 300 takes two, the low seven bits first. */
  lemma VarintLayout(v: nat)
    ensures v < 128 ==> Uvarint(v) == [v as char]
    ensures Uvarint(300) == [172 as char, 2 as char]
  {
    assert Uvarint(2) == [2 as char];
    assert 300 % 128 + 128 == 172 && 300 / 128 == 2;
  }

  predicate Short(s: string) { |s| < 128 }

  lemma StrLayout(s: string)
    requires Short(s)
    ensures Str(s) == [|s| as char] + s
  {
  }

  lemma IDsLayout(p: RawID, q: RawID)
    ensures IDsBytes([p, q]) == [32 as char] + p + ([32 as char] + q)
  {
    StrLayout(p);
    StrLayout(q);
    hide Str;
    assert [p, q][..1] == [p] && [p][..0] == [];
    assert IDsBytes([p]) == Str(p);
  }

  /** Snapshot meta: the parents, each with its length, then author name, author email and description. */
  lemma MetaLayout(p: RawID, q: RawID, name: string, email: string, description: string)
    requires Short(name) && Short(email) && Short(description)
    ensures MetaBytes(Meta([p, q], name, email, description)) ==
      [2 as char] + ([32 as char] + p + ([32 as char] + q)) + ([|name| as char] + name) +
      ([|email| as char] + email) + ([|description| as char] + description)
  {
    hide Uvarint, IDsBytes, Str;
    VarintLayout(2);
    IDsLayout(p, q);
    StrLayout(name);
    StrLayout(email);
    StrLayout(description);
  }

  /** Revision body: the current snapshot's hash, then the fork origin with its length. */
  lemma BodyLayout(current: RawID, forkFrom: string)
    requires Short(forkFrom)
    ensures BodyBytes(Body(current, forkFrom)) == current + [|forkFrom| as char] + forkFrom
  {
    StrLayout(forkFrom);
  }

  lemma SortedPair()
    ensures Sorted({"a"}) == ["a"] && Sorted({"a", "b"}) == ["a", "b"]
  {
    LeqTotal("a", "a");
    assert Leq("a", "b");
    LeastFirst({"a"}, "a");
    LeastFirst({"b"}, "b") by { LeqTotal("b", "b"); }
    LeastFirst({"a", "b"}, "a");
    assert {"a"} - {"a"} == {} && {"b"} - {"b"} == {} && {"a", "b"} - {"a"} == {"b"};
    assert Sorted({}) == [];
  }

  /** A tree of two entries: the count, then name, kind and id of each, by name. */
  function Pair(j: char, x: RawID, k: char, y: RawID): RawTree {
    map["b" := RawEntry("b", k, y), "a" := RawEntry("a", j, x)]
  }

  lemma PairKeys(j: char, x: RawID, k: char, y: RawID)
    ensures Sorted(Pair(j, x, k, y).Keys) == ["a", "b"] && |Pair(j, x, k, y)| == 2
  {
    var t := Pair(j, x, k, y);
    assert t.Keys == {"a", "b"};
    assert |t| == |t.Keys|;
    SortedPair();
  }

  lemma TreeLayout(j: char, x: RawID, k: char, y: RawID)
    ensures TreeBytes(Pair(j, x, k, y)) ==
      [2 as char] + ([1 as char] + "a" + [j] + x + ([1 as char] + "b" + [k] + y))
  {
    var t := Pair(j, x, k, y);
    PairKeys(j, x, k, y);
    VarintLayout(2);
    StrLayout("a");
    StrLayout("b");
    hide Uvarint, Str, Sorted;
    assert ["a", "b"][1..] == ["b"] && ["b"][1..] == [];
    assert EntriesBytes(t, ["b"]) == EntryBytes(t["b"]);
    assert EntriesBytes(t, ["a", "b"]) == EntryBytes(t["a"]) + EntryBytes(t["b"]);
  }

  /** Stored objects: a blob as it is, a tree after its magic. */
  lemma ObjectLayout(d: string, t: RawTree)
    requires FitsTree(t)
    ensures ObjectBytes(RawBlob(d)) == d
    ensures ObjectBytes(RawTreeObject(t)) == "easyvcs-tree-v1" + TreeBytes(t)
  {
  }

  /** Two hex digits a byte, high half first; every line ends with a newline. */
  lemma TextLayout()
    ensures Hex([10 as char, 255 as char]) == "0aff"
    ensures Unlines(["x", "yz"]) == "x\nyz\n"
    ensures Decimal(10) == "10"
  {
    assert [10 as char, 255 as char][1..] == [255 as char] && [255 as char][1..] == "";
    assert Hex([255 as char]) == "ff";
    assert ["x", "yz"][1..] == ["yz"] && ["yz"][1..] == [];
    assert Unlines(["yz"]) == "yz" + "\n";
    assert Decimal(1) == "1";
  }

  lemma OneTerm(x: RawID, side: string)
    requires IsBytes(x)
    ensures CountedTerms([RawTerm(x, side)]) == ["1", Hex(x), side]
  {
    hide Hex;
    var ts := [RawTerm(x, side)];
    assert ts[1..] == [] && TermLines([]) == [];
    assert TermLines(ts) == [Hex(x), side] + TermLines(ts[1..]);
    assert Decimal(1) == "1";
  }

  /** A stored conflict: its magic, then the removed and the added terms, each list after its length, each
      term as the hex of its id and its label. */
  lemma ConflictLayout(x: RawID, y: RawID)
    requires IsBytes(x) && IsBytes(y)
    ensures ConflictLines(RawConflict([RawTerm(x, "base")], [RawTerm(y, "ours")])) ==
      ["easyvcs-conflict-v1", "1", Hex(x), "base", "1", Hex(y), "ours"]
  {
    hide Hex, CountedTerms;
    OneTerm(x, "base");
    OneTerm(y, "ours");
  }

  /** The hashed text of a conflict: kind 2, then both lists of terms as in the stored form. */
  lemma ConflictHashLayout(x: RawID, y: RawID)
    requires IsBytes(x) && IsBytes(y)
    ensures HashText.HashedText(RawConflictObject(RawConflict([RawTerm(x, "base")], [RawTerm(y, "ours")]))) ==
      Unlines(["2", "1", Hex(x), "base", "1", Hex(y), "ours"])
  {
    hide Hex, Unlines, CountedTerms;
    OneTerm(x, "base");
    OneTerm(y, "ours");
    assert ["2"] + ["1", Hex(x), "base"] + ["1", Hex(y), "ours"] == ["2", "1", Hex(x), "base", "1", Hex(y), "ours"];
  }

  /** The hashed text of a blob: kind 0, the length, the content. */
  lemma BlobHashLayout()
    ensures HashText.HashedText(RawBlob("hi")) == "0\n2\nhi"
  {
    assert Decimal(2) == "2";
  }

  lemma PairLines(x: RawID, y: RawID)
    requires IsBytes(x) && IsBytes(y)
    ensures var t := Pair(0 as char, x, 1 as char, y);
      HashText.EntryLines(t, ["a", "b"]) == ["a", "0", Hex(x), "b", "1", Hex(y)]
  {
    hide Hex, Decimal;
    var t := Pair(0 as char, x, 1 as char, y);
    SmallDecimals();
    assert ["a", "b"][1..] == ["b"] && ["b"][1..] == [];
    assert HashText.EntryLines(t, ["b"]) == ["b", "1", Hex(y)];
  }

  lemma SmallDecimals()
    ensures Decimal(0) == "0" && Decimal(1) == "1" && Decimal(2) == "2"
  {
  }

  /** The hashed text of a tree: kind 1, the count, then name, kind and id of each entry, a line each. */
  lemma TreeHashLayout(x: RawID, y: RawID)
    requires IsBytes(x) && IsBytes(y)
    ensures HashText.HashedText(RawTreeObject(Pair(0 as char, x, 1 as char, y))) ==
      Unlines(["1", "2", "a", "0", Hex(x), "b", "1", Hex(y)])
  {
    hide Hex, Unlines, Decimal, HashText.EntryLines;
    PairKeys(0 as char, x, 1 as char, y);
    PairLines(x, y);
    SmallDecimals();
    hide Sorted, Pair;
    assert ["1"] + (["2"] + ["a", "0", Hex(x), "b", "1", Hex(y)]) == ["1", "2", "a", "0", Hex(x), "b", "1", Hex(y)];
  }

  /** The hashed text of a snapshot: revision, tree, description and author, then the parents, a line each. */
  lemma SnapshotLayout(tree: RawID, p: RawID, q: RawID)
    requires IsBytes(tree) && IsBytes(p) && IsBytes(q)
    ensures SnapshotText.CanonicalText(SnapshotText.Fields("r", tree, "fix", "A <a@b>", [p, q])) ==
      "revision=" + "r" + "\n" + "tree=" + Hex(tree) + "\n" + "description=" + "fix" + "\n" +
      "author=" + "A <a@b>" + "\n" + Unlines(["parent=" + Hex(p), "parent=" + Hex(q)])
  {
    hide Hex, Unlines;
    assert SnapshotText.ParentLines([p, q]) == ["parent=" + Hex(p), "parent=" + Hex(q)];
  }

  /** An author with an e-mail address, and one without. */
  lemma AuthorLayout()
    ensures History.AuthorText(History.Author("A", "a@b")) == "A <a@b>"
    ensures History.AuthorText(History.Author("A", "")) == "A"
  {
  }

  /** A bundle: eight bytes of magic, the two lengths in little-endian order, header and body. */
  lemma FrameLayout(header: string, body: string)
    requires |header| == 258 && |body| == 3
    ensures Frame(header, body) ==
      "EVCSBUN\0" + ([2 as char, 1 as char, 0 as char, 0 as char] + [3 as char, 0 as char, 0 as char, 0 as char]) +
      header + body
  {
  }

  /** The body of a bundle: the contents end to end, described one by one in the header. */
  lemma PayloadsLayout(x: string, y: string)
    ensures var rs := [Record(0, x), Record(2, y)];
      Payloads(rs) == x + y && Descriptors(rs) == [Descriptor(0, |x|), Descriptor(2, |y|)]
  {
    var rs := [Record(0, x), Record(2, y)];
    assert rs[..1] == [Record(0, x)] && rs[..1][..0] == [];
    assert Payloads(rs[..1]) == x;
  }
}
