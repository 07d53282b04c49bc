/** The stored form of objects: raw blobs, and trees and conflicts behind a magic header. */
module ObjectCodec {
  import opened Prelude
  import opened Text
  import opened Codec

  const CONFLICT_MAGIC := "easyvcs-conflict-v1"
  const TREE_MAGIC := "easyvcs-tree-v1"

  /** The most terms, of 48 bytes each, that fit the address space of a 64-bit machine. */
  const MAX_TERMS: nat := 0x1_0000_0000_0000 / 48

  /** One side of a conflict: a blob id and a label. */
  datatype RawTerm = RawTerm(id: RawID, side: string)

  datatype RawConflict = RawConflict(removes: seq<RawTerm>, adds: seq<RawTerm>)

  datatype RawObject = RawBlob(data: string) | RawTreeObject(tree: RawTree) | RawConflictObject(conflict: RawConflict)

  // ---- Numbers and hex in text --------------------------------------------------------------------------

  function Digit(n: nat): char
    requires n < 10
  {
    (n + 48) as char
  }

  predicate IsDigit(c: char) { '0' <= c <= '9' }

  /** %d of a count. */
  function Decimal(n: nat): string {
    if n < 10 then [Digit(n)] else Decimal(n / 10) + [Digit(n % 10)]
  }

  /** The number that the leading digits of a text spell; 0 when there are none. */
  function Scan(s: string, acc: nat): nat {
    if s == "" || !IsDigit(s[0]) then acc else Scan(s[1..], 10 * acc + s[0] as int - 48)
  }

  lemma {:induction false} ScanSnoc(s: string, d: nat, acc: nat)
    requires d < 10 && forall i :: 0 <= i < |s| ==> IsDigit(s[i])
    ensures Scan(s + [Digit(d)], acc) == 10 * Scan(s, acc) + d
  {
    if s == "" {
      assert s + [Digit(d)] == [Digit(d)];
    } else {
      ScanSnoc(s[1..], d, 10 * acc + s[0] as int - 48);
      assert (s + [Digit(d)])[1..] == s[1..] + [Digit(d)];
    }
  }

  lemma {:induction false} ScanDecimal(n: nat)
    ensures Scan(Decimal(n), 0) == n
    ensures forall i :: 0 <= i < |Decimal(n)| ==> IsDigit(Decimal(n)[i])
  {
    if n >= 10 {
      ScanDecimal(n / 10);
      ScanSnoc(Decimal(n / 10), n % 10, 0);
    } else {
      ScanSnoc("", n, 0);
      assert "" + [Digit(n)] == [Digit(n)];
    }
  }

  /** The bytes of the white-space character, in UTF-8, that the text starts with. */
  function SpaceLen(s: string): (n: nat)
    ensures n <= |s|
  {
    if s == "" then 0
    else if s[0] as int == 9 || 11 <= s[0] as int <= 13 || s[0] == ' ' then 1
    else if |s| >= 2 && s[0] as int == 0xC2 && (s[1] as int == 0x85 || s[1] as int == 0xA0) then 2
    else if |s| >= 3 && WideSpace(s[0] as int, s[1] as int, s[2] as int) then 3
    else 0
  }

  /** The white space of three bytes: U+1680, U+2000 to U+200A, U+2028, U+2029, U+202F, U+205F, U+3000. */
  predicate WideSpace(a: int, b: int, c: int) {
    (a == 0xE1 && b == 0x9A && c == 0x80) ||
    (a == 0xE2 && b == 0x80 && (0x80 <= c <= 0x8A || c == 0xA8 || c == 0xA9 || c == 0xAF)) ||
    (a == 0xE2 && b == 0x81 && c == 0x9F) || (a == 0xE3 && b == 0x80 && c == 0x80)
  }

  function SkipSpace(s: string): string {
    if SpaceLen(s) == 0 then s else SkipSpace(s[SpaceLen(s)..])
  }

  predicate Signed(s: string) { s != "" && (s[0] == '+' || s[0] == '-') }

  /** What Sscanf with %d leaves in an int that was 0: blanks, a sign, digits. It stays 0 when no digit
      follows or the number is out of range; what comes after the digits is ignored. */
  function CountOf(line: string): int {
    var s := SkipSpace(line);
    var digits := if Signed(s) then s[1..] else s;
    var v := Scan(digits, 0);
    var n: int := if Signed(s) && s[0] == '-' then 0 - v else v;
    if 0 <= n + TWO63 && n < TWO63 then n else 0
  }

  lemma CountDecimal(n: nat)
    requires n < TWO63
    ensures CountOf(Decimal(n)) == n
  {
    hide Scan;
    ScanDecimal(n);
    DecimalSome(n);
    assert IsDigit(Decimal(n)[0]);
  }

  lemma {:induction false} DecimalSome(n: nat)
    ensures Decimal(n) != ""
  {
  }

  function HexDigit(n: nat): char
    requires n < 16
  {
    if n < 10 then (n + 48) as char else (n + 87) as char
  }

  function HexValue(c: char): Option<nat> {
    if '0' <= c <= '9' then Some(c as int - 48)
    else if 'a' <= c <= 'f' then Some(c as int - 87)
    else if 'A' <= c <= 'F' then Some(c as int - 55)
    else None
  }

  predicate IsBytes(s: string) { forall i :: 0 <= i < |s| ==> s[i] as int < 256 }

  function Hex(s: string): string
    requires IsBytes(s)
  {
    if s == "" then "" else [HexDigit(s[0] as int / 16), HexDigit(s[0] as int % 16)] + Hex(s[1..])
  }

  /** hex.DecodeString: None for an odd length or a character that is no hex digit. */
  function Unhex(s: string): Option<string> {
    if s == "" then Some("")
    else if |s| < 2 then None
    else
      match (HexValue(s[0]), HexValue(s[1]), Unhex(s[2..]))
      case (Some(h), Some(l), Some(rest)) => (if 16 * h + l < 256 then Some([(16 * h + l) as char] + rest) else None)
      case _ => None
  }

  lemma HexBack(n: nat)
    requires n < 16
    ensures HexValue(HexDigit(n)) == Some(n) && HexDigit(n) != '\n'
  {
  }

  lemma {:induction false} UnhexHex(s: string)
    requires IsBytes(s)
    ensures Unhex(Hex(s)) == Some(s) && OneLine(Hex(s))
  {
    hide HexValue, HexDigit;
    if s != "" {
      UnhexHex(s[1..]);
      HexBack(s[0] as int / 16);
      HexBack(s[0] as int % 16);
      assert Hex(s)[2..] == Hex(s[1..]);
      assert s == [s[0]] + s[1..];
    }
  }

  // ---- Conflicts ------------------------------------------------------------------------------------------

  predicate PlainTerms(ts: seq<RawTerm>) { forall t :: t in ts ==> OneLine(t.side) }

  predicate ByteTerms(ts: seq<RawTerm>) { forall t :: t in ts ==> IsBytes(t.id) }

  function TermLines(ts: seq<RawTerm>): seq<string>
    requires ByteTerms(ts)
  {
    if ts == [] then [] else [Hex(ts[0].id), ts[0].side] + TermLines(ts[1..])
  }

  /** The lines of a conflict's text. */
  function ConflictLines(c: RawConflict): seq<string>
    requires ByteTerms(c.removes) && ByteTerms(c.adds)
  {
    [CONFLICT_MAGIC] + CountedTerms(c.removes) + CountedTerms(c.adds)
  }

  function CountedTerms(ts: seq<RawTerm>): seq<string>
    requires ByteTerms(ts)
  {
    [Decimal(|ts|)] + TermLines(ts)
  }

  /** Every line, ended by a newline. */
  function Unlines(ls: seq<string>): string {
    if ls == [] then "" else ls[0] + "\n" + Unlines(ls[1..])
  }

  lemma {:induction false} UnlinesConcat(a: seq<string>, b: seq<string>)
    ensures Unlines(a + b) == Unlines(a) + Unlines(b)
  {
    if a == [] {
      assert a + b == b;
    } else {
      UnlinesConcat(a[1..], b);
      assert (a + b)[1..] == a[1..] + b;
    }
  }

  lemma UnlinesSnoc(a: seq<string>, x: string)
    ensures Unlines(a + [x]) == Unlines(a) + x + "\n"
  {
    UnlinesConcat(a, [x]);
    assert [x][1..] == [];
  }

  lemma {:induction false} TermLinesSnoc(ts: seq<RawTerm>, t: RawTerm)
    requires ByteTerms(ts) && IsBytes(t.id)
    ensures ByteTerms(ts + [t]) && TermLines(ts + [t]) == TermLines(ts) + [Hex(t.id), t.side]
  {
    if ts == [] {
      assert ts + [t] == [t] && [t][1..] == [];
    } else {
      TermLinesSnoc(ts[1..], t);
      assert (ts + [t])[1..] == ts[1..] + [t];
    }
  }

  method AppendTerms(buf: string, ts: seq<RawTerm>) returns (r: string)
    requires ByteTerms(ts)
    ensures r == buf + Unlines(CountedTerms(ts))
  {
    r := buf + Decimal(|ts|) + "\n";
    assert Unlines([Decimal(|ts|)] + []) == Decimal(|ts|) + "\n" by {
      UnlinesSnoc([], Decimal(|ts|));
      assert [] + [Decimal(|ts|)] == [Decimal(|ts|)] + [];
    }
    for i := 0 to |ts|
      invariant r == buf + Unlines([Decimal(|ts|)] + TermLines(ts[..i]))
    {
      TakeMore(ts, i);
      TermLinesSnoc(ts[..i], ts[i]);
      var before := [Decimal(|ts|)] + TermLines(ts[..i]);
      assert [Decimal(|ts|)] + TermLines(ts[..i + 1]) == before + [Hex(ts[i].id)] + [ts[i].side];
      UnlinesSnoc(before, Hex(ts[i].id));
      UnlinesSnoc(before + [Hex(ts[i].id)], ts[i].side);
      r := r + Hex(ts[i].id) + "\n" + ts[i].side + "\n";
    }
    WholeSlices(ts);
  }

  /** encodeConflictBytes. */
  method EncodeConflictBytes(c: RawConflict) returns (b: string)
    requires ByteTerms(c.removes) && ByteTerms(c.adds)
    ensures b == Unlines(ConflictLines(c))
  {
    b := CONFLICT_MAGIC + "\n";
    b := AppendTerms(b, c.removes);
    b := AppendTerms(b, c.adds);
    UnlinesConcat([CONFLICT_MAGIC], CountedTerms(c.removes));
    UnlinesConcat([CONFLICT_MAGIC] + CountedTerms(c.removes), CountedTerms(c.adds));
    assert [CONFLICT_MAGIC][1..] == [];
  }

  /** A hex line as an id; zero when it does not spell 32 bytes. */
  function LineID(line: string): RawID {
    match Unhex(line) case Some(b) => (if |b| == 32 then b else ZEROS) case None => ZEROS
  }

  /** At most n terms, two lines each, from line idx on. */
  function TermsFrom(lines: seq<string>, idx: nat, n: nat): seq<RawTerm>
    decreases n
  {
    if n == 0 || idx + 1 >= |lines| then []
    else [RawTerm(LineID(lines[idx]), lines[idx + 1])] + TermsFrom(lines, idx + 2, n - 1)
  }

  /** A count line, then at most that many terms. Go panics when it cannot make a slice of that
      capacity: a negative one, or one that exceeds the address space. */
  function CountedFrom(lines: seq<string>, idx: nat): (r: Parse<Item<seq<RawTerm>>>)
    ensures r.Done? ==> idx <= r.value.next
  {
    if idx >= |lines| then Done(Item([], idx))
    else
      var n := CountOf(lines[idx]);
      if n < 0 || n > MAX_TERMS then Panics
      else
        var terms := TermsFrom(lines, idx + 1, n);
        Done(Item(terms, idx + 1 + 2 * |terms|))
  }

  /** strings.TrimSuffix(s, "\n") */
  function TrimNewline(s: string): string { if EndsLine(s) then s[..|s| - 1] else s }

  function DecodedConflict(payload: string): Parse<RawConflict> {
    var lines := Pieces(TrimNewline(payload));
    if |lines| < 2 then Done(RawConflict([], []))
    else
      var removes :- CountedFrom(lines, 1);
      var adds :- CountedFrom(lines, removes.next);
      Done(RawConflict(removes.value, adds.value))
  }

  /** The closure readTerms, with the index it advances. */
  method ReadTerms(lines: seq<string>, idx: nat) returns (r: Parse<Item<seq<RawTerm>>>)
    ensures r == CountedFrom(lines, idx)
  {
    hide LineID;
    var n: int := 0;
    var next: nat := idx;
    if next < |lines| {
      n := CountOf(lines[next]);
      next := next + 1;
    }
    if n < 0 || n > MAX_TERMS { return Panics; }
    var terms: seq<RawTerm> := [];
    var i := 0;
    ghost var all := TermsFrom(lines, next, n);
    while i < n && next + 1 < |lines|
      invariant 0 <= i <= n
      invariant all == terms + TermsFrom(lines, next, n - i)
      invariant next == (if idx < |lines| then idx + 1 else idx) + 2 * |terms|
    {
      terms := terms + [RawTerm(LineID(lines[next]), lines[next + 1])];
      next := next + 2;
      i := i + 1;
    }
    assert all == terms + [] == terms;
    r := Done(Item(terms, next));
  }

  /** decodeConflictBytes. */
  method DecodeConflictBytes(payload: string) returns (r: Parse<RawConflict>)
    ensures r == DecodedConflict(payload)
  {
    hide CountedFrom;
    var lines := Pieces(TrimNewline(payload));
    if |lines| < 2 { return Done(RawConflict([], [])); }
    var removes := ReadTerms(lines, 1);
    if !removes.Done? { return removes.PropagateFailure(); }
    var adds := ReadTerms(lines, removes.value.next);
    if !adds.Done? { return adds.PropagateFailure(); }
    r := Done(RawConflict(removes.value.value, adds.value.value));
  }

  predicate AllOneLine(ls: seq<string>) { forall i :: 0 <= i < |ls| ==> OneLine(ls[i]) }

  lemma {:induction false} PiecesUnlines(ls: seq<string>, rest: string)
    requires AllOneLine(ls)
    ensures Pieces(Unlines(ls) + rest) == ls + Pieces(rest)
  {
    if ls == [] {
      assert Unlines(ls) + rest == rest;
    } else {
      PiecesUnlines(ls[1..], rest);
      PiecesFirst(ls[0], Unlines(ls[1..]) + rest);
      assert Unlines(ls) + rest == ls[0] + "\n" + (Unlines(ls[1..]) + rest);
      assert ls == [ls[0]] + ls[1..];
    }
  }

  /** Whatever follows the text, its lines come first. */
  lemma LinesFirst(ls: seq<string>, rest: string)
    requires ls != [] && AllOneLine(ls)
    ensures ls <= Pieces(TrimNewline(Unlines(ls) + rest))
  {
    if rest == "" {
      var init, last := ls[..|ls| - 1], ls[|ls| - 1];
      assert ls == init + [last];
      UnlinesSnoc(init, last);
      assert TrimNewline(Unlines(ls) + rest) == Unlines(init) + last;
      PiecesUnlines(init, last);
      PiecesOneLine(last);
    } else {
      assert TrimNewline(Unlines(ls) + rest) == Unlines(ls) + TrimNewline(rest);
      PiecesUnlines(ls, TrimNewline(rest));
    }
  }

  /** The lines from idx on start with these. */
  predicate LinesAt(lines: seq<string>, idx: nat, w: seq<string>) {
    idx + |w| <= |lines| && forall k :: 0 <= k < |w| ==> lines[idx + k] == w[k]
  }

  lemma LinesAtDrop(lines: seq<string>, idx: nat, w: seq<string>, n: nat)
    requires LinesAt(lines, idx, w) && n <= |w|
    ensures LinesAt(lines, idx + n, w[n..])
    ensures w != [] ==> idx < |lines| && lines[idx] == w[0]
  {
    forall k | 0 <= k < |w[n..]| ensures lines[idx + n + k] == w[n..][k] { assert lines[idx + (n + k)] == w[n + k]; }
    if w != [] { assert lines[idx + 0] == w[0]; }
  }

  lemma LineHex(id: RawID)
    requires IsBytes(id)
    ensures LineID(Hex(id)) == id
  {
    hide Hex, Unhex;
    UnhexHex(id);
  }

  lemma {:induction false} TermsFromLines(lines: seq<string>, idx: nat, ts: seq<RawTerm>)
    requires ByteTerms(ts) && LinesAt(lines, idx, TermLines(ts))
    ensures TermsFrom(lines, idx, |ts|) == ts && |TermLines(ts)| == 2 * |ts|
    decreases |ts|
  {
    hide Hex, LineID, LinesAt;
    if ts != [] {
      var w := TermLines(ts);
      LinesAtDrop(lines, idx, w, 0);
      LinesAtDrop(lines, idx, w, 1);
      LinesAtDrop(lines, idx + 1, w[1..], 1);
      assert w[1..][1..] == TermLines(ts[1..]);
      TermsFromLines(lines, idx + 2, ts[1..]);
      LineHex(ts[0].id);
      assert ts == [ts[0]] + ts[1..];
    }
  }

  /** The count line and the terms that AppendTerms wrote determine the terms. */
  lemma CountedLines(lines: seq<string>, idx: nat, ts: seq<RawTerm>)
    requires ByteTerms(ts) && LinesAt(lines, idx, CountedTerms(ts))
    ensures idx < |lines| && lines[idx] == Decimal(|ts|) && Scan(lines[idx], 0) == |ts|
    ensures TermsFrom(lines, idx + 1, |ts|) == ts && |CountedTerms(ts)| == 1 + 2 * |ts|
  {
    hide Scan, Decimal, TermsFrom, TermLines, LinesAt;
    var w := CountedTerms(ts);
    assert w[1..] == TermLines(ts);
    LinesAtDrop(lines, idx, w, 1);
    ScanDecimal(|ts|);
    TermsFromLines(lines, idx + 1, ts);
  }

  lemma CountedFromLines(lines: seq<string>, idx: nat, ts: seq<RawTerm>)
    requires ByteTerms(ts) && |ts| <= MAX_TERMS && LinesAt(lines, idx, CountedTerms(ts))
    ensures CountedFrom(lines, idx) == Done(Item(ts, idx + |CountedTerms(ts)|))
  {
    hide Scan, Decimal, TermsFrom, CountedTerms, LinesAt, CountOf;
    CountedLines(lines, idx, ts);
    CountDecimal(|ts|);
  }

  lemma {:induction false} TermLinesPlain(ts: seq<RawTerm>)
    requires ByteTerms(ts) && PlainTerms(ts)
    ensures AllOneLine(TermLines(ts))
  {
    if ts != [] {
      UnhexHex(ts[0].id);
      TermLinesPlain(ts[1..]);
    }
  }

  lemma ConflictLinesPlain(c: RawConflict)
    requires ByteTerms(c.removes) && ByteTerms(c.adds) && PlainTerms(c.removes) && PlainTerms(c.adds)
    ensures AllOneLine(ConflictLines(c))
  {
    TermLinesPlain(c.removes);
    TermLinesPlain(c.adds);
    ScanDecimal(|c.removes|);
    ScanDecimal(|c.adds|);
  }

  lemma {:induction false} PiecesAreLines(s: string)
    ensures AllOneLine(Pieces(s))
  {
    if s != "" { PiecesAreLines(s[1..]); }
  }

  lemma {:induction false} TermsFromPlain(lines: seq<string>, idx: nat, n: nat)
    requires AllOneLine(lines)
    ensures PlainTerms(TermsFrom(lines, idx, n))
    decreases n
  {
    if n > 0 && idx + 1 < |lines| { TermsFromPlain(lines, idx + 2, n - 1); }
  }

  /** What AppendTerms wrote is found again at its place. */
  lemma CountedAt(lines: seq<string>, idx: nat, ts: seq<RawTerm>, before: seq<string>, after: seq<string>)
    requires ByteTerms(ts) && |ts| <= MAX_TERMS && |before| == idx && before + CountedTerms(ts) + after <= lines
    ensures CountedFrom(lines, idx) == Done(Item(ts, idx + |CountedTerms(ts)|))
  {
    hide CountedFrom, CountedTerms;
    var w := CountedTerms(ts);
    var all := before + w + after;
    forall k | 0 <= k < |w| ensures lines[idx + k] == w[k] { assert lines[idx + k] == all[idx + k]; }
    CountedFromLines(lines, idx, ts);
  }

  lemma PlainConflict(c: RawConflict, lines: seq<string>)
    requires FitsConflict(c) && ConflictLines(c) <= lines
    ensures |lines| >= 2
    ensures var next := 1 + |CountedTerms(c.removes)|;
      CountedFrom(lines, 1) == Done(Item(c.removes, next)) && CountedFrom(lines, next).Done? &&
      CountedFrom(lines, next).value.value == c.adds
  {
    hide CountedFrom, TermLines, Decimal;
    var r, a := CountedTerms(c.removes), CountedTerms(c.adds);
    assert ConflictLines(c) == [CONFLICT_MAGIC] + r + a && ConflictLines(c) == ([CONFLICT_MAGIC] + r) + a + [];
    CountedAt(lines, 1, c.removes, [CONFLICT_MAGIC], a);
    CountedAt(lines, 1 + |r|, c.adds, [CONFLICT_MAGIC] + r, []);
  }

  /** A conflict whose ids are bytes and whose terms Go can hold. */
  predicate FitsConflict(c: RawConflict) {
    ByteTerms(c.removes) && ByteTerms(c.adds) && |c.removes| <= MAX_TERMS && |c.adds| <= MAX_TERMS
  }

  /** A conflict decodes to what was encoded, whatever follows it, exactly when no label holds a newline. */
  lemma ConflictRoundTrip(c: RawConflict, rest: string)
    requires FitsConflict(c)
    ensures DecodedConflict(Unlines(ConflictLines(c)) + rest) == Done(c) <==>
      PlainTerms(c.removes) && PlainTerms(c.adds)
  {
    hide Unlines, ConflictLines, Pieces, CountedFrom;
    var payload := Unlines(ConflictLines(c)) + rest;
    var lines := Pieces(TrimNewline(payload));
    if PlainTerms(c.removes) && PlainTerms(c.adds) {
      ConflictLinesPlain(c);
      SomeLines(c);
      LinesFirst(ConflictLines(c), rest);
      PlainConflict(c, lines);
    } else if DecodedConflict(payload).Done? {
      PiecesAreLines(TrimNewline(payload));
      CountedPlain(lines, 1);
      if |lines| >= 2 { CountedPlain(lines, CountedFrom(lines, 1).value.next); }
    }
  }

  lemma SomeLines(c: RawConflict)
    requires ByteTerms(c.removes) && ByteTerms(c.adds)
    ensures ConflictLines(c) != []
  {
  }

  lemma CountedPlain(lines: seq<string>, idx: nat)
    requires AllOneLine(lines)
    ensures CountedFrom(lines, idx).Done? ==> PlainTerms(CountedFrom(lines, idx).value.value)
  {
    if idx < |lines| && CountedFrom(lines, idx).Done? { TermsFromPlain(lines, idx + 1, CountOf(lines[idx])); }
  }

  // ---- Objects ---------------------------------------------------------------------------------------------

  predicate Encodable(o: RawObject) {
    match o
    case RawBlob(_) => true
    case RawTreeObject(t) => FitsTree(t)
    case RawConflictObject(c) => FitsConflict(c)
  }

  function ObjectBytes(o: RawObject): string
    requires Encodable(o)
  {
    match o
    case RawBlob(d) => d
    case RawTreeObject(t) => TREE_MAGIC + TreeBytes(t)
    case RawConflictObject(c) => Unlines(ConflictLines(c))
  }

  /** EncodeObject. */
  method EncodeObject(o: RawObject) returns (b: string)
    requires Encodable(o)
    ensures b == ObjectBytes(o)
  {
    match o
    case RawBlob(d) => b := d;
    case RawTreeObject(t) => b := AppendTree(TREE_MAGIC, t);
    case RawConflictObject(c) => b := EncodeConflictBytes(c);
  }

  function DecodedObject(payload: string): Parse<RawObject> {
    if payload == "" then Bad("empty object payload")
    else if CONFLICT_MAGIC <= payload then
      var c :- DecodedConflict(payload);
      Done(RawConflictObject(c))
    else if TREE_MAGIC <= payload then
      var p :- ReadTree(payload[|TREE_MAGIC|..]);
      Done(RawTreeObject(p.tree))
    else Done(RawBlob(payload))
  }

  /** DecodeObject. A truncated tree is not an error here: its first entries are returned. */
  method DecodeObject(payload: string) returns (r: Parse<RawObject>)
    ensures r == DecodedObject(payload)
  {
    if |payload| == 0 { return Bad("empty object payload"); }
    if CONFLICT_MAGIC <= payload {
      var c := DecodeConflictBytes(payload);
      if !c.Done? { return c.PropagateFailure(); }
      return Done(RawConflictObject(c.value));
    }
    if TREE_MAGIC <= payload {
      var p := DecodeEntries(payload[|TREE_MAGIC|..]);
      if !p.Done? { return p.PropagateFailure(); }
      return Done(RawTreeObject(p.value.tree));
    }
    r := Done(RawBlob(payload));
  }

  /** Objects whose stored form reads back as themselves. */
  predicate Survives(o: RawObject) {
    match o
    case RawBlob(d) => d != "" && !(CONFLICT_MAGIC <= d) && !(TREE_MAGIC <= d)
    case RawTreeObject(t) => NamedByKey(t)
    case RawConflictObject(c) => PlainTerms(c.removes) && PlainTerms(c.adds)
  }

  lemma TreeObjectRoundTrip(t: RawTree)
    requires FitsTree(t) && |TREE_MAGIC + TreeBytes(t)| < TWO63
    ensures DecodedObject(TREE_MAGIC + TreeBytes(t)) == Done(RawTreeObject(t)) <==> NamedByKey(t)
  {
    hide TreeBytes, ReadTree, Reread, DecodedConflict, NamedByKey;
    var b := TREE_MAGIC + TreeBytes(t);
    assert b[8] == TREE_MAGIC[8] == 't' && CONFLICT_MAGIC[8] == 'c';
    assert b[|TREE_MAGIC|..] == TreeBytes(t);
    assert TreeBytes(t) + "" == TreeBytes(t);
    TreeRoundTrip(t, "");
    ReadTreeAt(t, "");
  }

  lemma ConflictObjectRoundTrip(c: RawConflict)
    requires FitsConflict(c)
    ensures DecodedObject(Unlines(ConflictLines(c))) == Done(RawConflictObject(c)) <==>
      PlainTerms(c.removes) && PlainTerms(c.adds)
  {
    hide DecodedConflict, ConflictLines, Unlines, PlainTerms, ReadTree;
    var b := Unlines(ConflictLines(c));
    ConflictStarts(c);
    ConflictRoundTrip(c, "");
    assert b + "" == b;
  }

  /** DecodeObject inverts EncodeObject exactly on the objects that survive: not on an empty blob, nor
      on one that starts with a magic header. */
  lemma ObjectRoundTrip(o: RawObject)
    requires Encodable(o) && |ObjectBytes(o)| < TWO63
    ensures DecodedObject(ObjectBytes(o)) == Done(o) <==> Survives(o)
  {
    hide TreeBytes, ReadTree, DecodedConflict, ConflictLines, Unlines;
    match o
    case RawBlob(d) =>
    case RawTreeObject(t) => TreeObjectRoundTrip(t);
    case RawConflictObject(c) => ConflictObjectRoundTrip(c);
  }

  lemma ConflictStarts(c: RawConflict)
    requires ByteTerms(c.removes) && ByteTerms(c.adds)
    ensures CONFLICT_MAGIC <= Unlines(ConflictLines(c))
  {
  }

  lemma {:induction false} ReadEntriesNamed(payload: string, off: int, n: int, t: RawTree)
    requires NamedByKey(t) && ReadEntries(payload, off, n, t).Done?
    ensures NamedByKey(ReadEntries(payload, off, n, t).value.tree)
    decreases if n <= 0 then 0 else n
  {
    hide ReadEntry;
    if n > 0 {
      match ReadEntry(payload, off)
      case Bad(_) =>
      case Panics =>
      case Done(e) => ReadEntriesNamed(payload, e.next, n - 1, t[e.value.name := e.value]);
    }
  }

  lemma DecodedTreeNamed(payload: string)
    requires ReadTree(payload).Done?
    ensures NamedByKey(ReadTree(payload).value.tree)
  {
    hide ReadLen, ReadEntries;
    var count := ReadLen(payload, 0).value;
    ReadEntriesNamed(payload, count.next, count.value, map[]);
  }

  lemma DecodedConflictPlain(payload: string)
    requires DecodedConflict(payload).Done?
    ensures PlainTerms(DecodedConflict(payload).value.removes) && PlainTerms(DecodedConflict(payload).value.adds)
  {
    hide CountedFrom, Pieces;
    var lines := Pieces(TrimNewline(payload));
    PiecesAreLines(TrimNewline(payload));
    if |lines| >= 2 {
      CountedPlain(lines, 1);
      CountedPlain(lines, CountedFrom(lines, 1).value.next);
    }
  }

  /** Whatever is decoded, from whatever bytes, survives being stored and read again. */
  lemma DecodedSurvives(payload: string)
    requires DecodedObject(payload).Done?
    ensures Survives(DecodedObject(payload).value)
  {
    hide DecodedConflict, ReadTree, NamedByKey, PlainTerms;
    if payload == "" {
    } else if CONFLICT_MAGIC <= payload {
      DecodedConflictPlain(payload);
    } else if TREE_MAGIC <= payload {
      DecodedTreeNamed(payload[|TREE_MAGIC|..]);
    }
  }
}
