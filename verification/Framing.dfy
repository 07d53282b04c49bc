/**
 * The binary frame of a bundle: a magic header, two 32-bit lengths, a metadata header, and the object
 * payloads end to end (MarshalBinary, UnmarshalBinary), compressed or not. The JSON text of the
 * metadata and the gzip format are parameters: an encoder and a decoder each.
 */
module Framing {
  import opened Prelude
  import opened Codec

  const BUNDLE_MAGIC := "EVCSBUN\0"
  const TWO32: nat := 0x1_0000_0000

  datatype Record = Record(kind: int, content: string)

  /** Kind and payload length of an object. */
  datatype Descriptor = Descriptor(kind: int, len: int)

  /** The metadata header; `meta` stands for version, repository, revisions, snapshots and refs. */
  datatype Header<H> = Header(meta: H, objects: seq<Descriptor>)

  datatype Framed<H> = Framed(meta: H, objects: seq<Record>)

  function Payloads(rs: seq<Record>): string {
    if rs == [] then "" else Payloads(rs[..|rs| - 1]) + rs[|rs| - 1].content
  }

  function Descriptors(rs: seq<Record>): (ds: seq<Descriptor>)
    ensures |ds| == |rs|
  {
    seq(|rs|, i requires 0 <= i < |rs| => Descriptor(rs[i].kind, |rs[i].content|))
  }

  /** binary.LittleEndian.PutUint32(_, uint32(n)) */
  function Put32(n: nat): string {
    var w := n % TWO32;
    [(w % 256) as char, (w / 256 % 256) as char, (w / 65536 % 256) as char, (w / 16777216) as char]
  }

  function Get32(s: string): nat
    requires |s| == 4
  {
    s[0] as int % 256 + 256 * (s[1] as int % 256) + 65536 * (s[2] as int % 256) + 16777216 * (s[3] as int % 256)
  }

  /** A 32-bit word is the sum of its bytes. */
  lemma BytesOf(w: nat)
    requires w < TWO32
    ensures w / 16777216 < 256
    ensures w == w % 256 + 256 * (w / 256 % 256) + 65536 * (w / 65536 % 256) + 16777216 * (w / 16777216)
  {
    assert w == 256 * (w / 256) + w % 256;
    assert w / 256 == 256 * (w / 65536) + w / 256 % 256;
    assert w / 65536 == 256 * (w / 16777216) + w / 65536 % 256;
  }

  lemma Get32Put32(n: nat)
    ensures Get32(Put32(n)) == n % TWO32
  {
    var w := n % TWO32;
    BytesOf(w);
    ByteBack(w % 256);
    ByteBack(w / 256 % 256);
    ByteBack(w / 65536 % 256);
    ByteBack(w / 16777216);
  }

  lemma ByteBack(x: nat)
    requires x < 256
    ensures x as char as int % 256 == x
  {
  }

  function Frame(header: string, body: string): string {
    BUNDLE_MAGIC + (Put32(|header|) + Put32(|body|)) + header + body
  }

  /** MarshalBinary. */
  method MarshalBinary<H>(b: Framed<H>, encode: Header<H> -> string) returns (buf: string)
    ensures buf == Frame(encode(Header(b.meta, Descriptors(b.objects))), Payloads(b.objects))
  {
    var ds: seq<Descriptor> := [];
    var body := "";
    for i := 0 to |b.objects|
      invariant ds == Descriptors(b.objects[..i]) && body == Payloads(b.objects[..i])
    {
      TakeInit(b.objects, i);
      ds := ds + [Descriptor(b.objects[i].kind, |b.objects[i].content|)];
      body := body + b.objects[i].content;
    }
    WholeSlices(b.objects);
    var header := encode(Header(b.meta, ds));
    buf := BUNDLE_MAGIC;
    buf := buf + (Put32(|header|) + Put32(|body|));
    buf := buf + header;
    buf := buf + body;
  }

  /** Cutting the body into payloads. A negative length from a foreign header panics. */
  function Cut(body: string, offset: nat, ds: seq<Descriptor>): Parse<seq<Record>>
    decreases |ds|
  {
    if ds == [] then Done([])
    else
      var end := Plus(offset, ds[0].len);
      if end > |body| then Bad("truncated object payload")
      else if end < offset then Panics
      else
        var rest :- Cut(body, end, ds[1..]);
        Done([Record(ds[0].kind, body[offset..end])] + rest)
  }

  /** Data that starts like a gzip stream is decompressed first. */
  predicate LooksCompressed(data: string) { |data| >= 2 && data[0] == 31 as char && data[1] == 139 as char }

  function Unmarshaled<H>(data: string, gunzip: string -> Option<string>,
      decode: string -> Option<Header<H>>): Parse<Framed<H>> {
    if !LooksCompressed(data) then Unframed(data, decode)
    else match gunzip(data) case None => Bad("bad gzip stream") case Some(raw) => Unframed(raw, decode)
  }

  function Unframed<H>(data: string, decode: string -> Option<Header<H>>): Parse<Framed<H>> {
    if !(BUNDLE_MAGIC <= data) then Bad("not a binary bundle")
    else if |data| < 16 then Bad("truncated bundle header")
    else
      var h, b := Get32(data[8..12]), Get32(data[12..16]);
      if |data| - 16 < h + b then Bad("truncated bundle body")
      else
        match decode(data[16..16 + h])
        case None => Bad("bad header")
        case Some(header) =>
          var rs :- Cut(data[16 + h..16 + h + b], 0, header.objects);
          Done(Framed(header.meta, rs))
  }

  /** UnmarshalBinary. */
  method UnmarshalBinary<H>(data: string, gunzip: string -> Option<string>, decode: string -> Option<Header<H>>)
    returns (r: Parse<Framed<H>>)
    ensures r == Unmarshaled(data, gunzip, decode)
  {
    var plain := data;
    if LooksCompressed(data) {
      var raw := gunzip(data);
      if raw.None? { return Bad("bad gzip stream"); }
      plain := raw.value;
    }
    r := Unframe(plain, decode);
  }

  /** The frame itself. */
  method Unframe<H>(data: string, decode: string -> Option<Header<H>>) returns (r: Parse<Framed<H>>)
    ensures r == Unframed(data, decode)
  {
    if !(BUNDLE_MAGIC <= data) { return Bad("not a binary bundle"); }
    var rest := data[|BUNDLE_MAGIC|..];
    if |rest| < 8 { return Bad("truncated bundle header"); }
    var headerLen, bodyLen := Get32(rest[0..4]), Get32(rest[4..8]);
    assert rest[0..4] == data[8..12] && rest[4..8] == data[12..16];
    rest := rest[8..];
    if |rest| < headerLen + bodyLen { return Bad("truncated bundle body"); }
    var headerText, body := rest[..headerLen], rest[headerLen..headerLen + bodyLen];
    assert headerText == data[16..16 + headerLen] && body == data[16 + headerLen..16 + headerLen + bodyLen];
    match decode(headerText)
    case None => return Bad("bad header");
    case Some(header) =>
      var out: seq<Record> := [];
      var offset := 0;
      assert header.objects[0..] == header.objects;
      AfterNone(Cut(body, 0, header.objects));
      for i := 0 to |header.objects|
        invariant 0 <= offset <= |body|
        invariant Cut(body, 0, header.objects) == AfterThese(out, Cut(body, offset, header.objects[i..]))
      {
        var od := header.objects[i];
        assert header.objects[i..][0] == od && header.objects[i..][1..] == header.objects[i + 1..];
        var end := Plus(offset, od.len);
        if end > |body| { return Bad("truncated object payload"); }
        if end < offset { return Panics; }
        var o := Record(od.kind, body[offset..end]);
        AfterMore(out, o, Cut(body, end, header.objects[i + 1..]));
        out := out + [o];
        offset := end;
      }
      assert out + [] == out;
      r := Done(Framed(header.meta, out));
  }

  function AfterThese(rs: seq<Record>, r: Parse<seq<Record>>): Parse<seq<Record>> {
    var rest :- r;
    Done(rs + rest)
  }

  lemma AfterNone(r: Parse<seq<Record>>)
    ensures AfterThese([], r) == r
  {
    if r.Done? { assert [] + r.value == r.value; }
  }

  lemma AfterMore(rs: seq<Record>, o: Record, r: Parse<seq<Record>>)
    ensures AfterThese(rs + [o], r) == AfterThese(rs, AfterThese([o], r))
  {
    if r.Done? { assert (rs + [o]) + r.value == rs + ([o] + r.value); }
  }

  lemma {:induction false} PayloadsConcat(a: seq<Record>, b: seq<Record>)
    ensures Payloads(a + b) == Payloads(a) + Payloads(b)
    decreases |b|
  {
    if b == [] {
      assert a + b == a;
    } else {
      assert (a + b)[..|a + b| - 1] == a + b[..|b| - 1];
      PayloadsConcat(a, b[..|b| - 1]);
    }
  }

  lemma PayloadsCons(rs: seq<Record>)
    requires rs != []
    ensures Payloads(rs) == rs[0].content + Payloads(rs[1..])
    ensures Descriptors(rs)[0] == Descriptor(rs[0].kind, |rs[0].content|) &&
      Descriptors(rs)[1..] == Descriptors(rs[1..])
  {
    assert rs == [rs[0]] + rs[1..];
    PayloadsConcat([rs[0]], rs[1..]);
    assert [rs[0]][..0] == [];
  }

  lemma {:induction false} CutAll(body: string, offset: nat, rs: seq<Record>)
    requires offset <= |body| < TWO63 && body[offset..] == Payloads(rs)
    ensures Cut(body, offset, Descriptors(rs)) == Done(rs)
    decreases |rs|
  {
    hide Payloads, Descriptors;
    if rs == [] {
      assert Descriptors(rs) == [];
    } else {
      PayloadsCons(rs);
      var end := offset + |rs[0].content|;
      assert body[offset..end] == body[offset..][..|rs[0].content|] == rs[0].content;
      assert body[end..] == body[offset..][|rs[0].content|..] == Payloads(rs[1..]);
      CutAll(body, end, rs[1..]);
      assert [rs[0]] + rs[1..] == rs;
    }
  }

  lemma {:induction false} CutShort(body: string, offset: nat, rs: seq<Record>)
    requires offset <= |body| < offset + |Payloads(rs)| < TWO63
    ensures Cut(body, offset, Descriptors(rs)).Bad?
    decreases |rs|
  {
    hide Payloads, Descriptors;
    NoPayloads();
    if rs != [] {
      PayloadsCons(rs);
      var end := offset + |rs[0].content|;
      if end <= |body| { CutShort(body, end, rs[1..]); }
    }
  }

  lemma NoPayloads()
    ensures Payloads([]) == ""
  {
  }

  lemma FrameParts(header: string, body: string, rest: string)
    ensures var data := Frame(header, body) + rest;
      BUNDLE_MAGIC <= data && |data| == 16 + |header| + |body| + |rest| &&
      data[8..12] == Put32(|header|) && data[12..16] == Put32(|body|) && data[16..] == header + body + rest
  {
    var data := Frame(header, body) + rest;
    assert data == BUNDLE_MAGIC + (Put32(|header|) + (Put32(|body|) + (header + body + rest)));
  }

  lemma FrameSlices(data: string, header: string, body: string, rest: string, n: nat)
    requires |data| == 16 + |header| + |body| + |rest| && data[16..] == header + body + rest && n <= |body|
    ensures data[16..16 + |header|] == header && data[16 + |header|..16 + |header| + n] == body[..n]
  {
    assert data[16..16 + |header|] == data[16..][..|header|];
    assert data[16 + |header|..16 + |header| + n] == data[16..][|header|..|header| + n];
  }

  /** The frame of a bundle. */
  function FrameOf<H>(b: Framed<H>, encode: Header<H> -> string): string {
    Frame(encode(Header(b.meta, Descriptors(b.objects))), Payloads(b.objects))
  }

  /** The header text decodes to the header and, like every JSON object, no proper prefix of it decodes. */
  ghost predicate Decodable<H>(b: Framed<H>, encode: Header<H> -> string, decode: string -> Option<Header<H>>) {
    var h := Header(b.meta, Descriptors(b.objects));
    decode(encode(h)) == Some(h) && forall k :: 0 <= k < |encode(h)| ==> decode(encode(h)[..k]) == None
  }

  predicate Below4GiB<H>(b: Framed<H>, encode: Header<H> -> string) {
    |encode(Header(b.meta, Descriptors(b.objects)))| < TWO32 && |Payloads(b.objects)| < TWO32
  }

  /** What the two length fields of a frame cut out of it. */
  lemma FrameCut<H>(b: Framed<H>, encode: Header<H> -> string, decode: string -> Option<Header<H>>, rest: string)
    ensures var header, body := encode(Header(b.meta, Descriptors(b.objects))), Payloads(b.objects);
      var k, n := |header| % TWO32, |body| % TWO32;
      var data := FrameOf(b, encode) + rest;
      |data| >= 16 + k + n &&
      Unframed(data, decode) ==
      match decode(header[..k])
      case None => Bad("bad header")
      case Some(h) =>
        var rs :- Cut(data[16 + k..16 + k + n], 0, h.objects);
        Done(Framed(h.meta, rs))
  {
    hide Payloads, Descriptors, Put32, Get32, Frame, Cut;
    var header, body := encode(Header(b.meta, Descriptors(b.objects))), Payloads(b.objects);
    var data := Frame(header, body) + rest;
    FrameParts(header, body, rest);
    Get32Put32(|header|);
    Get32Put32(|body|);
    HeaderSlice(data, header, body + rest, |header| % TWO32);
  }

  lemma HeaderSlice(data: string, header: string, rest: string, k: nat)
    requires |data| >= 16 && data[16..] == header + rest && k <= |header|
    ensures |data| >= 16 + k && data[16..16 + k] == header[..k]
  {
    assert data[16..16 + k] == data[16..][..k];
  }

  /** A bundle survives the frame, whatever follows it, exactly when its header and its payloads together
      are both shorter than 4 GiB: the two lengths are cut to 32 bits. */
  lemma FrameRoundTrip<H>(b: Framed<H>, encode: Header<H> -> string, decode: string -> Option<Header<H>>, rest: string)
    requires Decodable(b, encode, decode) && |FrameOf(b, encode) + rest| < TWO63
    ensures Unframed(FrameOf(b, encode) + rest, decode) == Done(b) <==> Below4GiB(b, encode)
  {
    hide Payloads, Descriptors, Put32, Get32, Frame, Cut, Unframed;
    var header, body := encode(Header(b.meta, Descriptors(b.objects))), Payloads(b.objects);
    var data := FrameOf(b, encode) + rest;
    FrameCut(b, encode, decode, rest);
    FrameParts(header, body, rest);
    if |header| < TWO32 {
      assert header[..|header|] == header;
      var n := |body| % TWO32;
      FrameSlices(data, header, body, rest, n);
      if |body| < TWO32 {
        assert body[..n] == body && body[0..] == body;
        CutAll(body, 0, b.objects);
      } else {
        CutShort(body[..n], 0, b.objects);
      }
    }
  }

  /** The same for a bundle that was compressed (CompressBundle), and for one that was not: a frame is
      never taken for a gzip stream. */
  lemma CompressedRoundTrip<H>(b: Framed<H>, encode: Header<H> -> string, decode: string -> Option<Header<H>>,
      gzip: string -> string, gunzip: string -> Option<string>)
    requires Decodable(b, encode, decode) && |FrameOf(b, encode)| < TWO63
    requires var frame := FrameOf(b, encode); LooksCompressed(gzip(frame)) && gunzip(gzip(frame)) == Some(frame)
    ensures Unmarshaled(gzip(FrameOf(b, encode)), gunzip, decode) == Done(b) <==> Below4GiB(b, encode)
    ensures Unmarshaled(FrameOf(b, encode), gunzip, decode) == Done(b) <==> Below4GiB(b, encode)
  {
    hide Unframed, Below4GiB, Decodable;
    assert FrameOf(b, encode) + "" == FrameOf(b, encode);
    FrameRoundTrip(b, encode, decode, "");
    assert FrameOf(b, encode)[0] == 'E';
  }
}
