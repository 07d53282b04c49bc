/**
 * The metadata codecs: snapshot meta, revision body and trees as length-prefixed binary. Decoding is
 * modelled on every payload, with the error returns, the wrap-around of Go's int and the run-time
 * panic of a slice out of bounds.
 */
module Codec {
  import opened Prelude
  import opened Varint

  const TWO63: nat := 0x8000_0000_0000_0000

  const ZEROS := "\0\0\0\0\0\0\0\0\0\0\0\0\0\0\0\0\0\0\0\0\0\0\0\0\0\0\0\0\0\0\0\0"

  type RawID = s: string | |s| == 32 witness ZEROS

  /** What a decoder does: return a value, return an error, or panic. */
  datatype Parse<T> = Done(value: T) | Bad(error: string) | Panics {
    predicate IsFailure() { !Done? }

    function PropagateFailure<U>(): Parse<U>
      requires IsFailure()
    {
      match this case Bad(e) => Bad(e) case Panics => Panics
    }

    function Extract(): T
      requires !IsFailure()
    {
      value
    }
  }

  /** A decoded item and the offset after it. */
  datatype Item<T> = Item(value: T, next: int)

  /** int(u) of a uint64. */
  function ToInt(u: nat): int { if u < TWO63 then u else u - TWO64 }

  /** The sum of two ints, wrapped to 64 bits. */
  function Plus(a: int, b: int): int {
    if a + b >= TWO63 then a + b - TWO64 else if a + b + TWO63 < 0 then a + b + TWO64 else a + b
  }

  predicate Fits(s: string) { |s| < TWO63 }

  // ---- Reading one item ------------------------------------------------------------------------------

  /** readUvarint(payload[off:]): the value as an int, and the offset after it. Slicing before the
      start or past the end panics. */
  function ReadLen(payload: string, off: int): Parse<Item<int>> {
    if !(0 <= off <= |payload|) then Panics
    else
      var n := GroupLen(payload[off..]);
      Done(Item(ToInt(Leb(payload[off..][..n]) % TWO64), off + n))
  }

  /** payload[off : off+l], where `payload` reaches to the capacity */
  function Slice(payload: string, off: int, l: int): Parse<string> {
    var end := Plus(off, l);
    if 0 <= off <= end <= |payload| then Done(payload[off..end]) else Panics
  }

  /** copy(id[:], bytes) */
  function CopyID(bytes: string): RawID {
    if |bytes| >= 32 then bytes[..32] else bytes + ZEROS[|bytes|..]
  }

  method DecodeLen(payload: string, off: int) returns (r: Parse<Item<int>>)
    ensures r == ReadLen(payload, off)
  {
    if !(0 <= off <= |payload|) { return Panics; }
    var v, n := ReadUvarint(payload[off..]);
    r := Done(Item(ToInt(v), off + n));
  }

  /** A length-prefixed string. */
  function Str(s: string): string { Uvarint(|s|) + s }

  /** Reading back what was appended at any place in a payload. */
  lemma ReadLenAt(payload: string, pre: string, v: nat, post: string)
    requires payload == pre + Uvarint(v) + post && v < TWO63
    ensures ReadLen(payload, |pre|) == Done(Item(v, |pre| + |Uvarint(v)|))
  {
    UvarintRoundTrip(v, post);
    assert payload[|pre|..] == Uvarint(v) + post;
  }

  lemma SliceAt(payload: string, pre: string, s: string, post: string)
    requires payload == pre + s + post && |payload| < TWO63
    ensures Slice(payload, |pre|, |s|) == Done(s)
  {
  }

  // ---- Snapshot meta -----------------------------------------------------------------------------------

  datatype Meta = Meta(parents: seq<RawID>, name: string, email: string, description: string)

  function IDsBytes(ids: seq<RawID>): string {
    if ids == [] then "" else IDsBytes(ids[..|ids| - 1]) + Str(ids[|ids| - 1])
  }

  function MetaBytes(m: Meta): string {
    Uvarint(|m.parents|) + IDsBytes(m.parents) + Str(m.name) + Str(m.email) + Str(m.description)
  }

  method AppendString(buf: string, s: string) returns (r: string)
    requires Fits(s)
    ensures r == buf + Str(s)
  {
    r := AppendUvarint(buf, |s|);
    r := r + s;
  }

  /** EncodeSnapshotMeta. */
  method EncodeSnapshotMeta(m: Meta) returns (buf: string)
    requires |m.parents| < TWO63 && Fits(m.name) && Fits(m.email) && Fits(m.description)
    ensures buf == MetaBytes(m)
  {
    hide Uvarint;
    buf := AppendUvarint("", |m.parents|);
    for i := 0 to |m.parents|
      invariant buf == Uvarint(|m.parents|) + IDsBytes(m.parents[..i])
    {
      TakeInit(m.parents, i);
      buf := AppendUvarint(buf, 32);
      buf := buf + m.parents[i];
    }
    WholeSlices(m.parents);
    buf := AppendString(buf, m.name);
    buf := AppendString(buf, m.email);
    buf := AppendString(buf, m.description);
  }

  /** One parent id: its length, checked against the end, and up to 32 of its bytes. */
  function ReadID(payload: string, off: int): Parse<Item<RawID>> {
    var len :- ReadLen(payload, off);
    var end := Plus(len.next, len.value);
    if end > |payload| then Bad("truncated snapshot parents")
    else if len.value <= 0 then Done(Item(ZEROS, end))
    else
      var bytes :- Slice(payload, len.next, len.value);
      Done(Item(CopyID(bytes), end))
  }

  function ReadIDs(payload: string, off: int, n: int): Parse<Item<seq<RawID>>>
    decreases if n <= 0 then 0 else n
  {
    if n <= 0 then Done(Item([], off))
    else
      var first :- ReadID(payload, off);
      Prepend([first.value], ReadIDs(payload, first.next, n - 1))
  }

  function Prepend(ids: seq<RawID>, r: Parse<Item<seq<RawID>>>): Parse<Item<seq<RawID>>> {
    var rest :- r;
    Done(Item(ids + rest.value, rest.next))
  }

  /** A length-prefixed string, sliced without a check. Go bounds the end of a slice by the capacity:
      such a string may run on into `spare`, the bytes between the length of the payload and its
      capacity, while reading on from behind the length panics. */
  function ReadString(payload: string, spare: string, off: int): Parse<Item<string>> {
    var len :- ReadLen(payload, off);
    var bytes :- Slice(payload + spare, len.next, len.value);
    Done(Item(bytes, Plus(len.next, len.value)))
  }

  function ReadTail(payload: string, spare: string, off: int, parents: seq<RawID>): Parse<Meta> {
    var name :- ReadString(payload, spare, off);
    var email :- ReadString(payload, spare, name.next);
    var description :- ReadString(payload, spare, email.next);
    Done(Meta(parents, name.value, email.value, description.value))
  }

  function DecodeMeta(payload: string, spare: string): Parse<Meta> {
    var count :- ReadLen(payload, 0);
    if count.next == |payload| then Bad("truncated snapshot meta")
    else
      var parents :- ReadIDs(payload, count.next, count.value);
      ReadTail(payload, spare, parents.next, parents.value)
  }

  lemma ReadStringAt(payload: string, spare: string, pre: string, s: string, post: string)
    requires payload == pre + Str(s) + post && |payload + spare| < TWO63
    ensures ReadString(payload, spare, |pre|) == Done(Item(s, |pre + Str(s)|))
  {
    assert payload == pre + Uvarint(|s|) + (s + post);
    assert payload + spare == (pre + Uvarint(|s|)) + s + (post + spare);
    ReadLenAt(payload, pre, |s|, s + post);
    SliceAt(payload + spare, pre + Uvarint(|s|), s, post + spare);
  }

  lemma ReadIDAt(payload: string, pre: string, id: RawID, post: string)
    requires payload == pre + Str(id) + post && |payload| < TWO63
    ensures ReadID(payload, |pre|) == Done(Item(id, |pre + Str(id)|))
  {
    assert payload == pre + Uvarint(|id|) + (id + post) && payload == (pre + Uvarint(|id|)) + id + post;
    ReadLenAt(payload, pre, |id|, id + post);
    SliceAt(payload, pre + Uvarint(|id|), id, post);
    assert id[..32] == id;
  }

  lemma {:induction false} IDsBytesCons(ids: seq<RawID>)
    requires ids != []
    ensures IDsBytes(ids) == Str(ids[0]) + IDsBytes(ids[1..])
  {
    hide Str;
    var init := ids[..|ids| - 1];
    if init == [] {
      assert ids[1..] == [];
    } else {
      IDsBytesCons(init);
      assert ids[1..][..|ids[1..]| - 1] == init[1..];
    }
  }

  lemma {:induction false} ReadIDsAt(payload: string, pre: string, ids: seq<RawID>, post: string)
    requires payload == pre + IDsBytes(ids) + post && |payload| < TWO63
    ensures ReadIDs(payload, |pre|, |ids|) == Done(Item(ids, |pre + IDsBytes(ids)|))
    decreases |ids|
  {
    hide Str, ReadID;
    if ids != [] {
      IDsBytesCons(ids);
      assert payload == pre + Str(ids[0]) + (IDsBytes(ids[1..]) + post);
      ReadIDAt(payload, pre, ids[0], IDsBytes(ids[1..]) + post);
      ReadIDsAt(payload, pre + Str(ids[0]), ids[1..], post);
      assert [ids[0]] + ids[1..] == ids;
    }
  }

  /** Snapshot meta decodes to what was encoded, whatever follows it. */
  lemma MetaRoundTrip(m: Meta, rest: string, spare: string)
    requires |MetaBytes(m) + rest + spare| < TWO63 && |m.parents| < TWO63
    ensures DecodeMeta(MetaBytes(m) + rest, spare) == Done(m)
  {
    hide Str, ReadString, ReadLen, ReadIDs, IDsBytes;
    var payload := MetaBytes(m) + rest;
    var a, b := Uvarint(|m.parents|), IDsBytes(m.parents);
    var c, d, e := Str(m.name), Str(m.email), Str(m.description);
    assert payload == "" + a + (b + c + d + e + rest);
    ReadLenAt(payload, "", |m.parents|, b + c + d + e + rest);
    assert |c| > 0 by { StrSome(m.name); }
    assert payload == a + b + (c + d + e + rest);
    ReadIDsAt(payload, a, m.parents, c + d + e + rest);
    assert payload == (a + b) + c + (d + e + rest);
    ReadStringAt(payload, spare, a + b, m.name, d + e + rest);
    assert payload == (a + b + c) + d + (e + rest);
    ReadStringAt(payload, spare, a + b + c, m.email, e + rest);
    assert payload == (a + b + c + d) + e + rest;
    ReadStringAt(payload, spare, a + b + c + d, m.description, rest);
  }

  lemma StrSome(s: string)
    ensures Str(s) != ""
  {
  }

  /** DecodeSnapshotMeta. */
  method DecodeSnapshotMeta(payload: string, spare: string) returns (r: Parse<Meta>)
    ensures r == DecodeMeta(payload, spare)
  {
    hide ReadLen, ReadID, ReadTail;
    var count := DecodeLen(payload, 0);
    if !count.Done? { return count.PropagateFailure(); }
    var n, off := count.value.value, count.value.next;
    if off == |payload| { return Bad("truncated snapshot meta"); }
    var parents: seq<RawID> := [];
    PrependNothing(ReadIDs(payload, off, n));
    var i := 0;
    while i < n
      invariant 0 <= i && (i <= n || (i == 0 && n < 0))
      invariant ReadIDs(payload, count.value.next, n) == Prepend(parents, ReadIDs(payload, off, n - i))
    {
      var id := DecodeID(payload, off);
      if !id.Done? { return id.PropagateFailure(); }
      PrependMore(parents, id.value.value, ReadIDs(payload, id.value.next, n - i - 1));
      parents := parents + [id.value.value];
      off := id.value.next;
      i := i + 1;
    }
    assert parents + [] == parents;
    r := DecodeTail(payload, spare, off, parents);
  }

  lemma PrependNothing(r: Parse<Item<seq<RawID>>>)
    ensures Prepend([], r) == r
  {
    if r.Done? { assert [] + r.value.value == r.value.value; }
  }

  lemma PrependMore(ids: seq<RawID>, id: RawID, r: Parse<Item<seq<RawID>>>)
    ensures Prepend(ids + [id], r) == Prepend(ids, Prepend([id], r))
  {
    if r.Done? { assert (ids + [id]) + r.value.value == ids + ([id] + r.value.value); }
  }

  method DecodeID(payload: string, off: int) returns (r: Parse<Item<RawID>>)
    ensures r == ReadID(payload, off)
  {
    hide ReadLen;
    var l := DecodeLen(payload, off);
    if !l.Done? { return l.PropagateFailure(); }
    var at, len := l.value.next, l.value.value;
    if Plus(at, len) > |payload| { return Bad("truncated snapshot parents"); }
    var pid: RawID := ZEROS;
    if len > 0 {
      var bytes := Slice(payload, at, len);
      if !bytes.Done? { return bytes.PropagateFailure(); }
      pid := CopyID(bytes.value);
    }
    r := Done(Item(pid, Plus(at, len)));
  }

  method DecodeString(payload: string, spare: string, off: int) returns (r: Parse<Item<string>>)
    ensures r == ReadString(payload, spare, off)
  {
    hide ReadLen;
    var l := DecodeLen(payload, off);
    if !l.Done? { return l.PropagateFailure(); }
    var bytes := Slice(payload + spare, l.value.next, l.value.value);
    if !bytes.Done? { return bytes.PropagateFailure(); }
    r := Done(Item(bytes.value, Plus(l.value.next, l.value.value)));
  }

  method DecodeTail(payload: string, spare: string, off: int, parents: seq<RawID>) returns (r: Parse<Meta>)
    ensures r == ReadTail(payload, spare, off, parents)
  {
    hide ReadString;
    var name := DecodeString(payload, spare, off);
    if !name.Done? { return name.PropagateFailure(); }
    var email := DecodeString(payload, spare, name.value.next);
    if !email.Done? { return email.PropagateFailure(); }
    var description := DecodeString(payload, spare, email.value.next);
    if !description.Done? { return description.PropagateFailure(); }
    r := Done(Meta(parents, name.value.value, email.value.value, description.value.value));
  }

  // ---- Revision body --------------------------------------------------------------------------------------

  datatype Body = Body(current: RawID, forkFrom: string)

  function BodyBytes(b: Body): string { b.current + Str(b.forkFrom) }

  /** EncodeRevisionBody. */
  method EncodeRevisionBody(b: Body) returns (buf: string)
    requires Fits(b.forkFrom)
    ensures buf == BodyBytes(b)
  {
    buf := AppendString(b.current, b.forkFrom);
  }

  function DecodeBody(body: string): Parse<Body> {
    if |body| < 32 then Bad("truncated revision body")
    else
      var len :- ReadLen(body, 32);
      if Plus(len.next, len.value) > |body| then Bad("truncated revision fork_from")
      else
        var fork :- Slice(body, len.next, len.value);
        Done(Body(body[..32], fork))
  }

  /** DecodeRevisionBody. */
  method DecodeRevisionBody(body: string) returns (r: Parse<Body>)
    ensures r == DecodeBody(body)
  {
    if |body| < 32 { return Bad("truncated revision body"); }
    var cur: RawID := body[..32];
    var l := DecodeLen(body, 32);
    if Plus(l.value.next, l.value.value) > |body| { return Bad("truncated revision fork_from"); }
    var fork := Slice(body, l.value.next, l.value.value);
    if !fork.Done? { return fork.PropagateFailure(); }
    r := Done(Body(cur, fork.value));
  }

  lemma BodyRoundTrip(b: Body, rest: string)
    requires |BodyBytes(b) + rest| < TWO63
    ensures DecodeBody(BodyBytes(b) + rest) == Done(b)
  {
    hide ReadLen;
    var payload := BodyBytes(b) + rest;
    assert payload == b.current + Uvarint(|b.forkFrom|) + (b.forkFrom + rest);
    ReadLenAt(payload, b.current, |b.forkFrom|, b.forkFrom + rest);
    assert payload == (b.current + Uvarint(|b.forkFrom|)) + b.forkFrom + rest;
    SliceAt(payload, b.current + Uvarint(|b.forkFrom|), b.forkFrom, rest);
    assert payload[..32] == b.current;
  }

  // ---- Trees ------------------------------------------------------------------------------------------------

  /** A tree entry as it is stored: its name, the byte of its kind, and its id. */
  datatype RawEntry = RawEntry(name: string, kind: char, id: RawID)

  type RawTree = map<string, RawEntry>

  /** The map key of every entry is the entry's name. */
  predicate NamedByKey(t: RawTree) { forall k | k in t :: t[k].name == k }

  function EntryBytes(e: RawEntry): string { Str(e.name) + [e.kind] + e.id }

  /** The entries of `t` under these keys, in order. */
  function EntriesBytes(t: RawTree, keys: seq<string>): string
    requires forall k :: k in keys ==> k in t
  {
    if keys == [] then "" else EntryBytes(t[keys[0]]) + EntriesBytes(t, keys[1..])
  }

  function TreeBytes(t: RawTree): string { Uvarint(|t|) + EntriesBytes(t, Sorted(t.Keys)) }

  predicate FitsTree(t: RawTree) { |t| < TWO63 && forall k | k in t :: Fits(t[k].name) }

  lemma {:induction false} EntriesBytesSnoc(t: RawTree, keys: seq<string>, k: string)
    requires k in t && forall x :: x in keys ==> x in t
    ensures forall x :: x in keys + [k] ==> x in t
    ensures EntriesBytes(t, keys + [k]) == EntriesBytes(t, keys) + EntryBytes(t[k])
  {
    if keys == [] {
      assert keys + [k] == [k] && [k][1..] == [];
    } else {
      EntriesBytesSnoc(t, keys[1..], k);
      assert (keys + [k])[1..] == keys[1..] + [k];
    }
  }

  /** EncodeTree, and the body of EncodeTreeBytes after its magic prefix: entries in key order. */
  method AppendTree(dst: string, t: RawTree) returns (buf: string)
    requires FitsTree(t)
    ensures buf == dst + TreeBytes(t)
  {
    hide EntriesBytes, Str, Uvarint;
    var keys := Sorted(t.Keys);
    buf := AppendUvarint(dst, |keys|);
    NoEntries(t);
    for i := 0 to |keys|
      invariant buf == dst + Uvarint(|t|) + EntriesBytes(t, keys[..i])
    {
      TakeMore(keys, i);
      var e := t[keys[i]];
      EntriesBytesSnoc(t, keys[..i], keys[i]);
      buf := AppendString(buf, e.name);
      buf := buf + [e.kind];
      buf := buf + e.id;
    }
    WholeSlices(keys);
  }

  lemma NoEntries(t: RawTree)
    ensures EntriesBytes(t, []) == ""
  {
  }

  /** What the tree loop leaves: the entries read so far, and whether it stopped short. */
  datatype Partial = Partial(tree: RawTree, truncated: bool)

  /** One entry. Truncated when the name, the kind and the id do not fit in what is left. Only a sum
      that wraps gets past that check and panics. */
  function ReadEntry(payload: string, off: int): Parse<Item<RawEntry>> {
    var len :- ReadLen(payload, off);
    if Plus(Plus(len.next, len.value), 33) > |payload| then Bad("truncated tree entry")
    else
      var name :- Slice(payload, len.next, len.value);
      var at := Plus(len.next, len.value);
      if at + 33 > |payload| then Panics
      else Done(Item(RawEntry(name, payload[at], payload[at + 1..at + 33]), at + 33))
  }

  function ReadEntries(payload: string, off: int, n: int, t: RawTree): Parse<Partial>
    decreases if n <= 0 then 0 else n
  {
    if n <= 0 then Done(Partial(t, false))
    else
      match ReadEntry(payload, off)
      case Bad(_) => Done(Partial(t, true))
      case Panics => Panics
      case Done(e) => ReadEntries(payload, e.next, n - 1, t[e.value.name := e.value])
  }

  function ReadTree(payload: string): Parse<Partial> {
    var count :- ReadLen(payload, 0);
    ReadEntries(payload, count.next, count.value, map[])
  }

  /** DecodeTree: a truncated payload is an error. */
  function DecodedTree(payload: string): Parse<RawTree> {
    var p :- ReadTree(payload);
    if p.truncated then Bad("truncated tree entry") else Done(p.tree)
  }

  method DecodeEntry(payload: string, off: int) returns (r: Parse<Item<RawEntry>>)
    ensures r == ReadEntry(payload, off)
  {
    hide ReadLen;
    var l := DecodeLen(payload, off);
    if !l.Done? { return l.PropagateFailure(); }
    var at := l.value.next;
    if Plus(Plus(at, l.value.value), 33) > |payload| { return Bad("truncated tree entry"); }
    var name := Slice(payload, at, l.value.value);
    if !name.Done? { return name.PropagateFailure(); }
    at := Plus(at, l.value.value);
    if at + 33 > |payload| { return Panics; }
    var kind := payload[at];
    at := at + 1;
    var id: RawID := payload[at..at + 32];
    r := Done(Item(RawEntry(name.value, kind, id), at + 32));
  }

  /** The loop shared by DecodeTree and DecodeTreeBytes. */
  method DecodeEntries(payload: string) returns (r: Parse<Partial>)
    ensures r == ReadTree(payload)
  {
    hide ReadLen, ReadEntry;
    var count := DecodeLen(payload, 0);
    if !count.Done? { return count.PropagateFailure(); }
    var n, off := count.value.value, count.value.next;
    var t: RawTree := map[];
    var i := 0;
    while i < n
      invariant 0 <= i && (i <= n || (i == 0 && n < 0))
      invariant ReadTree(payload) == ReadEntries(payload, off, n - i, t)
    {
      var e := DecodeEntry(payload, off);
      match e
      case Bad(_) => return Done(Partial(t, true));
      case Panics => return Panics;
      case Done(item) =>
        t := t[item.value.name := item.value];
        off := item.next;
        i := i + 1;
    }
    r := Done(Partial(t, false));
  }

  /** DecodeTree. */
  method DecodeTree(payload: string) returns (r: Parse<RawTree>)
    ensures r == DecodedTree(payload)
  {
    hide ReadTree;
    var p := DecodeEntries(payload);
    if !p.Done? { return p.PropagateFailure(); }
    r := if p.value.truncated then Bad("truncated tree entry") else Done(p.value.tree);
  }

  lemma ReadEntryAt(payload: string, pre: string, e: RawEntry, post: string)
    requires payload == pre + EntryBytes(e) + post && |payload| < TWO63
    ensures ReadEntry(payload, |pre|) == Done(Item(e, |pre + EntryBytes(e)|))
  {
    hide ReadLen;
    var u := Uvarint(|e.name|);
    assert payload == pre + u + (e.name + [e.kind] + e.id + post);
    ReadLenAt(payload, pre, |e.name|, e.name + [e.kind] + e.id + post);
    assert payload == (pre + u) + e.name + ([e.kind] + e.id + post);
    SliceAt(payload, pre + u, e.name, [e.kind] + e.id + post);
    var at := |pre + u + e.name|;
    assert payload[at..] == [e.kind] + e.id + post;
    assert payload[at] == payload[at..][0] && payload[at + 1..at + 33] == payload[at..][1..33];
  }

  /** What is read back under these keys. */
  function Reread(t: RawTree, keys: seq<string>, base: RawTree): RawTree
    requires forall k :: k in keys ==> k in t
  {
    if keys == [] then base else Reread(t, keys[1..], base[t[keys[0]].name := t[keys[0]]])
  }

  lemma {:induction false} ReadEntriesAt(payload: string, pre: string, t: RawTree, keys: seq<string>, post: string,
      base: RawTree)
    requires forall k :: k in keys ==> k in t
    requires payload == pre + EntriesBytes(t, keys) + post && |payload| < TWO63
    ensures ReadEntries(payload, |pre|, |keys|, base) == Done(Partial(Reread(t, keys, base), false))
    decreases |keys|
  {
    hide ReadEntry, EntryBytes;
    if keys != [] {
      var e := t[keys[0]];
      assert payload == pre + EntryBytes(e) + (EntriesBytes(t, keys[1..]) + post);
      ReadEntryAt(payload, pre, e, EntriesBytes(t, keys[1..]) + post);
      ReadEntriesAt(payload, pre + EntryBytes(e), t, keys[1..], post, base[e.name := e]);
    }
  }

  lemma {:induction false} RereadAll(t: RawTree, keys: seq<string>, base: RawTree)
    requires NamedByKey(t) && forall k :: k in keys ==> k in t
    ensures forall k :: k in Reread(t, keys, base) <==> k in base || k in keys
    ensures forall k :: k in keys ==> Reread(t, keys, base)[k] == t[k]
    ensures forall k :: k in base && k !in keys ==> Reread(t, keys, base)[k] == base[k]
  {
    if keys != [] {
      RereadAll(t, keys[1..], base[keys[0] := t[keys[0]]]);
      assert keys == [keys[0]] + keys[1..];
    }
  }

  lemma {:induction false} RereadNamed(t: RawTree, keys: seq<string>, base: RawTree)
    requires NamedByKey(base) && forall k :: k in keys ==> k in t
    ensures NamedByKey(Reread(t, keys, base))
  {
    if keys != [] { RereadNamed(t, keys[1..], base[t[keys[0]].name := t[keys[0]]]); }
  }

  lemma ReadTreeAt(t: RawTree, rest: string)
    requires |TreeBytes(t) + rest| < TWO63 && |t| < TWO63
    ensures ReadTree(TreeBytes(t) + rest) == Done(Partial(Reread(t, Sorted(t.Keys), map[]), false))
  {
    hide ReadLen, ReadEntries, EntriesBytes, Uvarint, Sorted, Reread;
    var payload, u, keys := TreeBytes(t) + rest, Uvarint(|t|), Sorted(t.Keys);
    var body := EntriesBytes(t, keys);
    assert payload == u + body + rest;
    assert payload == "" + u + (body + rest);
    ReadLenAt(payload, "", |t|, body + rest);
    ReadEntriesAt(payload, u, t, keys, rest, map[]);
  }

  /** A tree decodes to what was encoded, whatever follows it, exactly when its keys are its entries' names. */
  lemma TreeRoundTrip(t: RawTree, rest: string)
    requires |TreeBytes(t) + rest| < TWO63 && |t| < TWO63
    ensures DecodedTree(TreeBytes(t) + rest) == Done(t) <==> NamedByKey(t)
  {
    hide TreeBytes, ReadTree, Reread;
    ReadTreeAt(t, rest);
    var keys := Sorted(t.Keys);
    RereadNamed(t, keys, map[]);
    if NamedByKey(t) {
      RereadAll(t, keys, map[]);
      assert Reread(t, keys, map[]) == t;
    }
  }
}
