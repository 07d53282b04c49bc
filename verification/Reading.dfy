/**
 * What the store gives back for an object it holds. ReadObject decodes the stored form, and not
 * every object survives that: ObjectCodec has the formats.
 */
module Reading {
  import opened Prelude
  import opened Objects
  import Text
  import ObjectCodec

  /** DecodeObject of the stored form. None stands for an error, or a panic while decoding. */
  type Reader = Object -> Option<Object>

  /** The bytes of a text. */
  function Bytes(s: string): seq<int> {
    seq(|s|, i requires 0 <= i < |s| => s[i] as int)
  }

  /** An object that reads back as itself: not an empty file, nor one that starts with a magic header. */
  predicate Legible(o: Object) {
    match o
    case Blob(d) => d != [] && !(Bytes(ObjectCodec.CONFLICT_MAGIC) <= d) && !(Bytes(ObjectCodec.TREE_MAGIC) <= d)
    case TreeObject(_) => true
    case ConflictObject(c) => OneLineLabels(c.removes) && OneLineLabels(c.adds)
  }

  predicate OneLineLabels(ts: seq<Term>) { forall t :: t in ts ==> Text.OneLine(t.side) }

  /** What ObjectCodec proves of decoding: exactly the legible objects survive (ObjectRoundTrip), what
      is decoded is legible (DecodedSurvives), and an empty file is an error. */
  ghost predicate IsReader(read: Reader) {
    (forall o :: Legible(o) <==> read(o) == Some(o)) &&
    (forall o :: read(o).Some? ==> Legible(read(o).value)) &&
    read(Blob([])) == None
  }

  /** The objects of a store as they read, under their ids; what cannot be read is absent. */
  function Readings(objects: map<ID, Object>, read: Reader): map<ID, Object> {
    map id | id in objects && read(objects[id]).Some? :: read(objects[id]).value
  }

  /** A reader that refuses what is not legible, and one that takes it for an empty directory. */
  lemma SomeReaders()
    ensures IsReader(o => if Legible(o) then Some(o) else None)
    ensures IsReader(o => if Legible(o) then Some(o) else if o == Blob([]) then None else Some(TreeObject(EMPTY_TREE)))
  {
  }
}
