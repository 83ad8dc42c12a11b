/** The slice of BSON the helpers read: ordered documents of key/value
    fields, with nested documents, and the lookups bson_iter performs. */
module Bson {
  import opened Wrappers

  type int32 = x: int | -0x8000_0000 <= x < 0x8000_0000
  type int64 = x: int | -0x8000_0000_0000_0000 <= x < 0x8000_0000_0000_0000
  type uint32 = x: int | 0 <= x < 0x1_0000_0000

  /** A BSON value. Only the element types the helpers tell apart are
      distinguished; everything else is `Other`, tagged by its type byte. */
  datatype Value =
    | Double(d: real)
    | Utf8(s: string)
    | Document(fields: seq<Field>)
    | Array(items: seq<Field>)
    | Bool(b: bool)
    | Null
    | Int32(i32: int32)
    | Int64(i64: int64)
    | Other(typeByte: nat)

  /** One element of a document, as bson_iter_key / bson_iter_value see it. */
  datatype Field = Field(key: string, value: Value)

  /** A document keeps its fields in insertion order; keys may repeat. */
  type Document = seq<Field>

  /** The position of the first field whose key is `key`. */
  function IndexOfKey(doc: Document, key: string): (i: Option<nat>)
    ensures i.None? <==> forall j :: 0 <= j < |doc| ==> doc[j].key != key
    ensures i.Some? ==> i.value < |doc| && doc[i.value].key == key
    ensures i.Some? ==> forall j :: 0 <= j < i.value ==> doc[j].key != key
  {
    if |doc| == 0 then None
    else if doc[0].key == key then Some(0)
    else
      match IndexOfKey(doc[1..], key)
      case None => None
      case Some(i) => Some(i + 1)
  }

  /** bson_iter_init_find: the value of the first field whose key is `key`. */
  function Find(doc: Document, key: string): (v: Option<Value>)
    ensures v.None? <==> forall j :: 0 <= j < |doc| ==> doc[j].key != key
    ensures v.Some? ==> exists i :: 0 <= i < |doc| && doc[i] == Field(key, v.value)
                                    && forall j :: 0 <= j < i ==> doc[j].key != key
  {
    match IndexOfKey(doc, key)
    case None => None
    case Some(i) => Some(doc[i].value)
  }

  /** BSON_ITER_HOLDS_INT: an int32 or an int64 element. */
  predicate HoldsInt(v: Value) {
    v.Int32? || v.Int64?
  }

  /** bson_iter_as_int64 on an integer element: int32 values are widened. */
  function AsInt64(v: Value): int64
    requires HoldsInt(v)
  {
    if v.Int32? then v.i32 else v.i64
  }
}
