/**
 The intermediate representation the generator walks: struct, map, slice,
 array, pointer and base-scalar shapes, as left by the pass pipeline.
 */
module Ir {

  /** Go's `int64`, the type of a field's zid. */
  newtype int64 = x: int | -0x8000_0000_0000_0000 <= x < 0x8000_0000_0000_0000

  const Uint32Modulus: int := 0x1_0000_0000

  /** Go's `uint32(x)` conversion of an `int`: keeps the low 32 bits. */
  function ToUint32(x: int): (r: nat)
    ensures r < Uint32Modulus
    ensures 0 <= x < Uint32Modulus ==> r == x
    ensures (x - r) % Uint32Modulus == 0
  {
    x % Uint32Modulus
  }

  /**
   The conversion is the only value below 2^32 that agrees with `x` modulo
   2^32: e.g. `uint32(-1)` is 2^32 - 1.
   */
  lemma ToUint32Unique(x: int, y: int)
    requires 0 <= y < Uint32Modulus && (x - y) % Uint32Modulus == 0
    ensures ToUint32(x) == y
  {
  }

  /** The base kinds the generator tells apart; every other scalar is `Scalar`. */
  datatype Primitive = Ident | Intf | Ext | Byte | Scalar

  /**
   One IR node. `skipCount` and `hasOmitEmptyTags` are the values the pass
   pipeline stored on the struct; `receiver` is the receiver type text the
   generator embeds as the type id; `keyTyp` is the declared key kind
   ("Int64" selects integer keys, anything else string keys).
   */
  datatype Elem =
    | Struct(receiver: string, fields: seq<StructField>, asTuple: bool, skipCount: int,
             keyTyp: string, hasOmitEmptyTags: bool)
    | Map(keyTyp: string, value: Elem)
    | Slice(els: Elem)
    | Array(els: Elem, sizeResolved: nat)
    | Ptr(value: Elem)
    | Base(kind: Primitive, baseName: string, convert: bool)

  /** A struct field: tag, zid, omitempty and skip annotations, and its value shape. */
  datatype StructField = StructField(fieldTag: string, zebraId: int64, omitEmpty: bool, skip: bool,
                                     fieldElem: Elem)

  /** Indices `j >= i` of the fields that are not skipped, in declaration order. */
  function NonSkippedFrom(fields: seq<StructField>, i: nat): (r: seq<nat>)
    requires i <= |fields|
    ensures forall k :: 0 <= k < |r| ==> i <= r[k] < |fields| && !fields[r[k]].skip
    ensures forall k, l :: 0 <= k < l < |r| ==> r[k] < r[l]
    ensures forall j :: i <= j < |fields| && !fields[j].skip ==> j in r
    decreases |fields| - i
  {
    if i == |fields| then []
    else if fields[i].skip then NonSkippedFrom(fields, i + 1)
    else [i] + NonSkippedFrom(fields, i + 1)
  }

  /** Indices of the fields that are not skipped, in declaration order. */
  function NonSkipped(fields: seq<StructField>): seq<nat> {
    NonSkippedFrom(fields, 0)
  }

  /** The number of fields marked skip. */
  function CountSkipped(fields: seq<StructField>): nat {
    if fields == [] then 0
    else (if fields[0].skip then 1 else 0) + CountSkipped(fields[1..])
  }

  /** The pass pipeline's promise: `skipCount` is the number of skipped fields. */
  predicate SkipCountConsistent(s: Elem)
    requires s.Struct?
  {
    s.skipCount == CountSkipped(s.fields)
  }

  /** Every field is either skipped or listed once among the non-skipped indices. */
  lemma {:induction false} NonSkippedCount(fields: seq<StructField>, i: nat)
    requires i <= |fields|
    ensures |NonSkippedFrom(fields, i)| + CountSkipped(fields[i..]) == |fields| - i
    decreases |fields| - i
  {
    if i < |fields| {
      assert fields[i..][1..] == fields[i + 1..];
      NonSkippedCount(fields, i + 1);
    }
  }
}
