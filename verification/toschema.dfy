/**
 `TranslateToZebraSchema`: the projection of the Identities table into the
 portable schema descriptor. The Identities table is a Go map; the order
 its range loop visits the keys in is a parameter, and the type-name text of
 a node is the parameter `typeName`.
 */
module ToSchema {
  import opened Results
  import Ir
  import Fusion
  import Marshal
  import Layout

  /** `zebra.Field`. */
  datatype Field = Field(zid: Ir.int64, omitEmpty: bool, skip: bool, fieldName: string, typStr: string)

  /** `zebra.Struct`. */
  datatype Struct = Struct(structName: string, fld: seq<Field>)

  /** `zebra.Schema`, of which the translation fills only the structs. */
  datatype Schema = Schema(structs: seq<Struct>)

  /**
   A top-level identity that is not a struct, named by its dynamic type; or
   a table with no identities at all, where the source indexes `structs[0]`
   of an empty list and panics.
   */
  datatype SchemaError = UnhandledType(typ: string) | EmptyIdentities

  /** The dynamic type `%T` prints for each IR node. */
  function KindName(e: Ir.Elem): string {
    match e
    case Struct(_, _, _, _, _, _) => "*gen.Struct"
    case Map(_, _) => "*gen.Map"
    case Slice(_) => "*gen.Slice"
    case Array(_, _) => "*gen.Array"
    case Ptr(_) => "*gen.Ptr"
    case Base(_, _, _) => "*gen.BaseElem"
  }

  /** `order` enumerates the keys of `ids`, each exactly once. */
  predicate IsIterationOrder(ids: map<string, Ir.Elem>, order: seq<string>) {
    && |order| == |ids|
    && (forall j :: 0 <= j < |order| ==> order[j] in ids)
    && (forall i, j :: 0 <= i < j < |order| ==> order[i] != order[j])
  }

  /** The elements of a sequence, as a set. */
  function Elems(s: seq<string>): set<string> {
    set j | 0 <= j < |s| :: s[j]
  }

  lemma ElemsCons(s: seq<string>)
    requires s != []
    ensures Elems(s) == {s[0]} + Elems(s[1..])
  {
    forall x | x in Elems(s[1..]) ensures x in Elems(s) {
      var j :| 0 <= j < |s[1..]| && s[1..][j] == x;
      assert s[j + 1] == x;
    }
    forall x | x in Elems(s) ensures x in {s[0]} + Elems(s[1..]) {
      var j :| 0 <= j < |s| && s[j] == x;
      if j > 0 { assert s[1..][j - 1] == x; }
    }
  }

  /** The elements of a duplicate-free sequence are as many as its length. */
  lemma {:induction false} DistinctCard(s: seq<string>)
    requires forall i, j :: 0 <= i < j < |s| ==> s[i] != s[j]
    ensures |Elems(s)| == |s|
  {
    if s != [] {
      DistinctCard(s[1..]);
      ElemsCons(s);
      forall j | 0 <= j < |s[1..]| ensures s[1..][j] != s[0] {
        assert s[1..][j] == s[j + 1];
      }
      assert s[0] !in Elems(s[1..]);
    }
  }

  /** An iteration order visits every key. */
  lemma OrderCoversKeys(ids: map<string, Ir.Elem>, order: seq<string>)
    requires IsIterationOrder(ids, order)
    ensures forall k :: k in ids ==> k in order
  {
    var visited := Elems(order);
    DistinctCard(order);
    assert visited <= ids.Keys;
    var missing := ids.Keys - visited;
    assert ids.Keys == visited + missing && visited !! missing;
    assert |ids.Keys| == |visited| + |missing|;
    assert missing == {};
    forall k | k in ids ensures k in order {
      assert k in visited;
    }
  }

  /** One schema field: the type name is recorded only for fields that are not skipped. */
  function ProjectField(f: Ir.StructField, typeName: Ir.Elem -> string): (r: Field)
    ensures r.zid == f.zebraId && r.omitEmpty == f.omitEmpty && r.skip == f.skip && r.fieldName == f.fieldTag
    ensures r.skip ==> r.typStr == ""
    ensures !r.skip ==> r.typStr == typeName(f.fieldElem)
  {
    Field(f.zebraId, f.omitEmpty, f.skip, f.fieldTag, if f.skip then "" else typeName(f.fieldElem))
  }

  /** The fields of a struct, one schema field per IR field, in declaration order. */
  function ProjectFields(fields: seq<Ir.StructField>, typeName: Ir.Elem -> string): (r: seq<Field>)
    ensures |r| == |fields|
    ensures forall i :: 0 <= i < |fields| ==> r[i] == ProjectField(fields[i], typeName)
  {
    if fields == [] then []
    else [ProjectField(fields[0], typeName)] + ProjectFields(fields[1..], typeName)
  }

  /** One schema struct: its type name and its projected fields. */
  function ProjectStruct(x: Ir.Elem, typeName: Ir.Elem -> string): (r: Struct)
    requires x.Struct?
    ensures r.structName == typeName(x)
    ensures |r.fld| == |x.fields| && forall i :: 0 <= i < |x.fields| ==> r.fld[i] == ProjectField(x.fields[i], typeName)
  {
    Struct(typeName(x), ProjectFields(x.fields, typeName))
  }

  /**
   The range loop over the identities in `order`: every struct is projected
   and appended; the first identity that is not a struct ends the loop with
   its dynamic type.
   */
  function Collect(ids: map<string, Ir.Elem>, order: seq<string>, typeName: Ir.Elem -> string): (r: Result<seq<Struct>, SchemaError>)
    requires forall j :: 0 <= j < |order| ==> order[j] in ids
    ensures r.Ok? <==> forall j :: 0 <= j < |order| ==> ids[order[j]].Struct?
    ensures r.Ok? ==> |r.value| == |order|
    ensures r.Ok? ==> forall j :: 0 <= j < |order| ==> ids[order[j]].Struct? && r.value[j] == ProjectStruct(ids[order[j]], typeName)
    ensures r.Err? ==> exists j :: && 0 <= j < |order| && !ids[order[j]].Struct?
                                  && (forall i :: 0 <= i < j ==> ids[order[i]].Struct?)
                                  && r.error == UnhandledType(KindName(ids[order[j]]))
  {
    if order == [] then Ok([])
    else
      var x := ids[order[0]];
      if !x.Struct? then Err(UnhandledType(KindName(x)))
      else
        var rest :- Collect(ids, order[1..], typeName);
        assert forall j :: 1 <= j < |order| ==> order[j] == order[1..][j - 1];
        Ok([ProjectStruct(x, typeName)] + rest)
  }

  /** The projection of identity `k`, and an empty struct for anything else. */
  function ProjectKey(ids: map<string, Ir.Elem>, typeName: Ir.Elem -> string, k: string): Struct {
    if k in ids && ids[k].Struct? then ProjectStruct(ids[k], typeName) else Struct("", [])
  }

  /** `ProjectKey` as a function value, the projection of one loop iteration. */
  function Projector(ids: map<string, Ir.Elem>, typeName: Ir.Elem -> string): string -> Struct {
    k => ProjectKey(ids, typeName, k)
  }

  /** `TranslateToZebraSchema(fs)`, with the map iteration order as `order`. */
  function Translate(ids: map<string, Ir.Elem>, order: seq<string>, typeName: Ir.Elem -> string): (r: Result<Schema, SchemaError>)
    requires IsIterationOrder(ids, order)
    ensures r.Err? <==> |ids| == 0 || exists k :: k in ids && !ids[k].Struct?
    ensures r == Err(EmptyIdentities) <==> |ids| == 0
    ensures r.Err? && r.error.UnhandledType? ==> exists k :: k in ids && !ids[k].Struct? && r.error.typ == KindName(ids[k])
    ensures r.Ok? ==> |r.value.structs| == |ids|
    ensures r.Ok? ==> forall k :: k in ids ==> ids[k].Struct?
    ensures r.Ok? ==> r.value.structs == MapSeq(Projector(ids, typeName), order)
  {
    OrderCoversKeys(ids, order);
    var structs :- Collect(ids, order, typeName);
    assert structs == MapSeq(Projector(ids, typeName), order);
    if |structs| == 0 then Err(EmptyIdentities) else Ok(Schema(structs))
  }

  /** `f` applied to every element of `s`. */
  function MapSeq<A, B>(f: A -> B, s: seq<A>): (r: seq<B>)
    ensures |r| == |s| && forall j :: 0 <= j < |s| ==> r[j] == f(s[j])
  {
    seq(|s|, j requires 0 <= j < |s| => f(s[j]))
  }

  lemma RemoveAt<A>(s: seq<A>, i: nat)
    requires i < |s|
    ensures multiset(s[..i] + s[i + 1..]) == multiset(s) - multiset{s[i]}
  {
    assert s == s[..i] + [s[i]] + s[i + 1..];
  }

  lemma MapSeqSplit<A, B>(f: A -> B, s: seq<A>, i: nat)
    requires i < |s|
    ensures multiset(MapSeq(f, s)) == multiset(MapSeq(f, s[..i] + s[i + 1..])) + multiset{f(s[i])}
  {
    assert MapSeq(f, s) == MapSeq(f, s[..i]) + [f(s[i])] + MapSeq(f, s[i + 1..]);
    assert MapSeq(f, s[..i] + s[i + 1..]) == MapSeq(f, s[..i]) + MapSeq(f, s[i + 1..]);
  }

  /** The first element of `a` sits somewhere in its permutation `b`; the rests are permutations. */
  lemma Pick<A>(a: seq<A>, b: seq<A>) returns (i: nat)
    requires a != [] && multiset(a) == multiset(b)
    ensures i < |b| && b[i] == a[0] && multiset(a[1..]) == multiset(b[..i] + b[i + 1..])
  {
    assert a[0] in multiset(b);
    i :| 0 <= i < |b| && b[i] == a[0];
    assert a[..0] + a[1..] == a[1..];
    RemoveAt(a, 0);
    RemoveAt(b, i);
  }

  lemma MapSeqHead<A, B>(f: A -> B, s: seq<A>)
    requires s != []
    ensures multiset(MapSeq(f, s)) == multiset(MapSeq(f, s[1..])) + multiset{f(s[0])}
  {
    assert MapSeq(f, s) == [f(s[0])] + MapSeq(f, s[1..]);
  }

  lemma PermuteStep<A, B>(f: A -> B, a: seq<A>, b: seq<A>, i: nat)
    requires a != [] && i < |b| && b[i] == a[0]
    requires multiset(MapSeq(f, a[1..])) == multiset(MapSeq(f, b[..i] + b[i + 1..]))
    ensures multiset(MapSeq(f, a)) == multiset(MapSeq(f, b))
  {
    MapSeqHead(f, a);
    MapSeqSplit(f, b, i);
  }

  /** Mapping a permutation gives a permutation. */
  lemma {:induction false} MapSeqPermute<A, B>(f: A -> B, a: seq<A>, b: seq<A>)
    requires multiset(a) == multiset(b)
    ensures multiset(MapSeq(f, a)) == multiset(MapSeq(f, b))
    decreases |a|
  {
    if a == [] {
      assert |b| == |multiset(b)| == 0;
    } else {
      var i := Pick(a, b);
      MapSeqPermute(f, a[1..], b[..i] + b[i + 1..]);
      PermuteStep(f, a, b, i);
    }
  }

  /** A duplicate-free sequence holds each of its elements once. */
  lemma {:induction false} DistinctOnce(s: seq<string>, x: string)
    requires forall i, j :: 0 <= i < j < |s| ==> s[i] != s[j]
    ensures multiset(s)[x] == if x in s then 1 else 0
  {
    if s != [] {
      assert s == [s[0]] + s[1..];
      DistinctOnce(s[1..], x);
    }
  }

  /** Two iteration orders of the same table are permutations of each other. */
  lemma OrdersPermute(ids: map<string, Ir.Elem>, a: seq<string>, b: seq<string>)
    requires IsIterationOrder(ids, a) && IsIterationOrder(ids, b)
    ensures multiset(a) == multiset(b)
  {
    OrderCoversKeys(ids, a);
    OrderCoversKeys(ids, b);
    forall x | true
      ensures multiset(a)[x] == multiset(b)[x]
    {
      DistinctOnce(a, x);
      DistinctOnce(b, x);
    }
  }

  /**
   The schema does not depend on the order the Go map is iterated in beyond
   the order of its structs: any two orders fail together, and on success
   hold the same structs.
   */
  lemma OrderIrrelevant(ids: map<string, Ir.Elem>, a: seq<string>, b: seq<string>, typeName: Ir.Elem -> string)
    requires IsIterationOrder(ids, a) && IsIterationOrder(ids, b)
    ensures Translate(ids, a, typeName).Ok? <==> Translate(ids, b, typeName).Ok?
    ensures Translate(ids, a, typeName) == Err(EmptyIdentities) <==> Translate(ids, b, typeName) == Err(EmptyIdentities)
    ensures multiset(MapSeq(Projector(ids, typeName), a)) == multiset(MapSeq(Projector(ids, typeName), b))
  {
    OrdersPermute(ids, a, b);
    MapSeqPermute(Projector(ids, typeName), a, b);
  }

  /** The schema fields that are not skipped. */
  function LiveFields(fld: seq<Field>): nat {
    if fld == [] then 0
    else (if fld[0].skip then 0 else 1) + LiveFields(fld[1..])
  }

  lemma {:induction false} LiveFieldsCount(fields: seq<Ir.StructField>, typeName: Ir.Elem -> string)
    ensures LiveFields(ProjectFields(fields, typeName)) + Ir.CountSkipped(fields) == |fields|
  {
    if fields != [] {
      LiveFieldsCount(fields[1..], typeName);
      assert ProjectFields(fields, typeName)[1..] == ProjectFields(fields[1..], typeName);
    }
  }

  /**
   A struct's schema describes what its encoder writes: the number of fields
   it lists as not skipped is the static count `len(Fields) - SkipCount` that
   tuple structs and keyed structs without a runtime header write, and under
   the fast protocol each such field's key is its schema zid.
   */
  lemma SchemaMatchesEncoder(s: Ir.Elem, typeName: Ir.Elem -> string)
    requires s.Struct? && Ir.SkipCountConsistent(s) && |s.fields| < Ir.Uint32Modulus
    ensures LiveFields(ProjectStruct(s, typeName).fld) == Ir.ToUint32(|s.fields| - s.skipCount)
    ensures forall i :: 0 <= i < |s.fields| && !ProjectStruct(s, typeName).fld[i].skip ==>
              Marshal.KeyOf(true, s, i) == Fusion.Int64Key(ProjectStruct(s, typeName).fld[i].zid)
  {
    LiveFieldsCount(s.fields, typeName);
  }

  /**
   The same count against the header a keyed struct writes at run time: it
   announces at most one entry per live schema field, plus the type-id entry
   under fast, and exactly that many when no live field is empty.
   */
  lemma SchemaCountsHeader(fast: bool, s: Ir.Elem, typeName: Ir.Elem -> string, empty: seq<bool>)
    requires s.Struct? && Ir.SkipCountConsistent(s) && |s.fields| < Ir.Uint32Modulus && |empty| == |s.fields|
    ensures Layout.HeaderCount(fast, s, empty) <= LiveFields(ProjectStruct(s, typeName).fld) + (if fast then 1 else 0)
    ensures (forall j :: 0 <= j < |s.fields| && !s.fields[j].skip ==> !empty[j]) ==>
              Layout.HeaderCount(fast, s, empty) == LiveFields(ProjectStruct(s, typeName).fld) + (if fast then 1 else 0)
  {
    SchemaMatchesEncoder(s, typeName);
    Layout.TupleHeaderCountsValues(s);
    Layout.HeaderCountBounds(fast, s, empty);
  }
}
