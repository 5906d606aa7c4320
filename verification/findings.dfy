/**
 Inputs on which the generator as written breaks fusion transparency, and
 the corrected behaviour on the same inputs and of `Execute`.
 */
module Findings {
  import opened Results
  import opened Ir
  import opened Fusion
  import opened Marshal
  import opened Transparency
  import Layout
  import Shipped

  const K0: Const := Int64Key(0)

  /** `struct { X int64 zid:0 }`, an inline struct type, keyed. */
  function Inner(): Elem {
    Struct("Inner", [StructField("X", 0, false, false, Base(Scalar, "Int64", false))], false, 0, "", false)
  }

  /** A struct whose field 0 holds the inline struct `Inner`. */
  function Outer(): Elem {
    Struct("Outer", [StructField("In", 0, false, false, Inner())], false, 0, "", false)
  }

  /** The reference output for `Outer` under fast: the outer key precedes the inner header. */
  function OuterReference(): seq<Stmt> {
    [ScanEmpty(1), MapHeaderInUse(true), TypeId("Outer"), GuardOpen(0), Lit([K0]),
     ScanEmpty(1), MapHeaderInUse(true), TypeId("Inner"), GuardOpen(0),
     Lit([K0]), AppendBase("Int64", false), EndBlock, EndBlock]
  }

  /**
   Under fast, the outer key of field 0 is still pending when the inner
   struct writes its runtime map header and type id, so the key lands after
   them: the flattened output differs from the reference at position 4.
   */
  lemma RuntimeHeaderReordersAsWritten()
    ensures !Shipped.Clean(true, Outer(), true)
    ensures var r := Next(Options(true, true, AsWritten), Outer(), []);
            && r.Ok? && r.value.fuse == []
            && r.value.stmts == OuterAsWritten()
            && Flatten(r.value.stmts) != Flatten(OuterReference())
  {
    OuterEvaluatesAsWritten();
    OuterFlattensDifferently();
  }

  /** The inner struct with a constant `c` pending: its own key joins the pending one. */
  lemma InnerEvaluatesAsWritten(c: Const)
    ensures var r := Next(Options(true, true, AsWritten), Inner(), [c]);
            && r.Ok? && r.value.fuse == []
            && r.value.stmts == [ScanEmpty(1), MapHeaderInUse(true), TypeId("Inner"), GuardOpen(0),
                                 Lit([c, K0]), AppendBase("Int64", false), EndBlock]
  {
    var o := Options(true, true, AsWritten);
    var inner := Inner();
    var v := Next(o, Base(Scalar, "Int64", false), [c, K0]);
    assert v.Ok? && v.value.stmts == [Lit([c, K0]), AppendBase("Int64", false)] && v.value.fuse == [];
    assert Guarded(true, inner, 0) && KeyOf(true, inner, 0) == K0;
    assert PutConst(o, [c], K0) == Out([], [c, K0]);
    var ifs := MapFields(o, inner, 0, [c]);
    assert MapFields(o, inner, 1, []) == Ok(Out([], []));
    assert ifs.Ok? && ifs.value.fuse == [];
    assert ifs.value.stmts == [GuardOpen(0)] + [] + v.value.stmts + [EndBlock] + [];
    var ih := MapHeaderOut(o, inner, [c]);
    assert ih.stmts == [ScanEmpty(1), MapHeaderInUse(true), TypeId("Inner")] && ih.fuse == [c];
    var iv := Next(o, inner, [c]);
    assert iv.Ok? && iv.value.fuse == [];
    assert iv.value.stmts == ih.stmts + ifs.value.stmts;
  }

  /** A tuple struct whose only field holds the inline struct `Inner`. */
  function TupleOfInner(): Elem {
    Struct("Pair", [StructField("In", 0, false, false, Inner())], true, 0, "", false)
  }

  /**
   The same flaw displaces an enclosing tuple's array header: under fast,
   the tuple's fused header is still pending when the inner struct writes
   its runtime header, so the output starts with the inner scan instead of
   the tuple header the reference starts with.
   */
  lemma TupleHeaderDisplacedAsWritten()
    ensures !Shipped.Clean(true, TupleOfInner(), true)
    ensures var r := Next(Options(true, true, AsWritten), TupleOfInner(), []);
            && r.Ok? && r.value.fuse == []
            && r.value.stmts == [ScanEmpty(1), MapHeaderInUse(true), TypeId("Inner"), GuardOpen(0),
                                 Lit([ArrayHeader(1), K0]), AppendBase("Int64", false), EndBlock]
    ensures var u := Next(Options(true, false, AsWritten), TupleOfInner(), []);
            u.Ok? && u.value.stmts[0] == Lit([ArrayHeader(1)])
  {
    var o, ref := Options(true, true, AsWritten), Options(true, false, AsWritten);
    var t := TupleOfInner();
    var h := ArrayHeader(1);
    assert ToUint32(1) == 1;
    InnerEvaluatesAsWritten(h);
    var iv := Next(o, Inner(), [h]);
    assert PutConst(o, [], h) == Out([], [h]);
    assert TupleFields(o, t, 1, []) == Ok(Out([], []));
    assert TupleFields(o, t, 0, [h]) == Ok(Out(iv.value.stmts + [], []));
    assert Next(o, t, []) == Tuple(o, t, []);
    var uv := Next(ref, Inner(), []);
    Layout.GenFailsIff(ref, Inner(), []);
    assert Layout.FieldZidsPresent(true, Inner(), 0);
    Layout.ReferenceLeavesNothing(true, Inner());
    assert uv.Ok? && uv.value.fuse == [];
    assert PutConst(ref, [], h) == Out([Lit([h])], []);
    assert TupleFields(ref, t, 1, []) == Ok(Out([], []));
    assert TupleFields(ref, t, 0, []) == Ok(Out(uv.value.stmts + [], []));
    assert Next(ref, t, []) == Tuple(ref, t, []);
  }

  lemma OuterFieldsAsWritten()
    ensures var r := MapFields(Options(true, true, AsWritten), Outer(), 0, []);
            && r.Ok? && r.value.fuse == []
            && r.value.stmts == [GuardOpen(0)] + [ScanEmpty(1), MapHeaderInUse(true), TypeId("Inner"), GuardOpen(0), Lit([K0, K0]), AppendBase("Int64", false), EndBlock] + [EndBlock]
  {
    var o := Options(true, true, AsWritten);
    var outer := Outer();
    InnerEvaluatesAsWritten(K0);
    var iv := Next(o, Inner(), [K0]);
    assert Guarded(true, outer, 0) && KeyOf(true, outer, 0) == K0;
    assert PutConst(o, [], K0) == Out([], [K0]);
    assert MapFields(o, outer, 1, []) == Ok(Out([], []));
    assert MapFields(o, outer, 0, []) == Ok(Out([GuardOpen(0)] + [] + iv.value.stmts + [EndBlock] + [], []));
  }

  lemma OuterEvaluatesAsWritten()
    ensures var r := Next(Options(true, true, AsWritten), Outer(), []);
            r.Ok? && r.value.fuse == [] && r.value.stmts == OuterAsWritten()
  {
    var o := Options(true, true, AsWritten);
    OuterFieldsAsWritten();
    OuterAsWrittenSplits();
    var h := MapHeaderOut(o, Outer(), []);
    assert h == Out([ScanEmpty(1), MapHeaderInUse(true), TypeId("Outer")], []);
    var ofs := MapFields(o, Outer(), 0, h.fuse);
    assert MapStruct(o, Outer(), []) == Ok(Out(h.stmts + ofs.value.stmts, ofs.value.fuse));
    assert Next(o, Outer(), []) == GStruct(o, Outer(), []) == MapStruct(o, Outer(), []);
  }

  /** The output as written for `Outer` as the outer header followed by the field's entry. */
  lemma OuterAsWrittenSplits()
    ensures OuterAsWritten()
            == [ScanEmpty(1), MapHeaderInUse(true), TypeId("Outer")]
               + ([GuardOpen(0)] + [ScanEmpty(1), MapHeaderInUse(true), TypeId("Inner"), GuardOpen(0),
                                    Lit([K0, K0]), AppendBase("Int64", false), EndBlock] + [EndBlock])
  {
  }

  /** What the generator as written produces for `Outer` under fast, with fusion on. */
  function OuterAsWritten(): seq<Stmt> {
    [ScanEmpty(1), MapHeaderInUse(true), TypeId("Outer"), GuardOpen(0),
     ScanEmpty(1), MapHeaderInUse(true), TypeId("Inner"), GuardOpen(0),
     Lit([K0, K0]), AppendBase("Int64", false), EndBlock, EndBlock]
  }

  /** Two lists that agree on a literal-free prefix and then differ in a literal versus a runtime statement. */
  lemma {:induction false} FlattenDiffers(a: seq<Stmt>, x: Stmt, r1: seq<Stmt>, c: Const, r2: seq<Stmt>)
    requires forall k :: 0 <= k < |a| ==> !a[k].Lit?
    requires !x.Lit?
    ensures Flatten(a + [x] + r1) != Flatten(a + [Lit([c])] + r2)
  {
    FlattenNoLit(a);
    FlattenNoLit([x]);
    FlattenAppend(a + [x], r1);
    FlattenAppend(a, [x]);
    FlattenAppend(a + [Lit([c])], r2);
    FlattenAppend(a, [Lit([c])]);
    assert Flatten([Lit([c])]) == [Lit([c])];
    assert Flatten(a + [x] + r1)[|a|] == x;
    assert Flatten(a + [Lit([c])] + r2)[|a|] == Lit([c]);
  }

  lemma OuterFlattensDifferently()
    ensures Flatten(OuterAsWritten()) != Flatten(OuterReference())
  {
    var a := [ScanEmpty(1), MapHeaderInUse(true), TypeId("Outer"), GuardOpen(0)];
    var r1 := [MapHeaderInUse(true), TypeId("Inner"), GuardOpen(0),
               Lit([K0, K0]), AppendBase("Int64", false), EndBlock, EndBlock];
    var r2 := [ScanEmpty(1), MapHeaderInUse(true), TypeId("Inner"), GuardOpen(0),
               Lit([K0]), AppendBase("Int64", false), EndBlock, EndBlock];
    assert OuterAsWritten() == a + [ScanEmpty(1)] + r1;
    assert OuterReference() == a + [Lit([K0])] + r2;
    FlattenDiffers(a, ScanEmpty(1), r1, K0, r2);
  }

  /** Corrected: the inner struct flushes the pending outer key before its header. */
  lemma InnerEvaluatesCorrected()
    ensures var r := Next(Fused(true), Inner(), [K0]);
            && r.Ok? && r.value.fuse == []
            && r.value.stmts == [Lit([K0]), ScanEmpty(1), MapHeaderInUse(true), TypeId("Inner"), GuardOpen(0),
                                 Lit([K0]), AppendBase("Int64", false), EndBlock]
  {
    var o := Fused(true);
    var inner := Inner();
    var v := Next(o, Base(Scalar, "Int64", false), [K0]);
    assert v.Ok? && v.value.stmts == [Lit([K0]), AppendBase("Int64", false)] && v.value.fuse == [];
    assert Guarded(true, inner, 0) && KeyOf(true, inner, 0) == K0;
    assert PutConst(o, [], K0) == Out([], [K0]);
    var ifs := MapFields(o, inner, 0, []);
    assert MapFields(o, inner, 1, []) == Ok(Out([], []));
    assert ifs.Ok? && ifs.value.fuse == [];
    assert ifs.value.stmts == [GuardOpen(0)] + [] + v.value.stmts + [EndBlock] + [];
    var ih := MapHeaderOut(o, inner, [K0]);
    assert ih.stmts == [Lit([K0]), ScanEmpty(1), MapHeaderInUse(true), TypeId("Inner")] && ih.fuse == [];
    var iv := Next(o, inner, [K0]);
    assert iv.Ok? && iv.value.fuse == [];
    assert iv.value.stmts == ih.stmts + ifs.value.stmts + [];
  }

  lemma OuterFieldsCorrected()
    ensures var r := MapFields(Fused(true), Outer(), 0, []);
            && r.Ok? && r.value.fuse == []
            && r.value.stmts == [GuardOpen(0)] + [Lit([K0]), ScanEmpty(1), MapHeaderInUse(true), TypeId("Inner"), GuardOpen(0), Lit([K0]), AppendBase("Int64", false), EndBlock] + [EndBlock]
  {
    var o := Fused(true);
    var outer := Outer();
    InnerEvaluatesCorrected();
    var iv := Next(o, Inner(), [K0]);
    assert Guarded(true, outer, 0) && KeyOf(true, outer, 0) == K0;
    assert PutConst(o, [], K0) == Out([], [K0]);
    assert MapFields(o, outer, 1, []) == Ok(Out([], []));
    assert MapFields(o, outer, 0, []) == Ok(Out([GuardOpen(0)] + [] + iv.value.stmts + [EndBlock] + [], []));
  }

  /** Corrected: the outer key is flushed before the inner header, as in the reference. */
  lemma RuntimeHeaderCorrected()
    ensures var r := Next(Fused(true), Outer(), []);
            r.Ok? && r.value.fuse == [] && r.value.stmts == OuterReference()
  {
    var o := Fused(true);
    OuterStructCorrected();
    assert Next(o, Outer(), []) == GStruct(o, Outer(), []);
    assert FuseHook([]) == [] && OuterReference() + [] == OuterReference();
  }

  lemma OuterStructCorrected()
    ensures MapStruct(Fused(true), Outer(), []) == Ok(Out(OuterReference(), []))
  {
    var o := Fused(true);
    OuterFieldsCorrected();
    OuterReferenceSplits();
    var h := MapHeaderOut(o, Outer(), []);
    assert h == Out([ScanEmpty(1), MapHeaderInUse(true), TypeId("Outer")], []);
    var ofs := MapFields(o, Outer(), 0, h.fuse);
    assert MapStruct(o, Outer(), []) == Ok(Out(h.stmts + ofs.value.stmts, ofs.value.fuse));
  }

  /** The reference output for `Outer` as the outer header followed by the field's entry. */
  lemma OuterReferenceSplits()
    ensures OuterReference()
            == [ScanEmpty(1), MapHeaderInUse(true), TypeId("Outer")]
               + ([GuardOpen(0)] + [Lit([K0]), ScanEmpty(1), MapHeaderInUse(true), TypeId("Inner"), GuardOpen(0),
                                    Lit([K0]), AppendBase("Int64", false), EndBlock] + [EndBlock])
  {
  }

  /** A keyed struct with no fields and no omitempty tags: its header is fused and nothing follows. */
  function EmptyStruct(): Elem {
    Struct("Empty", [], false, 0, "", false)
  }

  /**
   In a slice of such structs, the element's fused map header is still
   pending when the range loop closes, so it would be written once after the
   loop instead of once per element; the reference writes it inside the loop.
   */
  lemma LoopLeakAsWritten()
    ensures var r := Next(Options(false, true, AsWritten), Slice(EmptyStruct()), []);
            r.Ok? && r.value.stmts == [ArrayHeaderLen, RangeOpen, EndBlock] && r.value.fuse == [MapHeader(0)]
    ensures var r := Next(Options(false, false, AsWritten), Slice(EmptyStruct()), []);
            r.Ok? && r.value.stmts == [ArrayHeaderLen, RangeOpen, Lit([MapHeader(0)]), EndBlock] && r.value.fuse == []
  {
    EmptyStructAsWritten();
    var e := EmptyStruct();
    var f, u := Options(false, true, AsWritten), Options(false, false, AsWritten);
    var un := Next(u, e, []);
    assert Next(f, Slice(e), []) == Ok(Out(FuseHook([]) + [ArrayHeaderLen, RangeOpen] + [] + [EndBlock], [MapHeader(0)]));
    assert Next(u, Slice(e), []) == Ok(Out(FuseHook([]) + [ArrayHeaderLen, RangeOpen] + un.value.stmts + [EndBlock], []));
  }

  /**
   The same leak through `gPtr`: behind a pointer the header is still
   pending when the nil-check's else-block closes, so a nil pointer would be
   followed by it too; the reference writes it inside the else-block.
   */
  lemma NilLeakAsWritten()
    ensures var r := Next(Options(false, true, AsWritten), Ptr(EmptyStruct()), []);
            r.Ok? && r.value.stmts == [NilOpen, EndBlock] && r.value.fuse == [MapHeader(0)]
    ensures var r := Next(Options(false, false, AsWritten), Ptr(EmptyStruct()), []);
            r.Ok? && r.value.stmts == [NilOpen, Lit([MapHeader(0)]), EndBlock] && r.value.fuse == []
  {
    EmptyStructAsWritten();
    var e := EmptyStruct();
    var f, u := Options(false, true, AsWritten), Options(false, false, AsWritten);
    var un := Next(u, e, []);
    assert Next(f, Ptr(e), []) == Ok(Out(FuseHook([]) + [NilOpen] + [] + [EndBlock], [MapHeader(0)]));
    assert Next(u, Ptr(e), []) == Ok(Out(FuseHook([]) + [NilOpen] + un.value.stmts + [EndBlock], []));
  }

  /** The empty struct alone: fused, its header stays pending; unfused, it is written. */
  lemma EmptyStructAsWritten()
    ensures Next(Options(false, true, AsWritten), EmptyStruct(), []) == Ok(Out([], [MapHeader(0)]))
    ensures Next(Options(false, false, AsWritten), EmptyStruct(), []) == Ok(Out([Lit([MapHeader(0)])], []))
  {
    var e := EmptyStruct();
    var f, u := Options(false, true, AsWritten), Options(false, false, AsWritten);
    assert ToUint32(0) == 0;
    var fh, uh := MapHeaderOut(f, e, []), MapHeaderOut(u, e, []);
    assert fh.stmts == [] && fh.fuse == [MapHeader(0)];
    assert uh.stmts == [Lit([MapHeader(0)])] && uh.fuse == [];
    assert MapFields(f, e, 0, fh.fuse) == Ok(Out([], fh.fuse));
    assert MapFields(u, e, 0, []) == Ok(Out([], []));
    assert fh.stmts + [] == [] && uh.stmts + [] == uh.stmts;
    assert Next(f, e, []) == GStruct(f, e, []) == MapStruct(f, e, []);
    assert Next(u, e, []) == GStruct(u, e, []) == MapStruct(u, e, []);
  }

  /**
   A block around the empty struct is not clean: its body does not end
   drained. The same holds for a tuple struct with no fields, whose array
   header stays fused.
   */
  lemma LeaksAreUnclean()
    ensures !Shipped.Drained(false, EmptyStruct(), true)
    ensures !Shipped.Clean(false, Slice(EmptyStruct()), true) && !Shipped.Clean(false, Ptr(EmptyStruct()), true)
    ensures !Shipped.Drained(false, Struct("T", [], true, 0, "", false), true)
    ensures !Shipped.Clean(false, Slice(Struct("T", [], true, 0, "", false)), true)
            && !Shipped.Clean(false, Ptr(Struct("T", [], true, 0, "", false)), true)
  {
    assert !Shipped.Drained(false, EmptyStruct(), true);
    assert !Shipped.Drained(false, Struct("T", [], true, 0, "", false), true);
  }

  /**
   A keyed struct with omitempty tags: the plain field `A` holds the empty
   struct and the omitempty field `B` an int64.
   */
  function Holder(): Elem {
    Struct("Holder", [StructField("A", 0, false, false, EmptyStruct()),
                      StructField("B", 1, true, false, Base(Scalar, "Int64", false))], false, 0, "", true)
  }

  /**
   The leak into an omitempty guard: the empty struct's header, fused after
   `A`'s key, is still pending when `B`'s guard opens, so `A`'s entry is
   written only when `B` is not empty, although the runtime header counts it
   either way; the reference writes it before the guard.
   */
  lemma GuardLeakAsWritten()
    ensures !Shipped.Clean(false, Holder(), true)
    ensures Next(Options(false, true, AsWritten), Holder(), [])
            == Ok(Out([ScanEmpty(2), MapHeaderInUse(false), GuardOpen(1),
                       Lit([StringKey("A"), MapHeader(0), StringKey("B")]), AppendBase("Int64", false), EndBlock], []))
    ensures Next(Options(false, false, AsWritten), Holder(), [])
            == Ok(Out([ScanEmpty(2), MapHeaderInUse(false), Lit([StringKey("A")]), Lit([MapHeader(0)]),
                       GuardOpen(1), Lit([StringKey("B")]), AppendBase("Int64", false), EndBlock], []))
  {
    assert !Shipped.Drained(false, EmptyStruct(), false);
    HolderFusedAsWritten();
    HolderUnfused();
  }

  lemma HolderFusedAsWritten()
    ensures Next(Options(false, true, AsWritten), Holder(), [])
            == Ok(Out([ScanEmpty(2), MapHeaderInUse(false), GuardOpen(1),
                       Lit([StringKey("A"), MapHeader(0), StringKey("B")]), AppendBase("Int64", false), EndBlock], []))
  {
    var o := Options(false, true, AsWritten);
    var tail := [GuardOpen(1), Lit([StringKey("A"), MapHeader(0), StringKey("B")]), AppendBase("Int64", false), EndBlock];
    HolderFieldsFused(o);
    RuntimeHeaderUnfast(o, Holder());
    KeyedStructOf(o, Holder(), [], [ScanEmpty(2), MapHeaderInUse(false)], [], tail, []);
    assert [ScanEmpty(2), MapHeaderInUse(false)] + tail
           == [ScanEmpty(2), MapHeaderInUse(false), GuardOpen(1),
               Lit([StringKey("A"), MapHeader(0), StringKey("B")]), AppendBase("Int64", false), EndBlock];
  }

  /** The fields of `Holder` as written, fused: `A`'s key and the empty header are still pending at `B`'s guard. */
  lemma HolderFieldsFused(o: Options)
    requires o == Options(false, true, AsWritten)
    ensures MapFields(o, Holder(), 0, [])
            == Ok(Out([GuardOpen(1), Lit([StringKey("A"), MapHeader(0), StringKey("B")]), AppendBase("Int64", false), EndBlock], []))
  {
    var a := StringKey("A");
    var tail := [GuardOpen(1), Lit([a, MapHeader(0), StringKey("B")]), AppendBase("Int64", false), EndBlock];
    HolderSecondFused(o);
    EmptyStructPending(o, [a]);
    assert [a] + [MapHeader(0)] == [a, MapHeader(0)];
    var ka := PutConst(o, [], a);
    assert ka == Out([], [a]);
    FirstEntry(o, Holder(), []);
    assert ka.stmts + [] + tail == tail;
  }

  lemma HolderSecondFused(o: Options)
    requires o == Options(false, true, AsWritten)
    ensures MapFields(o, Holder(), 1, [StringKey("A"), MapHeader(0)])
            == Ok(Out([GuardOpen(1), Lit([StringKey("A"), MapHeader(0), StringKey("B")]), AppendBase("Int64", false), EndBlock], []))
  {
    var a, b := StringKey("A"), StringKey("B");
    var pend := [a, MapHeader(0)];
    HolderLastField(o, pend);
    var kb := PutConst(o, pend, b);
    assert kb == Out([], pend + [b]) && pend + [b] == [a, MapHeader(0), b];
    assert FuseHook(kb.fuse) == [Lit([a, MapHeader(0), b])];
    assert [GuardOpen(1)] + kb.stmts + (FuseHook(kb.fuse) + [AppendBase("Int64", false)]) + [EndBlock] + []
           == [GuardOpen(1), Lit([a, MapHeader(0), b]), AppendBase("Int64", false), EndBlock];
  }

  lemma HolderUnfused()
    ensures Next(Options(false, false, AsWritten), Holder(), [])
            == Ok(Out([ScanEmpty(2), MapHeaderInUse(false), Lit([StringKey("A")]), Lit([MapHeader(0)]),
                       GuardOpen(1), Lit([StringKey("B")]), AppendBase("Int64", false), EndBlock], []))
  {
    var o := Options(false, false, AsWritten);
    var rest := [Lit([StringKey("A")]), Lit([MapHeader(0)]), GuardOpen(1), Lit([StringKey("B")]), AppendBase("Int64", false), EndBlock];
    HolderFieldsUnfused(o);
    RuntimeHeaderUnfast(o, Holder());
    KeyedStructOf(o, Holder(), [], [ScanEmpty(2), MapHeaderInUse(false)], [], rest, []);
    assert [ScanEmpty(2), MapHeaderInUse(false)] + rest
           == [ScanEmpty(2), MapHeaderInUse(false), Lit([StringKey("A")]), Lit([MapHeader(0)]),
               GuardOpen(1), Lit([StringKey("B")]), AppendBase("Int64", false), EndBlock];
  }

  /** The fields of `Holder` unfused: every constant is written where it is produced. */
  lemma HolderFieldsUnfused(o: Options)
    requires o == Options(false, false, AsWritten)
    ensures MapFields(o, Holder(), 0, [])
            == Ok(Out([Lit([StringKey("A")]), Lit([MapHeader(0)]), GuardOpen(1), Lit([StringKey("B")]), AppendBase("Int64", false), EndBlock], []))
  {
    var a, b := StringKey("A"), StringKey("B");
    var tail := [GuardOpen(1), Lit([b]), AppendBase("Int64", false), EndBlock];
    HolderSecondUnfused(o);
    var ka := PutConst(o, [], a);
    assert ka == Out([Lit([a])], []);
    EmptyStructPending(o, []);
    FirstEntry(o, Holder(), []);
    assert ka.stmts + [Lit([MapHeader(0)])] + tail
           == [Lit([a]), Lit([MapHeader(0)]), GuardOpen(1), Lit([b]), AppendBase("Int64", false), EndBlock];
  }

  lemma HolderSecondUnfused(o: Options)
    requires o == Options(false, false, AsWritten)
    ensures MapFields(o, Holder(), 1, []) == Ok(Out([GuardOpen(1), Lit([StringKey("B")]), AppendBase("Int64", false), EndBlock], []))
  {
    var b := StringKey("B");
    HolderLastField(o, []);
    var kb := PutConst(o, [], b);
    assert kb == Out([Lit([b])], []);
    assert FuseHook(kb.fuse) == [];
    assert [GuardOpen(1)] + kb.stmts + (FuseHook(kb.fuse) + [AppendBase("Int64", false)]) + [EndBlock] + []
           == [GuardOpen(1), Lit([b]), AppendBase("Int64", false), EndBlock];
  }

  /** Corrected: the end-of-struct flush writes `A`'s key and the empty header before the guard. */
  lemma GuardLeakCorrected()
    ensures Next(Fused(false), Holder(), [])
            == Ok(Out([ScanEmpty(2), MapHeaderInUse(false), Lit([StringKey("A"), MapHeader(0)]),
                       GuardOpen(1), Lit([StringKey("B")]), AppendBase("Int64", false), EndBlock], []))
  {
    var o := Fused(false);
    var rest := [Lit([StringKey("A"), MapHeader(0)]), GuardOpen(1), Lit([StringKey("B")]), AppendBase("Int64", false), EndBlock];
    HolderFieldsCorrected(o);
    RuntimeHeaderUnfast(o, Holder());
    KeyedStructOf(o, Holder(), [], [ScanEmpty(2), MapHeaderInUse(false)], [], rest, []);
    assert [ScanEmpty(2), MapHeaderInUse(false)] + rest + FuseHook([])
           == [ScanEmpty(2), MapHeaderInUse(false), Lit([StringKey("A"), MapHeader(0)]),
               GuardOpen(1), Lit([StringKey("B")]), AppendBase("Int64", false), EndBlock];
  }

  /** A keyed struct assembled from its header part and its entries, with the corrected end-of-struct flush. */
  lemma KeyedStructOf(o: Options, s: Elem, buf: seq<Const>, hs: seq<Stmt>, hf: seq<Const>, fs: seq<Stmt>, ff: seq<Const>)
    requires s.Struct? && !s.asTuple
    requires MapHeaderOut(o, s, buf) == Out(hs, hf) && MapFields(o, s, 0, hf) == Ok(Out(fs, ff))
    ensures MapStruct(o, s, buf) == Ok(Out(hs + fs, ff))
    ensures o.policy == AsWritten ==> Next(o, s, buf) == Ok(Out(hs + fs, ff))
    ensures o.policy == Corrected ==> Next(o, s, buf) == Ok(Out(hs + fs + FuseHook(ff), []))
  {
  }

  /** Off the fast protocol, a struct with omitempty tags opens with the runtime scan and in-use header. */
  lemma RuntimeHeaderUnfast(o: Options, s: Elem)
    requires s.Struct? && !o.fast && s.hasOmitEmptyTags
    ensures MapHeaderOut(o, s, []) == Out([ScanEmpty(|s.fields|), MapHeaderInUse(false)], [])
  {
    var block := [ScanEmpty(|s.fields|), MapHeaderInUse(false)];
    assert FuseHook([]) + (block + []) == block;
  }

  /** The fields of `Holder` corrected: the empty struct's flush precedes `B`'s guard. */
  lemma HolderFieldsCorrected(o: Options)
    requires o == Options(false, true, Corrected)
    ensures MapFields(o, Holder(), 0, [])
            == Ok(Out([Lit([StringKey("A"), MapHeader(0)]), GuardOpen(1), Lit([StringKey("B")]), AppendBase("Int64", false), EndBlock], []))
  {
    var a, b := StringKey("A"), StringKey("B");
    var tail := [GuardOpen(1), Lit([b]), AppendBase("Int64", false), EndBlock];
    HolderSecondCorrected(o);
    EmptyStructPending(o, [a]);
    assert [a] + [MapHeader(0)] == [a, MapHeader(0)];
    var ka := PutConst(o, [], a);
    assert ka == Out([], [a]);
    assert Next(o, EmptyStruct(), ka.fuse) == Ok(Out([Lit([a, MapHeader(0)])], []));
    assert MapFields(o, Holder(), 1, []) == Ok(Out(tail, []));
    FirstEntry(o, Holder(), []);
    assert ka.stmts + [Lit([a, MapHeader(0)])] + tail
           == [Lit([a, MapHeader(0)]), GuardOpen(1), Lit([b]), AppendBase("Int64", false), EndBlock];
  }

  lemma HolderSecondCorrected(o: Options)
    requires o == Options(false, true, Corrected)
    ensures MapFields(o, Holder(), 1, []) == Ok(Out([GuardOpen(1), Lit([StringKey("B")]), AppendBase("Int64", false), EndBlock], []))
  {
    var b := StringKey("B");
    HolderLastField(o, []);
    var kb := PutConst(o, [], b);
    assert kb == Out([], [b]);
    assert FuseHook(kb.fuse) == [Lit([b])];
    assert [GuardOpen(1)] + kb.stmts + (FuseHook(kb.fuse) + [AppendBase("Int64", false)]) + [EndBlock] + []
           == [GuardOpen(1), Lit([b]), AppendBase("Int64", false), EndBlock];
  }

  /** An unguarded first entry after `buf`: the key, then the value, then the remaining entries. */
  lemma FirstEntry(o: Options, s: Elem, buf: seq<Const>)
    requires s.Struct? && |s.fields| > 0 && !s.fields[0].skip && !Guarded(o.fast, s, 0)
    ensures var k := PutConst(o, buf, KeyOf(o.fast, s, 0));
            var v := Next(o, s.fields[0].fieldElem, k.fuse);
            v.Ok? && MapFields(o, s, 1, v.value.fuse).Ok? ==>
              MapFields(o, s, 0, buf)
              == Ok(Out(k.stmts + v.value.stmts + MapFields(o, s, 1, v.value.fuse).value.stmts,
                        MapFields(o, s, 1, v.value.fuse).value.fuse))
  {
    var k := PutConst(o, buf, KeyOf(o.fast, s, 0));
    var v := Next(o, s.fields[0].fieldElem, k.fuse);
    if v.Ok? && MapFields(o, s, 1, v.value.fuse).Ok? {
      var rest := MapFields(o, s, 1, v.value.fuse).value.stmts;
      assert [] + k.stmts + v.value.stmts + [] + rest == k.stmts + v.value.stmts + rest;
    }
  }

  /** `B`'s guarded entry after `buf`: the guard opens, the key joins `buf`, the value flushes, the guard closes. */
  lemma HolderLastField(o: Options, buf: seq<Const>)
    requires !o.fast
    ensures var k := PutConst(o, buf, StringKey("B"));
            MapFields(o, Holder(), 1, buf)
            == Ok(Out([GuardOpen(1)] + k.stmts + (FuseHook(k.fuse) + [AppendBase("Int64", false)]) + [EndBlock] + [], []))
  {
    var h := Holder();
    var k := PutConst(o, buf, StringKey("B"));
    Int64After(o, k.fuse);
    assert Guarded(false, h, 1) && KeyOf(false, h, 1) == StringKey("B");
    assert MapFields(o, h, 2, []) == Ok(Out([], []));
  }

  /** An int64 value flushes what is pending, then appends itself. */
  lemma Int64After(o: Options, buf: seq<Const>)
    ensures Next(o, Base(Scalar, "Int64", false), buf) == Ok(Out(FuseHook(buf) + [AppendBase("Int64", false)], []))
    ensures buf == [] ==> Next(o, Base(Scalar, "Int64", false), buf) == Ok(Out([AppendBase("Int64", false)], []))
    ensures buf != [] ==> Next(o, Base(Scalar, "Int64", false), buf) == Ok(Out([Lit(buf), AppendBase("Int64", false)], []))
  {
    assert [] + [AppendBase("Int64", false)] == [AppendBase("Int64", false)];
    assert [Lit(buf)] + [AppendBase("Int64", false)] == [Lit(buf), AppendBase("Int64", false)];
  }

  /**
   The empty struct after the pending constants `buf`: fused, its header joins
   them; corrected, all are flushed; unfused, the header is its own literal.
   */
  lemma EmptyStructPending(o: Options, buf: seq<Const>)
    requires !o.fast
    ensures o.fusion && o.policy == AsWritten ==> Next(o, EmptyStruct(), buf) == Ok(Out([], buf + [MapHeader(0)]))
    ensures o.fusion && o.policy == Corrected ==> Next(o, EmptyStruct(), buf) == Ok(Out([Lit(buf + [MapHeader(0)])], []))
    ensures !o.fusion && buf == [] ==> Next(o, EmptyStruct(), buf) == Ok(Out([Lit([MapHeader(0)])], []))
  {
    var e := EmptyStruct();
    assert ToUint32(0) == 0;
    var h := MapHeaderOut(o, e, buf);
    assert h == PutConst(o, buf, MapHeader(0));
    assert MapFields(o, e, 0, h.fuse) == Ok(Out([], h.fuse));
    assert h.stmts + [] == h.stmts;
    assert MapStruct(o, e, buf) == Ok(Out(h.stmts, h.fuse));
    assert Next(o, e, buf) == GStruct(o, e, buf);
    if o.fusion && o.policy == Corrected {
      var none: seq<Stmt> := [];
      assert none + [Lit(buf + [MapHeader(0)])] == [Lit(buf + [MapHeader(0)])];
    }
    if !o.fusion && buf == [] {
      assert FuseHook([]) + [Lit([MapHeader(0)])] == [Lit([MapHeader(0)])];
    }
  }

  /** Corrected: the header is flushed inside the loop body. */
  lemma LoopLeakCorrected()
    ensures var r := Next(Fused(false), Slice(EmptyStruct()), []);
            r.Ok? && r.value.stmts == [ArrayHeaderLen, RangeOpen, Lit([MapHeader(0)]), EndBlock] && r.value.fuse == []
  {
    EmptyStructCorrected();
  }

  /** Corrected: behind a pointer the header is written inside the else-block. */
  lemma NilLeakCorrected()
    ensures var r := Next(Fused(false), Ptr(EmptyStruct()), []);
            r.Ok? && r.value.stmts == [NilOpen, Lit([MapHeader(0)]), EndBlock] && r.value.fuse == []
  {
    EmptyStructCorrected();
  }

  lemma EmptyStructCorrected()
    ensures Next(Fused(false), EmptyStruct(), []) == Ok(Out([Lit([MapHeader(0)])], []))
  {
    var e := EmptyStruct();
    var o := Fused(false);
    assert ToUint32(0) == 0;
    var h := MapHeaderOut(o, e, []);
    assert h.stmts == [] && h.fuse == [MapHeader(0)];
    var m := MapStruct(o, e, []);
    assert m.Ok? && m.value.stmts == [] && m.value.fuse == [MapHeader(0)];
    var n := Next(o, e, []);
    assert n.Ok? && n.value.stmts == [Lit([MapHeader(0)])] && n.value.fuse == [];
  }

  /**
   `Execute` as written returns with the empty struct's header still fused:
   the generated function never writes it, and the next function the same
   generator emits starts by writing it.
   */
  lemma ExecuteLeftoverAsWritten()
    ensures !Shipped.Drained(false, EmptyStruct(), true)
    ensures var r := Execute(Options(false, true, AsWritten), true, q => Some(q), q => true, EmptyStruct(), []);
            r.Ok? && r.value.stmts == [FuncOpen, FuncReturn] && r.value.fuse == [MapHeader(0)]
    ensures var r := Execute(Options(false, true, AsWritten), true, q => Some(q), q => true,
                             Base(Scalar, "Int64", false), [MapHeader(0)]);
            r.Ok? && r.value.stmts == [FuncOpen, Lit([MapHeader(0)]), AppendBase("Int64", false), FuncReturn]
            && r.value.fuse == []
  {
    var e := EmptyStruct();
    var f := Options(false, true, AsWritten);
    assert ToUint32(0) == 0;
    var h := MapHeaderOut(f, e, []);
    assert h.stmts == [] && h.fuse == [MapHeader(0)];
    var n := Next(f, e, []);
    assert n.Ok? && n.value.stmts == [] && n.value.fuse == [MapHeader(0)];
    var b := Next(f, Base(Scalar, "Int64", false), [MapHeader(0)]);
    assert b.Ok? && b.value.stmts == [Lit([MapHeader(0)]), AppendBase("Int64", false)] && b.value.fuse == [];
  }

  /**
   The corrected `Execute`: each generated function writes every constant of
   its own node, in the reference order, and leaves nothing for the next.
   */
  lemma ExecuteFlushes(fast: bool, sinkOk: bool, applyAll: Elem -> Option<Elem>, printable: Elem -> bool, p: Elem)
    ensures var f := Execute(Fused(fast), sinkOk, applyAll, printable, p, []);
            var u := Execute(Unfused(fast), sinkOk, applyAll, printable, p, []);
            && (f.Ok? <==> u.Ok?)
            && (f.Ok? ==> f.value.fuse == [] && Flatten(f.value.stmts) == Flatten(u.value.stmts))
  {
    if sinkOk && applyAll(p).Some? && printable(applyAll(p).value) {
      var q := applyAll(p).value;
      FusionIsTransparent(fast, q);
      var fb, ub := Next(Fused(fast), q, []), Next(Unfused(fast), q, []);
      if fb.Ok? {
        assert FuseHook(fb.value.fuse) == [] && FuseHook(ub.value.fuse) == [];
        var fs, us := fb.value.stmts, ub.value.stmts;
        assert Execute(Fused(fast), sinkOk, applyAll, printable, p, []).value.stmts == [FuncOpen] + fs + [FuncReturn];
        assert Execute(Unfused(fast), sinkOk, applyAll, printable, p, []).value.stmts == [FuncOpen] + us + [FuncReturn];
        FlattenAppend([FuncOpen] + fs, [FuncReturn]);
        FlattenAppend([FuncOpen], fs);
        FlattenAppend([FuncOpen] + us, [FuncReturn]);
        FlattenAppend([FuncOpen], us);
      }
    }
  }
}
