/**
 What the generator writes for each shape, stated over the reference output
 (fusion off, nothing pending): the struct layouts of the tuple and keyed
 protocols, the agreement of header counts with the entries written, the
 flush before every runtime append, and when generation fails.
 */
module Layout {
  import opened Results
  import opened Ir
  import opened Fusion
  import opened Marshal
  import Transparency

  /** The generator as written with fusion off. */
  function Reference(fast: bool): Options {
    Options(fast, false, AsWritten)
  }

  /** The reference statements of one node. */
  function Trace(fast: bool, e: Elem): Result<seq<Stmt>, GenError> {
    var r :- Next(Reference(fast), e, []);
    Ok(r.stmts)
  }

  /** The reference statements of the values of the listed fields, in list order. */
  function ValueTraces(fast: bool, s: Elem, idx: seq<nat>): Result<seq<Stmt>, GenError>
    requires s.Struct? && forall k :: 0 <= k < |idx| ==> idx[k] < |s.fields|
  {
    if idx == [] then Ok([])
    else
      var v :- Trace(fast, s.fields[idx[0]].fieldElem);
      var rest :- ValueTraces(fast, s, idx[1..]);
      Ok(v + rest)
  }

  /** The reference output leaves nothing pending. */
  lemma ReferenceLeavesNothing(fast: bool, e: Elem)
    ensures Next(Reference(fast), e, []).Ok? ==> Next(Reference(fast), e, []).value.fuse == []
  {
    Transparency.PolicyIrrelevantUnfused(fast, e);
  }

  lemma {:induction false} TupleFieldsLayout(fast: bool, s: Elem, i: nat)
    requires s.Struct? && i <= |s.fields|
    ensures TupleFields(Reference(fast), s, i, []).Ok? <==> ValueTraces(fast, s, NonSkippedFrom(s.fields, i)).Ok?
    ensures TupleFields(Reference(fast), s, i, []).Ok? ==>
              TupleFields(Reference(fast), s, i, []).value == Out(ValueTraces(fast, s, NonSkippedFrom(s.fields, i)).value, [])
    decreases |s.fields| - i
  {
    var R := Reference(fast);
    var idx := NonSkippedFrom(s.fields, i);
    if i == |s.fields| {
      assert idx == [];
    } else if s.fields[i].skip {
      TupleFieldsLayout(fast, s, i + 1);
      assert idx == NonSkippedFrom(s.fields, i + 1);
    } else {
      TupleFieldsLayout(fast, s, i + 1);
      var e := s.fields[i].fieldElem;
      ReferenceLeavesNothing(fast, e);
      assert idx == [i] + NonSkippedFrom(s.fields, i + 1);
      assert idx[0] == i && idx[1..] == NonSkippedFrom(s.fields, i + 1);
      var v := Next(R, e, []);
      var rest := TupleFields(R, s, i + 1, []);
      if v.Ok? {
        assert Trace(fast, e) == Ok(v.value.stmts);
        if rest.Ok? {
          assert TupleFields(R, s, i, []) == Ok(Out(v.value.stmts + rest.value.stmts, []));
        }
      }
    }
  }

  /**
   Tuple protocol: one array header of `len(Fields) - SkipCount`, then the
   values of exactly the non-skipped fields in declaration order, and no keys.
   */
  lemma TupleLayout(fast: bool, s: Elem)
    requires s.Struct? && s.asTuple
    ensures Trace(fast, s).Ok? <==> ValueTraces(fast, s, NonSkipped(s.fields)).Ok?
    ensures Trace(fast, s).Ok? ==>
              Trace(fast, s).value
              == [Lit([ArrayHeader(ToUint32(|s.fields| - s.skipCount))])] + ValueTraces(fast, s, NonSkipped(s.fields)).value
  {
    var R := Reference(fast);
    TupleFieldsLayout(fast, s, 0);
    var c := ArrayHeader(ToUint32(|s.fields| - s.skipCount));
    var h := PutConst(R, [], c);
    assert h.stmts == [Lit([c])] && h.fuse == [];
    var r := TupleFields(R, s, 0, []);
    assert Next(R, s, []) == GStruct(R, s, []);
    if r.Ok? {
      assert Tuple(R, s, []) == Ok(Out(h.stmts + r.value.stmts, []));
      assert GStruct(R, s, []) == Tuple(R, s, []);
    } else {
      assert Tuple(R, s, []).Err?;
    }
  }

  /** The header count of a tuple is the number of values written, given a consistent skip count. */
  lemma TupleHeaderCountsValues(s: Elem)
    requires s.Struct? && SkipCountConsistent(s) && |s.fields| < Uint32Modulus
    ensures ToUint32(|s.fields| - s.skipCount) == |NonSkipped(s.fields)|
  {
    NonSkippedCount(s.fields, 0);
    assert s.fields[0..] == s.fields;
  }

  /** The header part of a keyed struct. */
  function HeaderStmts(fast: bool, s: Elem): seq<Stmt>
    requires s.Struct?
  {
    if fast then [ScanEmpty(|s.fields|), MapHeaderInUse(true), TypeId(s.receiver)]
    else if s.hasOmitEmptyTags then [ScanEmpty(|s.fields|), MapHeaderInUse(false)]
    else [Lit([MapHeader(ToUint32(|s.fields| - s.skipCount))])]
  }

  /** One key/value entry: the guard if any, the key literal, the value, the guard's end. */
  function Entry(fast: bool, s: Elem, i: nat): Result<seq<Stmt>, GenError>
    requires s.Struct? && i < |s.fields|
  {
    if fast && s.fields[i].zebraId < 0 then Err(MissingZid(s.fields[i].fieldTag))
    else
      var v :- Trace(fast, s.fields[i].fieldElem);
      var g := Guarded(fast, s, i);
      Ok((if g then [GuardOpen(i)] else []) + [Lit([KeyOf(fast, s, i)])] + v + (if g then [EndBlock] else []))
  }

  /** The entries of the listed fields, in list order. */
  function Entries(fast: bool, s: Elem, idx: seq<nat>): Result<seq<Stmt>, GenError>
    requires s.Struct? && forall k :: 0 <= k < |idx| ==> idx[k] < |s.fields|
  {
    if idx == [] then Ok([])
    else
      var en :- Entry(fast, s, idx[0]);
      var rest :- Entries(fast, s, idx[1..]);
      Ok(en + rest)
  }

  lemma {:induction false} MapFieldsLayout(fast: bool, s: Elem, i: nat)
    requires s.Struct? && i <= |s.fields|
    ensures MapFields(Reference(fast), s, i, []).Ok? <==> Entries(fast, s, NonSkippedFrom(s.fields, i)).Ok?
    ensures MapFields(Reference(fast), s, i, []).Ok? ==>
              MapFields(Reference(fast), s, i, []).value == Out(Entries(fast, s, NonSkippedFrom(s.fields, i)).value, [])
    decreases |s.fields| - i
  {
    var R := Reference(fast);
    var idx := NonSkippedFrom(s.fields, i);
    if i == |s.fields| {
      assert idx == [];
    } else if s.fields[i].skip {
      MapFieldsLayout(fast, s, i + 1);
      assert idx == NonSkippedFrom(s.fields, i + 1);
    } else {
      MapFieldsLayout(fast, s, i + 1);
      assert idx == [i] + NonSkippedFrom(s.fields, i + 1);
      assert idx[0] == i && idx[1..] == NonSkippedFrom(s.fields, i + 1);
      if !(fast && s.fields[i].zebraId < 0) {
        var e := s.fields[i].fieldElem;
        ReferenceLeavesNothing(fast, e);
        var g := Guarded(fast, s, i);
        var open: seq<Stmt> := if g then [GuardOpen(i)] else [];
        var close: seq<Stmt> := if g then [EndBlock] else [];
        var k := PutConst(R, [], KeyOf(fast, s, i));
        assert k.stmts == [Lit([KeyOf(fast, s, i)])] && k.fuse == [];
        var v := Next(R, e, []);
        var rest := MapFields(R, s, i + 1, []);
        if v.Ok? {
          assert Trace(fast, e) == Ok(v.value.stmts);
          assert Entry(fast, s, i) == Ok(open + k.stmts + v.value.stmts + close);
          if rest.Ok? {
            assert MapFields(R, s, i, []) == Ok(Out(open + k.stmts + v.value.stmts + close + rest.value.stmts, []));
          }
        }
      }
    }
  }

  /**
   Keyed protocol: the header (runtime count `fieldsInUse+1` and the -1
   type-id entry under fast; runtime `fieldsInUse` with omitempty tags;
   otherwise the static `len(Fields) - SkipCount`), then one entry per
   non-skipped field in declaration order, each key written before its value.
   */
  lemma MapLayout(fast: bool, s: Elem)
    requires s.Struct? && !s.asTuple
    ensures Trace(fast, s).Ok? <==> Entries(fast, s, NonSkipped(s.fields)).Ok?
    ensures Trace(fast, s).Ok? ==> Trace(fast, s).value == HeaderStmts(fast, s) + Entries(fast, s, NonSkipped(s.fields)).value
  {
    var R := Reference(fast);
    MapFieldsLayout(fast, s, 0);
    var h := MapHeaderOut(R, s, []);
    assert h.stmts == HeaderStmts(fast, s) && h.fuse == [];
    var r := MapFields(R, s, 0, []);
    assert Next(R, s, []) == GStruct(R, s, []);
    if r.Ok? {
      assert MapStruct(R, s, []) == Ok(Out(h.stmts + r.value.stmts, []));
      assert GStruct(R, s, []) == MapStruct(R, s, []);
    } else {
      assert MapStruct(R, s, []).Err?;
    }
  }

  /** Whether the listed fields' entries pass their guards when the scan flags `empty`. */
  function Written(fast: bool, s: Elem, empty: seq<bool>, idx: seq<nat>): nat
    requires s.Struct? && |empty| == |s.fields|
    requires forall k :: 0 <= k < |idx| ==> idx[k] < |s.fields|
  {
    if idx == [] then 0
    else (if !Guarded(fast, s, idx[0]) || !empty[idx[0]] then 1 else 0) + Written(fast, s, empty, idx[1..])
  }

  /** `fieldsInUse`: the listed fields the runtime emptiness scan does not flag. */
  function InUse(empty: seq<bool>, idx: seq<nat>): nat
    requires forall k :: 0 <= k < |idx| ==> idx[k] < |empty|
  {
    if idx == [] then 0
    else (if !empty[idx[0]] then 1 else 0) + InUse(empty, idx[1..])
  }

  /** At most every listed field is in use, and every one is when none of them is empty. */
  lemma {:induction false} InUseBounds(empty: seq<bool>, idx: seq<nat>)
    requires forall k :: 0 <= k < |idx| ==> idx[k] < |empty|
    ensures InUse(empty, idx) <= |idx|
    ensures (forall k :: 0 <= k < |idx| ==> !empty[idx[k]]) ==> InUse(empty, idx) == |idx|
  {
    if idx != [] {
      InUseBounds(empty, idx[1..]);
    }
  }

  /** The count the keyed header announces when the scan flags `empty`. */
  function HeaderCount(fast: bool, s: Elem, empty: seq<bool>): nat
    requires s.Struct? && |empty| == |s.fields|
  {
    if fast then InUse(empty, NonSkipped(s.fields)) + 1
    else if s.hasOmitEmptyTags then InUse(empty, NonSkipped(s.fields))
    else ToUint32(|s.fields| - s.skipCount)
  }

  /**
   The keyed header's count against the visited fields: at most one per
   visited field, plus the type-id entry under fast, and exactly that many
   when no visited field is flagged empty.
   */
  lemma HeaderCountBounds(fast: bool, s: Elem, empty: seq<bool>)
    requires s.Struct? && |empty| == |s.fields|
    requires SkipCountConsistent(s) && |s.fields| < Uint32Modulus
    ensures HeaderCount(fast, s, empty) <= |NonSkipped(s.fields)| + (if fast then 1 else 0)
    ensures (forall j :: 0 <= j < |s.fields| && !s.fields[j].skip ==> !empty[j]) ==>
              HeaderCount(fast, s, empty) == |NonSkipped(s.fields)| + (if fast then 1 else 0)
  {
    InUseBounds(empty, NonSkipped(s.fields));
    if !RuntimeHeader(fast, s) {
      TupleHeaderCountsValues(s);
    }
  }

  /** The entries the generated code appends: the type-id entry under fast, plus each field passing its guard. */
  function EntriesWritten(fast: bool, s: Elem, empty: seq<bool>): nat
    requires s.Struct? && |empty| == |s.fields|
  {
    (if fast then 1 else 0) + Written(fast, s, empty, NonSkipped(s.fields))
  }

  lemma {:induction false} WrittenCounts(fast: bool, s: Elem, empty: seq<bool>, idx: seq<nat>)
    requires s.Struct? && |empty| == |s.fields|
    requires forall k :: 0 <= k < |idx| ==> idx[k] < |s.fields|
    requires forall j :: 0 <= j < |s.fields| && empty[j] ==> fast || s.fields[j].omitEmpty
    ensures RuntimeHeader(fast, s) ==> Written(fast, s, empty, idx) == InUse(empty, idx)
    ensures !RuntimeHeader(fast, s) ==> Written(fast, s, empty, idx) == |idx|
  {
    if idx != [] {
      WrittenCounts(fast, s, empty, idx[1..]);
    }
  }

  /**
   The map header count equals the number of entries the generated code
   appends, provided the skip count is consistent and the runtime scan flags
   only fields that are guarded (every field under fast, omitempty fields
   otherwise).
   */
  lemma HeaderCountMatchesEntries(fast: bool, s: Elem, empty: seq<bool>)
    requires s.Struct? && |empty| == |s.fields|
    requires SkipCountConsistent(s) && |s.fields| < Uint32Modulus
    requires forall j :: 0 <= j < |s.fields| && empty[j] ==> fast || s.fields[j].omitEmpty
    ensures HeaderCount(fast, s, empty) == EntriesWritten(fast, s, empty)
  {
    WrittenCounts(fast, s, empty, NonSkipped(s.fields));
    if !RuntimeHeader(fast, s) {
      TupleHeaderCountsValues(s);
    }
  }

  /** Every non-skipped keyed field reachable from `e` carries a zid when the fast protocol needs one. */
  predicate ZidsPresent(fast: bool, e: Elem)
    decreases e, 1
  {
    match e
    case Struct(_, fields, _, _, _, _) => forall j :: 0 <= j < |fields| ==> FieldZidsPresent(fast, e, j)
    case Map(_, value) => ZidsPresent(fast, value)
    case Slice(els) => ZidsPresent(fast, els)
    case Array(els, _) => (els.Base? && els.kind == Byte) || ZidsPresent(fast, els)
    case Ptr(value) => ZidsPresent(fast, value)
    case Base(_, _, _) => true
  }

  predicate FieldZidsPresent(fast: bool, s: Elem, j: nat)
    requires s.Struct? && j < |s.fields|
    decreases s, 0
  {
    s.fields[j].skip
    || ((fast && !s.asTuple ==> s.fields[j].zebraId >= 0) && ZidsPresent(fast, s.fields[j].fieldElem))
  }

  /**
   Generation fails exactly when some field that is written keyed under the
   fast protocol has no zid; the options, policy and pending bytes do not
   matter.
   */
  lemma {:induction false} GenFailsIff(o: Options, e: Elem, buf: seq<Const>)
    ensures Next(o, e, buf).Err? <==> !ZidsPresent(o.fast, e)
    ensures Next(o, e, buf).Err? ==> Next(o, e, buf).error.MissingZid?
    decreases e, 1
  {
    match e
    case Struct(_, fields, _, _, _, _) =>
      assert Next(o, e, buf) == GStruct(o, e, buf);
      if e.asTuple {
        var h := PutConst(o, buf, ArrayHeader(ToUint32(|fields| - e.skipCount)));
        TupleFieldsFail(o, e, 0, h.fuse);
        var r := TupleFields(o, e, 0, h.fuse);
        if r.Err? {
          assert Tuple(o, e, buf) == Err(r.error);
        } else {
          assert Tuple(o, e, buf).Ok?;
          assert forall j :: 0 <= j < |fields| ==> FieldZidsPresent(o.fast, e, j);
          assert ZidsPresent(o.fast, e);
        }
      } else {
        var h := MapHeaderOut(o, e, buf);
        MapFieldsFail(o, e, 0, h.fuse);
        var r := MapFields(o, e, 0, h.fuse);
        if r.Err? {
          assert MapStruct(o, e, buf) == Err(r.error);
        } else {
          assert MapStruct(o, e, buf).Ok?;
          assert forall j :: 0 <= j < |fields| ==> FieldZidsPresent(o.fast, e, j);
          assert ZidsPresent(o.fast, e);
        }
      }
    case Map(_, value) => GenFailsIff(o, value, []);
    case Slice(els) => GenFailsIff(o, els, []);
    case Array(els, _) =>
      if !(els.Base? && els.kind == Byte) {
        GenFailsIff(o, els, []);
      }
    case Ptr(value) => GenFailsIff(o, value, []);
    case Base(_, _, _) =>
  }

  lemma {:induction false} TupleFieldsFail(o: Options, s: Elem, i: nat, buf: seq<Const>)
    requires s.Struct? && s.asTuple && i <= |s.fields|
    ensures TupleFields(o, s, i, buf).Err? <==> exists j :: i <= j < |s.fields| && !FieldZidsPresent(o.fast, s, j)
    ensures TupleFields(o, s, i, buf).Err? ==> TupleFields(o, s, i, buf).error.MissingZid?
    decreases s, 0, |s.fields| - i
  {
    if i < |s.fields| {
      if s.fields[i].skip {
        TupleFieldsFail(o, s, i + 1, buf);
        assert FieldZidsPresent(o.fast, s, i);
      } else {
        var v := Next(o, s.fields[i].fieldElem, buf);
        GenFailsIff(o, s.fields[i].fieldElem, buf);
        if v.Ok? {
          TupleFieldsFail(o, s, i + 1, v.value.fuse);
          assert FieldZidsPresent(o.fast, s, i);
        } else {
          assert !FieldZidsPresent(o.fast, s, i);
        }
      }
    }
  }

  lemma {:induction false} MapFieldsFail(o: Options, s: Elem, i: nat, buf: seq<Const>)
    requires s.Struct? && !s.asTuple && i <= |s.fields|
    ensures MapFields(o, s, i, buf).Err? <==> exists j :: i <= j < |s.fields| && !FieldZidsPresent(o.fast, s, j)
    ensures MapFields(o, s, i, buf).Err? ==> MapFields(o, s, i, buf).error.MissingZid?
    decreases s, 0, |s.fields| - i
  {
    if i < |s.fields| {
      if s.fields[i].skip {
        MapFieldsFail(o, s, i + 1, buf);
        assert FieldZidsPresent(o.fast, s, i);
      } else if o.fast && s.fields[i].zebraId < 0 {
        assert MapFields(o, s, i, buf) == Err(MissingZid(s.fields[i].fieldTag));
        assert !FieldZidsPresent(o.fast, s, i);
      } else {
        var k := PutConst(o, buf, KeyOf(o.fast, s, i));
        var v := Next(o, s.fields[i].fieldElem, k.fuse);
        GenFailsIff(o, s.fields[i].fieldElem, k.fuse);
        if v.Ok? {
          MapFieldsFail(o, s, i + 1, v.value.fuse);
          assert FieldZidsPresent(o.fast, s, i);
        } else {
          assert !FieldZidsPresent(o.fast, s, i);
        }
      }
    }
  }

  /**
   A generated function fails iff the printer had already failed, or the
   printable node reached through the pass pipeline lacks a zid it needs
   under the fast protocol, which is a missing-zid error.
   */
  lemma ExecuteFailsIff(o: Options, sinkOk: bool, applyAll: Elem -> Option<Elem>, printable: Elem -> bool,
                        p: Elem, buf: seq<Const>)
    ensures Execute(o, sinkOk, applyAll, printable, p, buf).Err? <==>
              !sinkOk || (applyAll(p).Some? && printable(applyAll(p).value) && !ZidsPresent(o.fast, applyAll(p).value))
    ensures sinkOk && Execute(o, sinkOk, applyAll, printable, p, buf).Err? ==>
              Execute(o, sinkOk, applyAll, printable, p, buf).error.MissingZid?
  {
    if sinkOk && applyAll(p).Some? {
      GenFailsIff(o, applyAll(p).value, buf);
    }
  }

  /** The first runtime append of a non-struct node. */
  function Opener(e: Elem): Stmt
    requires !e.Struct?
  {
    match e
    case Map(_, _) => MapHeaderLen
    case Slice(_) => ArrayHeaderLen
    case Array(els, size) => if els.Base? && els.kind == Byte then AppendBytes else ArrayHeaderSize(size)
    case Ptr(_) => NilOpen
    case Base(kind, baseName, convert) => BaseAppend(kind, baseName, convert)[0]
  }

  /**
   Before any append whose bytes are known only at run time, the pending
   constants are flushed in order: a non-struct node begins with the flush
   of `buf` followed by its runtime opener, and a byte array is one blob
   with no header and nothing left pending.
   */
  lemma FlushBeforeRuntimeAppend(o: Options, e: Elem, buf: seq<Const>)
    requires !e.Struct?
    ensures Next(o, e, buf).Ok? ==>
              var st := Next(o, e, buf).value.stmts;
              |st| > |FuseHook(buf)| && st[..|FuseHook(buf)|] == FuseHook(buf) && st[|FuseHook(buf)|] == Opener(e)
    ensures e.Array? && e.els.Base? && e.els.kind == Byte ==>
              Next(o, e, buf) == Ok(Out(FuseHook(buf) + [AppendBytes], []))
  {
  }

  /**
   The same holds for a keyed struct with a runtime header under the
   corrected policy: the pending constants are flushed before the scan.
   */
  lemma FlushBeforeRuntimeHeader(o: Options, s: Elem, buf: seq<Const>)
    requires s.Struct? && !s.asTuple && RuntimeHeader(o.fast, s) && o.policy == Corrected
    ensures Next(o, s, buf).Ok? ==>
              var st := Next(o, s, buf).value.stmts;
              |st| > |FuseHook(buf)| && st[..|FuseHook(buf)|] == FuseHook(buf) && st[|FuseHook(buf)|] == ScanEmpty(|s.fields|)
  {
    var h := MapHeaderOut(o, s, buf);
    assert h.fuse == [] && h.stmts[..|FuseHook(buf)|] == FuseHook(buf) && h.stmts[|FuseHook(buf)|] == ScanEmpty(|s.fields|);
    var r := MapFields(o, s, 0, []);
    assert Next(o, s, buf) == GStruct(o, s, buf);
    if r.Ok? {
      assert MapStruct(o, s, buf) == Ok(Out(h.stmts + r.value.stmts, r.value.fuse));
      var st := h.stmts + r.value.stmts + FuseHook(r.value.fuse);
      assert Next(o, s, buf) == Ok(Out(st, []));
      assert st[..|FuseHook(buf)|] == h.stmts[..|FuseHook(buf)|];
    } else {
      assert MapStruct(o, s, buf).Err?;
    }
  }
}
