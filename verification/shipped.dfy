/**
 The generator as written, with fusion on. It is transparent exactly as far
 as its fusion buffer never crosses a statement that is not a constant
 append in the wrong place: no keyed struct with a runtime map header starts
 while constants are pending, no omitempty guard opens while constants are
 pending, and no constants are left pending when a range, nil-check or
 omitempty block closes. `Clean` states these three conditions on the shape
 of a node, `Drained` whether the buffer is surely empty after it; on
 clean nodes the output agrees with the reference.
 */
module Shipped {
  import opened Results
  import opened Ir
  import opened Fusion
  import opened Marshal
  import opened Transparency
  import Layout

  /** The generator as shipped: fusion on, flush points as written. */
  function AsShipped(fast: bool): Options {
    Options(fast, true, AsWritten)
  }

  /**
   Whether the fusion buffer is surely empty after `e`, given whether it is
   empty (`pe`) before: a runtime append flushes it, a fused constant fills it.
   */
  function Drained(fast: bool, e: Elem, pe: bool): bool
    decreases e, 1
  {
    match e
    case Struct(_, _, _, _, _, _) =>
      if e.asTuple then TupleDrained(fast, e, 0, false)
      else MapDrained(fast, e, 0, RuntimeHeader(fast, e) && pe)
    case Map(_, value) => Drained(fast, value, true)
    case Slice(els) => Drained(fast, els, true)
    case Array(els, _) => (els.Base? && els.kind == Byte) || Drained(fast, els, true)
    case Ptr(value) => Drained(fast, value, true)
    case Base(_, _, _) => true
  }

  /** `Drained` after the tuple fields from `i` on, each value seeing the buffer the previous left. */
  function TupleDrained(fast: bool, s: Elem, i: nat, cur: bool): bool
    requires s.Struct? && i <= |s.fields|
    decreases s, 0, |s.fields| - i
  {
    if i == |s.fields| then cur
    else if s.fields[i].skip then TupleDrained(fast, s, i + 1, cur)
    else TupleDrained(fast, s, i + 1, Drained(fast, s.fields[i].fieldElem, cur))
  }

  /** `Drained` after the keyed fields from `i` on: each key is fused before its value. */
  function MapDrained(fast: bool, s: Elem, i: nat, cur: bool): bool
    requires s.Struct? && i <= |s.fields|
    decreases s, 0, |s.fields| - i
  {
    if i == |s.fields| then cur
    else if s.fields[i].skip then MapDrained(fast, s, i + 1, cur)
    else MapDrained(fast, s, i + 1, Drained(fast, s.fields[i].fieldElem, false))
  }

  /**
   `e` keeps clear of both flaws when entered with the buffer surely empty
   iff `pe`: a runtime map header is only reached with an empty buffer, and
   every block body (range, nil check, omitempty guard) is entered and left
   with an empty buffer.
   */
  predicate Clean(fast: bool, e: Elem, pe: bool)
    decreases e, 1
  {
    match e
    case Struct(_, _, _, _, _, _) =>
      if e.asTuple then TupleClean(fast, e, 0, false)
      else (RuntimeHeader(fast, e) ==> pe) && MapClean(fast, e, 0, RuntimeHeader(fast, e))
    case Map(_, value) => Clean(fast, value, true) && Drained(fast, value, true)
    case Slice(els) => Clean(fast, els, true) && Drained(fast, els, true)
    case Array(els, _) => (els.Base? && els.kind == Byte) || (Clean(fast, els, true) && Drained(fast, els, true))
    case Ptr(value) => Clean(fast, value, true) && Drained(fast, value, true)
    case Base(_, _, _) => true
  }

  predicate TupleClean(fast: bool, s: Elem, i: nat, cur: bool)
    requires s.Struct? && i <= |s.fields|
    decreases s, 0, |s.fields| - i
  {
    if i == |s.fields| then true
    else if s.fields[i].skip then TupleClean(fast, s, i + 1, cur)
    else
      var v := s.fields[i].fieldElem;
      Clean(fast, v, cur) && TupleClean(fast, s, i + 1, Drained(fast, v, cur))
  }

  predicate MapClean(fast: bool, s: Elem, i: nat, cur: bool)
    requires s.Struct? && i <= |s.fields|
    decreases s, 0, |s.fields| - i
  {
    if i == |s.fields| then true
    else if s.fields[i].skip then MapClean(fast, s, i + 1, cur)
    else
      var v := s.fields[i].fieldElem;
      && (Guarded(fast, s, i) ==> cur && Drained(fast, v, false))
      && Clean(fast, v, false)
      && MapClean(fast, s, i + 1, Drained(fast, v, false))
  }

  lemma {:induction false} NextShipped(fast: bool, e: Elem, buf: seq<Const>, pe: bool)
    requires Clean(fast, e, pe) && (pe ==> buf == [])
    ensures Agrees(Next(AsShipped(fast), e, buf), Next(Unfused(fast), e, []), buf)
    ensures Next(AsShipped(fast), e, buf).Ok? && Drained(fast, e, pe) ==> Next(AsShipped(fast), e, buf).value.fuse == []
    decreases e, 1, 0
  {
    var F, U := AsShipped(fast), Unfused(fast);
    match e
    case Struct(_, _, _, _, _, _) =>
      GStructShipped(fast, e, buf, pe);
    case Map(keyTyp, value) =>
      NextShipped(fast, value, [], true);
      var fb, ub := Next(F, value, []), Next(U, value, []);
      if fb.Ok? {
        Frame(buf, [MapHeaderLen, RangeOpen, AppendMapKey(keyTyp)], fb.value.stmts, ub.value.stmts, [EndBlock]);
      }
    case Slice(els) =>
      NextShipped(fast, els, [], true);
      var fb, ub := Next(F, els, []), Next(U, els, []);
      if fb.Ok? {
        Frame(buf, [ArrayHeaderLen, RangeOpen], fb.value.stmts, ub.value.stmts, [EndBlock]);
      }
    case Array(els, size) =>
      if els.Base? && els.kind == Byte {
        NoLitRel([]);
        Frame(buf, [AppendBytes], [], [], []);
        assert FuseHook(buf) + [AppendBytes] + [] + [] == FuseHook(buf) + [AppendBytes];
        assert FuseHook([]) + [AppendBytes] + [] + [] == FuseHook([]) + [AppendBytes];
      } else {
        NextShipped(fast, els, [], true);
        var fb, ub := Next(F, els, []), Next(U, els, []);
        if fb.Ok? {
          Frame(buf, [ArrayHeaderSize(size), RangeOpen], fb.value.stmts, ub.value.stmts, [EndBlock]);
        }
      }
    case Ptr(value) =>
      NextShipped(fast, value, [], true);
      var fb, ub := Next(F, value, []), Next(U, value, []);
      if fb.Ok? {
        Frame(buf, [NilOpen], fb.value.stmts, ub.value.stmts, [EndBlock]);
      }
    case Base(kind, baseName, convert) =>
      var call := BaseAppend(kind, baseName, convert);
      NoLitRel([]);
      Frame(buf, call, [], [], []);
      assert FuseHook(buf) + call + [] + [] == FuseHook(buf) + call;
      assert FuseHook([]) + call + [] + [] == FuseHook([]) + call;
  }

  lemma {:induction false} GStructShipped(fast: bool, s: Elem, buf: seq<Const>, pe: bool)
    requires s.Struct? && Clean(fast, s, pe) && (pe ==> buf == [])
    ensures Agrees(GStruct(AsShipped(fast), s, buf), GStruct(Unfused(fast), s, []), buf)
    ensures GStruct(AsShipped(fast), s, buf).Ok? && Drained(fast, s, pe) ==> GStruct(AsShipped(fast), s, buf).value.fuse == []
    decreases s, 0, |s.fields| + 2
  {
    var F, U := AsShipped(fast), Unfused(fast);
    var fb, ub;
    if s.asTuple {
      TupleShipped(fast, s, buf);
      fb, ub := Tuple(F, s, buf), Tuple(U, s, []);
    } else {
      MapStructShipped(fast, s, buf, pe);
      fb, ub := MapStruct(F, s, buf), MapStruct(U, s, []);
    }
    assert GStruct(F, s, buf) == fb;
    if ub.Ok? {
      assert GStruct(U, s, []).value.stmts == ub.value.stmts + FuseHook([]);
      assert ub.value.stmts + FuseHook([]) == ub.value.stmts;
    }
  }

  lemma {:induction false} TupleShipped(fast: bool, s: Elem, buf: seq<Const>)
    requires s.Struct? && TupleClean(fast, s, 0, false)
    ensures Agrees(Tuple(AsShipped(fast), s, buf), Tuple(Unfused(fast), s, []), buf)
    ensures Tuple(AsShipped(fast), s, buf).Ok? && TupleDrained(fast, s, 0, false) ==> Tuple(AsShipped(fast), s, buf).value.fuse == []
    decreases s, 0, |s.fields| + 1
  {
    var F, U := AsShipped(fast), Unfused(fast);
    var c := ArrayHeader(ToUint32(|s.fields| - s.skipCount));
    var fh, uh := PutConst(F, buf, c), PutConst(U, [], c);
    assert uh.stmts == [Lit([c])] && fh.stmts == [] && fh.fuse == buf + [c];
    FuseRel(buf, c);
    TupleFieldsShipped(fast, s, 0, fh.fuse, false);
    var fr, ur := TupleFields(F, s, 0, fh.fuse), TupleFields(U, s, 0, []);
    if fr.Ok? {
      Compose([], fh.fuse, uh.stmts, buf, fr.value.stmts, fr.value.fuse, ur.value.stmts);
    }
  }

  lemma {:induction false} TupleFieldsShipped(fast: bool, s: Elem, i: nat, buf: seq<Const>, cur: bool)
    requires s.Struct? && i <= |s.fields|
    requires TupleClean(fast, s, i, cur) && (cur ==> buf == [])
    ensures Agrees(TupleFields(AsShipped(fast), s, i, buf), TupleFields(Unfused(fast), s, i, []), buf)
    ensures TupleFields(AsShipped(fast), s, i, buf).Ok? && TupleDrained(fast, s, i, cur) ==>
              TupleFields(AsShipped(fast), s, i, buf).value.fuse == []
    decreases s, 0, |s.fields| - i
  {
    var F, U := AsShipped(fast), Unfused(fast);
    if i == |s.fields| {
      assert Spread([]) == [];
    } else if s.fields[i].skip {
      TupleFieldsShipped(fast, s, i + 1, buf, cur);
    } else {
      var v := s.fields[i].fieldElem;
      NextShipped(fast, v, buf, cur);
      var fv, uv := Next(F, v, buf), Next(U, v, []);
      if fv.Ok? {
        TupleFieldsShipped(fast, s, i + 1, fv.value.fuse, Drained(fast, v, cur));
        var fr, ur := TupleFields(F, s, i + 1, fv.value.fuse), TupleFields(U, s, i + 1, []);
        if fr.Ok? {
          Compose(fv.value.stmts, fv.value.fuse, uv.value.stmts, buf, fr.value.stmts, fr.value.fuse, ur.value.stmts);
        }
      }
    }
  }

  /** The header part as written: a runtime header flushes nothing, so it needs an empty buffer. */
  lemma {:induction false} MapHeaderShipped(fast: bool, s: Elem, buf: seq<Const>)
    requires s.Struct? && (RuntimeHeader(fast, s) ==> buf == [])
    ensures MapHeaderOut(Unfused(fast), s, []).fuse == []
    ensures Rel(MapHeaderOut(AsShipped(fast), s, buf).stmts, MapHeaderOut(AsShipped(fast), s, buf).fuse,
                MapHeaderOut(Unfused(fast), s, []).stmts, buf)
    ensures RuntimeHeader(fast, s) ==> MapHeaderOut(AsShipped(fast), s, buf).fuse == []
  {
    if RuntimeHeader(fast, s) {
      var typeId := if fast then [TypeId(s.receiver)] else [];
      var block := [ScanEmpty(|s.fields|), MapHeaderInUse(fast)] + typeId;
      assert MapHeaderOut(AsShipped(fast), s, buf) == Out(block, []);
      assert FuseHook([]) + block == block;
      NoLitRel(block);
    } else {
      var c := MapHeader(ToUint32(|s.fields| - s.skipCount));
      FuseRel(buf, c);
      assert FuseHook([]) + [Lit([c])] == [Lit([c])];
    }
  }

  lemma {:induction false} MapStructShipped(fast: bool, s: Elem, buf: seq<Const>, pe: bool)
    requires s.Struct? && (pe ==> buf == [])
    requires (RuntimeHeader(fast, s) ==> pe) && MapClean(fast, s, 0, RuntimeHeader(fast, s))
    ensures Agrees(MapStruct(AsShipped(fast), s, buf), MapStruct(Unfused(fast), s, []), buf)
    ensures MapStruct(AsShipped(fast), s, buf).Ok? && MapDrained(fast, s, 0, RuntimeHeader(fast, s)) ==>
              MapStruct(AsShipped(fast), s, buf).value.fuse == []
    decreases s, 0, |s.fields| + 1
  {
    var F, U := AsShipped(fast), Unfused(fast);
    MapHeaderShipped(fast, s, buf);
    var fh, uh := MapHeaderOut(F, s, buf), MapHeaderOut(U, s, []);
    MapFieldsShipped(fast, s, 0, fh.fuse, RuntimeHeader(fast, s));
    var fr, ur := MapFields(F, s, 0, fh.fuse), MapFields(U, s, 0, []);
    if fr.Ok? {
      Compose(fh.stmts, fh.fuse, uh.stmts, buf, fr.value.stmts, fr.value.fuse, ur.value.stmts);
    }
  }

  lemma {:induction false} MapFieldsShipped(fast: bool, s: Elem, i: nat, buf: seq<Const>, cur: bool)
    requires s.Struct? && i <= |s.fields|
    requires MapClean(fast, s, i, cur) && (cur ==> buf == [])
    ensures Agrees(MapFields(AsShipped(fast), s, i, buf), MapFields(Unfused(fast), s, i, []), buf)
    ensures MapFields(AsShipped(fast), s, i, buf).Ok? && MapDrained(fast, s, i, cur) ==>
              MapFields(AsShipped(fast), s, i, buf).value.fuse == []
    decreases s, 0, |s.fields| - i
  {
    if i == |s.fields| {
      assert Spread([]) == [];
    } else if s.fields[i].skip {
      MapFieldsShipped(fast, s, i + 1, buf, cur);
    } else if fast && s.fields[i].zebraId < 0 {
    } else {
      var v := s.fields[i].fieldElem;
      var pending := buf + [KeyOf(fast, s, i)];
      NextShipped(fast, v, pending, false);
      var fv := Next(AsShipped(fast), v, pending);
      if fv.Ok? {
        MapFieldsShipped(fast, s, i + 1, fv.value.fuse, Drained(fast, v, false));
      }
      MapFieldStep(fast, s, i, buf, cur);
    }
  }

  /** One visited keyed field, given that its value and the fields after it agree with the reference. */
  lemma MapFieldStep(fast: bool, s: Elem, i: nat, buf: seq<Const>, cur: bool)
    requires s.Struct? && i < |s.fields| && !s.fields[i].skip && !(fast && s.fields[i].zebraId < 0)
    requires MapClean(fast, s, i, cur) && (cur ==> buf == [])
    requires var v, pending := s.fields[i].fieldElem, buf + [KeyOf(fast, s, i)];
             var fv := Next(AsShipped(fast), v, pending);
             && Agrees(fv, Next(Unfused(fast), v, []), pending)
             && (fv.Ok? && Drained(fast, v, false) ==> fv.value.fuse == [])
             && (fv.Ok? ==> && Agrees(MapFields(AsShipped(fast), s, i + 1, fv.value.fuse), MapFields(Unfused(fast), s, i + 1, []), fv.value.fuse)
                            && (MapFields(AsShipped(fast), s, i + 1, fv.value.fuse).Ok? && MapDrained(fast, s, i + 1, Drained(fast, v, false)) ==>
                                  MapFields(AsShipped(fast), s, i + 1, fv.value.fuse).value.fuse == []))
    ensures Agrees(MapFields(AsShipped(fast), s, i, buf), MapFields(Unfused(fast), s, i, []), buf)
    ensures MapFields(AsShipped(fast), s, i, buf).Ok? && MapDrained(fast, s, i, cur) ==>
              MapFields(AsShipped(fast), s, i, buf).value.fuse == []
  {
    var F, U := AsShipped(fast), Unfused(fast);
    var g := Guarded(fast, s, i);
    var open: seq<Stmt> := if g then [GuardOpen(i)] else [];
    var close: seq<Stmt> := if g then [EndBlock] else [];
    var key := KeyOf(fast, s, i);
    var fk, uk := PutConst(F, buf, key), PutConst(U, [], key);
    assert uk.stmts == [Lit([key])] && uk.fuse == [] && fk.stmts == [] && fk.fuse == buf + [key];
    var v := s.fields[i].fieldElem;
    var fv, uv := Next(F, v, fk.fuse), Next(U, v, []);
    if fv.Ok? {
      var mid := fv.value.fuse;
      var fr, ur := MapFields(F, s, i + 1, mid), MapFields(U, s, i + 1, []);
      if fr.Ok? {
        assert MapFields(F, s, i, buf) == Ok(Out(open + fk.stmts + fv.value.stmts + close + fr.value.stmts, fr.value.fuse));
        assert MapFields(U, s, i, []) == Ok(Out(open + uk.stmts + uv.value.stmts + close + ur.value.stmts, ur.value.fuse));
        EntryRel(open, fk.stmts, key, close, buf, fv.value.stmts, mid, uv.value.stmts,
                 fr.value.stmts, fr.value.fuse, ur.value.stmts);
      }
    }
  }

  /**
   One keyed entry: a guard opened with nothing pending, the fused key, a
   value agreeing with the reference after the key, a guard closed with
   nothing pending, then the remaining entries.
   */
  lemma {:induction false} EntryRel(open: seq<Stmt>, ks: seq<Stmt>, key: Const, close: seq<Stmt>, buf: seq<Const>,
                                    vs: seq<Stmt>, mid: seq<Const>, us: seq<Stmt>,
                                    rs: seq<Stmt>, pending: seq<Const>, urs: seq<Stmt>)
    requires forall k :: 0 <= k < |open| ==> !open[k].Lit?
    requires forall k :: 0 <= k < |close| ==> !close[k].Lit?
    requires (open == [] || buf == []) && (close == [] || mid == []) && ks == []
    requires Rel(vs, mid, us, buf + [key]) && Rel(rs, pending, urs, mid)
    ensures Rel(open + ks + vs + close + rs, pending, open + [Lit([key])] + us + close + urs, buf)
  {
    OpenRel(open, buf);
    FuseRel(buf, key);
    OpenRel(close, mid);
    Compose(open, buf, open, buf, ks, buf + [key], [Lit([key])]);
    Compose(open + ks, buf + [key], open + [Lit([key])], buf, vs, mid, us);
    Compose(open + ks + vs, mid, open + [Lit([key])] + us, buf, close, mid, close);
    Compose(open + ks + vs + close, mid, open + [Lit([key])] + us + close, buf, rs, pending, urs);
  }

  /**
   The generator as shipped is transparent on clean nodes: from an empty
   buffer it fails exactly when the reference does, and otherwise writes,
   followed by the constants it leaves pending, the reference's constants
   and runtime appends in the reference's order and blocks, in no more
   statements; when the node ends on a runtime append nothing is left.
   */
  lemma ShippedIsTransparent(fast: bool, e: Elem)
    requires Clean(fast, e, true)
    ensures var f, u := Next(AsShipped(fast), e, []), Next(Layout.Reference(fast), e, []);
            && (f.Ok? <==> u.Ok?)
            && (f.Ok? ==> && u.value.fuse == []
                          && Flatten(f.value.stmts) + Spread(f.value.fuse) == Flatten(u.value.stmts)
                          && |f.value.stmts| + |FuseHook(f.value.fuse)| <= |u.value.stmts|
                          && (Drained(fast, e, true) ==> f.value.fuse == []))
  {
    NextShipped(fast, e, [], true);
    PolicyIrrelevantUnfused(fast, e);
    var f, u := Next(AsShipped(fast), e, []), Next(Layout.Reference(fast), e, []);
    if f.Ok? {
      assert Spread([]) == [] && FuseHook([]) == [];
      assert [] + Flatten(u.value.stmts) == Flatten(u.value.stmts);
    }
  }

  /** The statements of a generated function between its opening and its return. */
  function Inside(ss: seq<Stmt>): seq<Stmt> {
    if |ss| >= 2 then ss[1..|ss| - 1] else []
  }

  /**
   One generated function as shipped, after any constants `buf` carried over
   from the previous one: for a printable clean node it writes between its
   opening and its return the carried constants and then the reference's,
   less what it leaves pending for the next function.
   */
  lemma ExecuteShipped(fast: bool, applyAll: Elem -> Option<Elem>, printable: Elem -> bool, p: Elem, buf: seq<Const>)
    requires applyAll(p).Some? && printable(applyAll(p).value)
    requires Clean(fast, applyAll(p).value, buf == [])
    ensures var r := Execute(AsShipped(fast), true, applyAll, printable, p, buf);
            var u := Next(Layout.Reference(fast), applyAll(p).value, []);
            && (r.Ok? <==> u.Ok?)
            && (r.Ok? ==> && |r.value.stmts| >= 2
                          && r.value.stmts[0] == FuncOpen && r.value.stmts[|r.value.stmts| - 1] == FuncReturn
                          && Flatten(Inside(r.value.stmts)) + Spread(r.value.fuse) == Spread(buf) + Flatten(u.value.stmts))
  {
    var q := applyAll(p).value;
    NextShipped(fast, q, buf, buf == []);
    PolicyIrrelevantUnfused(fast, q);
    var b := Next(AsShipped(fast), q, buf);
    if b.Ok? {
      var ss := [FuncOpen] + b.value.stmts + [FuncReturn];
      assert Execute(AsShipped(fast), true, applyAll, printable, p, buf) == Ok(Out(ss, b.value.fuse));
      assert Inside(ss) == b.value.stmts;
    }
  }

  /**
   The corrected `Execute`, after any carried constants: between its
   opening and its return it writes them and then the reference's
   constants, and leaves nothing for the next function.
   */
  lemma ExecuteCorrected(fast: bool, applyAll: Elem -> Option<Elem>, printable: Elem -> bool, p: Elem, buf: seq<Const>)
    requires applyAll(p).Some? && printable(applyAll(p).value)
    ensures var r := Execute(Fused(fast), true, applyAll, printable, p, buf);
            var u := Next(Layout.Reference(fast), applyAll(p).value, []);
            && (r.Ok? <==> u.Ok?)
            && (r.Ok? ==> && r.value.fuse == [] && |r.value.stmts| >= 2
                          && r.value.stmts[0] == FuncOpen && r.value.stmts[|r.value.stmts| - 1] == FuncReturn
                          && Flatten(Inside(r.value.stmts)) == Spread(buf) + Flatten(u.value.stmts))
  {
    var q := applyAll(p).value;
    NextTransparent(fast, q, buf);
    PolicyIrrelevantUnfused(fast, q);
    var b := Next(Fused(fast), q, buf);
    if b.Ok? {
      var ss := [FuncOpen] + b.value.stmts + FuseHook(b.value.fuse) + [FuncReturn];
      assert FuseHook(b.value.fuse) == [];
      assert Execute(Fused(fast), true, applyAll, printable, p, buf) == Ok(Out(ss, []));
      assert Inside(ss) == b.value.stmts;
      assert Flatten(b.value.stmts) + [] == Flatten(b.value.stmts);
    }
  }
}
