/**
 The fusion buffer is an optimisation only: with the corrected flush points,
 the fused generator appends the same constants, in the same order and in
 the same blocks, as the reference that writes every constant on its own,
 and it never writes more statements. The generator as written breaks this;
 the counterexamples are in module `Findings`.
 */
module Transparency {
  import opened Results
  import opened Ir
  import opened Fusion
  import opened Marshal

  function Fused(fast: bool): Options {
    Options(fast, true, Corrected)
  }

  function Unfused(fast: bool): Options {
    Options(fast, false, Corrected)
  }

  /**
   Fused statements `fs` leaving `pending` in the buffer, started with `buf`
   pending, flatten to `buf` followed by the reference statements `us`, and
   are no more numerous once the pending constants are flushed.
   */
  ghost predicate Rel(fs: seq<Stmt>, pending: seq<Const>, us: seq<Stmt>, buf: seq<Const>) {
    && Flatten(fs) + Spread(pending) == Spread(buf) + Flatten(us)
    && |fs| + |FuseHook(pending)| <= |FuseHook(buf)| + |us|
  }

  /**
   A fused run and the unfused reference run agree: both fail or both
   succeed, the reference leaves nothing pending, and the statements are
   related by `Rel`.
   */
  ghost predicate Agrees(f: Result<Out, GenError>, u: Result<Out, GenError>, buf: seq<Const>) {
    f.Ok? == u.Ok? &&
    (f.Ok? ==> u.value.fuse == [] && Rel(f.value.stmts, f.value.fuse, u.value.stmts, buf))
  }

  lemma Regroup(a: seq<Stmt>, b: seq<Stmt>, p: seq<Stmt>, m: seq<Stmt>, x: seq<Stmt>, ua: seq<Stmt>, ub: seq<Stmt>)
    requires b + p == m + ub && a + m == x + ua
    ensures (a + b) + p == x + (ua + ub)
  {
    calc {
      (a + b) + p;
      a + (b + p);
      a + (m + ub);
      (a + m) + ub;
      (x + ua) + ub;
    }
  }

  /** Running one fused piece after another relates to the reference pieces in sequence. */
  lemma {:induction false} Compose(fa: seq<Stmt>, mid: seq<Const>, ua: seq<Stmt>, buf: seq<Const>,
                                   fb: seq<Stmt>, pending: seq<Const>, ub: seq<Stmt>)
    requires Rel(fa, mid, ua, buf) && Rel(fb, pending, ub, mid)
    ensures Rel(fa + fb, pending, ua + ub, buf)
  {
    FlattenAppend(fa, fb);
    FlattenAppend(ua, ub);
    Regroup(Flatten(fa), Flatten(fb), Spread(pending), Spread(mid), Spread(buf), Flatten(ua), Flatten(ub));
  }

  /** Statements without literals relate to themselves when nothing is pending. */
  lemma NoLitRel(ss: seq<Stmt>)
    requires forall k :: 0 <= k < |ss| ==> !ss[k].Lit?
    ensures Rel(ss, [], ss, [])
  {
    FlattenNoLit(ss);
    assert Spread([]) == [];
  }

  /** A flush relates to nothing: it writes the pending constants. */
  lemma HookRel(buf: seq<Const>)
    ensures Rel(FuseHook(buf), [], FuseHook([]), buf)
  {
    assert Spread([]) == [];
  }

  /** Fusing a constant relates to writing it as a literal of its own. */
  lemma FuseRel(buf: seq<Const>, c: Const)
    ensures Rel([], buf + [c], [Lit([c])], buf)
  {
    assert Spread(buf + [c]) == Spread(buf) + [Lit([c])];
  }

  /** Statements without literals, written while `buf` stays pending, when `buf` is empty or they are none. */
  lemma OpenRel(ss: seq<Stmt>, buf: seq<Const>)
    requires forall k :: 0 <= k < |ss| ==> !ss[k].Lit?
    requires ss == [] || buf == []
    ensures Rel(ss, buf, ss, buf)
  {
    FlattenNoLit(ss);
  }

  /** A runtime append framed by statements without literals keeps the agreement. */
  lemma {:induction false} Frame(buf: seq<Const>, pre: seq<Stmt>, fb: seq<Stmt>, ub: seq<Stmt>, post: seq<Stmt>)
    requires forall k :: 0 <= k < |pre| ==> !pre[k].Lit?
    requires forall k :: 0 <= k < |post| ==> !post[k].Lit?
    requires Rel(fb, [], ub, [])
    ensures Rel(FuseHook(buf) + pre + fb + post, [], FuseHook([]) + pre + ub + post, buf)
  {
    HookRel(buf);
    NoLitRel(pre);
    NoLitRel(post);
    Compose(FuseHook(buf), [], FuseHook([]), buf, pre, [], pre);
    Compose(FuseHook(buf) + pre, [], FuseHook([]) + pre, buf, fb, [], ub);
    Compose(FuseHook(buf) + pre + fb, [], FuseHook([]) + pre + ub, buf, post, [], post);
  }

  lemma {:induction false} NextTransparent(fast: bool, e: Elem, buf: seq<Const>)
    ensures Agrees(Next(Fused(fast), e, buf), Next(Unfused(fast), e, []), buf)
    ensures Next(Fused(fast), e, buf).Ok? ==> Next(Fused(fast), e, buf).value.fuse == []
    decreases e, 1, 0
  {
    var F, U := Fused(fast), Unfused(fast);
    match e
    case Struct(_, _, _, _, _, _) =>
      GStructTransparent(fast, e, buf);
    case Map(keyTyp, value) =>
      NextTransparent(fast, value, []);
      var fb, ub := Next(F, value, []), Next(U, value, []);
      if fb.Ok? {
        Frame(buf, [MapHeaderLen, RangeOpen, AppendMapKey(keyTyp)], fb.value.stmts, ub.value.stmts, [EndBlock]);
      }
    case Slice(els) =>
      NextTransparent(fast, els, []);
      var fb, ub := Next(F, els, []), Next(U, els, []);
      if fb.Ok? {
        Frame(buf, [ArrayHeaderLen, RangeOpen], fb.value.stmts, ub.value.stmts, [EndBlock]);
      }
    case Array(els, size) =>
      if els.Base? && els.kind == Byte {
        NoLitRel([]);
        Frame(buf, [AppendBytes], [], [], []);
        assert FuseHook(buf) + [AppendBytes] + [] + [] == FuseHook(buf) + [AppendBytes];
        assert FuseHook([]) + [AppendBytes] + [] + [] == FuseHook([]) + [AppendBytes];
      } else {
        NextTransparent(fast, els, []);
        var fb, ub := Next(F, els, []), Next(U, els, []);
        if fb.Ok? {
          Frame(buf, [ArrayHeaderSize(size), RangeOpen], fb.value.stmts, ub.value.stmts, [EndBlock]);
        }
      }
    case Ptr(value) =>
      NextTransparent(fast, value, []);
      var fb, ub := Next(F, value, []), Next(U, value, []);
      if fb.Ok? {
        Frame(buf, [NilOpen], fb.value.stmts, ub.value.stmts, [EndBlock]);
      }
    case Base(kind, baseName, convert) =>
      var call := BaseAppend(kind, baseName, convert);
      NoLitRel([]);
      Frame(buf, call, [], [], []);
      assert FuseHook(buf) + call + [] + [] == FuseHook(buf) + call;
      assert FuseHook([]) + call + [] + [] == FuseHook([]) + call;
  }

  lemma {:induction false} GStructTransparent(fast: bool, s: Elem, buf: seq<Const>)
    requires s.Struct?
    ensures Agrees(GStruct(Fused(fast), s, buf), GStruct(Unfused(fast), s, []), buf)
    ensures GStruct(Fused(fast), s, buf).Ok? ==> GStruct(Fused(fast), s, buf).value.fuse == []
    decreases s, 0, |s.fields| + 2
  {
    var F, U := Fused(fast), Unfused(fast);
    var fb, ub;
    if s.asTuple {
      TupleTransparent(fast, s, buf);
      fb, ub := Tuple(F, s, buf), Tuple(U, s, []);
    } else {
      MapStructTransparent(fast, s, buf);
      fb, ub := MapStruct(F, s, buf), MapStruct(U, s, []);
    }
    if fb.Ok? {
      HookRel(fb.value.fuse);
      Compose(fb.value.stmts, fb.value.fuse, ub.value.stmts, buf, FuseHook(fb.value.fuse), [], FuseHook([]));
      assert GStruct(F, s, buf).value.stmts == fb.value.stmts + FuseHook(fb.value.fuse);
      assert GStruct(U, s, []).value.stmts == ub.value.stmts + FuseHook([]);
    }
  }

  lemma {:induction false} TupleTransparent(fast: bool, s: Elem, buf: seq<Const>)
    requires s.Struct?
    ensures Agrees(Tuple(Fused(fast), s, buf), Tuple(Unfused(fast), s, []), buf)
    decreases s, 0, |s.fields| + 1
  {
    var F, U := Fused(fast), Unfused(fast);
    var c := ArrayHeader(ToUint32(|s.fields| - s.skipCount));
    var fh, uh := PutConst(F, buf, c), PutConst(U, [], c);
    assert uh.stmts == [Lit([c])] && fh.stmts == [] && fh.fuse == buf + [c];
    FuseRel(buf, c);
    TupleFieldsTransparent(fast, s, 0, fh.fuse);
    var fr, ur := TupleFields(F, s, 0, fh.fuse), TupleFields(U, s, 0, []);
    if fr.Ok? {
      Compose([], fh.fuse, uh.stmts, buf, fr.value.stmts, fr.value.fuse, ur.value.stmts);
    }
  }

  lemma {:induction false} TupleFieldsTransparent(fast: bool, s: Elem, i: nat, buf: seq<Const>)
    requires s.Struct? && i <= |s.fields|
    ensures Agrees(TupleFields(Fused(fast), s, i, buf), TupleFields(Unfused(fast), s, i, []), buf)
    decreases s, 0, |s.fields| - i
  {
    var F, U := Fused(fast), Unfused(fast);
    if i == |s.fields| {
      assert Spread([]) == [];
    } else if s.fields[i].skip {
      TupleFieldsTransparent(fast, s, i + 1, buf);
    } else {
      NextTransparent(fast, s.fields[i].fieldElem, buf);
      var fv, uv := Next(F, s.fields[i].fieldElem, buf), Next(U, s.fields[i].fieldElem, []);
      if fv.Ok? {
        TupleFieldsTransparent(fast, s, i + 1, []);
        var fr, ur := TupleFields(F, s, i + 1, []), TupleFields(U, s, i + 1, []);
        if fr.Ok? {
          Compose(fv.value.stmts, [], uv.value.stmts, buf, fr.value.stmts, fr.value.fuse, ur.value.stmts);
        }
      }
    }
  }

  lemma {:induction false} MapHeaderTransparent(fast: bool, s: Elem, buf: seq<Const>)
    requires s.Struct?
    ensures MapHeaderOut(Unfused(fast), s, []).fuse == []
    ensures Rel(MapHeaderOut(Fused(fast), s, buf).stmts, MapHeaderOut(Fused(fast), s, buf).fuse,
                MapHeaderOut(Unfused(fast), s, []).stmts, buf)
    ensures RuntimeHeader(fast, s) ==> MapHeaderOut(Fused(fast), s, buf).fuse == []
  {
    if RuntimeHeader(fast, s) {
      var typeId := if fast then [TypeId(s.receiver)] else [];
      var block := [ScanEmpty(|s.fields|), MapHeaderInUse(fast)] + typeId;
      NoLitRel([]);
      Frame(buf, block, [], [], []);
      assert FuseHook(buf) + block + [] + [] == FuseHook(buf) + block;
      assert FuseHook([]) + block + [] + [] == FuseHook([]) + block;
    } else {
      var c := MapHeader(ToUint32(|s.fields| - s.skipCount));
      FuseRel(buf, c);
      assert FuseHook([]) + [Lit([c])] == [Lit([c])];
    }
  }

  lemma {:induction false} MapStructTransparent(fast: bool, s: Elem, buf: seq<Const>)
    requires s.Struct?
    ensures Agrees(MapStruct(Fused(fast), s, buf), MapStruct(Unfused(fast), s, []), buf)
    decreases s, 0, |s.fields| + 1
  {
    var F, U := Fused(fast), Unfused(fast);
    MapHeaderTransparent(fast, s, buf);
    var fh, uh := MapHeaderOut(F, s, buf), MapHeaderOut(U, s, []);
    MapFieldsTransparent(fast, s, 0, fh.fuse);
    var fr, ur := MapFields(F, s, 0, fh.fuse), MapFields(U, s, 0, []);
    if fr.Ok? {
      Compose(fh.stmts, fh.fuse, uh.stmts, buf, fr.value.stmts, fr.value.fuse, ur.value.stmts);
    }
  }

  lemma {:induction false} MapFieldsTransparent(fast: bool, s: Elem, i: nat, buf: seq<Const>)
    requires s.Struct? && i <= |s.fields|
    requires RuntimeHeader(fast, s) ==> buf == []
    ensures Agrees(MapFields(Fused(fast), s, i, buf), MapFields(Unfused(fast), s, i, []), buf)
    decreases s, 0, |s.fields| - i
  {
    var F, U := Fused(fast), Unfused(fast);
    if i == |s.fields| {
      assert Spread([]) == [];
    } else if s.fields[i].skip {
      MapFieldsTransparent(fast, s, i + 1, buf);
    } else if fast && s.fields[i].zebraId < 0 {
    } else {
      var g := Guarded(fast, s, i);
      var open: seq<Stmt> := if g then [GuardOpen(i)] else [];
      var close: seq<Stmt> := if g then [EndBlock] else [];
      var key := KeyOf(fast, s, i);
      var fk, uk := PutConst(F, buf, key), PutConst(U, [], key);
      assert uk.stmts == [Lit([key])] && uk.fuse == [] && fk.stmts == [] && fk.fuse == buf + [key];
      var elem := s.fields[i].fieldElem;
      NextTransparent(fast, elem, fk.fuse);
      var fv, uv := Next(F, elem, fk.fuse), Next(U, elem, []);
      if fv.Ok? {
        MapFieldsTransparent(fast, s, i + 1, []);
        var fr, ur := MapFields(F, s, i + 1, []), MapFields(U, s, i + 1, []);
        if fr.Ok? {
          OpenRel(open, buf);
          FuseRel(buf, key);
          NoLitRel(close);
          Compose(open, buf, open, buf, fk.stmts, fk.fuse, uk.stmts);
          Compose(open + fk.stmts, fk.fuse, open + uk.stmts, buf, fv.value.stmts, [], uv.value.stmts);
          Compose(open + fk.stmts + fv.value.stmts, [], open + uk.stmts + uv.value.stmts, buf, close, [], close);
          Compose(open + fk.stmts + fv.value.stmts + close, [], open + uk.stmts + uv.value.stmts + close, buf,
                  fr.value.stmts, fr.value.fuse, ur.value.stmts);
        }
      }
    }
  }

  /**
   Fusion is transparent: from an empty buffer, the corrected fused generator
   fails exactly when the reference does, leaves nothing pending, appends the
   same constants and runtime values in the same order and blocks, and writes
   no more statements.
   */
  lemma FusionIsTransparent(fast: bool, e: Elem)
    ensures var f, u := Next(Fused(fast), e, []), Next(Unfused(fast), e, []);
            && (f.Ok? <==> u.Ok?)
            && (f.Ok? ==> f.value.fuse == [] && u.value.fuse == []
                          && Flatten(f.value.stmts) == Flatten(u.value.stmts)
                          && |f.value.stmts| <= |u.value.stmts|)
  {
    NextTransparent(fast, e, []);
    var f, u := Next(Fused(fast), e, []), Next(Unfused(fast), e, []);
    if f.Ok? {
      assert Spread(f.value.fuse) == [] && Spread([]) == [];
      assert Flatten(f.value.stmts) + [] == Flatten(f.value.stmts);
      assert [] + Flatten(u.value.stmts) == Flatten(u.value.stmts);
    }
  }

  /**
   With fusion off the flush points do not matter: the generator as written
   and the corrected one produce the same reference output from an empty
   buffer, and it leaves nothing pending.
   */
  lemma {:induction false} PolicyIrrelevantUnfused(fast: bool, e: Elem)
    ensures Next(Options(fast, false, AsWritten), e, []) == Next(Unfused(fast), e, [])
    ensures Next(Unfused(fast), e, []).Ok? ==> Next(Unfused(fast), e, []).value.fuse == []
    decreases e, 1, 0
  {
    match e
    case Struct(_, _, _, _, _, _) =>
      var A, C := Options(fast, false, AsWritten), Unfused(fast);
      var ab, cb;
      if e.asTuple {
        var c := ArrayHeader(ToUint32(|e.fields| - e.skipCount));
        assert PutConst(A, [], c) == PutConst(C, [], c) && PutConst(C, [], c).fuse == [];
        PolicyIrrelevantTupleFields(fast, e, 0);
        ab, cb := Tuple(A, e, []), Tuple(C, e, []);
      } else {
        assert MapHeaderOut(A, e, []) == MapHeaderOut(C, e, []) && MapHeaderOut(C, e, []).fuse == [];
        PolicyIrrelevantMapFields(fast, e, 0);
        ab, cb := MapStruct(A, e, []), MapStruct(C, e, []);
      }
      assert ab == cb;
      if cb.Ok? {
        assert cb.value.stmts + FuseHook([]) == cb.value.stmts;
      }
    case Map(_, value) => PolicyIrrelevantUnfused(fast, value);
    case Slice(els) => PolicyIrrelevantUnfused(fast, els);
    case Array(els, _) => PolicyIrrelevantUnfused(fast, els);
    case Ptr(value) => PolicyIrrelevantUnfused(fast, value);
    case Base(_, _, _) =>
  }

  lemma {:induction false} PolicyIrrelevantTupleFields(fast: bool, s: Elem, i: nat)
    requires s.Struct? && i <= |s.fields|
    ensures TupleFields(Options(fast, false, AsWritten), s, i, []) == TupleFields(Unfused(fast), s, i, [])
    ensures TupleFields(Unfused(fast), s, i, []).Ok? ==> TupleFields(Unfused(fast), s, i, []).value.fuse == []
    decreases s, 0, |s.fields| - i
  {
    if i < |s.fields| {
      PolicyIrrelevantTupleFields(fast, s, i + 1);
      if !s.fields[i].skip {
        PolicyIrrelevantUnfused(fast, s.fields[i].fieldElem);
      }
    }
  }

  lemma {:induction false} PolicyIrrelevantMapFields(fast: bool, s: Elem, i: nat)
    requires s.Struct? && i <= |s.fields|
    ensures MapFields(Options(fast, false, AsWritten), s, i, []) == MapFields(Unfused(fast), s, i, [])
    ensures MapFields(Unfused(fast), s, i, []).Ok? ==> MapFields(Unfused(fast), s, i, []).value.fuse == []
    decreases s, 0, |s.fields| - i
  {
    if i < |s.fields| {
      PolicyIrrelevantMapFields(fast, s, i + 1);
      if !s.fields[i].skip {
        PolicyIrrelevantUnfused(fast, s.fields[i].fieldElem);
      }
    }
  }
}
