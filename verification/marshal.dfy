/**
 The encode-side generator: a recursive descent over an IR node that threads
 the fusion buffer and returns the statements of a MarshalMsg body.
 */
module Marshal {
  import opened Results
  import opened Ir
  import opened Fusion

  /**
   `AsWritten` follows the generator as it stands. `Corrected` adds three
   flushes: before the runtime map-header block of a keyed struct, at the
   end of every struct, and before the return of a generated function.
   */
  datatype Policy = AsWritten | Corrected

  /**
   `fast` is the fixed-key-id protocol; `fusion` off writes every constant as
   a literal of its own, the reference the fused output is compared with.
   */
  datatype Options = Options(fast: bool, fusion: bool, policy: Policy)

  /** A field without a zid under the fast protocol, or a sink already failed. */
  datatype GenError = MissingZid(fieldTag: string) | SinkFailed

  /** Statements written and the constants still pending in the fusion buffer. */
  datatype Out = Out(stmts: seq<Stmt>, fuse: seq<Const>)

  /** Writes a compile-time constant: fused when fusion is on, its own literal otherwise. */
  function PutConst(o: Options, buf: seq<Const>, c: Const): (r: Out)
    ensures Flatten(r.stmts) + Spread(r.fuse) == Spread(buf) + [Lit([c])]
    ensures o.fusion ==> r.stmts == [] && r.fuse == buf + [c]
    ensures !o.fusion ==> r.fuse == [] && |r.stmts| == |FuseHook(buf)| + 1
  {
    if o.fusion then Out([], Fuse(buf, c))
    else
      FlattenAppend(FuseHook(buf), [Lit([c])]);
      Out(FuseHook(buf) + [Lit([c])], [])
  }

  /** Whether field `i` is wrapped in `if !empty[i] { ... }`. */
  predicate Guarded(fast: bool, s: Elem, i: nat)
    requires s.Struct? && i < |s.fields|
  {
    fast || (s.hasOmitEmptyTags && s.fields[i].omitEmpty)
  }

  /** The map key of field `i`: its zid under fast or an Int64 key kind, else its tag. */
  function KeyOf(fast: bool, s: Elem, i: nat): Const
    requires s.Struct? && i < |s.fields|
  {
    if fast || s.keyTyp == "Int64" then Int64Key(s.fields[i].zebraId)
    else StringKey(s.fields[i].fieldTag)
  }

  /** Whether a keyed struct's header count is computed at run time. */
  predicate RuntimeHeader(fast: bool, s: Elem)
    requires s.Struct?
  {
    fast || s.hasOmitEmptyTags
  }

  /** The base-kind append of `gBase`, with the error check for delegated encoders. */
  function BaseAppend(kind: Primitive, baseName: string, convert: bool): seq<Stmt> {
    match kind
    case Ident => [CallMarshal(convert), ErrCheck]
    case Intf => [AppendDynamic(baseName, convert), ErrCheck]
    case Ext => [AppendDynamic(baseName, convert), ErrCheck]
    case _ => [AppendBase(baseName, convert)]
  }

  /** `next(m, e)`: dispatch on the node's shape. */
  function Next(o: Options, e: Elem, buf: seq<Const>): Result<Out, GenError>
    decreases e, 1, 0
  {
    match e
    case Struct(_, _, _, _, _, _) => GStruct(o, e, buf)
    case Map(keyTyp, value) =>
      var body :- Next(o, value, []);
      Ok(Out(FuseHook(buf) + [MapHeaderLen, RangeOpen, AppendMapKey(keyTyp)] + body.stmts + [EndBlock],
             body.fuse))
    case Slice(els) =>
      var body :- Next(o, els, []);
      Ok(Out(FuseHook(buf) + [ArrayHeaderLen, RangeOpen] + body.stmts + [EndBlock], body.fuse))
    case Array(els, size) =>
      if els.Base? && els.kind == Byte then Ok(Out(FuseHook(buf) + [AppendBytes], []))
      else
        var body :- Next(o, els, []);
        Ok(Out(FuseHook(buf) + [ArrayHeaderSize(size), RangeOpen] + body.stmts + [EndBlock], body.fuse))
    case Ptr(value) =>
      var body :- Next(o, value, []);
      Ok(Out(FuseHook(buf) + [NilOpen] + body.stmts + [EndBlock], body.fuse))
    case Base(kind, baseName, convert) =>
      Ok(Out(FuseHook(buf) + BaseAppend(kind, baseName, convert), []))
  }

  /** `gStruct`: tuple or keyed layout; the corrected policy flushes at the end. */
  function GStruct(o: Options, s: Elem, buf: seq<Const>): Result<Out, GenError>
    requires s.Struct?
    decreases s, 0, |s.fields| + 2
  {
    var body :- if s.asTuple then Tuple(o, s, buf) else MapStruct(o, s, buf);
    if o.policy == Corrected then Ok(Out(body.stmts + FuseHook(body.fuse), []))
    else Ok(body)
  }

  /** `tuple`: a fused array header, then the values of the non-skipped fields. */
  function Tuple(o: Options, s: Elem, buf: seq<Const>): Result<Out, GenError>
    requires s.Struct?
    decreases s, 0, |s.fields| + 1
  {
    var h := PutConst(o, buf, ArrayHeader(ToUint32(|s.fields| - s.skipCount)));
    var r :- TupleFields(o, s, 0, h.fuse);
    Ok(Out(h.stmts + r.stmts, r.fuse))
  }

  function TupleFields(o: Options, s: Elem, i: nat, buf: seq<Const>): Result<Out, GenError>
    requires s.Struct? && i <= |s.fields|
    decreases s, 0, |s.fields| - i
  {
    if i == |s.fields| then Ok(Out([], buf))
    else if s.fields[i].skip then TupleFields(o, s, i + 1, buf)
    else
      var v :- Next(o, s.fields[i].fieldElem, buf);
      var rest :- TupleFields(o, s, i + 1, v.fuse);
      Ok(Out(v.stmts + rest.stmts, rest.fuse))
  }

  /**
   The header part of `mapstruct`: either the runtime block (emptiness scan,
   header of fieldsInUse, plus the -1 type-id entry under fast) or a fused
   static header of `len(Fields) - SkipCount`.
   */
  function MapHeaderOut(o: Options, s: Elem, buf: seq<Const>): Out
    requires s.Struct?
  {
    if RuntimeHeader(o.fast, s) then
      var typeId := if o.fast then [TypeId(s.receiver)] else [];
      var block := [ScanEmpty(|s.fields|), MapHeaderInUse(o.fast)] + typeId;
      if o.policy == Corrected then Out(FuseHook(buf) + block, [])
      else Out(block, buf)
    else PutConst(o, buf, MapHeader(ToUint32(|s.fields| - s.skipCount)))
  }

  /** `mapstruct`: the header, then one key/value entry per non-skipped field. */
  function MapStruct(o: Options, s: Elem, buf: seq<Const>): Result<Out, GenError>
    requires s.Struct?
    decreases s, 0, |s.fields| + 1
  {
    var h := MapHeaderOut(o, s, buf);
    var r :- MapFields(o, s, 0, h.fuse);
    Ok(Out(h.stmts + r.stmts, r.fuse))
  }

  function MapFields(o: Options, s: Elem, i: nat, buf: seq<Const>): Result<Out, GenError>
    requires s.Struct? && i <= |s.fields|
    decreases s, 0, |s.fields| - i
  {
    if i == |s.fields| then Ok(Out([], buf))
    else if s.fields[i].skip then MapFields(o, s, i + 1, buf)
    else if o.fast && s.fields[i].zebraId < 0 then Err(MissingZid(s.fields[i].fieldTag))
    else
      var open := if Guarded(o.fast, s, i) then [GuardOpen(i)] else [];
      var close := if Guarded(o.fast, s, i) then [EndBlock] else [];
      var k := PutConst(o, buf, KeyOf(o.fast, s, i));
      var v :- Next(o, s.fields[i].fieldElem, k.fuse);
      var rest :- MapFields(o, s, i + 1, v.fuse);
      Ok(Out(open + k.stmts + v.stmts + close + rest.stmts, rest.fuse))
  }

  /**
   `Execute`: one MarshalMsg function for a top-level node. `sinkOk` is the
   printer's sticky state, `applyAll` the pass pipeline (None for a nil
   result) and `printable` the printability test. `buf` is the fusion buffer
   the generator instance carries over from its previous call.
   */
  function Execute(o: Options, sinkOk: bool, applyAll: Elem -> Option<Elem>, printable: Elem -> bool,
                   p: Elem, buf: seq<Const>): (r: Result<Out, GenError>)
    ensures !sinkOk ==> r == Err(SinkFailed)
    ensures sinkOk && (applyAll(p).None? || !printable(applyAll(p).value)) ==> r == Ok(Out([], buf))
    ensures r.Ok? && r.value.stmts != [] ==>
              |r.value.stmts| >= 2 && r.value.stmts[0] == FuncOpen && r.value.stmts[|r.value.stmts| - 1] == FuncReturn
    ensures r.Ok? && r.value.stmts != [] && o.policy == Corrected ==> r.value.fuse == []
    ensures r.Ok? && r.value.stmts != [] ==> sinkOk && applyAll(p).Some? && printable(applyAll(p).value)
    ensures sinkOk && applyAll(p).Some? && printable(applyAll(p).value) ==>
              (r.Err? <==> Next(o, applyAll(p).value, buf).Err?) &&
              (r.Err? ==> r.error == Next(o, applyAll(p).value, buf).error)
  {
    if !sinkOk then Err(SinkFailed)
    else match applyAll(p)
      case None => Ok(Out([], buf))
      case Some(q) =>
        if !printable(q) then Ok(Out([], buf))
        else
          var body :- Next(o, q, buf);
          if o.policy == Corrected then Ok(Out([FuncOpen] + body.stmts + FuseHook(body.fuse) + [FuncReturn], []))
          else Ok(Out([FuncOpen] + body.stmts + [FuncReturn], body.fuse))
  }
}
