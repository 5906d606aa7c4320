/**
 The statements the encode generator writes and the fusion buffer that
 batches compile-time-constant bytes into one literal append.
 */
module Fusion {
  import opened Ir

  /**
   A compile-time-constant msgp encoding. Its byte layout belongs to the
   msgp append primitives; every one of them is at least one byte long, so a
   buffer holding one or more constants holds one or more bytes.
   */
  datatype Const =
    | ArrayHeader(count: nat)
    | MapHeader(count: nat)
    | Int64Key(zid: int64)
    | StringKey(tag: string)

  /** One statement of a generated MarshalMsg body. */
  datatype Stmt =
    | Lit(consts: seq<Const>)                         // o = append(o, <literal bytes>)
    | ScanEmpty(width: nat)                           // var empty [width]bool; fieldsInUse := ...
    | MapHeaderInUse(plusOne: bool)                   // AppendMapHeader(o, fieldsInUse[+1])
    | TypeId(receiver: string)                        // AppendNegativeOneAndStringAsBytes
    | GuardOpen(index: nat)                           // if !empty[index] {
    | EndBlock                                        // }
    | MapHeaderLen                                    // AppendMapHeader(o, len(v))
    | ArrayHeaderLen                                  // AppendArrayHeader(o, len(v))
    | ArrayHeaderSize(size: nat)                      // AppendArrayHeader(o, size)
    | RangeOpen                                       // for ... range v {
    | AppendMapKey(keyTyp: string)                    // Append<KeyTyp>(o, key)
    | AppendBytes                                     // AppendBytes(o, v[:])
    | NilOpen                                         // if v == nil { AppendNil } else {
    | CallMarshal(convert: bool)                      // o, err = v.MarshalMsg(o)
    | AppendDynamic(baseName: string, convert: bool)  // o, err = Append<Intf|Ext>(o, v)
    | AppendBase(baseName: string, convert: bool)     // o = Append<Base>(o, v)
    | ErrCheck                                        // if err != nil { return }
    | FuncOpen                                        // func (...) MarshalMsg(b) { o = Require(...)
    | FuncReturn                                      // return }

  /** Each constant as a literal statement of its own. */
  function Spread(cs: seq<Const>): (r: seq<Stmt>)
    ensures |r| == |cs|
  {
    seq(|cs|, k requires 0 <= k < |cs| => Lit([cs[k]]))
  }

  /**
   The statement list with every literal split into one literal per constant:
   two lists with the same flattening append the same bytes in the same order.
   */
  function Flatten(ss: seq<Stmt>): seq<Stmt> {
    if ss == [] then []
    else (if ss[0].Lit? then Spread(ss[0].consts) else [ss[0]]) + Flatten(ss[1..])
  }

  lemma {:induction false} FlattenAppend(a: seq<Stmt>, b: seq<Stmt>)
    ensures Flatten(a + b) == Flatten(a) + Flatten(b)
  {
    if a == [] {
      assert a + b == b;
    } else {
      assert (a + b)[0] == a[0];
      assert (a + b)[1..] == a[1..] + b;
      FlattenAppend(a[1..], b);
    }
  }

  /** Statements holding no literal flatten to themselves. */
  lemma {:induction false} FlattenNoLit(ss: seq<Stmt>)
    requires forall k :: 0 <= k < |ss| ==> !ss[k].Lit?
    ensures Flatten(ss) == ss
  {
    if ss != [] {
      FlattenNoLit(ss[1..]);
    }
  }

  /** Go's `Fuse`: the pending buffer becomes the old buffer followed by the new constant. */
  function Fuse(buf: seq<Const>, c: Const): (r: seq<Const>)
    ensures r == buf + [c]
    ensures Spread(r) == Spread(buf) + [Lit([c])]
  {
    if |buf| == 0 then [c] else buf + [c]
  }

  /**
   Go's `fuseHook`: the statements written; afterwards the buffer is empty.
   A non-empty buffer becomes exactly one literal holding its constants in
   order; an empty one writes nothing.
   */
  function FuseHook(buf: seq<Const>): (r: seq<Stmt>)
    ensures |buf| == 0 <==> r == []
    ensures |buf| > 0 ==> |r| == 1 && r[0].Lit?
    ensures Flatten(r) == Spread(buf)
  {
    if |buf| > 0 then [Lit(buf)] else []
  }
}
