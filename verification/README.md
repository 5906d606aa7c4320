# zebrapack encoder generator and schema extractor, in Dafny

This project models two parts of zebrapack, a code generator for
MessagePack serialisation of Go types:

- the encode-side generator `marshalGen` (gen/marshal.go). It walks a
  finalised IR node (struct, map, slice, array, pointer or base value) and
  prints the body of a `MarshalMsg` method. Bytes known at generation time
  (array and map headers, map keys) are collected in a *fusion buffer*
  and printed as one `o = append(o, 0x..,)` literal. The buffer is flushed
  by `fuseHook` before anything whose bytes are known only at run time.
- `TranslateToZebraSchema` (parse/toschema.go). It projects the Identities
  table into a portable schema of structs and fields.

The generator is the pure function `Marshal.Next(o, e, buf)`. It takes the
pending fusion buffer `buf` and returns the statements printed and the
constants still pending, or a `GenError`. The printed text is symbolic:
- `Fusion.Stmt` has one constructor per kind of statement the generator
  prints.
- A literal `Lit(cs)` carries the list of constants it concatenates.
- A constant is a `Fusion.Const` (an array header, map header, int64 key or
  string key, each with its value), not its msgp byte layout.

`Options` selects:
- `fast`: the fixed-key-id protocol, `!cfg.UseMsgp2`.
- `fusion`: on is the generator as shipped. Off is the reference where
  every constant is a literal of its own.
- `policy`: `AsWritten` follows marshal.go line for line. `Corrected` adds
  the three flushes the findings below call for.

`Fusion.Flatten` splits every literal into one literal per constant. Two
statement lists with equal flattenings append the same bytes in the same
order, whatever the byte layout of each constant.

The central property is `Transparency.FusionIsTransparent`: with the
corrected flushes, fused output fails exactly when the reference does, and
otherwise writes the same constants in the same order. It also leaves
nothing pending and is never longer. `Shipped` states how far the generator
as written is transparent: on every node that never reaches a runtime map
header with constants pending, never opens an omitempty guard with
constants pending and never closes a block with constants pending
(`Shipped.Clean`), it agrees with the reference. `Layout` states,
over the reference trace (the order of the `Fuse` and append calls), the
wire layout of each struct protocol, the agreement of header counts with
the entries written, and exactly when generation fails. `ToSchema` models
the schema projection and its independence from the Go map iteration order.

## Model

| member | source | states |
|---|---|---|
| Ir.ToUint32 | gen/marshal.go:92 | the Go `uint32(int)` conversion: the result is below 2^32, keeps every value already in range, and agrees with the input modulo 2^32 (the low 32 bits, so -1 becomes 2^32 - 1) |
| Ir.ToUint32Unique | gen/marshal.go:92 | the converted value is the only value below 2^32 congruent to the input modulo 2^32 |
| Ir.NonSkippedFrom | gen/marshal.go:95-98 | the fields the generator visits: strictly increasing indices from `i` on, none skipped, and every non-skipped field from `i` on is among them |
| Ir.NonSkippedCount | gen/marshal.go:109 | the fields visited plus the skipped fields make up all fields, so `len(Fields) - SkipCount` counts the visited ones when the skip count is consistent |
| Fusion.Fuse | gen/marshal.go:69-75 | `Fuse` appends the new constant after those pending, in both branches, and the written stream grows by exactly that constant |
| Fusion.FuseHook | gen/marshal.go:62-67 | `fuseHook` prints nothing iff nothing is pending, otherwise exactly one literal, and that literal writes the pending constants in order |
| Fusion.FlattenAppend | gen/marshal.go:180-186 | the constants written by consecutive statements are the concatenation of what each writes |
| Marshal.PutConst | gen/marshal.go:92-94 | a constant is written in order after the pending ones: fused it only joins the buffer, unfused it is printed after a flush and nothing stays pending |
| Marshal.Execute | gen/marshal.go:32-56 | a failed sink is returned as is; a nil or unprintable node prints nothing and keeps the buffer; a function is printed only for a printable node, wrapped in its open and return, and fails iff the node's generation fails, with that error; the corrected version leaves nothing pending |
| Transparency.NextTransparent | gen/marshal.go:188-261 | for every node and pending buffer, fused output with the corrected flushes fails iff the reference fails, and writes the pending constants followed by the reference's constants, in order, in no more statements |
| Transparency.GStructTransparent | gen/marshal.go:77-88 | the same for a struct, which after the end-of-struct flush leaves nothing pending |
| Transparency.TupleTransparent | gen/marshal.go:90-104 | the same for the tuple protocol: fused array header then the fields |
| Transparency.TupleFieldsTransparent | gen/marshal.go:95-103 | the same for the tuple field loop from any field on |
| Transparency.MapHeaderTransparent | gen/marshal.go:106-136 | the keyed header part writes the reference's constants; a runtime header leaves nothing pending before the entries |
| Transparency.MapStructTransparent | gen/marshal.go:106-177 | the same for the keyed protocol as a whole |
| Transparency.MapFieldsTransparent | gen/marshal.go:138-176 | the same for the keyed field loop, with its guards, from any field on, given nothing is pending inside a runtime-header struct |
| Transparency.FusionIsTransparent | gen/marshal.go:62-75 | corrected fused output and the reference both fail or both succeed; on success neither leaves anything pending, the flattened outputs are equal and fusion never adds statements |
| Transparency.PolicyIrrelevantUnfused | gen/marshal.go:111-124 | with fusion off the corrected flushes change nothing: the generator as written equals the reference and never leaves anything pending |
| Shipped.ShippedIsTransparent | gen/marshal.go:62-75 | the generator as written, with fusion on, from an empty buffer, on a node with no runtime map header reached, no omitempty guard opened and no block closed while constants are pending: fails iff the reference fails, and otherwise writes, followed by what it leaves pending, the reference's constants and runtime appends in order, in no more statements, leaving nothing when the node ends on a runtime append |
| Shipped.NextShipped | gen/marshal.go:188-261 | the same for every node and pending buffer, with the buffer's emptiness tracked by `Drained` |
| Shipped.GStructShipped | gen/marshal.go:77-88 | the same for a struct, which as written flushes nothing at its end |
| Shipped.TupleShipped | gen/marshal.go:90-104 | the same for the tuple protocol: fused array header then the fields, each value seeing what the previous one left pending |
| Shipped.TupleFieldsShipped | gen/marshal.go:95-103 | the same for the tuple field loop from any field on |
| Shipped.MapHeaderShipped | gen/marshal.go:106-136 | the header part as written writes the reference's constants when a runtime header is reached with nothing pending, and the static header is fused |
| Shipped.MapStructShipped | gen/marshal.go:106-177 | the same for the keyed protocol as a whole |
| Shipped.MapFieldsShipped | gen/marshal.go:138-176 | the same for the keyed field loop, given every guard opens and closes with nothing pending |
| Shipped.ExecuteShipped | gen/marshal.go:32-56 | a generated function as written, for a clean printable node after any carried constants, fails iff the reference fails, and between its open and return writes, followed by what it leaves pending, the carried constants and then the reference's |
| Shipped.ExecuteCorrected | gen/marshal.go:32-56 | the corrected function, after any carried constants, fails iff the reference fails, writes between its open and return the carried constants and then the reference's, and leaves nothing pending |
| Layout.TupleFieldsLayout | gen/marshal.go:95-103 | in the reference trace, the tuple loop writes the values of exactly the non-skipped fields, in order, and fails iff one of them fails |
| Layout.TupleLayout | gen/marshal.go:90-104 | in the reference trace, a tuple struct writes one array header of `len(Fields) - SkipCount`, then the values of the non-skipped fields in declaration order, with no keys |
| Layout.TupleHeaderCountsValues | gen/marshal.go:92 | with a consistent skip count and fewer than 2^32 fields, the tuple header count equals the number of values the reference trace writes |
| Layout.MapFieldsLayout | gen/marshal.go:138-176 | in the reference trace, the keyed loop writes one entry per non-skipped field, in order: the guard if any, the key literal, the value, the guard's end |
| Layout.MapLayout | gen/marshal.go:106-177 | in the reference trace, a keyed struct writes its header part (runtime scan and `fieldsInUse+1` plus the type id under fast; runtime scan and `fieldsInUse` with omitempty tags; a static `len(Fields) - SkipCount` header otherwise), then its entries |
| Layout.WrittenCounts | gen/marshal.go:145-147 | when only guarded fields can be flagged empty, the entries of the reference trace that the generated code appends are the fields in use under a runtime header and all visited fields otherwise |
| Layout.HeaderCountMatchesEntries | gen/marshal.go:111-124 | the map header count equals the number of entries of the reference trace the generated code appends, counting the -1 type-id entry under fast, given a consistent skip count and an emptiness scan that flags only guarded fields |
| Layout.HeaderCountBounds | gen/marshal.go:111-124 | for any emptiness scan, the keyed header announces at most one entry per visited field, plus the type-id entry under fast, and exactly that many when no visited field is flagged empty |
| Layout.GenFailsIff | gen/marshal.go:149-154 | generation fails, with a missing-zid error, iff some non-skipped keyed field reachable under the fast protocol has a negative zid, whatever the options, policy and pending bytes |
| Layout.TupleFieldsFail | gen/marshal.go:95-103 | for every option and pending buffer, the tuple loop fails iff some non-skipped field's value fails, and never checks zids itself |
| Layout.MapFieldsFail | gen/marshal.go:138-176 | for every option and pending buffer, the keyed loop fails iff some non-skipped field lacks a needed zid or its value fails |
| Layout.ExecuteFailsIff | gen/marshal.go:32-56 | a generated function fails iff the printer had already failed or the printable node lacks a zid it needs under fast, the latter with a missing-zid error |
| Layout.FlushBeforeRuntimeAppend | gen/marshal.go:188-261 | a map, slice, array, pointer or base node first flushes the pending constants and then writes its runtime opener; a byte array is one blob with no header and nothing pending |
| Layout.FlushBeforeRuntimeHeader | gen/marshal.go:111-120 | under the corrected policy a runtime map header is likewise preceded by the flush of the pending constants |
| Findings.RuntimeHeaderReordersAsWritten | gen/marshal.go:111-136 | as written, a fast nested inline struct writes the outer key after the inner header and type id: the node is not clean and the flattened output differs from the reference |
| Findings.TupleHeaderDisplacedAsWritten | gen/marshal.go:90-120 | as written, a fast inline struct inside a tuple struct writes its runtime header before the tuple's pending array header, which the reference writes first |
| Findings.RuntimeHeaderCorrected | gen/marshal.go:111-136 | with the flush before the runtime header the same input yields the reference statements |
| Findings.NilLeakAsWritten | gen/marshal.go:121-125 | as written, the fused map header of a zero-field struct behind a pointer is still pending when the nil check's else-block closes, while the reference writes it inside the block |
| Findings.NilLeakCorrected | gen/marshal.go:225-233 | with the end-of-struct flush the header is written inside the pointer's else-block, as in the reference |
| Findings.LoopLeakAsWritten | gen/marshal.go:121-125 | the same leak for a slice of such structs: the header is still pending when the range loop closes |
| Findings.LeaksAreUnclean | gen/marshal.go:121-125 | a zero-field struct, keyed or tuple, does not end with the buffer surely empty, so neither a slice of it nor a pointer to it is clean: the leak lies outside the conditions under which the shipped generator matches the reference |
| Findings.GuardLeakAsWritten | gen/marshal.go:121-125 | as written, the zero-field struct under the plain field `A`, fused with `A`'s key, is still pending when the omitempty guard of `B` opens, so `A`'s entry is written only inside that guard; the reference writes it before the guard, and the node is not clean |
| Findings.GuardLeakCorrected | gen/marshal.go:145-147 | with the end-of-struct flush, `A`'s key and the empty header are written before `B`'s guard opens |
| Findings.LoopLeakCorrected | gen/marshal.go:201-209 | with the end-of-struct flush the header is written inside the loop body, as in the reference |
| Findings.ExecuteLeftoverAsWritten | gen/marshal.go:53-55 | as written, `Execute` returns with bytes still fused (the struct does not end drained), and the next generated function writes them first |
| Findings.ExecuteFlushes | gen/marshal.go:32-56 | the corrected `Execute` fails iff the reference fails, leaves nothing pending and writes the reference's constants in order |
| ToSchema.ProjectField | parse/toschema.go:22-30 | each schema field copies the zid, omitempty, skip and tag of its field, and records the value's type name only when not skipped |
| ToSchema.ProjectFields | parse/toschema.go:21-33 | one schema field per struct field, in declaration order |
| ToSchema.ProjectStruct | parse/toschema.go:18-33 | a schema struct carries the struct's type name and its projected fields |
| ToSchema.Collect | parse/toschema.go:14-45 | the loop succeeds iff every identity is a struct, then holds their projections in iteration order; otherwise it fails with the dynamic type of the first non-struct in that order |
| ToSchema.Translate | parse/toschema.go:10-53 | translation fails iff the table is empty (the `structs[0]` panic) or holds a non-struct identity, named in the error; on success every identity is a struct and the schema lists each identity's projection, one per identity, in iteration order |
| ToSchema.OrderIrrelevant | parse/toschema.go:14 | any two iteration orders of the Go map both fail or both succeed, fail the same way on an empty table, and collect the same projections up to order |
| ToSchema.OrderCoversKeys | parse/toschema.go:14 | an iteration order, as many distinct keys of the table as it has entries, visits every key |
| ToSchema.SchemaMatchesEncoder | parse/toschema.go:21-33 | the non-skipped fields a schema lists number exactly the static count `len(Fields) - SkipCount` that tuple structs and keyed structs without a runtime header write, and under fast each one's key is its schema zid |
| ToSchema.SchemaCountsHeader | parse/toschema.go:21-33 | against the runtime header of a keyed struct: for every emptiness scan it announces at most one entry per live schema field (plus the type-id entry under fast), and exactly that many when no live field is empty |

## Left out

- Printed text: comments, variable names, the hex formatting of `rawbytes` and the `Msgsize` preamble are symbolic statements.
- msgp byte encodings of headers and keys: constants stay symbolic, so byte-level properties (e.g. header widths) are not stated.
- The printer's sticky error checks inside each `g*` method: only the check at the head of `Execute` is modelled (`sinkOk`); a failure in mid-generation is an I/O effect.
- `os.Exit(1)` on a missing zid under fast becomes the `MissingZid` error; the message on stderr is not modelled.
- `applyall` (the pass pipeline), `IsPrintable`, `imutMethodReceiver` and `TypeName()` are code this model does not contain: the first two are parameters of `Execute`, the receiver text is a field of the struct node, and `TypeName()` is the parameter `typeName` of the schema projection.
- The generated `fieldsNotEmpty` method: the emptiness scan is represented by the `empty` flags in `Layout.HeaderCountMatchesEntries`.
- `Fuse` storing the caller's slice without copying (aliasing) has no observable effect in the generator and is not modelled.
- The printer's `rangeBlock` and `closeblock` are not part of this model: a slice or array body is taken to be a range loop that calls `next` on the element and then closes the block, touching no fusion state, as `gMap` (gen/marshal.go:195-198) and `gPtr` (gen/marshal.go:230-232) do.
- Configuration other than `UseMsgp2` (as `fast`), `Method` and the no-op `Apply`.
- The debug `Printf` calls of `TranslateToZebraSchema`, and the schema fields it does not set.
- Go map iteration order is arbitrary at run time: it is the parameter `order`.
- The panic of `structs[0]` on an empty Identities table is modelled as the error `EmptyIdentities`.
- Transparency.NextTransparent: states transparency for the corrected policy only; the generator as written is not transparent in general (see Findings), and `Shipped.NextShipped` states it for the nodes where it is.
- Shipped.Clean: is a sufficient condition stated on the shape of a node, tracking only whether the buffer is surely empty; nodes it rejects are not all non-transparent.

## Findings

| source | as written | input that shows it | evidently intended | confidence | as-written member | corrected member |
|---|---|---|---|---|---|---|
| gen/marshal.go:111-136 | the runtime map header and the type-id entry are printed without `fuseHook`, so constants still fused (the enclosing struct's key, or an enclosing tuple's array header) are written after them | fast protocol, a struct `Outer` whose field 0 (zid 0) is an inline struct `Inner` with one int64 field (zid 0) | flush before the runtime header block, so the outer key precedes the inner header | not executed | Findings.RuntimeHeaderReordersAsWritten | Findings.RuntimeHeaderCorrected |
| gen/marshal.go:121-125 | a struct with no visited fields ends with its header (map or array, the latter fused at gen/marshal.go:92-94) still fused, so inside a range loop or nil-check block it escapes the block, and before an omitempty guard it is pulled inside the guard, together with the preceding key | non-fast, a pointer to (or a slice of) a zero-field struct without omitempty tags; or a struct with omitempty tags whose plain field `A` holds a zero-field struct, followed by an omitempty int64 field `B` | flush at the end of every struct, so the header is written inside the block, once per element or per non-nil pointer, and `A`'s entry before `B`'s guard | not executed | Findings.NilLeakAsWritten | Findings.NilLeakCorrected |
| gen/marshal.go:53-55 | `Execute` returns without `fuseHook`, so fused constants left by the body are never written by that function and are prefixed to the next one | a zero-field struct, followed by another `Execute` on an int64 | flush before the naked return | not executed | Findings.ExecuteLeftoverAsWritten | Findings.ExecuteFlushes |
