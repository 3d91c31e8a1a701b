# Verification of the Zeen compiler and language server

A Dafny model of the parts of Zeen whose correctness is hardest to see, with proofs. `dafny verify dfyconfig.toml`
checks all of it. The model covers three areas.

**The LLVM backend.** `Mir` gives meaning to the intermediate representation: flat cell memory, places, operands,
rvalues, statements, blocks. `BlockGraph` is the target: basic blocks with phi nodes, registers and the same memory in
machine patterns, `Floats` the comparison of floating-point patterns. `Emit` and `EmitFn` describe emission as
functions on the builder's state, `CodeGen` is the generator as an object whose methods fill blocks in place and is
proved to do what those functions say, and `Encode`, `IrArith`, `EqProof`, `EmitProof` and `Simulation` prove that
emitted code means what the source means; `PlaceLaws` says by reading and writing what a place is, `TypeLaws` which
types the rules admit. `LlvmLayout` adds a byte memory with padding; on it stand `LayoutEngine` (the layout engine
against the machine types), `PlaceAddressing`, `EnumUnion` (tagged unions) and `CAbi` (passing structs to and from C).
`EnumWorklist`, `PanicTrace` and `BinFormat` model the order in which enum layouts are filled, the ring of panic
frames and the binary formatter.

**The comptime validator.** `ComptimeAst` is the syntax, `ComptimeSpec` the list of errors as a specification,
`ComptimeCheck` the checker with its mutable source and error list, `ComptimeProof` what it decides along its visits
and `ComptimeTree` what it decides about the bare syntax tree, with a list of the fields that it does not enter;
`ComptimeOrder` says in which order it goes.

**The language server's text algorithms.** `TextScan` is the scanner that steps over strings and comments, reduced
to a mask of the text; on it stand `BracketRepair` and `BracePairs`. `Positions`, `SemanticTokens`, `Shapes` and
`Imports` model positions, semantic tokens, builtin shapes and import paths.

## Where the code does not keep a property

Each of these is stated as a lemma with the exact condition under which the property holds, or with a concrete
input on which it fails.

- Comparing slices whose elements hold slices: the phi nodes of the outer loop name the wrong predecessor
  (`EqProof.BackEdge`). Comparison is proved for all other comparable types.
- The layout engine gives eight-byte scalars an alignment of eight on every target; where the target's data layout
  says four, as for i686 on Linux, sizes and alignments differ and the backend's debug assertion fails
  (`LayoutEngine.LayoutAgrees`, `LayoutEngine.LowStructDiffers`).
- The filling order of enum layouts looks at direct payloads only, so that a payload can be measured before an enum
  inside it has a body (`EnumWorklist.BodiesFirstIn`, `EnumWorklist.BodiesFirstIff`, `EnumWorklist.WrappedTooEarly`).
- `!=` between floats is an ordered comparison, but `!=` between arrays of floats is the negation of `==`
  (`EmitProof.FloatNeIff`).
- Classification of eightbytes and recognition of homogeneous float aggregates look at top-level fields only
  (`CAbi.ClassMeetsStandard`, `CAbi.NestedFloatsDiffer`, `CAbi.HomogeneousMeetsStandard`).
- A float before a double is passed as two floats (`CAbi.PaddedFloat`); `CAbi.RegistersMeetStandard` says exactly which
  machine type every eightbyte gets.
- `byval` attributes of a call are not shifted past the result pointer (`CAbi.ByvalAgrees`).
- Panic frames are overwritten by deeper calls and not restored by returns (`PanicTrace.OwnSlot`,
  `PanicTrace.PrintsInnermostIff`, `PanicTrace.StaleLine`); a depth of 2^31 or more prints nothing
  (`PanicTrace.TooDeepPrintsNothing`).
- A one-byte tag distinguishes at most 256 variants (`EnumUnion.TagsTellVariantsApart`), and a union of payloads
  without bytes has alignment 1 whatever was asked for (`LayoutEngine.UnionHolds`).
- Bracket repair inside a string or comment inserts closers that become part of it (`BracketRepair.RepairInside`,
  `BracketRepair.RepairBalancesIff`, `BracketRepair.RepairInComment`).
- Lone carriage returns do not end lines as LSP 3.17 asks (`Positions.LinesAgreeIff`, `Positions.PositionAgreesIff`,
  `Positions.ReturnEndsLine`, `Positions.EndsAgreeIff`).
- For the same reason, and because columns and lengths count bytes, semantic tokens are at the protocol's positions
  only on text without lone carriage returns before them and with ASCII before them on their line
  (`SemanticTokens.ColumnOf`, `SemanticTokens.ColumnsAgreeIff`).
- A suggested import can be shadowed by a module file or captured by a package or a reserved first segment
  (`Imports.SuggestionResolvesIff`, `Imports.PackageCapturesIff`, `Imports.PackageCaptures`).
- The triples `aarch64` and `arm64` select the same struct rules but not the same `byval` rule
  (`CAbi.SpellingsAgree`, `CAbi.SpellingsDiffer`).

## Model

| member | source | states |
|---|---|---|
| `Simulation.FunctionCorrect` | compiler/zeen-codegen-llvm/src/codegen.rs:640-695 | for every well-typed function, arguments and memory: whenever the source returns a value, the emitted code halts with the encoding of that value and of the final memory, and no run of the emitted code halts in any other state |
| `Simulation.RunSim` | compiler/zeen-codegen-llvm/src/codegen.rs:640-695 | every source run of n blocks is matched by an emitted run of at least n steps that ends in a matching state, with equal contents of all locals at each block boundary |
| `Simulation.BlockSim` | compiler/zeen-codegen-llvm/src/codegen.rs:671-686 | one source block, statements and terminator, is one or more steps of emitted code, even when a statement splits the block |
| `Simulation.StepKeepsOk` | compiler/zeen-codegen-llvm/src/codegen.rs:640-695 | the source semantics keeps states well formed, so that the step-for-step match can go on forever |
| `Simulation.PrologueSim` | compiler/zeen-codegen-llvm/src/codegen.rs:650-669 | storing the parameters into their slots brings the machine to the match of the source's entry state |
| `Simulation.StmtsSim` | compiler/zeen-codegen-llvm/src/codegen.rs:1099-1134 | a list of statements transforms related memories into related memories, wherever the builder stands when it starts and ends |
| `Simulation.StmtSim` | compiler/zeen-codegen-llvm/src/codegen.rs:1099-1134 | one statement: assignment, discarded operand or no-op |
| `Simulation.AssignSim` | compiler/zeen-codegen-llvm/src/codegen.rs:1099-1134 | the value is computed before the address, and a store through the address gives the memory of the source's assignment |
| `Simulation.RvalueSim` | compiler/zeen-codegen-llvm/src/codegen.rs:1190-1246 | every rvalue of the model (use, binary and unary operators, address, dereference, cast, array, slice and struct aggregates) leaves its encoded value in the result and keeps the contents of every root |
| `Simulation.SwitchSim` | compiler/zeen-codegen-llvm/src/codegen.rs:2555-2575 | the emitted switch on 64-bit case constants cut to the operand's width goes to the block that the source's switch selects, for signed, unsigned and boolean operands |
| `Simulation.FindCaseOk` | compiler/zeen-codegen-llvm/src/codegen.rs:2563-2573 | the first case whose truncated pattern equals the operand is the first one whose value the operand has |
| `Simulation.TermJump` | compiler/zeen-codegen-llvm/src/codegen.rs:2548-2624 | goto, switch and return reach the state that matches the source's next state |
| `EmitProof.PlaceOk` | compiler/zeen-codegen-llvm/src/codegen.rs:4199-4290 | the emitted address of a place is the address the place denotes, through fields, indices read from locals and dereferences |
| `PlaceLaws.AggregateMember` | compiler/zeen-codegen-llvm/src/codegen.rs:1317-1384 | once an array, struct or slice of operands is assigned to a place, the place of its field i, or of the element that an index local selects, evaluates to the value of operand i |
| `PlaceLaws.MemberReadBack` | compiler/zeen-codegen-llvm/src/codegen.rs:4199-4290 | what is assigned to one field or element is read back from it |
| `PlaceLaws.OtherMembersStay` | compiler/zeen-codegen-llvm/src/codegen.rs:4199-4290 | an assignment to one field or element leaves what is read from every other one |
| `PlaceLaws.RefThenDeref` | compiler/zeen-codegen-llvm/src/codegen.rs:1190-1246 | after the address of a place is assigned to a pointer, the dereferenced pointer denotes the place |
| `PlaceLaws.IndexThroughPointer` | compiler/zeen-codegen-llvm/src/codegen.rs:4224-4264 | indexing behind a many-item pointer to an array denotes the element of the array with that index |
| `PlaceLaws.DirectStays` | compiler/zeen-codegen-llvm/src/codegen.rs:4199-4211 | a place that goes through no pointer and reads no index from its own root denotes the same address after an assignment to it or to a part of it |
| `EmitProof.LoadPlaceOk` | compiler/zeen-codegen-llvm/src/codegen.rs:4191-4197 | loading a place gives the encoding of the value stored there |
| `EmitProof.OperandValue` | compiler/zeen-codegen-llvm/src/codegen.rs:1248-1315 | an operand, place or constant, evaluates to its encoded value; negative constants take the pattern of their width |
| `EmitProof.BinOpSim` | compiler/zeen-codegen-llvm/src/codegen.rs:1386-1712 | every binary operator of the model gives the source's result: integer arithmetic with wrap-around, truncated division, shifts and comparisons by signedness, booleans, ordered comparisons of floats, equality of pointers, arrays and slices |
| `EmitProof.FloatNeIff` | compiler/zeen-codegen-llvm/src/codegen.rs:1484-1491 | `!=` between two floats is the negation of `==`, and agrees with `!=` between one-element arrays of them, if and only if neither is a NaN |
| `Floats.KeyIsNumber` | compiler/zeen-codegen-llvm/src/codegen.rs:1484-1507 | the order in which patterns of numbers are compared is the order of the numbers that sign, exponent and fraction stand for |
| `Floats.FloatEqIs` | compiler/zeen-codegen-llvm/src/codegen.rs:1923-1934 | ordered equality is equality of patterns except that a NaN equals nothing and the two zeros are equal |
| `Floats.NaNIs` | compiler/zeen-codegen-llvm/src/codegen.rs:1923-1934 | a NaN is a pattern whose exponent is all ones and whose fraction is not zero, in both formats |
| `EmitProof.UnOpSim` | compiler/zeen-codegen-llvm/src/codegen.rs:1969-2023 | integer negation is subtraction from zero and complement exclusive-or with ones, modulo the width; float negation flips the sign |
| `EmitProof.CastSim` | compiler/zeen-codegen-llvm/src/codegen.rs:2275-2546 | conversions between integers and booleans and from pointer to pointer: extension by the signedness of the source, truncation, and test against zero |
| `EmitProof.AggregateSim` | compiler/zeen-codegen-llvm/src/codegen.rs:1317-1384 | storing the members one after the other into a scratch slot and loading it back yields the flattened aggregate |
| `IrArith.IrBinOk` | compiler/zeen-codegen-llvm/src/codegen.rs:1386-1712 | on patterns, the chosen machine operation computes the pattern of the source's result for every width, signedness and operand in range, whenever the source defines one |
| `IrArith.IrPredOk` | compiler/zeen-codegen-llvm/src/codegen.rs:1386-1712 | the chosen machine predicate on patterns decides the source's comparison of the values |
| `IrArith.ResizeOk` | compiler/zeen-codegen-llvm/src/codegen.rs:2275-2546 | sign extension, zero extension and truncation take the pattern of a value to the pattern of its wrapped value at the new width |
| `IrArith.NotOk` | compiler/zeen-codegen-llvm/src/codegen.rs:1969-2023 | exclusive-or with all ones is complement at the width |
| `IrArith.BitwiseIs` | compiler/zeen-codegen-llvm/src/codegen.rs:1386-1712 | the bitwise operations of source and target work bit by bit on the low bits |
| `Arith.TruncIs` | compiler/zeen-codegen-llvm/src/codegen.rs:1386-1712 | quotient and remainder make up the dividend, and the remainder is smaller than the divisor and has the sign of the dividend |
| `Arith.TruncUnique` | compiler/zeen-codegen-llvm/src/codegen.rs:1386-1712 | no other pair of numbers does |
| `IrArith.CaseOk` | compiler/zeen-codegen-llvm/src/codegen.rs:2563-2573 | truncating a case constant twice decides equality of the values |
| `EqProof.EqOk` | compiler/zeen-codegen-llvm/src/codegen.rs:1714-1967 | for every comparable type, floats and NaN included, and all values, the emitted comparison reaches its end with the structural equality of the operands, whatever blocks it opened; no element is read when lengths differ, since no such element need exist |
| `EqProof.LoopOk` | compiler/zeen-codegen-llvm/src/codegen.rs:1783-1847 | from the loop head with i elements compared, the loop terminates with the conjunction over all elements |
| `EqProof.RoundOk` | compiler/zeen-codegen-llvm/src/codegen.rs:1809-1840 | one round reads both elements at the same index, folds the result and returns to the head with both phi nodes advanced |
| `EqProof.PlainEquality` | compiler/zeen-codegen-llvm/src/codegen.rs:1714-1748 | without slices, structural equality is equality of all cells, floats being compared as numbers |
| `EqProof.SameCellsMeans` | compiler/zeen-codegen-llvm/src/codegen.rs:1923-1958 | a value equals itself if and only if no float in it is a NaN, and where no cell is a float only equal values are equal |
| `EqProof.SliceEquality` | compiler/zeen-codegen-llvm/src/codegen.rs:1750-1847 | slices are equal if and only if they have one length and pairwise equal elements |
| `EqProof.BackEdge` | compiler/zeen-codegen-llvm/src/codegen.rs:1835-1840 | the phi nodes name the block that really jumps back if and only if comparing two elements opens no loop; otherwise entering the head again is undefined, which is why slices inside slice elements are excluded |
| `EqProof.EmitEqStraight` | compiler/zeen-codegen-llvm/src/codegen.rs:1714-1967 | emission of a comparison ends in the block it started in if and only if its type holds no slice |
| `TypeLaws.ComparableIff` | compiler/zeen-codegen-llvm/src/codegen.rs:1714-1967 | values are compared at every type except those with a void part or with a slice whose elements hold a slice |
| `TypeLaws.OpensLoopIff` | compiler/zeen-codegen-llvm/src/codegen.rs:1714-1967 | comparing walks a slice if and only if some part of the type, arrays without elements left aside, is one |
| `TypeLaws.BinaryTyped` | compiler/zeen-codegen-llvm/src/codegen.rs:1386-1483 | a binary operator applies to every pair of operands of a type that it is defined for, whichever of them is a constant |
| `CodeGen.FunctionBuilder.PlacePtr` | compiler/zeen-codegen-llvm/src/codegen.rs:4199-4290 | the loop over a projection, tracking pointer and type, performs exactly the emission that PlaceOk is about |
| `CodeGen.FunctionBuilder.BuildAggregateEquality` | compiler/zeen-codegen-llvm/src/codegen.rs:1714-1967 | the recursive generator with its open loop, phi nodes and back edge performs the emission that EqOk is about |
| `CodeGen.FunctionBuilder.CompareMembers` | compiler/zeen-codegen-llvm/src/codegen.rs:1722-1748 | members are compared left to right and folded by conjunction, the empty aggregate being equal |
| `CodeGen.FunctionBuilder.OpenSliceLoop` | compiler/zeen-codegen-llvm/src/codegen.rs:1750-1823 | lengths, loop bound, head and body block are set up before the elements are compared |
| `CodeGen.FunctionBuilder.CloseSliceLoop` | compiler/zeen-codegen-llvm/src/codegen.rs:1824-1846 | the accumulator and the index are advanced, the head's phi nodes are filled in, and emission continues in the block after the loop |
| `CodeGen.FunctionBuilder.BinaryOp` | compiler/zeen-codegen-llvm/src/codegen.rs:1386-1712 | operand types are taken from the operand that is a place, and the operation is emitted by type |
| `CodeGen.FunctionBuilder.AggregateValue` | compiler/zeen-codegen-llvm/src/codegen.rs:1317-1384 | one entry slot per aggregate, one store per operand at its offset, one load |
| `CodeGen.FunctionBuilder.RvalueValue` | compiler/zeen-codegen-llvm/src/codegen.rs:1190-1246 | the dispatch over rvalues emits what RvalueSim is about |
| `CodeGen.FunctionBuilder.EmitStatement` | compiler/zeen-codegen-llvm/src/codegen.rs:1099-1134 | the state after a statement is the emission function of the state before |
| `CodeGen.FunctionBuilder.EmitTerminator` | compiler/zeen-codegen-llvm/src/codegen.rs:2548-2625 | the current block is closed by the terminator's code and nothing else changes |
| `CodeGen.FunctionBuilder.EmitFunctionBody` | compiler/zeen-codegen-llvm/src/codegen.rs:671-686 | the loop over blocks fills every pending block exactly once and yields the code that FunctionCorrect is about |
| `LayoutEngine.LayoutAgrees` | compiler/zeen-layout/src/lib.rs:79-175 | for every sized shape and every platform, the engine's size and alignment are those of the machine type that the backend builds, so that the backend's debug assertion holds, if and only if the platform aligns eight-byte scalars to eight bytes or no such scalar has a say in the shape's layout |
| `LayoutEngine.LowStructDiffers` | compiler/zeen-codegen-llvm/src/codegen.rs:2051-2066 | on a 32-bit platform that aligns eight-byte scalars to four bytes, as i686 on Linux does, a struct of a 32-bit and a 64-bit integer has 16 bytes for the engine and 12 for the backend |
| `LayoutEngine.StructAgrees` | compiler/zeen-layout/src/lib.rs:99-113 | folding rounded-up fields gives the end of the machine struct |
| `LayoutEngine.UnionAgrees` | compiler/zeen-layout/src/lib.rs:150-175 | the engine's union layout is the layout of the backend's opaque union |
| `LayoutEngine.EnumAgrees` | compiler/zeen-layout/src/lib.rs:115-148 | tag followed by union, for no, one and several payloads, void ones included |
| `LayoutEngine.OpaqueUnionOk` | compiler/zeen-codegen-llvm/src/codegen.rs:425-452 | the union has exactly the size asked for rounded to the alignment, the alignment asked for, and a data byte at every offset below the size |
| `LayoutEngine.UnionHolds` | compiler/zeen-codegen-llvm/src/codegen.rs:373-423 | the union of several payloads covers every payload byte for byte, and is aligned for it if and only if some payload has bytes or the payload needs no alignment |
| `LlvmLayout.FieldInStruct` | compiler/zeen-codegen-llvm/src/codegen.rs:4213-4222 | a field lies inside its struct at an aligned offset, and the struct's alignment is a multiple of the field's |
| `LlvmLayout.FieldsApart` | compiler/zeen-codegen-llvm/src/codegen.rs:4213-4222 | different fields do not overlap |
| `LlvmLayout.StructIs` | compiler/zeen-layout/src/lib.rs:99-113 | a struct has the greatest alignment of its fields and ends at the first offset aligned for it after the last field |
| `LlvmLayout.ElementInArray` | compiler/zeen-codegen-llvm/src/codegen.rs:4224-4264 | an element with an index in range lies inside the array at an aligned offset |
| `LlvmLayout.DetourKeeps` | compiler/zeen-codegen-llvm/src/codegen.rs:2691-2709 | what is read at a covered type survives a load and store of the whole as another type, although padding does not |
| `EnumUnion.AggregateValue` | compiler/zeen-codegen-llvm/src/codegen.rs:1317-1352 | the built value, stored anywhere, holds the variant: its tag byte is the low byte of a position at which the enum lists the variant, and its payload reads back as given |
| `EnumUnion.EnumRoundTrip` | compiler/zeen-codegen-llvm/src/codegen.rs:1327-1352 | wherever the value is stored, its tag reads back as the tag modulo 256 and its payload as exactly the payload |
| `EnumUnion.BareRoundTrip` | compiler/zeen-codegen-llvm/src/codegen.rs:1327-1352 | a variant without payload, or with a void one, keeps its tag |
| `EnumUnion.TagsTellVariantsApart` | compiler/zeen-codegen-llvm/src/codegen.rs:4333-4362 | one-byte tags tell all variants apart if and only if there are at most 256 |
| `EnumUnion.PayloadInside` | compiler/zeen-codegen-llvm/src/codegen.rs:4275-4283 | every payload lies inside the union field, on data bytes, at an offset aligned for it |
| `PlaceAddressing.PlacePtr` | compiler/zeen-codegen-llvm/src/codegen.rs:4199-4322 | the loop that moves pointer and type together ends at the place's offset with the type that the type-only walk computes |
| `PlaceAddressing.FirstStep` | compiler/zeen-codegen-llvm/src/codegen.rs:4213-4264 | the first field or element is at the start |
| `PlaceAddressing.NextStep` | compiler/zeen-codegen-llvm/src/codegen.rs:4213-4264 | each field or element is at the first offset aligned for it at or after the end of the one before it |
| `PlaceAddressing.PlaceInside` | compiler/zeen-codegen-llvm/src/codegen.rs:4199-4290 | the addressed bytes lie inside the root allocation and data bytes lie on data bytes |
| `PlaceAddressing.PlaceAligned` | compiler/zeen-codegen-llvm/src/codegen.rs:4199-4290 | the address of a place with bytes is aligned for its type whenever the root is |
| `PlaceAddressing.PlacesApart` | compiler/zeen-codegen-llvm/src/codegen.rs:4199-4290 | two places that part at different fields or different index values occupy disjoint bytes |
| `PlaceAddressing.WaysDiverge` | compiler/zeen-codegen-llvm/src/codegen.rs:4199-4290 | places part whenever, after the same steps, one goes to one field or index value and the other to another |
| `PlaceAddressing.StoreLeavesOther` | compiler/zeen-codegen-llvm/src/codegen.rs:4163-4197 | a store through one place leaves every load through a diverging place unchanged |
| `PlaceAddressing.StoreThenLoad` | compiler/zeen-codegen-llvm/src/codegen.rs:4163-4197 | a store through a place is read back through it |
| `EnumWorklist.FillEnumLayouts` | compiler/zeen-codegen-llvm/src/codegen.rs:327-352 | the loop terminates, fills every registered enum exactly once, and produces the measured order followed by the leftovers |
| `EnumWorklist.RetainPending` | compiler/zeen-codegen-llvm/src/codegen.rs:332-345 | one pass in which enums filled early count for those after them |
| `EnumWorklist.PassesChain` | compiler/zeen-codegen-llvm/src/codegen.rs:327-371 | every measured enum comes after all its direct enum payloads, and no leftover is measurable at the end |
| `EnumWorklist.MeasuredIsLeast` | compiler/zeen-codegen-llvm/src/codegen.rs:327-371 | whatever the order of the keys, the measured enums are exactly the least fixpoint and the leftovers its complement |
| `EnumWorklist.NoLeftoversIff` | compiler/zeen-codegen-llvm/src/codegen.rs:327-371 | nothing is left over if and only if the direct payload relation is ranked (acyclic) over registered enums |
| `EnumWorklist.OrderIs` | compiler/zeen-codegen-llvm/src/codegen.rs:327-352 | for one given order of the keys, such as the code's by type id: one enum is filled before another if and only if an earlier pass fills it, or the same pass and it comes earlier among the keys; the pass of an enum follows by recursion from those of its direct enum payloads, and what no pass fills comes last in key order |
| `EnumWorklist.BodiesFirstIn` | compiler/zeen-codegen-llvm/src/codegen.rs:327-423 | in a given order of the keys, no payload is measured before the enums it holds have bodies if and only if every needed enum is filled earlier in that closed form; an enum with fewer than two payloads, void ones counted, measures none, and one without payload needs no body |
| `EnumWorklist.BodiesFirstIff` | compiler/zeen-codegen-llvm/src/codegen.rs:354-423 | so it is in every order of the keys if and only if each enum that a measured enum needs is reached from it through direct payloads, and each enum that a leftover needs is none |
| `EnumWorklist.WrappedTooEarly` | compiler/zeen-codegen-llvm/src/codegen.rs:354-423 | an enum with two payloads, one of them a struct around a second enum, measures that struct before the second enum has a body |
| `EnumWorklist.HeldByIff` | compiler/zeen-codegen-llvm/src/codegen.rs:354-423 | an aggregate holds by value the enums that any of its parts holds |
| `EnumWorklist.FilledOnce` | compiler/zeen-codegen-llvm/src/codegen.rs:327-352 | measured and left-over enums together are the keys, each once |
| `CAbi.ClassifyEightbytes` | compiler/zeen-codegen-llvm/src/codegen.rs:856-904 | the byte-charging loop gives an eightbyte the class SSE exactly when a float field and no other field reaches into it; which machine type each eightbyte then gets is RegistersMeetStandard |
| `CAbi.CoerceType` | compiler/zeen-codegen-llvm/src/codegen.rs:829-905 | the coerced type on every target, or none; RegistersMeetStandard and ArmRegisters say which it is from the leaves and the size of the struct alone |
| `CAbi.RegistersMeetStandard` | compiler/zeen-codegen-llvm/src/codegen.rs:829-905 | on x86-64 a struct of naturally aligned fields and up to sixteen bytes is passed as one or two parts; with no nested scalar in an eightbyte, its part is a double exactly where a double lies, two floats exactly where two floats or one float and padding lie, one float exactly for a last float alone, and otherwise the smallest integer that holds the bytes; an eightbyte with nested scalars is such an integer |
| `CAbi.PaddedFloat` | compiler/zeen-codegen-llvm/src/codegen.rs:887-897 | a float before a double is passed as two floats, although its eightbyte holds one |
| `CAbi.ArmRegisters` | compiler/zeen-codegen-llvm/src/codegen.rs:842-853 | on AArch64 the floats of a homogeneous aggregate of top-level scalars are passed as an array of them, any other struct of up to eight or sixteen bytes as one or two 64-bit integers, and no other struct is coerced |
| `CAbi.CoercionLossless` | compiler/zeen-codegen-llvm/src/codegen.rs:2691-2709 | for every naturally aligned struct that is coerced: store as struct, load as coerced type, store again, load as struct gives the struct back; the slot is large and aligned enough (the result path, 2816-2833, is the second half) |
| `CAbi.CoercedHolds` | compiler/zeen-codegen-llvm/src/codegen.rs:829-939 | the coerced type is at least as large and as aligned as the struct and has no padding below the struct's size, on x86-64 and AArch64 |
| `CAbi.ClassMeetsStandard` | compiler/zeen-codegen-llvm/src/codegen.rs:862-899 | section 3.2.3 of the System V AMD64 psABI: an eightbyte gets the standard's class unless all its scalars are floats and some of them sit inside an array or nested struct, and then never |
| `CAbi.NestedFloatsDiffer` | compiler/zeen-codegen-llvm/src/codegen.rs:862-899 | a struct of one nested struct of two floats is passed as an integer where the standard says SSE |
| `CAbi.HomogeneousHolds` | compiler/zeen-codegen-llvm/src/codegen.rs:907-939 | a homogeneous float aggregate of AAPCS64 is covered by the array it is passed as |
| `CAbi.HomogeneousMeetsStandard` | compiler/zeen-codegen-llvm/src/codegen.rs:907-939 | what counts as a homogeneous aggregate is what section 5.9.5 of AAPCS64 says, if and only if the struct is not one whose equal floats sit partly inside arrays or nested structs |
| `CAbi.ExactlyOneWay` | compiler/zeen-codegen-llvm/src/codegen.rs:829-957 | a struct with bytes is passed in exactly one of the two ways on every target, an empty one in neither |
| `CAbi.DeclareExtern` | compiler/zeen-codegen-llvm/src/codegen.rs:496-525 | the declared machine signature, with the leading result pointer, tries coercion first |
| `CAbi.SignatureIs` | compiler/zeen-codegen-llvm/src/codegen.rs:496-525 | a pointer comes first and nothing is returned exactly when the result is a struct in memory; every parameter follows in order, a pointer for a struct in memory |
| `CAbi.CallExtern` | compiler/zeen-codegen-llvm/src/codegen.rs:2651-2744 | the machine types that a call passes, by-pointer passing first, equal the declared ones; for a variadic callee they begin with them |
| `CAbi.ByvalAgrees` | compiler/zeen-codegen-llvm/src/codegen.rs:2792-2804 | the byval positions of call and declaration agree if and only if there is no result pointer or no parameter carries the attribute |
| `CAbi.SpellingsAgree` | compiler/zeen-codegen-llvm/src/codegen.rs:941-963 | a declaration has the same byval positions for the triples arm64 and aarch64 if and only if no parameter is passed by pointer; its parameter types are the same |
| `CAbi.SpellingsDiffer` | compiler/zeen-codegen-llvm/src/codegen.rs:941-963 | a struct of three 64-bit integers carries the attribute for arm64 and not for aarch64 |
| `PanicTrace.Tracer.Prologue` | compiler/zeen-codegen-llvm/src/codegen.rs:3412-3466 | entering a function that is not a drop implementation writes its frame to slot depth mod 256 and increments the depth modulo 2^32 |
| `PanicTrace.Tracer.Epilogue` | compiler/zeen-codegen-llvm/src/codegen.rs:3468-3489 | returning decrements the depth and leaves all slots |
| `PanicTrace.Tracer.PanicStack` | compiler/zeen-codegen-llvm/src/codegen.rs:3491-3616 | the printing loop with its signed comparisons prints the slots from the top of the depth down, at most 256 |
| `PanicTrace.LastEntryWins` | compiler/zeen-codegen-llvm/src/codegen.rs:3412-3489 | after any run, the depth is the number of live calls modulo 2^32 and each slot holds the frame last entered at a level of its residue |
| `PanicTrace.LiveCalls` | compiler/zeen-codegen-llvm/src/codegen.rs:3412-3489 | the bookkeeping of a live call is right: its level, its frame and exactly how deep the run has gone since |
| `PanicTrace.OwnSlot` | compiler/zeen-codegen-llvm/src/codegen.rs:3412-3489 | a live level k still owns its slot if and only if the run has not gone deeper than k + 256 since it was entered |
| `PanicTrace.PrintsLastEntries` | compiler/zeen-codegen-llvm/src/codegen.rs:3491-3616 | after every run, the printed lines are, from the top level down, the locations last entered at a level of the same residue, as many as the depth pattern allows |
| `PanicTrace.PrintsInnermostIff` | compiler/zeen-codegen-llvm/src/codegen.rs:3491-3616 | after every run, recursive or not, a panic prints exactly the innermost frames if and only if the depth pattern allows for all of them and each shown call kept its slot or lost it to a call with the same location |
| `PanicTrace.DistinctPrintsIff` | compiler/zeen-codegen-llvm/src/codegen.rs:3491-3616 | with calls told apart and fewer than 2^31 of them live, that is if and only if none of the shown calls lost its slot |
| `PanicTrace.ShallowRun` | compiler/zeen-codegen-llvm/src/codegen.rs:3491-3616 | a run never deeper than 256 prints the whole call stack, innermost first |
| `PanicTrace.HighWater` | compiler/zeen-codegen-llvm/src/codegen.rs:3491-3616 | a panic at the greatest depth so far prints exactly the innermost 256 frames |
| `PanicTrace.StaleLine` | compiler/zeen-codegen-llvm/src/codegen.rs:3412-3489 | after more than 256 nested calls and all returns but one, the printed line names another function |
| `PanicTrace.TooDeepPrintsNothing` | compiler/zeen-codegen-llvm/src/codegen.rs:3542-3551 | nothing is printed if and only if the depth pattern is zero or reads as negative |
| `BinFormat.EmitBinBuffer` | compiler/zeen-codegen-llvm/src/codegen.rs:3883-4037 | for every width 1 to 64 and value in range, the text at the returned pointer is the value's digits; all accesses are inside the bits + 1 bytes |
| `BinFormat.ConstantTextIs` | compiler/zeen-codegen-llvm/src/codegen.rs:3724-3738 | masking a constant, also a negative one, renders its value modulo the width |
| `BinFormat.FormatBin` | compiler/zeen-codegen-llvm/src/codegen.rs:3841-3846 | folded and run-time formatting give the same text, which decodes to the masked value |
| `BinFormat.DecodeDigits` | compiler/zeen-codegen-llvm/src/codegen.rs:3883-4037 | reading the digits back gives the number |
| `BinFormat.NoLeadingZero` | compiler/zeen-codegen-llvm/src/codegen.rs:3883-4037 | the first digit is zero only for zero itself, and no digit is the terminator |
| `BinFormat.TextInjective` | compiler/zeen-codegen-llvm/src/codegen.rs:3724-3738 | two values of one integer type are shown alike only if they are equal |
| `Arith.MaskIsMod` | compiler/zeen-codegen-llvm/src/codegen.rs:3437-3441 | conjunction with n ones keeps the value modulo 2^n |
| `ComptimeCheck.ValidateProgram` | compiler/zeen-comptime/src/check.rs:28-44 | the errors of a program are those of the specification, in order |
| `ComptimeCheck.Checker.Declaration` | compiler/zeen-comptime/src/check.rs:77-162 | appends exactly the specified errors and restores the source |
| `ComptimeCheck.Checker.Statement` | compiler/zeen-comptime/src/check.rs:164-244 | appends exactly the specified errors of a statement in the given mode |
| `ComptimeCheck.Checker.Expression` | compiler/zeen-comptime/src/check.rs:246-391 | appends exactly the specified errors of an expression; a comptime `?` is reported and not descended into |
| `ComptimeCheck.Checker.CheckType` | compiler/zeen-comptime/src/check.rs:393-413 | appends exactly the specified errors of a type |
| `ComptimeCheck.Checker.Report` | compiler/zeen-comptime/src/check.rs:431-452 | exactly one error is appended, at the rejected type: it says only-as-return-type exactly for what another void setting would accept, a name it suggests is an accepted type whatever comptime structs there are, and otherwise it says not allowed |
| `ComptimeTree.Decides` | compiler/zeen-comptime/src/check.rs:28-413 | against the syntax alone: no errors if and only if nothing contained in the program, outside the listed fields that are not entered, is a `?` in comptime code or a type that comptime code does not have |
| `ComptimeTree.ReachedIff` | compiler/zeen-comptime/src/check.rs:76-413 | a node is visited in a mode if and only if it is contained in the program outside those fields, not below a rejected type, and stands in code of that mode; the parts of a comptime struct's method stand for the method |
| `ComptimeOrder.VisitsInOrder` | compiler/zeen-comptime/src/check.rs:76-413 | a node visits what is entered of its fields, in the order of the fields and each once; a comptime struct its fields and then, method by method, parameters without the receiver, result and body |
| `ComptimeOrder.FieldsAre` | compiler/zeen-comptime/src/check.rs:76-413 | those lists of fields hold exactly what a node contains |
| `ComptimeProof.DecidesOnPaths` | compiler/zeen-comptime/src/check.rs:28-44 | no errors if and only if, on every path of visits down from the top-level declarations, no `?` stands at a comptime position and every type visited is accepted |
| `ComptimeProof.CleanIff` | compiler/zeen-comptime/src/check.rs:76-413 | a node has no errors if and only if no path from it ends at an offence, also below a `?` that is not descended into |
| `ComptimeProof.ModeIs` | compiler/zeen-comptime/src/check.rs:164-391 | a node is visited in comptime mode if and only if the innermost construct around it that sets the mode opens comptime code |
| `ComptimeProof.InnermostSource` | compiler/zeen-comptime/src/check.rs:77-162 | every node is reported with the source of the innermost declaration that was entered as one |
| `ComptimeProof.ComptimeIsStricter` | compiler/zeen-comptime/src/check.rs:164-391 | a node clean in comptime mode is clean in runtime mode |
| `ComptimeProof.SuggestionAccepted` | compiler/zeen-comptime/src/check.rs:454-494 | the type that a report suggests is accepted, whatever comptime structs there are |
| `TextScan.SkipString` | lsp/src/completion.rs:315-327 | the loop stops one past the first quote that an even number of backslashes precedes, or at the end if there is none |
| `TextScan.SkipLine` | lsp/src/completion.rs:329-335 | a line comment ends at its line feed |
| `TextScan.SkipBlockComment` | lsp/src/completion.rs:337-349 | the loop stops just past the first closer, or at the end if there is none |
| `TextScan.MaskIs` | lsp/src/completion.rs:2138-2161 | token by token, strings up to their closing quote and comments up to their end are blanked, and every other byte stays |
| `TextScan.MaskSplice` | lsp/src/completion.rs:2138-2161 | inert bytes inserted at a code position stay code and change the role of no other byte |
| `TextScan.QuietSplice` | lsp/src/completion.rs:2138-2161 | closers and semicolons inserted inside a string or comment become part of it and change the role of no other byte |
| `TextScan.Everywhere` | lsp/src/completion.rs:2138-2161 | every offset is in code, inside a string or comment, or splits an escape or a comment delimiter: exactly one of the three |
| `BracketRepair.RepairForPlain` | lsp/src/completion.rs:2138-2209 | with nothing open a semicolon is inserted if and only if it is asked for and the last byte before the offset that is not white space is none of `;{}(,[`, and otherwise nothing; with something open the closers of the open brackets are inserted from the inside out, with one semicolon after a round or square first closer, or before a curly one where that last byte is none of `;{}` |
| `BracketRepair.RepairInserts` | lsp/src/completion.rs:2138-2209 | the same of the specification that the method computes |
| `BracketRepair.LooseInsideOut` | lsp/src/completion.rs:2144-2170 | the awaited closers are those of the brackets that depth counting finds still open, from the inside out |
| `BracketRepair.AwaitedClosers` | lsp/src/completion.rs:2144-2170 | the stack after the scan |
| `BracketRepair.RepairBalances` | lsp/src/completion.rs:2138-2209 | if the prefix is correctly kinded, the suffix balanced and the offset in code: a returned text is balanced by kind, differs by the insertion alone, a second repair returns nothing, and without `semi` nothing is returned if and only if the text was balanced |
| `BracketRepair.RepairBalancesIff` | lsp/src/completion.rs:2138-2209 | where something is open and the code around the offset is bracketed as it should be, the repaired text is balanced if and only if the offset is in code, at all offsets that split no escape and no comment delimiter |
| `BracketRepair.RepairInside` | lsp/src/completion.rs:2138-2209 | at every offset inside any string, line comment or block comment a repair changes no bracket that counts: the text stays as unbalanced as it was, and every further repair inserts again |
| `BracketRepair.BalancedIff` | lsp/src/completion.rs:2138-2170 | the stack check accepts exactly the texts of the bracket grammar |
| `BracketRepair.RepairInComment` | lsp/src/completion.rs:2138-2209 | the instance of the above for an open parenthesis before a line comment |
| `BracePairs.FindBracePairs` | lsp/src/analysis.rs:3235-3266 | the pairs are exactly the braces that match by depth outside strings and comments, in both directions |
| `BracePairs.StackExact` | lsp/src/analysis.rs:3235-3266 | at every point the stack holds exactly the braces still open, outermost first |
| `BracePairs.NestedOrDisjoint` | lsp/src/analysis.rs:3235-3266 | two matching pairs are nested or disjoint |
| `BracePairs.EnclosingFnBody` | lsp/src/analysis.rs:3185-3209 | the returned body qualifies and every other qualifying pair lies around it; none is returned if and only if none qualifies |
| `BracePairs.MentionsIff` | lsp/src/analysis.rs:3200-3204 | a header qualifies if and only if the function keyword and a space occur in it |
| `BracePairs.StructInitOpen` | lsp/src/completion.rs:1698-1723 | the backward counter returns the innermost open brace, or none if and only if none is open; on text without strings and comments it is the top of the code's brace stack |
| `BracePairs.BackIsStack` | lsp/src/completion.rs:1698-1723 | counting back from any point with any depth finds the corresponding entry of the forward stack, also on unbalanced text |
| `Positions.OffsetToPosition` | lsp/src/position.rs:3-31 | the byte and character loops compute the position of the boundary at or after the offset, clamped to the text |
| `Positions.PositionToOffset` | lsp/src/position.rs:33-69 | the loops compute the offset of the boundary that the position denotes |
| `Positions.RoundTrip` | lsp/src/position.rs:3-69 | from any character boundary to its position and back is the identity |
| `Positions.Monotone` | lsp/src/position.rs:3-31 | later boundaries have strictly later positions |
| `Positions.BackAgain` | lsp/src/position.rs:33-69 | past-end lines go to the end of the text, past-end columns to the end of the line, every other position comes back unchanged or, between the two units of one character, one unit later |
| `Positions.LinesAgreeIff` | lsp/src/position.rs:9-18 | line numbers are those of LSP 3.17, section Position, if and only if every carriage return is followed by a line feed |
| `Positions.PositionAgreesIff` | lsp/src/position.rs:3-31 | the position of a boundary is that of LSP 3.17 if and only if no lone carriage return lies before it, and its column alone if and only if none lies before it on its line |
| `Positions.ReturnEndsLine` | lsp/src/position.rs:9-18 | after a lone carriage return the column is 1 on line 0 where LSP 3.17 says 0 on line 1 |
| `Positions.EndsAgreeIff` | lsp/src/position.rs:33-69 | line ends are those of LSP 3.17 if and only if there is no carriage return |
| `Positions.BytesAt` | lsp/src/position.rs:3-31 | the bytes of the text are the UTF-8 encodings of its characters at their offsets |
| `Positions.Utf8Decodes` | lsp/src/position.rs:3-31 | the encoding of a character decodes to it |
| `Positions.UnitsAre` | lsp/src/position.rs:13-31 | columns count the UTF-16 code units of the text before them |
| `Positions.Text16Decodes` | lsp/src/position.rs:13-31 | joining surrogate pairs, those code units decode to the text |
| `SemanticTokens.LineStarts` | lsp/src/semantic.rs:248-258 | exactly one start per line feed, just after it, in order |
| `SemanticTokens.OffsetToLineCol` | lsp/src/semantic.rs:260-272 | the last line that starts at or before the offset |
| `SemanticTokens.Collect` | lsp/src/semantic.rs:140-186 | the segments of all classified tokens in order |
| `SemanticTokens.SplitExact` | lsp/src/semantic.rs:154-183 | the segments of a token cover each of its bytes exactly once, except line feeds before its last byte, and nothing else |
| `SemanticTokens.TokenExact` | lsp/src/semantic.rs:140-186 | what is collected for a token of the lexer has its type, runs from line to line, and covers each byte it shows exactly once and no other, also where the token reaches past the text |
| `SemanticTokens.CollectedExact` | lsp/src/semantic.rs:140-186 | in the whole list a byte is covered by a segment of a type if and only if some token of that type shows it |
| `SemanticTokens.SegmentsJoin` | lsp/src/semantic.rs:140-186 | segments are collected token by token, in order |
| `SemanticTokens.CollectWith` | lsp/src/semantic.rs:72-113 | the list is sorted, is made up of the overlay and exactly the lexer segments that no overlay token overlaps, and keeps equal positions in order |
| `SemanticTokens.OverlayExact` | lsp/src/semantic.rs:72-97 | the overlay shows exactly the occurrences that are not empty and lie on one line, byte for byte and with their type |
| `SemanticTokens.OverlayJoins` | lsp/src/semantic.rs:72-97 | the overlay has, in the order of the occurrences, one token for each that is not empty and lies on one line |
| `SemanticTokens.RetainedJoins` | lsp/src/semantic.rs:101-109 | what is retained of a list is retained wherever it stands, in its order |
| `SemanticTokens.OverlapMeans` | lsp/src/semantic.rs:101-107 | two tokens overlap if and only if some column of their line belongs to both |
| `SemanticTokens.SegmentsApart` | lsp/src/semantic.rs:140-186 | lexer tokens that do not overlap have no segments that do |
| `SemanticTokens.SortStable` | lsp/src/semantic.rs:109-112 | the sort keeps items of one position in their order |
| `SemanticTokens.Encode` | lsp/src/semantic.rs:188-214 | the delta subtractions never underflow on a sorted list |
| `SemanticTokens.Lossless` | lsp/src/semantic.rs:188-214 | decoding as LSP 3.17, section Semantic Tokens, prescribes returns the list, also after filtering by lines |
| `SemanticTokens.TokensInRange` | lsp/src/semantic.rs:58-70 | the answer for a range of lines decodes to a sorted list of exactly the tokens on those lines |
| `SemanticTokens.ColumnOf` | lsp/src/semantic.rs:260-272 | on the encoded bytes of a text, for a character boundary: line and column are those of LSP 3.17 if and only if no lone carriage return lies before it and its line is ASCII up to there; the line alone, the column alone and the length of a token likewise, each with its exact condition |
| `SemanticTokens.ColumnsAgreeIff` | lsp/src/semantic.rs:78-98 | the same exact conditions for line, start and length of the overlay token of an occurrence |
| `Shapes.KeyInjective` | compiler/zeen-ast/src/types.rs:166-182 | printing tells all shapes apart, array lengths and parameter numbers included |
| `Shapes.MatchesKey` | lsp/src/builtin.rs:50-107 | whatever slots are bound already, the matcher accepts a printed shape if and only if it is an instance of the pattern whose parameter, where bound, prints as its binding |
| `Shapes.MatchesInstance` | lsp/src/builtin.rs:44-107 | with nothing bound, it accepts a printed shape if and only if the shape is an instance of the pattern |
| `Shapes.MatchesItself` | lsp/src/builtin.rs:44-107 | a pattern without parameters accepts exactly its own printed form |
| `Shapes.ShapeMatchesType` | lsp/src/builtin.rs:44-48 | for a printed type behind any number of single pointers, const or not, with any white space around it and after each pointer, acceptance is being an instance |
| `Shapes.StripPointerWrappers` | lsp/src/builtin.rs:22-42 | whatever white space is around the text and after each pointer, exactly the single pointers in front are taken away |
| `Shapes.PointersStripped` | lsp/src/builtin.rs:22-42 | the same of the specification that the loop computes |
| `Shapes.ArrayKey` | lsp/src/builtin.rs:76-96 | the printed length parses back and the rest after the bracket is the element |
| `Shapes.OneParam` | compiler/zeen-ast/src/types.rs:142-164 | a shape uses at most one parameter, one exactly when it has parameters, and then matching determines it |
| `Shapes.DigitsDecimal` | compiler/zeen-ast/src/types.rs:166-178 | decimal printing parses back |
| `Imports.ResolveImportPath` | lsp/src/modules.rs:110-151 | `std` and its segments are looked up in the standard library and resolve to nothing without one, `root` from the root, `super` from the parent of the open directory or from itself where it has none, the name of a package from the last package of that name, any other path with all its segments from the open directory; the file is found before the index, and an empty segment resolves to nothing |
| `Imports.ResolvedLands` | lsp/src/modules.rs:110-151 | the same of the specification that the method computes |
| `Imports.SuggestionResolves` | lsp/src/actions.rs:11-93 | for file names without dots, resolving the suggested path gives back the target if and only if its segments arrive, past whatever takes the first segment, where the target is found |
| `Imports.SuggestionResolvesIff` | lsp/src/actions.rs:11-93 | with at least two segments, the suggestion resolves to its target if and only if its first segment leads to the directory it was suggested from and no module file shadows the directory of an index file |
| `Imports.LedResolves` | lsp/src/actions.rs:11-93 | when the first segment leads there, only a shadowed index file fails to come back, and the open directory's own index never does |
| `Imports.OrdinaryNamesLead` | lsp/src/actions.rs:17-92 | distinct package names, none of them reserved, and a first segment that is neither reserved nor a package's lead there |
| `Imports.DottedLeadsBack` | lsp/src/modules.rs:153-168 | below the right directory the dotted path leads to the target if and only if no file shadows an index directory |
| `Imports.StartIs` | lsp/src/actions.rs:17-92 | a path is suggested exactly when some start directory lies above the target: the current one, its parent, the root, or the first package |
| `Imports.SplitJoin` | lsp/src/modules.rs:121-125 | joining dot-free names and splitting at dots gives the names back |
| `Imports.PackageCapturesIff` | lsp/src/modules.rs:127-138 | a suggestion whose first segment is the name of a package resolves to its target if and only if the package is the open directory's own directory of that name |
| `Imports.PackageCaptures` | lsp/src/modules.rs:127-138 | an instance: a package elsewhere takes the suggestion and the package's file is found |
| `Imports.CoreHead` | lsp/src/modules.rs:117-119 | a suggestion is taken for a core import exactly when its first segment is core and more follow |

## Left out

- Simulation.FunctionCorrect: functions over integers up to 64 bits, booleans, floats that are copied, compared and negated, pointers, arrays, structs and slices; calls, macro calls, drops, enums, string constants and function values are not modelled.
- Simulation.RunSim: runs through call and macro-call terminators are not modelled.
- Simulation.BlockSim: blocks that end in a call or a macro call are not modelled.
- Simulation.StmtsSim: drop statements are not modelled.
- Simulation.StmtSim: drop statements are not modelled.
- Simulation.RvalueSim: the rvalues SizeOf, AlignOf and Discriminant and enum aggregates are not modelled here; `LayoutEngine` and `EnumUnion` are about what they compute.
- Simulation.TermJump: call and macro-call terminators are not modelled.
- EmitProof.PlaceOk: pointers are a root and a cell offset; enum payload steps are modelled in `PlaceAddressing` only, and indexing a slice place directly is not handled by the code.
- EmitProof.OperandValue: float, string, character and function constants are not modelled.
- EmitProof.BinOpSim: no float arithmetic, since rounding is not modelled, no enum operands and no pointer arithmetic; at least one operand is a place, since the code does not type a pair of constants.
- EmitProof.CastSim: conversions between pointers and integers, of enums, of floats and of function pointers are not modelled.
- EqProof.EqOk: no fat function values; a bare enum is compared as its tag, which the code maps to an 8-bit integer, so it is an unsigned 8-bit integer here; slices inside slice elements are excluded because the emitted loop is not well formed there.
- CodeGen.FunctionBuilder.PlacePtr: enum payload steps are modelled in `PlaceAddressing` only.
- CodeGen.FunctionBuilder.BuildAggregateEquality: fat function values are not modelled.
- CodeGen.FunctionBuilder.BinaryOp: float arithmetic, enum operands and pointer arithmetic are not modelled.
- CodeGen.FunctionBuilder.RvalueValue: SizeOf, AlignOf and Discriminant are not modelled.
- CodeGen.FunctionBuilder.EmitStatement: drop statements are not modelled.
- CodeGen.FunctionBuilder.EmitTerminator: call and macro-call terminators are not modelled.
- PlaceAddressing.PlacePtr: dereferences leave the root and are covered by the cell memory model only.
- LayoutEngine.LayoutAgrees: of a target's data layout only the pointer width and the alignment of eight-byte scalars are parameters; slices and fat function values are structs of pointers to the engine and to the backend; they are covered as such.
- CAbi.CoercionLossless: structs of naturally aligned fields with alignment at most 8; data layouts that align 8-byte scalars to 4 are modelled in `LayoutEngine` only.
- CAbi.CallExtern: array and slice arguments in the variadic tail are passed as pointers by the code; only the types of the declared parameters are compared.
- EnumWorklist.FillEnumLayouts: the keys come as a list; that the code sorts them by type id is one such list.
- PanicTrace.Tracer.Prologue: the emitted loads and stores are modelled by their effect on the ring, not as instructions; debug mode only.
- BinFormat.EmitBinBuffer: the emitted instructions are modelled as the loops they form; widths above 64 do not occur.
- ComptimeCheck.Checker.Report: the rendered type inside a message, and spans, are represented by the node that is reported.
- ComptimeCheck.Checker.Declaration: blocks guarded by a target condition are not visited at the top level, as in the code.
- ComptimeTree.Decides: the tree keeps the fields that hold an expression, a statement, a declaration or a type; names, spans, patterns and generic parameters are left out.
- BracketRepair.RepairForPlain: texts are byte sequences and offsets lie on character boundaries; only ASCII white space is trimmed.
- Positions.OffsetToPosition: lines and columns are unbounded, so the overflow of 32-bit counters is not modelled.
- SemanticTokens.CollectWith: lexer tokens and occurrences are inputs; overlay tokens that overlap one another are kept, as in the code.
- Imports.SuggestionResolvesIff: a single segment, and the index of a directory itself named index, are covered by Imports.SuggestionResolves only.
- Imports.SuggestionResolves: the file system is a set of files; names are compared as written.
- Shapes.ShapeMatchesType: only ASCII white space is trimmed.
- LLVM itself, target set-up, optimisation passes and object files are foreign and represented by the target machine.
- The type checker, the resolver, the parser and the lexer are not part of this model; their results are inputs.
- Printf specifiers, macro text, symbol mangling and names of string globals are string plumbing without invariants of their own.
- `scan_frames`, `match_open_paren`, `Analysis::at`, `merge_syntax_fallback`, `line_text` and `span_to_range` would only add easy members.
- The protocol back end, symbol refresh, folding, hover, rename, completion ranking and manifest reading are editor glue and input/output.
