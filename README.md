# Logical basic blocks of a Handshake function

This project models `lib/Support/LogicBB.cpp` from the Dynamatic compiler in Dafny. After control flow
is flattened into a single list of operations, each operation of a Handshake function may carry a
`BB_ATTR` attribute. This attribute is a non-negative integer naming the basic block ("logical BB")
the operation came from. The file has four entry points:

- `getLogicBBs` walks the function's operations in order. It groups them by logical BB and lists the
  operations with no BB separately.
- `inheritBB` copies one operation's BB onto another. It fails, and changes nothing, when the source
  has no BB.
- `inheritBBFromValue` does the same from the operation that defines a value. For a function
  argument, which no operation defines, it puts the destination in the entry BB.
- `getLogicBB` is a query. It returns the BB or nothing.

Modelling choices (all in `logic_bb.dfy`, module `LogicBB`):

- A function's operations are the indices `0 .. n-1` of an `array<Option<nat>>`. Each slot holds
  that operation's `BB_ATTR`: `Some(bb)`, or `None` when the operation has no BB.
- A value is `Defined(defOp)` (the result of operation `defOp`) or `Argument`.
- The grouping result `LogicBBs` is a map from BB id to a sequence of operation indices, plus the
  sequence of untagged operations.
- `ENTRY_BB` is declared in `LogicBB.h`. That header is not part of this model. The constant is
  `EntryBB`, with value 0.
- `getLogicBBs` is a method with a loop over the array and no `modifies` clause. Its result is
  proved equal to `LogicBBsOf(tags[..])`, an independent definition. There, each bucket is the list
  of indices whose tag is that id (`Bucket`), and the keys are the ids some operation carries. Since
  the method only reads the array and its result is a function of the array's contents, two calls
  on the same state return the same grouping.
- `inheritBB` and `inheritBBFromValue` are methods that update one slot of the tag array.
  `getLogicBB` is a function that reads the array.

## Model

| member | source | states |
|---|---|---|
| `LogicBB.GetLogicBBs` | lib/Support/LogicBB.cpp:13-21 | Visits every operation in order and returns exactly `LogicBBsOf` of the tags. Reads only, so no tag changes. |
| `LogicBB.LogicBBsOfSnoc` | lib/Support/LogicBB.cpp:15-19 | Adding one more operation appends its index to the end of exactly one bucket: `blocks[bb]` (created empty if absent) when it has BB `bb`, `outOfBlocks` otherwise. |
| `LogicBB.BucketMembership` | lib/Support/LogicBB.cpp:16-19 | An operation is in the bucket for tag `t` if and only if it is an operation of the function whose BB attribute is `t`. |
| `LogicBB.BucketOrdered` | lib/Support/LogicBB.cpp:15-19 | Each bucket is strictly increasing, so operations keep their program order and none is listed twice. Every entry is a valid operation index. |
| `LogicBB.ExactlyOneBucket` | lib/Support/LogicBB.cpp:15-19 | An operation with BB `b` occurs exactly once in `blocks[b]`, and in no other block and not in `outOfBlocks`. An untagged operation occurs exactly once in `outOfBlocks` and in no block. |
| `LogicBB.BlockIdsAreCarried` | lib/Support/LogicBB.cpp:14-17 | `blocks` has a key `bb` if and only if some operation carries BB `bb`, and no block is empty. |
| `LogicBB.BucketSizesSum` | lib/Support/LogicBB.cpp:14-20 | The length of `outOfBlocks` plus the lengths of all blocks equals the number of operations. |
| `LogicBB.GroupingExample` | lib/Support/LogicBB.cpp:13-21 | Operations tagged `[1, 1, none, 2]` group into `{1: [0, 1], 2: [3]}` with `outOfBlocks = [2]`. |
| `LogicBB.InheritBB` | lib/Support/LogicBB.cpp:23-29 | Succeeds if and only if the source has a BB. On success the destination's BB becomes the source's, overwriting any earlier one. On failure the destination is unchanged. No other operation changes, the source included. |
| `LogicBB.InheritBBFromValue` | lib/Support/LogicBB.cpp:31-37 | For a value with a defining operation, the result and the new tags are exactly those of `InheritBB` from that operation. For a function argument, the call always succeeds and only the destination changes, to `EntryBB`. |
| `LogicBB.GetLogicBB` | lib/Support/LogicBB.cpp:39-43 | Returns `Some(bb)` if and only if the operation carries BB `bb`, and `None` if and only if it carries none. It never falls back to `EntryBB`, and as a function it changes nothing. |
| `LogicBB.QueryAgreesWithGrouping` | lib/Support/LogicBB.cpp:13-21 | `GetLogicBB` is `None` if and only if the operation is in `outOfBlocks`. It is `Some(bb)` if and only if the operation is in `blocks[bb]`. |
| `LogicBB.RetagJoinsBlock` | lib/Support/LogicBB.cpp:25 | Giving `dst` the BB `bb`, as a successful `InheritBB` or `InheritBBFromValue` does, puts `dst` in `blocks[bb]` and in no other bucket. Every other operation stays in the bucket it was in. |

## Left out

- MLIR attribute mechanics: the `IntegerAttr` bit width, `getZExtValue` in `getLogicBBs`, the
  32-bit `unsigned` that `getLogicBB` returns through `getUInt`, and building the UI32 `ENTRY_BB`
  attribute with an `OpBuilder`. A BB id is an unbounded `nat`, so a truncation of ids that do not
  fit in 32 bits is not modelled.
- Pointer identity of `Operation*`. Operations are identified by their index in one function's
  array, so `inheritBB` between operations of two different functions is not modelled.
- `Value::getDefiningOp` is modelled by the `Value` datatype: it names the defining operation's
  index, or is `Argument`. Resolving a value from the IR is not modelled.
- `lib/Transforms/BufferPlacement/HandshakePlaceBuffers.cpp` is not part of this model. It drives
  code that is not shown: reading a simulation file, extracting CFDFCs and solving a MILP. It also
  uses floating-point targets.
- `lib/Transforms/AnalyzeMemoryAccesses.cpp` is not part of this model. Its substance is MLIR's affine
  dependence analysis.
- The integration-test kernels are not part of this model. They are compiler inputs, not compiler logic.
