# Snippets lowered-IR validation and CPU test helpers, in Dafny

This project models the `Validate` pass of the snippets kernel compiler.
The pass is a read-only scan that runs after lowering and before code generation.

For every expression in a range of the linear IR, the pass:

1. runs the boundary check registered for the node's type:
   - Parameter: one memory layout over every MemoryAccess reader.
   - Result: a MemoryAccess producer.
   - Buffer: MemoryAccess neighbours, LoopEnd siblings only.
   - LoopEnd: the inline loop metadata equals the LoopManager's `LoopInfo`.
2. runs the node's own `validate()`.
3. checks the port descriptors (layout indices below the rank, layout as long as the shape), except on LoopBegin/LoopEnd.

It then checks the buffer registry as a whole:

- every id is used by either static or dynamic buffers, never both;
- the cluster ids are dense from 0;
- the buffers of one static cluster share one offset.

The project also models the string and sequence helpers of the CPU plugin's functional-test utilities:

- joining format names and implementation priorities;
- splitting the recorded output-layout string;
- the format membership tests;
- the two all-equal tests, over format lists and over raw output bytes.

Layout:

- `outcomes.dfy` (`Outcomes`): `Option`, `Outcome` (pass or a fail with an error) and `Result` (a value or an error).
- `lowered_ir.dfy` (`LoweredIR`): the IR as a value.
  - Expressions and port connectors are stored in sequences and referred to by index.
  - Node kinds form a closed variant, each with its `TypeInfo`.
  - The MemoryAccess port sets, LoopEnd metadata, `LoopInfo` records, the loop manager (a map from loop id) and the buffer registry are fields.
  - `WellFormed(ir)` holds when every reference points at something that exists, as the compiler's shared pointers do, and when each LoopEnd's three flat per-port arrays hold an entry for every loop port.
- `validate.dfy` (`ValidatePass`): one function or method per check, each proved against a predicate that says what it accepts.
  - Every `OPENVINO_ASSERT` becomes a `Fail` with its own error value.
  - Every failure is fatal, so the first failing assertion decides the outcome. Each check has an error function (`ParameterError`, `BufferError`, `LoopEndError`, ...) that names the first assertion, in source order, that does not hold, and the check's method returns exactly that error.
  - The `Validate` class holds the dispatch map. Its `Run` is proved against "every expression of the range passes its checks and the registry keeps the cluster invariants". It reports the first failing expression with that expression's error (`ExprOutcome`), or the cluster error that the check order gives.
- `validate_properties.dfy` (`ValidateProperties`): lemmas about the checks, stated against independent descriptions.
  - The single-layout rule as an if-and-only-if.
  - The LoopEnd copy as the flattened `LoopInfo`.
  - The rejection of every single-field change.
  - Dense ids as "every id below the count".
  - The dispatch of the standard map.
  - The repeatability of a run.
- `cpu_test_utils.dfy` (`CpuTestUtils`): the test helpers. The loops are methods proved against `Join`, `Split` and the membership predicates. Round-trip lemmas connect `Join` and `Split`.

Behaviour of the code that the model keeps, and that a reader might not expect:

- **Buffer producer query.** `validate_buffer` asks the producer of a Buffer input `is_memory_access_input_port(source.get_index())`: the *input*-port query on an *output* index (validate.cpp:70). The model asks the same question. `ValidateProperties.BufferProducerAskedInputPort` shows the effect: a producer that is MemoryAccess only on that output is refused.
- **Layouts need not be permutations.** The port check does not require a permutation. It only checks that the largest layout entry is below the rank and that the lengths are equal, in that order. `ValidateProperties.RepeatedAxisLayoutPasses` shows `[0, 0]` passing on a rank-2 shape.
- **Mixed clusters hit the count check.** An id used by both a static and a dynamic buffer is reported by the count check (validate.cpp:143, "incorrect count"). The count check comes first, and it fails exactly when the two key sets overlap (`ValidatePass.CountIffDisjoint`). The later "only static or dynamic" assertion (validate.cpp:150) and the empty-cluster assertion (validate.cpp:152) can never fail. The model proves both facts where those lines are reached, rather than modelling branches that cannot be taken.
- **`std::set` is modelled by its members.** The offset of the first member of a static cluster is taken as the offset of the member with the smallest id. All members must agree, so which member is "first" does not change the outcome. The ids are checked as dense through the set's minimum and maximum, and `ValidatePass.DenseIffMinMax` proves that test equivalent to "the ids are exactly 0 .. N-1".
- **The two format tests are not complementary on one list.** `containsNonSupportedFormat` and `containsSupportedFormatsOnly` agree as complements only when the supported and non-supported lists are complements over the formats being tested (`CpuTestUtils.ComplementaryLists`). Given the same list, both return true (`CpuTestUtils.SameListNotComplementary`).

## Model

| member | source | states |
|---|---|---|
| `ValidatePass.SeqMax` | src/common/snippets/src/lowered/pass/validate.cpp:23 | the largest layout entry: it is an entry of the layout and no entry exceeds it (the layout must be non-empty) |
| `ValidatePass.ValidateDescriptor` | src/common/snippets/src/lowered/pass/validate.cpp:20-26 | a descriptor passes iff every layout index is below the shape's rank and layout and shape have equal length; an out-of-range index is reported before a length mismatch, and exactly when one exists |
| `ValidatePass.ValidateDescriptors` | src/common/snippets/src/lowered/pass/validate.cpp:29-30 | a descriptor list passes iff every descriptor passes; a failure is the error of the first failing descriptor; only descriptors the scan reaches (all earlier ones passing) must have a layout |
| `ValidatePass.ValidatePorts` | src/common/snippets/src/lowered/pass/validate.cpp:19-31 | an expression's ports pass iff every input and every output descriptor passes; when some input descriptor fails, the input scan's error is reported, otherwise the output scan's; output layouts are only needed once all inputs pass |
| `ValidatePass.ValidateParameter` | src/common/snippets/src/lowered/pass/validate.cpp:33-51 | passes iff the node is a Parameter, the value after the shape-infer chain has an output, every consumer is a MemoryAccess node on a MemoryAccess input port or (not being MemoryAccess) a LoopEnd, and the MemoryAccess consumers record exactly one layout; a failure reports `ParameterError`: wrong kind, then no output, then the errors of the consumer loop |
| `ValidatePass.CheckParameterConsumers` | src/common/snippets/src/lowered/pass/validate.cpp:39-50 | the consumer loop and the layout count pass iff every consumer is accepted and the MemoryAccess consumers record exactly one layout; a failure reports the error of the first refused consumer, or the layout error |
| `ValidateProperties.FirstRefusedOf` | src/common/snippets/src/lowered/pass/validate.cpp:40-48 | when any consumer is refused, some consumer is the first refused one, where the loop stops |
| `ValidateProperties.ParameterConsumersErrorIff` | src/common/snippets/src/lowered/pass/validate.cpp:40-50 | the consumer loop reports the MemoryAccess-port error iff it stops at a MemoryAccess consumer, the LoopEnd error iff it stops at any other consumer, and the layout error iff it does not stop |
| `ValidateProperties.ParameterFailureClassified` | src/common/snippets/src/lowered/pass/validate.cpp:40-50 | for a Parameter with an output, the check fails with the port error iff the first refused consumer is MemoryAccess (validate.cpp:43), with the LoopEnd error iff it is not (validate.cpp:47), and with the layout error iff every consumer is accepted and the layouts are not exactly one (validate.cpp:50) |
| `ValidatePass.ValidateResult` | src/common/snippets/src/lowered/pass/validate.cpp:53-62 | passes iff the node is a Result and the producer of the first input of the value before the shape-infer chain is MemoryAccess on that output port; fails with the kind error iff the node is not a Result, with the connector error iff it is one and the value has no input, and with the producer error iff it has one and the producer is refused |
| `ValidatePass.ValidateBuffer` | src/common/snippets/src/lowered/pass/validate.cpp:64-93 | passes iff the node is a Buffer, every input's producer is MemoryAccess and answers the input-port query for its output index, every other consumer of each input is a LoopEnd, and every consumer of the output after the shape-infer chain feeds a MemoryAccess input port or a non-MemoryAccess LoopEnd; a failure reports `BufferError`: at the first refused input the producer error before the sibling error, then the connector error, then the error of the first refused output consumer |
| `ValidatePass.CheckBufferInputs` | src/common/snippets/src/lowered/pass/validate.cpp:67-78 | the input loop passes iff every input's producer and siblings pass; it fails with the producer error iff the first refused input has a refused producer, and otherwise with the sibling error |
| `ValidatePass.CheckBufferConsumers` | src/common/snippets/src/lowered/pass/validate.cpp:84-92 | the output loop passes iff every consumer feeds a MemoryAccess input port or a non-MemoryAccess LoopEnd; a failure reports the MemoryAccess-port error when the first refused consumer is MemoryAccess and the LoopEnd error otherwise |
| `ValidatePass.ValidateLoopPorts` | src/common/snippets/src/lowered/pass/validate.cpp:116-123 | passes iff port i of the LoopInfo list equals entry i + shift of the LoopEnd's three flat arrays, for every i |
| `ValidatePass.ValidateLoopEnd` | src/common/snippets/src/lowered/pass/validate.cpp:95-126 | passes iff the node is a LoopEnd with a LoopBegin, its loop id is known to the loop manager, bounds and port counts equal the LoopInfo's, and input ports match entry i and output ports entry inputNum + i; each error holds iff every earlier step passes and its own step fails: kind, LoopBegin, loop id, bounds, port counts, per-port shifts |
| `ValidatePass.SetMin` | src/common/snippets/src/lowered/pass/validate.cpp:144 | the first element of an ordered id set: a member no greater than any member |
| `ValidatePass.SetMax` | src/common/snippets/src/lowered/pass/validate.cpp:144 | the last element of an ordered id set: a member no smaller than any member |
| `ValidatePass.InsertIntoCluster` | src/common/snippets/src/lowered/pass/validate.cpp:139 | inserting a buffer into the cluster of its id adds the id as a key, adds the buffer to that cluster and leaves every other cluster unchanged |
| `ValidatePass.CollectBufferClusters` | src/common/snippets/src/lowered/pass/validate.cpp:129-141 | fails iff some registry entry is not a Buffer; otherwise returns the set of all cluster ids and the static and dynamic cluster maps, each map holding exactly the buffers of each id |
| `ValidatePass.CountIffDisjoint` | src/common/snippets/src/lowered/pass/validate.cpp:143 | the number of distinct ids equals the two map sizes added iff no id is both static and dynamic |
| `ValidatePass.DenseIffMinMax` | src/common/snippets/src/lowered/pass/validate.cpp:144-145 | an id set is 0 .. N-1 iff it is empty or its minimum is 0 and its maximum is N-1 |
| `ValidatePass.ClusterNonEmpty` | src/common/snippets/src/lowered/pass/validate.cpp:152 | every collected static cluster has a member, so this assertion never fires |
| `ValidatePass.StaticOffsetsDisagree` | src/common/snippets/src/lowered/pass/validate.cpp:153-156 | two members of one static cluster with different offsets break the offset invariant |
| `ValidatePass.StaticOffsetsFromClusters` | src/common/snippets/src/lowered/pass/validate.cpp:147-157 | when every collected static cluster has one offset, any two static buffers of one id have equal offsets |
| `ValidatePass.CheckStaticOffsets` | src/common/snippets/src/lowered/pass/validate.cpp:147-158 | passes iff any two static buffers with one cluster id have the same offset (each cluster compared member by member with one member's offset) |
| `ValidatePass.ValidateBufferExpressions` | src/common/snippets/src/lowered/pass/validate.cpp:128-159 | passes iff every registry entry is a Buffer, no id is both static and dynamic, the ids are 0 .. N-1 and static clusters agree on offsets; the error reported is the first of these that fails |
| `ValidatePass.ApplyCheck` | src/common/snippets/src/lowered/pass/validate.cpp:178-181 | calling the mapped check passes iff that check's acceptance predicate holds, fails with that check's own error (`ErrorOf`), and never reports a port or self-check error |
| `ValidatePass.ExprOutcome` | src/common/snippets/src/lowered/pass/validate.cpp:176-184 | what one iteration of the run reports for an expression: the mapped check's error, then a failed validate(), then the port error; it passes iff the expression meets all three |
| `ValidatePass.Validate.constructor` | src/common/snippets/src/lowered/pass/validate.cpp:162-169 | the dispatch map sends Parameter, Result, Buffer and LoopEnd to their checks and holds nothing else |
| `ValidatePass.Validate.Run` | src/common/snippets/src/lowered/pass/validate.cpp:171-190 | succeeds (reporting "not modified") iff every expression of [begin, end) passes its mapped check, its own validate() and, unless a loop boundary, the port check, and the whole registry keeps the cluster invariants; an expression failure names the first failing expression and carries the error `ExprOutcome` gives for it, a cluster failure comes only after the whole range passed and carries the error the cluster check order gives |
| `ValidateProperties.StopsAtFirstBadDescriptor` | src/common/snippets/src/lowered/pass/validate.cpp:29 | a list whose first descriptor fails and whose second has no layout is in the check's domain and reports the first descriptor's range error |
| `ValidateProperties.RepeatedAxisLayoutPasses` | src/common/snippets/src/lowered/pass/validate.cpp:20-26 | a layout naming one axis twice passes the port check; an index equal to the rank and a short layout fail with their own errors |
| `ValidateProperties.ParameterOkIffOneLayout` | src/common/snippets/src/lowered/pass/validate.cpp:38-50 | when the value has an output, a Parameter passes iff all consumers feed MemoryAccess ports or LoopEnds, at least one is MemoryAccess, and any two MemoryAccess consumers record equal layouts |
| `ValidateProperties.DivergentLayoutsRejected` | src/common/snippets/src/lowered/pass/validate.cpp:45-50 | two MemoryAccess readers of a graph input with different layouts make the Parameter check fail |
| `ValidateProperties.NoMemoryAccessReaderRejected` | src/common/snippets/src/lowered/pass/validate.cpp:46-50 | a graph input with no MemoryAccess reader (only LoopEnds, or no consumer) fails the Parameter check |
| `ValidateProperties.MemoryAccessLoopEndOffPortRejected` | src/common/snippets/src/lowered/pass/validate.cpp:42-47 | a LoopEnd that is MemoryAccess and reads the value on a non-MemoryAccess port is refused; the LoopEnd exemption covers only non-MemoryAccess nodes |
| `ValidateProperties.BufferProducerAskedInputPort` | src/common/snippets/src/lowered/pass/validate.cpp:68-71 | a Buffer whose producer is MemoryAccess on the producing output but has no MemoryAccess input port of that index fails |
| `ValidateProperties.BufferSiblingRejected` | src/common/snippets/src/lowered/pass/validate.cpp:72-77 | another reader of a Buffer's input value that is neither the Buffer nor a LoopEnd makes the Buffer check fail |
| `ValidateProperties.FlatPorts` | src/common/snippets/src/lowered/pass/validate.cpp:113-115 | the LoopEnd's flat arrays read as one port record per loop port, inputs then outputs, each agreeing with the arrays at its index |
| `ValidateProperties.InlineCopyIsFlattenedInfo` | src/common/snippets/src/lowered/pass/validate.cpp:103-125 | the LoopEnd comparison holds iff bounds are equal, the input count matches and the LoopEnd's port records are exactly the LoopInfo's input ports followed by its output ports |
| `ValidateProperties.AgreeingCopyIsUnique` | src/common/snippets/src/lowered/pass/validate.cpp:103-125 | two LoopEnd copies with equal port counts that agree with one LoopInfo have equal bounds and equal port records |
| `ValidateProperties.PortPerturbationRejected` | src/common/snippets/src/lowered/pass/validate.cpp:116-125 | changing the is-incremented flag, pointer increment or finalization offset of any one loop port of an agreeing LoopEnd makes the comparison fail |
| `ValidateProperties.BoundsPerturbationRejected` | src/common/snippets/src/lowered/pass/validate.cpp:103-105 | changing the work amount or the increment of an agreeing LoopEnd makes the comparison fail |
| `ValidateProperties.DenseIffBounded` | src/common/snippets/src/lowered/pass/validate.cpp:144-145 | an id set is 0 .. N-1 iff every id is below the number of ids |
| `ValidateProperties.SparseIdsRejected` | src/common/snippets/src/lowered/pass/validate.cpp:144-145 | an id at or above the number of distinct ids (a gap, as with ids 0 and 2) breaks the cluster invariants |
| `ValidateProperties.MixedClusterRejected` | src/common/snippets/src/lowered/pass/validate.cpp:143 | a cluster id carried by a static and a dynamic buffer breaks the cluster invariants, through the overlap the count check detects |
| `ValidateProperties.OffsetMismatchRejected` | src/common/snippets/src/lowered/pass/validate.cpp:152-156 | two static buffers of one cluster with different offsets break the cluster invariants |
| `ValidateProperties.StandardMapDispatch` | src/common/snippets/src/lowered/pass/validate.cpp:162-187 | with the constructor's map an expression passes iff its kind's boundary check passes (none for LoopBegin and other kinds), its own validate() holds and, unless a LoopBegin or LoopEnd, its ports pass |
| `ValidateProperties.LaterLayoutsUnread` | src/common/snippets/src/lowered/pass/validate.cpp:174-184 | once an expression of the range fails, the run's precondition asks nothing of the layouts of the expressions after it |
| `ValidateProperties.RunTwice` | src/common/snippets/src/lowered/pass/validate.cpp:171-190 | two runs over the same IR return the same result: the pass is deterministic and has no state that one run leaves for the next |
| `CpuTestUtils.TerminatedIsJoinThenSep` | src/plugins/intel_cpu/tests/functional/utils/cpu_test_utils.cpp:128-130 | appending each piece followed by the separator builds the join of the pieces followed by one separator |
| `CpuTestUtils.PopBackGivesJoin` | src/plugins/intel_cpu/tests/functional/utils/cpu_test_utils.cpp:131-133 | dropping the last character (when there is one) of that string leaves exactly the separator join |
| `CpuTestUtils.Fmts2Str` | src/plugins/intel_cpu/tests/functional/utils/cpu_test_utils.cpp:126-135 | the result is prefix + name of each format, in order, separated by single commas, with no trailing comma; empty for no formats |
| `CpuTestUtils.Impls2PrimPriority` | src/plugins/intel_cpu/tests/functional/utils/cpu_test_utils.cpp:137-147 | the result is "cpu:" + name of each non-empty implementation, in order, comma-separated, with no trailing comma |
| `CpuTestUtils.CpuImplsEntries` | src/plugins/intel_cpu/tests/functional/utils/cpu_test_utils.cpp:139-142 | every priority entry is "cpu:" followed by a non-empty input name, and there is one entry per non-empty name |
| `CpuTestUtils.SplitStep` | src/plugins/intel_cpu/tests/functional/utils/cpu_test_utils.cpp:216-218 | one getline read: the piece runs to the next comma (or the end), and reading resumes after the comma |
| `CpuTestUtils.SplitOutputFormats` | src/plugins/intel_cpu/tests/functional/utils/cpu_test_utils.cpp:212-220 | the result is the comma-separated pieces of the string as getline reads them: none for an empty string, no piece after a trailing comma |
| `CpuTestUtils.SplitJoin` | src/plugins/intel_cpu/tests/functional/utils/cpu_test_utils.cpp:212-220 | splitting the comma join of comma-free pieces whose last piece is non-empty gives the pieces back |
| `CpuTestUtils.JoinSplit` | src/plugins/intel_cpu/tests/functional/utils/cpu_test_utils.cpp:212-220 | joining the pieces of a string that does not end in a comma gives the string back |
| `CpuTestUtils.SplitPiecesCommaFree` | src/plugins/intel_cpu/tests/functional/utils/cpu_test_utils.cpp:216-218 | no piece of a split contains a comma |
| `CpuTestUtils.ContainsNonSupportedFormat` | src/plugins/intel_cpu/tests/functional/utils/cpu_test_utils.cpp:574-581 | true iff some format of the list occurs among the non-supported formats |
| `CpuTestUtils.ContainsSupportedFormatsOnly` | src/plugins/intel_cpu/tests/functional/utils/cpu_test_utils.cpp:583-590 | true iff every format of the list occurs among the supported formats |
| `CpuTestUtils.ComplementaryLists` | src/plugins/intel_cpu/tests/functional/utils/cpu_test_utils.cpp:574-590 | when each tested format is non-supported exactly when it is not supported, the first test holds iff the second does not |
| `CpuTestUtils.SameListNotComplementary` | src/plugins/intel_cpu/tests/functional/utils/cpu_test_utils.cpp:574-590 | given one list as both arguments, both tests hold for a format in it |
| `CpuTestUtils.AdjacentEqualIsAllEqual` | src/plugins/intel_cpu/tests/functional/utils/cpu_test_utils.cpp:225-230 | every adjacent pair equal iff every element equals the first |
| `CpuTestUtils.ExpectedOutputFormatsCount` | src/plugins/intel_cpu/tests/functional/utils/cpu_test_utils.cpp:224-234 | isAllEqual iff all expected formats equal the first; then one format is checked (none for an empty list), otherwise all of them, at least two |
| `CpuTestUtils.AreAllElementsEqual` | src/plugins/intel_cpu/tests/functional/utils/cpu_test_utils.cpp:608-614 | true iff each of the n elements of element_size bytes equals element 0 |
| `CpuTestUtils.ShiftedBlocksEqual` | src/plugins/intel_cpu/tests/functional/utils/cpu_test_utils.cpp:610-613 | comparing the bytes from element 1 on with the bytes up to the last element is equal iff every element equals element 0 |

## Left out

- `expr->validate()`, the node's own structural check, belongs to each node kind and is not part of this model. Its outcome is the `selfCheck` field of an expression.
- The shape-infer helpers `get_first_child_shape_infer_expr_seq` and `get_first_parent_shape_infer_expr_seq` are not modelled. The chains they return are function fields of the IR, taken as given.
- `LoopManager::get_loop_info` is a lookup in a map from loop id. A missing id gives the `MissingLoopInfo` error, because the manager's failure behaviour is not part of this model.
- `get_output_port_connector(0)` and `get_input_port_connector(0)` on an expression without such a port give the `MissingConnector` error, because the accessors are not part of this model.
- Pointer identity and the ordering of `std::set<ExpressionPtr>` are not modelled. Expressions are indices and a cluster is a set of indices. Only "all members agree" is modelled, and that does not depend on the order.
- The type system is reduced to a closed set of kinds. `get_type_info` is an exact key for the dispatch map and `is_type<LoopBase>` covers LoopBegin and LoopEnd. Subclasses of these ops are not modelled.
- ValidatePass.ValidateDescriptor: requires a non-empty layout, because `*std::max_element` of an empty layout is undefined behaviour in the source. `ValidateDescriptors`, `ValidatePorts` and `Validate.Run` pass this on only for the descriptors the source reaches: those after a failing descriptor, a failing input, or a failing mapped check or validate() need no layout.
- ValidatePass.ValidateLoopEnd: `WellFormed` requires each LoopEnd's `is_incremented`, `ptr_increments` and `finalization_offsets` arrays to hold `input_num + output_num` entries. The source indexes them without a bounds check (validate.cpp:118-120), so shorter arrays are undefined behaviour there and are not modelled.
- The exceptions' messages and the ITT profiling scope are not modelled. A failure is an error value naming the assertion.
- CpuTestUtils.Fmts2Str: `cpu_fmt2str` is a parameter.
- The rest of `cpu_test_utils.cpp` is not modelled: the `CPUTestsBase` fixtures that compile and run models, the `ASSERT_EQ` comparisons against a compiled model, the runtime-info queries (`getExecValue`, the layout strings read from a compiled model), `updateInputRanges` and the input generators. All of them depend on a model at run time.
- CpuTestUtils.Impls2PrimPriority: returns the priority string, not the `ov::PrimitivesPriority` object that wraps it.
- CpuTestUtils.AreAllElementsEqual: does not model the `size_t` wrap-around of `element_size * (n - 1)`. The precondition asks that the n elements fit in the data, as the source assumes of its caller.
