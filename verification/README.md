# Verification of the engine's pure-logic cores

This project models four cores of the engine and proves properties of them for inputs
of every size.

- **CPU fallback.** A graph runs on an accelerator that cannot run every node. Nodes are
  labelled, copies that feed the CPU are pulled back, view nodes follow their
  neighbours, and the graph is cut into runs. A CPU run works on host copies taken from a
  recycled pool and from a weight mirror that outlives the call; results are copied back
  in node order. The central result is that device memory ends up as plain in-order
  evaluation leaves it, and exactly which graphs this holds for; a graph run again
  grows no buffer (`Graph`, `SplitRun`, `SplitGraph`, `StaleViews`, `Labels`, `PoolUse`,
  `HostShadow`, `FallbackBackend`).
- **FoldQuant integer linears.** The in-place block butterfly is the Sylvester-Hadamard
  matrix product and undoes the offline fold; rows are quantized, stored, multiplied in
  integers, written through a head layout by several threads, or rebuilt as floats. The
  two execution paths, and the original layer, agree up to an explicit bound, end to end
  (`Vectors`, `Hadamard`, `Rotation`, `Quantize`, `Integers`, `LaneSum`, `ActRow`,
  `Dequant`, `QuantizedSite`, `MixedRadix`, `RowMajor`, `OutLayout`, `Gemm`,
  `QuantizedLayer`, `FusedSite`).
- **Layout codecs and load-time rewrites.** The two-bit ladder layout and the CUDA
  kernel that reads it, ternary weights, INT4 and INT8 load quantization, row fusion and
  MLP padding (`LadderCodec`, `TernaryWeights`, `LoadQuant`, `PadMlp`, `WeightLoader`).
- **Compile cache and node names.** The two-level cache of compiled graphs and the pass
  that makes node names unique (`GraphKeys`, `NaiveCache`, `NaiveRuntime`, `GraphNames`).

`Options` and `Sequences` hold what several of them share.

Code that changes state in the source is imperative here too: `FallbackCtx`,
`RuntimeContext` and `Loader` are classes with the source's fields, loops over buffers are
methods over arrays, and each is proved against a specification function whose meaning
the lemmas establish. Floats are exact reals; memory is a sequence of bytes; a tensor
names the address it occupies, so views, in-place operations and memory reuse are
explicit. `dafny verify dfyconfig.toml` checks everything.

## What turned out different from the comments and tests

- The executor's host copies are made once per tensor and run
  (`src/backend_fallback.cpp:127-129`). A run that writes in place to storage that a
  later node of the same run reads through a view made before the run reads stale bytes.
  `FallbackBackend.StaleGraphFails` gives a graph on which it does, under the labels the
  backend itself computes, and `StaleViews.ExactlyWhenFresh` proves that this is the only
  failure, in both directions.
- View nodes are said to go wherever their neighbours go instead of splitting a run
  (`src/backend_fallback.cpp:80-81`). A graph that opens with view nodes and whose first
  decided node is on the CPU gets one run more than necessary
  (`Labels.ViewFirstNotFewest`); `Labels.FewestRunsExactly` shows that no other graph
  does. Counted as label switches from an accelerator that is current at the start, the
  filling is always the best one.
- The rotation block is documented as the largest power of two that divides the row
  (`scripts/foldquant_ref.py:49`). That holds for every row length if and only if the
  nominal block is itself a power of two (`Dequant.NarrowedIsLargestExactly`).
- Values above the clipped maximum saturate, unless the row is so small that the scale
  is the floor; `Quantize.RestSaturatesExactly` gives the condition and
  `Quantize.FlooredRowDoesNotSaturate` a row that misses it.
- An MLP may be padded whatever the activation makes of zero: the columns added to the
  second layer are zero (`PadMlp.PaddingPreserves`).
- Neither the cache key nor the graph fingerprint sees an operation's parameters.
  `NaiveCache.ParamsConfused` gives the two calls that are answered alike although they
  compile differently; `NaiveCache.TransparentExactly` is the exact condition.
- The renaming pass does not always keep the first node of a name
  (`GraphNames.FirstNotKept`). It keeps all of them if and only if no name made up for a
  node, by the names given before it, is one the graph was given
  (`GraphNames.FirstsKeptExactly`); graphs without names that begin with a number and `#`
  are such (`GraphNames.PlainFirstsKept`).
- A renamed node need not contain its old name (`tests/test_graph_names.cpp:66`): of two
  nodes that share a name of 62 letters, the second loses it (`GraphNames.LongNameLost`).
  It contains it if and only if the name fits behind the number or echoes number and mark
  (`GraphNames.ContainsExactly`, `GraphNames.RenamedContains`); for names that do not look
  made up that is, if and only if the name was new or fits behind the node's place
  (`GraphNames.PlainOldNameExactly`).
- A tensor that is padded, or has more than two dimensions, cannot be a source of a fused
  group: the group is declared, and filling it fails (`WeightLoader.PaddedSourceFails`,
  `WeightLoader.PlanesFail`). `WeightLoader.FillsExactly` is the exact condition.

## Model

| member | source | states |
|---|---|---|
| Graphs.EvalSplit | src/backend_fallback.cpp:397-417 | running a stretch of nodes in two parts is running it in one |
| Graphs.EvalKeepsWeights | src/backend_fallback.cpp:53-55 | when no node writes weights, no byte of any weight changes however many nodes run |
| SplitRun.HomesOf | src/backend_fallback.cpp:180-203 | in a CPU run, tensors of one storage lie in one host copy at the distance they have on the device, others in different copies |
| SplitRun.CellAfterStore | src/backend_fallback.cpp:191-200 | storing a node changes exactly the bytes it covers, in every tensor that shares its storage |
| SplitRun.LoadsFresh | src/backend_fallback.cpp:187-190 | without stale reads, each source of a node reads in the host copies as on the device |
| SplitRun.OldContentsFresh | src/backend_fallback.cpp:191-198 | an operation that writes through a view finds there what the device has |
| SplitRun.ComputeAgrees | src/backend_fallback.cpp:180-206 | after every node of a CPU run, everything up to date in the host copies equals plain evaluation |
| SplitRun.WriteBackAgrees | src/backend_fallback.cpp:208-219 | after write-back of the first k nodes the device holds plain evaluation's bytes wherever one of them wrote last |
| SplitRun.CpuRunIsEval | src/backend_fallback.cpp:159-224 | a CPU run, from copying in to copying back, leaves device memory exactly as computing its nodes in place would |
| SplitGraph.RunEnd | src/backend_fallback.cpp:454-457 | a run ends at the first node with another label |
| SplitGraph.RunIsEval | src/backend_fallback.cpp:458-459 | each run of a labelled graph is plain evaluation of its nodes |
| SplitGraph.SplitIsEval | src/backend_fallback.cpp:397-469 | for every graph, labelling, operations and memory under the allocator's promise, the split executor leaves device memory as plain in-order evaluation does |
| StaleViews.FreshIsFaithful | src/backend_fallback.cpp:124-157 | a labelling without stale reads is faithful for all operations, memories and after every node |
| StaleViews.StaleReadShows | src/backend_fallback.cpp:127-129 | every stale read is visible: some operations and memory make the split execution differ |
| StaleViews.ExactlyWhenFresh | src/backend_fallback.cpp:124-224 | the executor is faithful if and only if no CPU run reads a copied view after writing over what it covers |
| FallbackBackend.StaleGraphFails | src/backend_fallback.cpp:127-129 | a live graph whose labels, as the backend computes them, make a CPU run read a stale view, and some operations show it |
| Labels.ProducerNotLater | src/backend_fallback.cpp:390-395 | the producer found through views comes no later than the tensor |
| Labels.PulledUnique | src/backend_fallback.cpp:420-444 | the least set of nodes closed under pulling is one set: two pull-backs of the same labels are equal |
| Labels.PulledIsClosed | src/backend_fallback.cpp:421-425 | after the pull-back no CPU node is fed, through any chain of views, by a copy on the accelerator |
| Labels.FillFillsIn | src/backend_fallback.cpp:446-451 | filling decides every node and leaves the decided ones alone |
| Labels.FillSwitchesLeast | src/backend_fallback.cpp:446-451 | among all fillings, following the previous label switches least, counted from an initial accelerator |
| Labels.RunsCut | src/backend_fallback.cpp:453-464 | the runs are contiguous, ordered, non-empty, of one label, maximal, and cover the graph |
| Labels.RunsAreSwitches | src/backend_fallback.cpp:453-464 | there is one run more than there are label changes |
| Labels.FewestRunsExactly | src/backend_fallback.cpp:80-81 | filling gives the fewest runs of all fillings if and only if the graph does not open with views that lead to the CPU |
| Labels.ViewFirstNotFewest | src/backend_fallback.cpp:80-81 | a view before two CPU nodes: filling gives more runs than needed |
| HostShadow.LoadsSame | src/backend_fallback.cpp:123-157 | reading through a shadow pointer gives what the run's abstract state says |
| HostShadow.StoresSame | src/backend_fallback.cpp:180-206 | storing through a shadow pointer keeps pool slots distinct and large enough and changes only the storage meant |
| HostShadow.AddCopy | src/backend_fallback.cpp:150-155 | a fresh pool slot filled from the device extends the shadow without touching earlier slots |
| HostShadow.WeightPointer | src/backend_fallback.cpp:140-149 | a view of a weight points at its offset in the mirror of its base |
| HostShadow.WriteKeepsMirrors | src/backend_fallback.cpp:53-55 | copying a result back keeps every mirror equal to its weight on the device |
| HostShadow.ResultSame | src/backend_fallback.cpp:187-206 | a node computed through shadow pointers gives the specified result |
| FallbackBackend.FallbackCtx.SetTensor | src/backend_fallback.cpp:53-55 | a client's store away from the weights keeps the mirrors valid |
| FallbackBackend.FallbackCtx.Take | src/backend_fallback.cpp:71-78 | the next pool buffer, at least as long as asked and grown only if it is shorter; every other buffer and its contents stay as the pool grows |
| FallbackBackend.FallbackCtx.HostInput | src/backend_fallback.cpp:124-157 | host, weight and device tensors get a pointer to what they hold; pool slots stay distinct, mirrors valid |
| FallbackBackend.FallbackCtx.MirrorWeight | src/backend_fallback.cpp:140-148 | the mirror is filled once with the weight's device contents and equals them at every later call |
| FallbackBackend.FallbackCtx.ShadowSources | src/backend_fallback.cpp:187-190 | every source of a node gets a pointer to what it holds |
| FallbackBackend.FallbackCtx.ShadowNode | src/backend_fallback.cpp:180-204 | sources first, then the node in its view's storage or a slot of its own |
| FallbackBackend.FallbackCtx.BuildShadow | src/backend_fallback.cpp:176-204 | the shadow of a whole run, starting from an empty pool |
| FallbackBackend.FallbackCtx.ComputeOnHost | src/backend_fallback.cpp:206 | after any number of nodes the host copies are as the specification of the run says |
| FallbackBackend.FallbackCtx.CopyBack | src/backend_fallback.cpp:208-219 | results go back in node order, views skipped |
| FallbackBackend.FallbackCtx.RunOnCpu | src/backend_fallback.cpp:159-224 | pool, mirror and shadow pointers together compute exactly the specified CPU run; one that fails after some nodes copies nothing back |
| FallbackBackend.FallbackCtx.RunOnAccel | src/backend_fallback.cpp:226-239 | the slice of nodes is evaluated in place, as far as the accelerator gets |
| FallbackBackend.FallbackCtx.LabelNodes | src/backend_fallback.cpp:402-415 | views and empty nodes are undecided, the rest labelled by the verdict; reports whether any is on the CPU |
| FallbackBackend.FallbackCtx.FindProducer | src/backend_fallback.cpp:390-395 | the node whose memory a tensor reads, looking through views |
| FallbackBackend.FallbackCtx.PullBack | src/backend_fallback.cpp:420-444 | one backward sweep moves exactly the least closed set of copies |
| FallbackBackend.FallbackCtx.FillViews | src/backend_fallback.cpp:446-451 | the in-place filling is the one proved best |
| FallbackBackend.FallbackCtx.GraphCompute | src/backend_fallback.cpp:397-469 | over any call: it succeeds if and only if every run works; success leaves the split result, which is plain evaluation for live graphs without stale reads; failure leaves what the runs before the first that fails, each of which worked, and the nodes that one reached leave; mirrors stay valid |
| FallbackBackend.FallbackCtx.RunOne | src/backend_fallback.cpp:458-459 | a run goes to the backend its label names |
| FallbackBackend.FallbackCtx.RunAll | src/backend_fallback.cpp:453-468 | the runs are executed in order up to the first that fails, and memory is then as that run left it |
| FallbackBackend.FirstFailureUnique | src/backend_fallback.cpp:460-461 | there is at most one first run that fails, so one memory a failed call can leave |
| FallbackBackend.BeforeNext | src/backend_fallback.cpp:454-464 | memory before the next run is what the run before it makes of memory before that |
| FallbackBackend.AllRuns | src/backend_fallback.cpp:454-464 | run after run, forwards, is the split execution |
| FallbackBackend.FallbackCtx.ComputeTwice | src/backend_fallback.cpp:57-58 | two calls for the same graph and verdicts: memory is that of two split executions, and every pool buffer is as long as after one |
| FallbackBackend.LabelsUnique | src/backend_fallback.cpp:397-451 | the verdicts determine a graph's labels |
| PoolUse.RunAgain | src/backend_fallback.cpp:57-58 | for every graph, labelling and pool: running the graph again changes the length of no buffer and adds none |
| FallbackBackend.AllOnAccel | src/backend_fallback.cpp:416-417 | with nothing on the CPU the split executor is one plain evaluation |
| Hadamard.HadIsSignMatrix | src/foldquant_ref.cpp:52-64 | entry r of the butterfly is the sum of the entries c, negated where r and c share an odd number of bits |
| Hadamard.HadTwice | src/foldquant_ref.cpp:52-64 | applied twice, the butterfly scales by the block length |
| Hadamard.HadSymmetric | src/foldquant_ref.cpp:52-64 | the butterfly may move to the other factor of a dot product |
| Rotation.MultipleIffDivides | src/foldquant_ref.cpp:56 | a row is a whole number of blocks if and only if the block divides its length |
| Rotation.RotateSymmetric | src/foldquant.cpp:196-199 | the block rotation is symmetric on rows of any length |
| Rotation.RotateTwice | src/foldquant.cpp:196-199 | normalised, the block rotation is its own inverse |
| Rotation.RotationsCancel | src/foldquant.cpp:196-199 | rotating both factors leaves every dot product |
| Rotation.NegativeIsOverlap | scripts/foldquant_ref.py:60-65 | the matrix built by doubling has the sign of the bit overlap |
| Rotation.FoldIsRotate | scripts/foldquant_ref.py:127-135 | multiplying a weight row by the doubled matrix block by block is the rotation |
| Rotation.FoldedProduct | scripts/foldquant_ref.py:127-135 | a folded weight times a rotated activation is the original product |
| Rotation.StageDoubles | src/foldquant_ref.cpp:58-64 | one stage of the loops turns blocks of h into blocks of 2h |
| Rotation.CombinePair | src/foldquant_ref.cpp:60-64 | the innermost loop leaves sums then differences of two neighbouring blocks and touches nothing else |
| Rotation.RunStage | src/foldquant_ref.cpp:59-64 | the middle loop combines every pair of one block |
| Rotation.RotateBlock | src/foldquant_ref.cpp:58-65 | the stages compute the whole block, normalised |
| Rotation.RotateRow | src/foldquant_ref.cpp:55-67 | the three nested in-place loops compute the block rotation of a row and leave the rest of the buffer |
| Quantize.HalfStepExactly | src/foldquant_ref.cpp:111-134 | a code is within half a step of its value if and only if the value is within half a step of the code range |
| Quantize.SaturatesExactly | src/foldquant_ref.cpp:122-131 | a value takes an extreme code if and only if it lies above the last rounding boundary |
| Quantize.ClippedHalfStep | src/foldquant_ref.cpp:111-134 | values up to the clipped maximum are within half a step for any clip |
| Quantize.UnclippedHalfStep | src/foldquant_ref.cpp:111-134 | with clip at least one that is every value of the row |
| Quantize.ErrorBeyond | src/foldquant_ref.cpp:111-134 | a value beyond the largest one a code stands for is off by exactly the excess |
| Quantize.ErrorWithinClip | src/foldquant_ref.cpp:111-134 | for every value: half a step up to the largest value a code stands for, the excess beyond it, and beyond it exactly that |
| Quantize.RestSaturatesExactly | src/foldquant_ref.cpp:111-134 | values above the clipped maximum all saturate if and only if there are none or the saturation point is not above it |
| Quantize.UnflooredSaturates | src/foldquant_ref.cpp:112-113 | an unfloored scale makes them saturate |
| Quantize.FlooredRowDoesNotSaturate | src/foldquant_ref.cpp:113 | a floored row on which one does not |
| Integers.UnpackPack | scripts/foldquant_ref.py:138-153 | unpacking recovers packed codes if and only if each fits four bits |
| Integers.PackUnpack | scripts/foldquant_ref.py:138-153 | packing recovers unpacked bytes, for rows of any even length |
| Integers.UnpackNibbles | src/foldquant_ref.cpp:137-145 | the loop writes the two sign-extended nibbles of every byte |
| Integers.AccumulatorExact | src/foldquant_ref.cpp:149-150 | every partial sum of every 8-bit product of K terms fits 32 bits if and only if K is at most 132104 |
| Integers.GemmDot | src/foldquant_ref.cpp:147-153 | exact integer sum, then activation scale, weight scale and bias |
| LaneSum.StridedSplit | src/foldquant_ref.cpp:30-50 | the sum of a residue class is that of the two classes of twice the stride |
| LaneSum.MeetingLanes | src/foldquant_ref.cpp:43-50 | the lanes that exchange at one distance hold the two halves of a coarser class |
| LaneSum.BlockSum | src/foldquant_ref.cpp:43-50 | after the xor exchanges every one of the 32 lanes holds the total |
| LaneSum.SumOfSquares | src/foldquant_ref.cpp:83-90 | chunked lane sums and exchanges give the row's sum of squares for every length |
| ActRow.AbsMaxAttained | src/foldquant_ref.cpp:108-109 | the largest magnitude is one of the row's, or zero |
| ActRow.StoredReadsBack | src/foldquant_ref.cpp:119-135 | whatever the storage, nibbles or bytes, reading the row back gives its codes |
| ActRow.NormRow | src/foldquant_ref.cpp:83-97 | the fused norm with gain and shift |
| ActRow.QuantizeRow | src/foldquant_ref.cpp:79-135 | norm, division, rotation and division in the site's order, then scale and stored codes |
| Dequant.DequantPreserves | src/foldquant.cpp:194-219 | the rebuilt row times the activation is the scaled codes times the transformed activation, for either fold order |
| Dequant.CodesDotError | src/foldquant_ref.cpp:147-153 | the integer product differs from the float one by at most the weighted quantization errors |
| Dequant.NativeNearFloat | src/foldquant.cpp:165-175 | for every row, activation and clip the two execution paths differ by at most the weight scale times those errors |
| Dequant.NativeWithinClip | src/foldquant.cpp:165-175 | for every clip: by at most, for every unit of code magnitude, half an activation step or the excess of a value the codes do not reach |
| Dequant.NativeWithinHalfStep | src/foldquant.cpp:165-175 | with clip at least one: by at most half an activation step for every unit of code magnitude |
| Dequant.DequantInto | src/foldquant.cpp:208-217 | one row scaled, divided, rotated and divided in place |
| Dequant.DequantRows | src/foldquant.cpp:194-219 | the output holds the rebuilt rows of W8 and nibble-packed W4 sites end to end |
| Dequant.RotBlockFor | src/foldquant.cpp:81-86 | halves the block until it divides the row |
| Dequant.NarrowedIsLargestExactly | scripts/foldquant_ref.py:48-53 | the result is the largest power of two dividing the row, for every row length, if and only if the nominal block is a power of two |
| QuantizedSite.ExportUndone | scripts/foldquant_dequant.py:53-59 | folding with a scale vector and reading back are exact inverses, for either fold order |
| QuantizedSite.ExportedProduct | tests/py/test_foldquant_ref.py:55-62 | the exported row times the transformed activation is the original product, for either fold order |
| QuantizedSite.WeightHalfStep | scripts/foldquant_ref.py:116-124 | every stored weight is within half the row's scale of the exported one |
| QuantizedSite.SiteWithinBound | scripts/foldquant_fake_export.py:103-108 | for every clip, fold order and width the integer output is within the explicit activation bound and half a weight step per unit of activation magnitude of the original product |
| QuantizedSite.SiteNearOriginal | scripts/foldquant_fake_export.py:103-108 | with clip at least one: within half an activation step per unit of code magnitude and half a weight step per unit of activation magnitude |
| OutLayout.SetHeadsExactly | src/foldquant.cpp:366-374 | a head layout is set if and only if it is allowed and the columns are one to 32 whole parts |
| OutLayout.CellAtIndex | src/foldquant_ref.cpp:221-230 | every cell lands inside the output and its index determines it |
| OutLayout.IndexOfCell | src/foldquant_ref.cpp:221-230 | every place of the output is that of a cell |
| OutLayout.IndexBijective | src/foldquant_ref.cpp:221-230 | for every accepted layout the index is a bijection of rows and columns onto the output |
| OutLayout.HeadStrides | src/foldquant.h:119-126 | a head's entries lie at the strides attention reads, plain or transposed parts |
| Gemm.OwnerExactly | src/foldquant_ref.cpp:311-313 | every column lies in the range of exactly one thread, for any thread count; the activation pass splits its rows the same way |
| Gemm.ApplyAt | src/foldquant_ref.cpp:314-330 | what ends up at a place does not depend on the order of the stores |
| Gemm.AnyInterleaving | src/foldquant_ref.cpp:311-331 | however the stores of any number of threads interleave, every output is stored exactly once and the result is the sequential one |
| Gemm.ComputeCell | src/foldquant_ref.cpp:304-328 | one output: two rows and the gate's activation with GEGLU, else residual and gate |
| Gemm.GemmCell | src/foldquant_ref.cpp:304-329 | that output, stored where the layout puts it |
| Gemm.GemmThread | src/foldquant_ref.cpp:232-332 | one thread performs exactly the stores of its columns, half as many with GEGLU |
| Gemm.LinearIsNative | src/foldquant_ref.cpp:326-327 | on quantized rows the linear output is the one bounded against the float path |
| QuantizedLayer.AnyRowOrder | src/foldquant_ref.cpp:206-218 | however the stores of any number of activation threads interleave, the blob ends up the same |
| QuantizedLayer.ActThread | src/foldquant_ref.cpp:163-219 | one thread quantizes and stores exactly its rows |
| QuantizedLayer.ActReadsBack | src/foldquant_ref.cpp:246-248 | the width the GEMM takes from the row length reads back the codes the pass stored |
| QuantizedLayer.PassesFit | src/foldquant_ref.cpp:246-279 | the GEMM can read whatever the activation threads leave |
| QuantizedLayer.LayerNear | src/foldquant_ref.cpp:163-332 | end to end: all activation threads, then all GEMM threads, each in any interleaving, leave at each output's place a value within the explicit bound of the original layer's, residual and gate included; with GEGLU both its products are |
| QuantizedLayer.GluLayerNear | src/foldquant_ref.cpp:284-309 | with GEGLU, for every Lipschitz activation, the outputs too are within an explicit bound of the original layer's |
| FusedSite.FusingPreserves | src/foldquant.cpp:385-453 | a fused group outputs, for every activation, what its sites output separately, end to end |
| FusedSite.OutputsNative | src/foldquant.cpp:385-453 | a site's outputs are the integer path's, the ones bounded against the float path |
| FusedSite.OutputsOfGemm | src/foldquant_ref.cpp:316-327 | and what the GEMM computes for the site on rows the activation pass quantized |
| FusedSite.RebuildingPreserves | src/foldquant.cpp:408-414 | in a rebuilt group each row meets the activation in its own site's transform, so the vectors need not agree |
| FusedSite.DeclareFused | src/foldquant.cpp:385-453 | which groups are left to the float path, which are rebuilt, and exactly which fuse and with what parameters |
| FusedSite.FillSpecs | src/foldquant.cpp:264-327 | the parameters of a site, given exactly for the widths and shapes accepted |
| FusedSite.FitsIsValid | src/foldquant.cpp:264-327 | a site that passes the checks is one the integer path is proved for, when the nominal block is a power of two, no entry of the vector is zero and every row has its bias |
| RowMajor.StackAt | src/loader.cpp:343-359 | entry k of row n of rows stored end to end |
| LadderCodec.WeightAtAddress | scripts/convert_bitvla_to_gguf.py:114-140 | every weight has a lane and the lane's arithmetic leads back to it |
| LadderCodec.AddressOfWeight | scripts/convert_bitvla_to_gguf.py:114-140 | every lane holds a weight of the matrix and is that weight's lane |
| LadderCodec.LadderBijective | scripts/convert_bitvla_to_gguf.py:101-150 | for all shapes taken, (slot, byte, lane) and (row, entry) correspond one to one |
| LadderCodec.LanesOfByte | scripts/convert_bitvla_to_gguf.py:142-148 | a byte assembled from four values gives each back |
| LadderCodec.LadderUnpackPack | scripts/convert_bitvla_to_gguf.py:101-150 | reading a packed matrix recovers it |
| LadderCodec.LadderPackUnpack | scripts/convert_bitvla_to_gguf.py:101-150 | packing what was read recovers the bytes; they hold a ternary matrix if and only if no lane is zero |
| LadderCodec.KernelReadsMatrix | src/kernels/bitvla/bitnet_kernels.h:136-144 | every thread of the CUDA kernel, by its own address arithmetic and decoding, reads from the packed matrix the sixteen weights it multiplies |
| LadderCodec.AssembleByte | src/models/bitvla.cpp:476-482 | the lane loop builds the byte of a slot |
| LadderCodec.PackSlot | src/models/bitvla.cpp:475-484 | the byte loop stores the four bytes of a slot |
| LadderCodec.PackLadder | src/models/bitvla.cpp:457-487 | the loops build the packed matrix |
| TernaryWeights.NearestCode | scripts/convert_bitvla_to_gguf.py:93-99 | no code within qmax is nearer to the value than the one chosen |
| TernaryWeights.TernaryNearest | scripts/convert_bitvla_to_gguf.py:93-99 | every weight gets the ternary code whose multiple of the mean magnitude is nearest |
| TernaryWeights.RecoverExactly | src/models/bitvla.cpp:437-455 | codes are recovered from stored products if and only if they are all zero or the scale exceeds half the floor, the products if and only if all zero or the scale is not below it |
| TernaryWeights.RecoverTernary | src/models/bitvla.cpp:437-455 | the two loops compute the recovered scale and codes |
| LoadQuant.LoadCodeIsCode | src/loader.cpp:383 | clamping before rounding gives the same code as clamping after |
| LoadQuant.GroupHalfStep | src/loader.cpp:376-384 | every weight of a group is within half the group's scale of its code's value, the code within qmax |
| LoadQuant.Int4Finds | src/loader.cpp:393-402 | the packed nibble and the transposed scale found for (n, k) are the weight's code and its group's scale |
| LoadQuant.Int4ReadsBack | src/loader.cpp:361-402 | for every matrix and group dividing the row, every weight reads back within half its scale from a nibble within seven |
| LoadQuant.Int8ReadsBack | src/loader.cpp:361-406 | the same with one scale to a row and one code to a byte |
| LoadQuant.QuantGroup | src/loader.cpp:377-383 | appends one group's codes and scale |
| LoadQuant.QuantRow | src/loader.cpp:374-385 | appends one row's codes and scales, group after group |
| LoadQuant.QuantMatrix | src/loader.cpp:366-386 | all rows of all sources in order |
| LoadQuant.PackCodes | src/loader.cpp:394-396 | two codes to a byte |
| LoadQuant.TransposeScales | src/loader.cpp:397-399 | the scale table transposed in place of its index arithmetic |
| PadMlp.GemmWidthLeast | src/backend.h:215-230 | on the matrix unit the least multiple of 32 that holds the width, elsewhere the width |
| PadMlp.PaddingPreserves | src/loader.cpp:47-59 | the padded MLP outputs the original's for every input and any activation |
| PadMlp.CopyPadded | src/loader.cpp:68-76 | the row copies leave padded rows over zero rows |
| WeightLoader.WideningPreserves | src/loader.cpp:47-76 | whatever else is padded or rebuilt, and whether or not the conditions hold, what is resident after widening is the same network |
| WeightLoader.FillsExactly | src/loader.cpp:343-359 | a declared group fills if and only if every source to be rebuilt can be and every other is a matrix or vector without a padded size of its own, or is padded to the size it has |
| WeightLoader.PaddedSourceFails | src/loader.cpp:343-359 | a group of one padded matrix is declared and does not fill |
| WeightLoader.PlanesFail | src/loader.cpp:245-254 | a group of one tensor of two planes is declared and does not fill |
| WeightLoader.Loader.PadMlp | src/loader.cpp:47-59 | records three padded sizes exactly when both weights exist, nothing is quantized, the width changes and the layers fit |
| WeightLoader.Loader.ReadResident | src/loader.cpp:61-88 | rebuilt rows, the first plane's rows padded, or all of the file's; nothing when there are none or rebuilding fails |
| WeightLoader.Loader.Fuse | src/loader.cpp:208-262 | declares a group if and only if every source exists and follows the first, with the room for one plane of each; otherwise the loader is marked failed |
| WeightLoader.Loader.FillFused | src/loader.cpp:343-359 | the sources end to end, or failure on an unreadable source or another total |
| GraphKeys.SourcesDecode | scripts/patch_ggml_openvino.py:1095-1101 | the words mixed for a node's sources determine which are present, their types and sizes |
| GraphKeys.NodesDecode | scripts/patch_ggml_openvino.py:1085-1104 | the signature's words, read left to right, determine the number of nodes and every operation, type and size |
| GraphKeys.SignatureWords | scripts/patch_ggml_openvino.py:1081-1104 | equal signature words, equal shapes |
| GraphKeys.FingerprintWords | scripts/patch_ggml_openvino.py:1203-1226 | equal fingerprint words, the same graph object, shapes, tensors and buffers |
| GraphKeys.ParamsUnseen | scripts/patch_ggml_openvino.py:1085-1112 | changing an operation's parameters changes neither key nor fingerprint |
| GraphKeys.GraphSig | scripts/patch_ggml_openvino.py:1085-1104 | the signature loop folds exactly those words |
| GraphKeys.GraphFp | scripts/patch_ggml_openvino.py:1208-1226 | the fingerprint loop folds the signature's words, the graph object and all addresses |
| NaiveCache.StepShaped | scripts/patch_ggml_openvino.py:1228-1296 | every call keeps at most 32 entries, distinct entries per key, fingerprints that lead into the cache, and a recorded binding for every compiled entry |
| NaiveCache.FindFaithful | scripts/patch_ggml_openvino.py:1239-1272 | the entry found by fingerprint, by key or made after a flush serves the graph |
| NaiveCache.UseFaithful | scripts/patch_ggml_openvino.py:1274-1296 | rebinding, compiling or failing on it answers rightly and keeps compiled entries bound to the recorded graph |
| NaiveCache.StepFaithful | scripts/patch_ggml_openvino.py:323-416 | one call answers as a fresh compilation and keeps the cache faithful |
| NaiveCache.RunFaithful | scripts/patch_ggml_openvino.py:1145-1151 | so does every call of any sequence with compile failures, flushes and releases |
| NaiveCache.TransparentExactly | scripts/patch_ggml_openvino.py:1081-1112 | every run answers every call as a fresh compilation if and only if graphs that share a key compile alike and graphs that share a fingerprint also sit in the same buffers |
| NaiveCache.WhatHashesTell | scripts/patch_ggml_openvino.py:1081-1112 | unless hashes collide, one key means one set of names, operations, types and sizes, one fingerprint also the same buffers |
| NaiveCache.ShapesSuffice | scripts/patch_ggml_openvino.py:1081-1084 | if hashes do not collide and what is mixed decides what a graph compiles to, the cache is transparent |
| NaiveCache.ParamsConfused | scripts/patch_ggml_openvino.py:1085-1104 | two graphs that differ in parameters only: the second call is answered with the first one's program |
| NaiveRuntime.RuntimeContext.constructor | scripts/patch_ggml_openvino.py:1136-1144 | an empty context |
| NaiveRuntime.RuntimeContext.Release | scripts/patch_ggml_openvino.py:1145-1151 | drops the maps together |
| NaiveRuntime.RuntimeContext.Add | scripts/patch_ggml_openvino.py:1258-1272 | a new empty entry under key and fingerprint, all maps flushed first when the cache is full |
| NaiveRuntime.RuntimeContext.Lookup | scripts/patch_ggml_openvino.py:1239-1272 | fingerprint first, then key, then a new entry; the maps end as the specification says |
| NaiveRuntime.RuntimeContext.Bind | scripts/patch_ggml_openvino.py:1274-1287 | the decoder is rebound unless recorded as bound, a missing record reading as zero |
| NaiveRuntime.RuntimeContext.Execute | scripts/patch_ggml_openvino.py:361-414 | reuses a compiled entry, fills an empty one, or fails leaving it empty |
| NaiveRuntime.RuntimeContext.Compute | scripts/patch_ggml_openvino.py:323-416 | one call over the shared heap entries follows the specified step, skips a single view node, bypasses a disabled cache, and answers as a fresh compilation |
| NaiveRuntime.RuntimeContext.Serve | scripts/patch_ggml_openvino.py:323-416 | every answer of a sequence of calls is a fresh compilation's |
| GraphNames.CandidateInjective | src/backend.h:145-149 | different numbers give different candidates, whatever the names, although candidates are cut at 63 characters |
| GraphNames.MadeUpApart | src/backend.h:147-150 | names made up for different nodes differ, whatever names they are made from |
| GraphNames.FirstsKeptExactly | src/backend.h:142-144 | the first node of every name keeps it if and only if no name the given names call for is itself a given name |
| GraphNames.PlainFirstsKept | src/backend.h:142-151 | without numbered names the first node of every name keeps it, and every other node is numbered by its place |
| GraphNames.FirstNotKept | src/backend.h:142-152 | a graph on which one does not |
| GraphNames.Idempotent | tests/test_graph_names.cpp:69-74 | a second pass changes nothing |
| GraphNames.ContainsExactly | src/backend.h:145-149 | a candidate contains its name if and only if the name fits behind the number or echoes number and mark |
| GraphNames.RenamedContains | tests/test_graph_names.cpp:66 | the same for every renamed node of every graph, at the number it got; where the name fits the node ends in it |
| GraphNames.EndsInOldName | tests/test_graph_names.cpp:66 | every node ends in its old name where that fits behind any number there can be |
| GraphNames.OldNameExactly | tests/test_graph_names.cpp:66 | where first names are kept: at the number the given names call for |
| GraphNames.PlainOldNameExactly | tests/test_graph_names.cpp:66 | for names that do not look made up: a node contains its old name if and only if the name was new or fits behind the node's place |
| GraphNames.LongNameLost | tests/test_graph_names.cpp:66 | two nodes that share a name of 62 letters: the second does not contain it |
| GraphNames.FewTried | src/backend.h:147-150 | no more candidates are taken than there are earlier nodes, and the numbers stay below the square of the node count |
| GraphNames.NumbersFit | src/backend.h:147-150 | up to 46340 nodes every number tried fits an int |
| GraphNames.FreeName | src/backend.h:147-150 | the search ends, at the first candidate that is free |
| GraphNames.UniqueNames | src/backend.h:129-153 | the in-place pass renames exactly the nodes whose names were taken |

## Left out

- IEEE rounding, overflow and special values of floats: arithmetic is over reals; the square root of the fused norm and one over the root of the block length are parameters.
- The table of operations the accelerator runs (`accel_runs`): an arbitrary predicate.
- What operations compute, buffer types beyond device, host and weights, and memory allocation: abstract operation functions, explicit storage, and the allocator's promise that memory is not reused while a later node still reads it. Tensors are numbered leafs first, then nodes in order.
- Nodes without data or buffer, which write-back skips.
- FallbackBackend.FallbackCtx.RunOnAccel: a run that fails has computed its first nodes and no others; the accelerator works in node order, and an error it reports only later is reported by this run.
- PoolUse.RunAgain: lengths, not capacities, of the pool's buffers; what setting up a run allocates besides them is not modelled.
- FallbackBackend.FallbackCtx.SetTensor: weights are assumed never to be written once mirrored, as the source's comment on the mirror does.
- ActRow.QuantizeRow: block sizes are powers of two that divide the row, which the butterfly needs and the narrowing gives for a power-of-two nominal block.
- Integers.GemmDot: sums are unbounded integers; AccumulatorExact says when the 32-bit accumulator agrees.
- Nibble bytes are integers from 0 to 255; int8 codes are integers in their range.
- Gemm.GemmThread: stores are atomic steps. The activation node fused behind a GEGLU is not modelled.
- QuantizedLayer.GluLayerNear: the activation is any Lipschitz function; that the tanh form of GELU is one is not proved.
- FusedSite.DeclareFused: weights have at most two dimensions and the vectors beside them one, so only sizes are checked.
- GGUF reading, tensor names and architecture dispatch: tables of rows.
- WeightLoader.Loader.Fuse: sizes count values rather than bytes; the reader's choice of a resident type is an arbitrary function.
- WeightLoader.Loader.ReadResident: values are reals, so converting them to the resident type changes nothing; padded sizes are assumed to hold the tensor, as declaring a tensor checks.
- The shape checks that precede load quantization: groups are taken to divide the row.
- NaiveRuntime.RuntimeContext.Compute: calls are atomic steps, so two threads inside one entry are not modelled; a call carries whether compiling would succeed. Graphs have at least one node.
- GraphKeys.NodesDecode: operations and types are taken to be below 4096 and addresses of graph objects to be at least 4096, as enumerations and heap objects are; that keeps the words decodable.
- Key names beyond the first and last node and the inputs, and the hash table of keys: keys are compared as values. The 64-bit hashes are modelled exactly; that they do not collide is a hypothesis where it is used.
- GraphNames.UniqueNames: numbers are unbounded integers; NumbersFit says when they fit the machine's.
- The mean over a matrix in double precision and the packing of several projections into one ladder matrix.
- Environment switches, statistics, dumps, the text patcher around the cache code, command line, C interface, tokenizers, evaluation clients.
