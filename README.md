# NNTile task-submission core, modelled in Dafny

NNTile builds neural-network training out of tiles, which are small dense
arrays. The StarPU runtime schedules the tasks that work on them, and
StarPU-MPI spreads them over nodes. NNTile itself does little arithmetic at
the submission layer. Its job is to decide *what* to submit:

- which codelet a task runs;
- the access mode of each buffer;
- the argument blob the CPU wrapper unpacks;
- which node executes a task and which tiles are flushed.

This project models that logic and proves what the code promises about it.

- **Runtime and handles** (`starpu.dfy`, module `Starpu`).
  - The StarPU runtime is a class: an initialisation flag plus an append-only log of the calls made into it.
  - The `Starpu` guard refuses a second initialisation. Its destructor waits for all tasks, then shuts down.
  - A `StarpuHandle` is a shared registration with a use count and a deregistration counter. It is unregistered once, when the last copy goes away.
  - Both variable-handle registration forms are modelled.
- **Codelet tables** (`codelets.dfy`, module `Codelets`): the global codelets as a registry of maps, with the element-type lookup of `codelet<T>()` and `codelet_ndim0<T>()`.
- **Per-operation submission**: one module per `src/starpu/*.cc` file. Each has:
  - the access-mode choice;
  - the argument blob and its CPU-wrapper read-back, proved to round-trip;
  - the footprint, given by which fields it hashes;
  - the recorded flops;
  - the single insertion, whose result is an oracle;
  - `init` / `restrict_where` / `restore_where`.
- **Tile checks** (`tile_sumprod_slice.dfy`, `tile_elementwise.dfy`): every shape, rank and axis check runs before the single submission. The `m, n, k` fold sizes come from the tile traits.
- **Tensor loops** (`tensor_fill.dfy`, `tensor_subtract_indexed_outputs.dfy`). On node `rank`, the loop over the tile grid produces:
  - a transfer to the owner;
  - the task, on the owner only;
  - a flush on every node.
- **Kernels**:
  - `kernel_randn.dfy`: the odometer of the strided randn kernel. It is proved to write every element of the sub-array exactly once, at the generator position of its element in the underlying array.
  - `kernel_prod_fiber.dfy`: the in-place broadcast multiply over an m×k×n buffer.
- **Python side**:
  - `base_model.dfy`: the ordering rules of `BaseModel`.
  - `scatter_reference.dfy`: the reference tile-slicing rule of the scatter test, proved to cut out exactly the tile's sub-block.

Shared definitions:

- `indexing.dfy`: products, Fortran-order linear indices (`Horner`), strided offsets (`Dot`) and their inverse (`Unlinear`).
- `tile_traits.dfy`, `tensor_traits.dfy`: the tile and tensor traits, meaning strides, matrix shapes, grids and the clipped shape of the last tile.
- `wrappers.dfy`: `Option`, `Outcome`, `Result`.

A thrown `std::runtime_error` becomes `Outcome.Fail(message)`, with the same message text.

## Model

| member | source | states |
|---|---|---|
| Starpu.IndexBlobRoundTrip | src/starpu/logsumexp.cc:103-105 | a blob holding one Index reads back that Index as its first value, and it is the only one-value blob that does |
| Starpu.ReplaySnoc | include/nntile/starpu.hh:27-48 | replaying one more call applies that call's effect on the initialisation flag and on the init and shutdown counts |
| Starpu.InitsMatchShutdowns | include/nntile/starpu.hh:49-52 | in any legal history, successful initialisations equal shutdowns, plus one while the runtime is up: each guard pairs with exactly one shutdown |
| Starpu.Runtime.constructor | include/nntile/starpu.hh:11-53 | a fresh runtime is uninitialised, has an empty log and no guard |
| Starpu.Runtime.Record | src/tensor/fill.cc:38-41 | a call that is neither init nor shutdown is appended to the log and leaves the flag and the guard alone |
| Starpu.Runtime.Insert | src/starpu/sumprod_fiber.cc:157-168 | one insertion attempt: the task is logged exactly when the oracle returns 0, and success is reported iff it returned 0 |
| Starpu.Runtime.WaitAll | src/tile/sumprod_slice.cc:81 | `starpu_task_wait_for_all` appends one wait and changes nothing else |
| Starpu.Guard.Make | include/nntile/starpu.hh:27-39 | the new guard is alive and is the runtime's owner; the log is not touched |
| Starpu.Guard.Destroy | include/nntile/starpu.hh:44-48 | the destructor logs a wait for all tasks and then a shutdown, in that order, and leaves the runtime uninitialised and legal |
| Starpu.NewStarpuWithConf | include/nntile/starpu.hh:27-39 | an initialised runtime fails with "Starpu was already initialized" and logs nothing; otherwise exactly one init is logged, a nonzero result fails with "Error in starpu_init()", and success yields a live guard |
| Starpu.NewStarpu | include/nntile/starpu.hh:13-43 | a nonzero `starpu_conf_init` fails with "Error in starpu_conf_init()" before any init; otherwise behaves as the configured constructor |
| Starpu.Registration.constructor | include/nntile/starpu.hh:72-75 | a new shared registration has one user and has not been unregistered |
| Starpu.StarpuHandle.Raw | include/nntile/starpu.hh:79-82 | the raw handle exists iff the object owns a registration |
| Starpu.StarpuHandle.Empty | include/nntile/starpu.hh:70 | a default handle owns no registration |
| Starpu.StarpuHandle.Own | include/nntile/starpu.hh:72-75 | taking ownership creates one registration with use count 1, held by this object only |
| Starpu.StarpuHandle.Variable | include/nntile/starpu.hh:119-137 | registers runtime-owned storage: home node -1, null pointer, the given size; one owner |
| Starpu.StarpuHandle.VariableAt | include/nntile/starpu.hh:126-142 | registers caller memory in main RAM at the given pointer and size; one owner |
| Starpu.StarpuHandle.Copy | include/nntile/starpu.hh:59-62 | a copy shares the registration and raw handle and adds one user |
| Starpu.StarpuHandle.Destroy | include/nntile/starpu.hh:62-77 | dropping a copy removes one user; the handle is unregistered, once, exactly when the last user goes; an empty handle logs nothing |
| Starpu.CopyThenDestroyBoth | include/nntile/starpu.hh:62-75 | registering a handle, copying it and destroying both copies unregisters it exactly once |
| Starpu.EmptyDestroy | include/nntile/starpu.hh:70-77 | creating and destroying a default handle leaves the log unchanged |
| Codelets.Lookup | include/nntile/starpu/randn.hh:40-57 | fp32 and fp64 select that operation's codelet of that precision; any other type fails with "Non-supported type" |
| Codelets.LookupNdim0 | include/nntile/starpu/randn.hh:59-76 | the separate ndim0 table: fp32 and fp64 select the ndim0 codelets; any other type fails with "Non-supported type" |
| Codelets.LookupPrecision | include/nntile/starpu/randn.hh:47-76 | each precision maps to its own codelet in each table, and the two tables never give the same codelet |
| Codelets.SuffixDistinct | src/starpu/randn.cc:85-92 | the `_fp32` and `_fp64` names of one codelet differ |
| Codelets.Registry.constructor | src/starpu/randn.cc:81 | no codelet is initialised or restricted at start |
| Codelets.Registry.InitCodelet | src/starpu/sumprod_fiber.cc:82-102 | `Codelet::init` sets that codelet's name, footprint and backends and nothing else |
| Codelets.Registry.RestrictWhere | src/starpu/sumprod_fiber.cc:104-108 | `restrict_where` records the restriction for that codelet only |
| Codelets.Registry.RestoreWhere | src/starpu/sumprod_fiber.cc:110-114 | `restore_where` drops the restriction for that codelet only |
| Codelets.Registry.RestrictBoth | src/starpu/sumprod_fiber.cc:104-108 | restricts the fp32 and fp64 codelets of one operation |
| Codelets.Registry.RestoreBoth | src/starpu/sumprod_fiber.cc:110-114 | restores the fp32 and fp64 codelets of one operation |
| Codelets.Standard | src/starpu/sumprod_fiber.cc:82-102 | the usual codelet of an operation: name stem plus precision suffix, one CPU function, a CUDA function only when CUDA is built, and a footprint or none |
| Codelets.StandardDispatch | src/starpu/sumprod_fiber.cc:82-102 | every backend function of a codelet runs that operation at that precision, and the fp32 and fp64 codelets have different names |
| Codelets.InitStandard | src/starpu/sumprod_fiber.cc:82-102 | initialises exactly the fp32 and fp64 codelets of one operation |
| SumprodFiber.PackRoundTrip | src/starpu/sumprod_fiber.cc:149-154 | unpacking the blob gives back m, n, k, alpha, beta, and only that blob does |
| SumprodFiber.DstMode | src/starpu/sumprod_fiber.cc:125-147 | dst is W iff beta == 0, REDUX iff beta == 1 and redux != 0, RW_COMMUTE iff beta == 1 and redux == 0, RW iff beta is neither |
| SumprodFiber.DstModeReadsOld | src/starpu/sumprod_fiber.cc:125-147 | the dst buffer depends on its old content iff beta != 0, and is always written |
| SumprodFiber.FootprintFields | src/starpu/sumprod_fiber.cc:65-78 | two argument sets hash alike iff they agree on alpha == 0, m, n and k; beta never matters |
| SumprodFiber.TaskOf | src/starpu/sumprod_fiber.cc:155-161 | the task runs this operation's codelet on src1 R, src2 R, dst in DstMode, carries the packed arguments and records flops 2·m·n·k |
| SumprodFiber.WrapperSeesSubmit | src/starpu/sumprod_fiber.cc:27-41 | the CPU wrapper reads back the submitted m, n, k, alpha, beta and the buffers src1, src2, dst at indices 0, 1, 2 |
| SumprodFiber.Submit | src/starpu/sumprod_fiber.cc:124-168 | exactly one task is inserted; a nonzero insertion result fails with "Error in sumprod_fiber task submission" |
| SumprodFiber.Init | src/starpu/sumprod_fiber.cc:82-102 | registers `nntile_sumprod_fiber_fp32/fp64` with the footprint and the CPU (and optional CUDA) function |
| SumprodFiber.RestrictWhere | src/starpu/sumprod_fiber.cc:104-108 | restricts both codelets |
| SumprodFiber.RestoreWhere | src/starpu/sumprod_fiber.cc:110-114 | restores both codelets |
| SumprodSlice.FootprintFields | src/starpu/sumprod_slice.cc:64-77 | the hash depends on m, n, k only; unlike sumprod_fiber, alpha == 0 does not matter |
| SumprodSlice.TaskOf | src/starpu/sumprod_slice.cc:124-160 | same mode table and buffer order as sumprod_fiber, packed m, n, k, alpha, beta, flops m·n·(2k+3) |
| SumprodSlice.WrapperSeesSubmit | src/starpu/sumprod_slice.cc:27-41 | the CPU wrapper reads back the submitted arguments and buffers |
| SumprodSlice.Submit | src/starpu/sumprod_slice.cc:123-167 | one insertion; a nonzero result fails with "Error in sumprod_slice task submission" |
| SumprodSlice.Init | src/starpu/sumprod_slice.cc:81-101 | registers both codelets with the footprint |
| SumprodSlice.RestrictWhere | src/starpu/sumprod_slice.cc:103-107 | restricts both codelets |
| SumprodSlice.RestoreWhere | src/starpu/sumprod_slice.cc:109-113 | restores both codelets |
| AdamwStep.PackRoundTrip | src/starpu/adamw_step.cc:111-118 | the blob reads back num_iter, num_elems, beta_1, beta_2, eps, lr, weight_decay as passed |
| AdamwStep.MomentsModeReadsOld | src/starpu/adamw_step.cc:121-129 | the moment buffers are W when num_iter == 1 and RW otherwise; they read their old content iff num_iter != 1 |
| AdamwStep.TaskOf | src/starpu/adamw_step.cc:130-136 | buffers grad R, first and second moment in the moments mode, p RW, in that order; blob as packed; no flops |
| AdamwStep.WrapperSeesSubmit | src/starpu/adamw_step.cc:29-45 | the CPU wrapper sees the packed arguments and grad, first_moment, second_moment, p at indices 0 to 3 |
| AdamwStep.Submit | src/starpu/adamw_step.cc:107-141 | one insertion; a nonzero result fails with "Error in adamw_step task submission" |
| AdamwStep.Init | src/starpu/adamw_step.cc:72-92 | both codelets are registered without a footprint |
| StarpuRandn.PackRoundTrip | src/starpu/randn.cc:131-141 | the regular blob packs ndim, nelems, seed, mean, stddev, start, shape, stride, underlying_shape and unpacks in the same order |
| StarpuRandn.Pack0RoundTrip | src/starpu/randn.cc:147-152 | the ndim0 blob carries only seed, mean, stddev, and is never read as a regular blob |
| StarpuRandn.FootprintFields | src/starpu/randn.cc:65-79 | two argument sets hash alike iff their first ndim shape entries agree; seed, mean, stddev, start and stride are ignored |
| StarpuRandn.ArgsOf | src/starpu/randn.cc:137-141 | each of start, shape, stride, underlying_shape is packed with exactly ndim entries, taken from the front of the vector |
| StarpuRandn.TaskOf | src/starpu/randn.cc:126-156 | ndim > 0: regular codelet with data W and tmp_index SCRATCH; otherwise the ndim0 codelet with data W alone; flops 2·nelems |
| StarpuRandn.WrapperSeesSubmit | src/starpu/randn.cc:26-62 | `cpu` reads back the regular arguments with data and tmp_index; `cpu_ndim0` reads back seed, mean, stddev with data |
| StarpuRandn.Submit | src/starpu/randn.cc:119-161 | one insertion on the codelet ndim selects; a nonzero result fails with "Error in randn task submission" |
| StarpuRandn.Ndim0Codelet | src/starpu/randn.cc:93-100 | the ndim0 codelets have no footprint, no CUDA function and run `cpu_ndim0` |
| StarpuRandn.Ndim0Names | src/starpu/randn.cc:85-100 | the ndim0 codelets reuse the regular codelets' names, while the regular ones have the shape footprint |
| StarpuRandn.Init | src/starpu/randn.cc:83-101 | initialises all four codelets |
| StarpuRandn.RestrictWhere | src/starpu/randn.cc:103-109 | restricts all four codelets |
| StarpuRandn.RestoreWhere | src/starpu/randn.cc:111-117 | restores all four codelets |
| Normalize.PackRoundTrip | src/starpu/normalize.cc:131-139 | the blob reads back m, n, k, l, eps as passed |
| Normalize.FootprintFields | src/starpu/normalize.cc:69-83 | hashes alike iff m, n, k agree; l and eps are ignored, and swapping m and n changes the hash |
| Normalize.TaskOf | src/starpu/normalize.cc:140-145 | buffers gamma_beta R, sumnorm R, dst RW in that order; flops 14·m·n·k |
| Normalize.WrapperSeesSubmit | src/starpu/normalize.cc:29-44 | the CPU wrapper reads gamma at element 0 and beta at element 1 of the one gamma_beta buffer |
| Normalize.Submit | src/starpu/normalize.cc:127-153 | one insertion; a nonzero result fails with "Error in normalize task submission" |
| Normalize.Init | src/starpu/normalize.cc:87-107 | registers both codelets with the footprint |
| HypotScalarInverse.PackRoundTrip | src/starpu/hypot_scalar_inverse.cc:105-109 | the blob reads back nelems, eps, alpha |
| HypotScalarInverse.TaskOf | src/starpu/hypot_scalar_inverse.cc:111-114 | one buffer, dst, in RW mode |
| HypotScalarInverse.WrapperSeesSubmit | src/starpu/hypot_scalar_inverse.cc:28-40 | the wrapper reads back the arguments and dst, which it both reads and writes |
| HypotScalarInverse.Submit | src/starpu/hypot_scalar_inverse.cc:100-119 | one insertion; a nonzero result fails with "Error in hypot_scalar_inverse task submission" |
| HypotScalarInverse.Init | src/starpu/hypot_scalar_inverse.cc:63-83 | both codelets have no footprint |
| Logsumexp.TaskOf | src/starpu/logsumexp.cc:103-112 | maxsumexp R, logsumexp W; the blob is nelems alone |
| Logsumexp.WrapperSeesSubmit | src/starpu/logsumexp.cc:27-39 | the wrapper reads nelems back as the first Index; the output does not depend on its old content and the input is not written |
| Logsumexp.Submit | src/starpu/logsumexp.cc:99-117 | one insertion; a nonzero result fails with "Error in logsumexp task submission" |
| Logsumexp.Init | src/starpu/logsumexp.cc:61-81 | both codelets have no footprint |
| Drelu.TaskOf | src/starpu/drelu.cc:97-103 | one buffer, data, RW; the blob is nelems |
| Drelu.WrapperSeesSubmit | src/starpu/drelu.cc:27-38 | the wrapper reads nelems back and works on data in place |
| Drelu.Submit | src/starpu/drelu.cc:95-108 | one insertion; a nonzero result fails with "Error in drelu task submission" |
| Drelu.Init | src/starpu/drelu.cc:60-80 | both codelets have no footprint |
| Fp32ToFp16Codelet.Codelet | src/starpu/fp32_to_fp16.cc:59-71 | one codelet `nntile_fp32_to_fp16` without footprint; CPU and CUDA entries only when CUDA is built |
| Fp32ToFp16Codelet.BackendsIffCuda | src/starpu/fp32_to_fp16.cc:63-69 | the codelet has any backend iff CUDA is built |
| Fp32ToFp16Codelet.Init | src/starpu/fp32_to_fp16.cc:59-71 | sets that one codelet |
| Fp32ToFp16Codelet.RestrictWhere | src/starpu/fp32_to_fp16.cc:73-76 | restricts it |
| Fp32ToFp16Codelet.RestoreWhere | src/starpu/fp32_to_fp16.cc:78-81 | restores it |
| Fp32ToFp16Codelet.TaskOf | src/starpu/fp32_to_fp16.cc:83-92 | src R, dst W, blob nelems |
| Fp32ToFp16Codelet.WrapperSeesSubmit | src/starpu/fp32_to_fp16.cc:25-55 | the wrappers read back nelems; src is not written and dst's old content is not read |
| Fp32ToFp16Codelet.Submit | src/starpu/fp32_to_fp16.cc:83-98 | one insertion; a nonzero result fails with "Error in fp32_to_fp16 task submission" |
| TileTraits.MatrixShapeSplit | src/tile/sumprod_slice.cc:69-70 | splitting a tile's shape at any axis gives a matrix with the tile's element count |
| TileElementwise.AddcdivCheck | src/tile/addcdiv.cc:34-41 | passes iff nom, denom and src have one shape |
| TileElementwise.AddcdivAsync | src/tile/addcdiv.cc:31-44 | both checks run before anything is logged; on success one submission with src.nelems over nom, denom, src |
| TileElementwise.Addcdiv | src/tile/addcdiv.cc:51-58 | the async form, then a wait for all tasks when it succeeded |
| TileElementwise.AddcdivNelems | src/tile/addcdiv.cc:34-43 | after the checks the three tiles have one element count, so src.nelems is right for all three |
| TileElementwise.GeluBackwardCheck | src/tile/gelu_backward.cc:32-39 | passes iff x, dy and dx have one shape |
| TileElementwise.GeluBackwardAsync | src/tile/gelu_backward.cc:29-42 | checks first; on success one submission with x.nelems over x, dy, dx; on failure nothing |
| TileElementwise.GeluBackward | src/tile/gelu_backward.cc:45-52 | async form, then a wait |
| TileSumprodSlice.Removed | src/tile/sumprod_slice.cc:53-66 | the shape with one axis taken out, entry by entry |
| TileSumprodSlice.CheckPasses | src/tile/sumprod_slice.cc:28-66 | the checks pass iff src1 and src2 have one shape, axis lies in [0, ndim) and dst's shape is src1's with that axis removed |
| TileSumprodSlice.ScalarInputUnreachable | src/tile/sumprod_slice.cc:33-42 | the "Scalar input makes no sense" error can never be raised, because ndim == dst.ndim + 1 >= 1 |
| TileSumprodSlice.Validate | src/tile/sumprod_slice.cc:28-66 | the checking code, loops included, returns the first failing check's message, as the check function does |
| TileSumprodSlice.FoldCovers | src/tile/sumprod_slice.cc:68-71 | m·k·n is the element count of src1 and m·n that of dst |
| TileSumprodSlice.SumprodSliceAsync | src/tile/sumprod_slice.cc:24-74 | a failed check logs nothing; a passed one submits exactly one task with m = stride[axis], n = matrix_shape[axis+1][1], k = shape[axis] |
| TileSumprodSlice.SumprodSliceBlocking | src/tile/sumprod_slice.cc:76-82 | the async form, then a wait for all tasks |
| TensorTraits.GridShape | src/tensor/fill.cc:30 | the grid has ceil(shape/basetile) tiles along each axis |
| TensorTraits.GridExtentCovers | src/tensor/fill.cc:30 | the tiles along an axis cover it, with none left empty |
| TensorTraits.TileIndex | wrappers/python/tests/nntile_core/test_tensor_scatter.py:56 | `linear_to_index` gives the grid index, in the grid, whose Fortran-order linear index is i |
| TensorTraits.TileShape | wrappers/python/tests/nntile_core/test_tensor_scatter.py:59-62 | each tile extent is the basetile, clipped at the end of the tensor |
| TensorTraits.TileShapeBounds | wrappers/python/tests/nntile_core/test_tensor_scatter.py:59-62 | every tile extent is positive and at most the basetile |
| TensorTraits.Grid | src/tensor/fill.cc:32-37 | the handles, owners and tile element counts the loops see, one per tile |
| TensorFill.TileEventsHold | src/tensor/fill.cc:32-41 | the calls for one tile hold its fill iff this node owns it, and always its flush |
| TensorFill.FillOnOwnerFlushEverywhere | src/tensor/fill.cc:30-42 | after n tiles, node rank has filled tile i iff i < n and it owns tile i, and has flushed every tile below n |
| TensorFill.OneFillerPerTile | src/tensor/fill.cc:33-38 | over all nodes, each tile is filled by its owner and by no other node |
| TensorFill.FillAsync | src/tensor/fill.cc:27-43 | the log gains, tile by tile in linear order, the owner's fill with the tile's nelems and the value, then the flush |
| TensorFill.FillTiles | src/tensor/fill.cc:30-42 | the loop over all tiles |
| TensorFill.FillTile | src/tensor/fill.cc:32-41 | one pass of that loop: submit if owner, then flush |
| TensorFill.Fill | src/tensor/fill.cc:49-54 | the async form, then a wait for tasks, then a wait for MPI |
| TensorSubtractIndexedOutputs.AxesCheckPasses | src/tensor/subtract_indexed_outputs.cc:32-43 | the axis loop passes iff labels.shape[i] == dst.shape[i+1] and labels.basetile[i] == dst.basetile[i+1] for every i |
| TensorSubtractIndexedOutputs.CheckPasses | src/tensor/subtract_indexed_outputs.cc:28-47 | all checks pass iff the ranks match, every axis agrees and dst.shape[0] == dst.basetile[0] |
| TensorSubtractIndexedOutputs.GridsAgree | src/tensor/subtract_indexed_outputs.cc:50-54 | after the checks, dst's grid is labels' grid with a leading 1, so linear tile i means the same tile in both |
| TensorSubtractIndexedOutputs.TileShapeCons | src/tensor/subtract_indexed_outputs.cc:44-47 | a dst tile is a full column of rows in front of the matching labels tile |
| TensorSubtractIndexedOutputs.TilesAgree | src/tensor/subtract_indexed_outputs.cc:52-54 | dst tile i sits at [0] + labels tile i's index, and holds dst.shape[0] times its elements |
| TensorSubtractIndexedOutputs.Validate | src/tensor/subtract_indexed_outputs.cc:28-47 | the checking code, loop included, gives the first failing message |
| TensorSubtractIndexedOutputs.TileEventsHold | src/tensor/subtract_indexed_outputs.cc:57-66 | the calls for one tile hold its submission iff this node owns dst tile i, and always its flush |
| TensorSubtractIndexedOutputs.SubmitOnOwnerFlushEverywhere | src/tensor/subtract_indexed_outputs.cc:50-67 | after n tiles, node rank has submitted on tile i iff i < n and it owns dst tile i, and has flushed every dst tile below n |
| TensorSubtractIndexedOutputs.FlushesOnlyDst | src/tensor/subtract_indexed_outputs.cc:66 | a handle is flushed iff it is one of the dst tiles passed so far |
| TensorSubtractIndexedOutputs.TransferPrecedesSubmit | src/tensor/subtract_indexed_outputs.cc:57-65 | every submission is logged right after the transfer of its labels tile toward the dst tile's owner |
| TensorSubtractIndexedOutputs.SubtractCallCoversTile | src/tensor/subtract_indexed_outputs.cc:62-64 | the submission's dst.shape[0] times the labels tile's nelems is the dst tile's element count |
| TensorSubtractIndexedOutputs.SubtractIndexedOutputsAsync | src/tensor/subtract_indexed_outputs.cc:25-68 | a failed check issues no transfer, task or flush; otherwise per tile: transfer, submit on owner, flush |
| TensorSubtractIndexedOutputs.RunTiles | src/tensor/subtract_indexed_outputs.cc:50-67 | the loop over all tiles |
| TensorSubtractIndexedOutputs.RunTile | src/tensor/subtract_indexed_outputs.cc:52-66 | one pass: transfer, submit if owner, flush |
| TensorSubtractIndexedOutputs.SubtractIndexedOutputs | src/tensor/subtract_indexed_outputs.cc:71-77 | async form, then a wait for tasks and a wait for MPI, when the checks passed |
| KernelRandn.ColInShape | src/kernel/randn/cpu.cc:91 | the index of column j over the non-row axes lies inside the shape |
| KernelRandn.CellInShape | src/kernel/randn/cpu.cc:91-97 | every (row, column) cell is a multi-index inside the shape |
| KernelRandn.CellFits | src/kernel/randn/cpu.cc:93-140 | every cell's offset Σ idx[d]·stride[d] lies in the buffer |
| KernelRandn.CellsDistinct | src/kernel/randn/cpu.cc:93-140 | distinct cells are stored at distinct offsets |
| KernelRandn.PosAddAt | src/kernel/randn/cpu.cc:84-89 | moving one coordinate by x moves the generator position by x times the underlying extents before it |
| KernelRandn.RowStep | src/kernel/randn/cpu.cc:93-140 | the next row of a column is stride[0] further in memory and one position further in the stream |
| KernelRandn.ColumnEnd | src/kernel/randn/cpu.cc:112-116 | after a column, memory has moved nrows·stride[0] and the stream nrows |
| KernelRandn.GenerateColumn | src/kernel/randn/cpu.cc:93-140 | writes each row of column j at its offset and with its stream position, and ends just past the column |
| KernelRandn.CarryMoves | src/kernel/randn/cpu.cc:121-130 | resetting coordinate k and incrementing k+1 moves memory by stride[k+1] - stride[k]·shape[k] and the stream by the underlying stride times (underlying[k] - shape[k]) |
| KernelRandn.CarryInside | src/kernel/randn/cpu.cc:118-124 | while columns remain, the carry never runs past the last axis |
| KernelRandn.CarryPreserves | src/kernel/randn/cpu.cc:118-131 | one carry step keeps the odometer invariant: index, pointer, shift and underlying stride stay in step |
| KernelRandn.CarryStart | src/kernel/randn/cpu.cc:109-116 | the state before the carry loop meets that invariant |
| KernelRandn.CarryDone | src/kernel/randn/cpu.cc:118-134 | when the carry stops, tmp_index is the next column's first cell, the pointer its offset, and the shift reaches its stream position |
| KernelRandn.FirstCell | src/kernel/randn/cpu.cc:84-102 | the first cell is the zero index at offset 0, at stream position Horner(start, underlying_shape) |
| KernelRandn.NextColumn | src/kernel/randn/cpu.cc:109-134 | the code between two columns moves tmp_index, the pointer and the generator to the first cell of the next column |
| KernelRandn.CarryOnce | src/kernel/randn/cpu.cc:120-130 | one pass of the carry loop preserves the odometer invariant |
| KernelRandn.WriteRowsSpec | src/kernel/randn/cpu.cc:136-140 | the first i rows of a column hold their stream positions, and every other offset is untouched |
| KernelRandn.GeneratedCell | src/kernel/randn/cpu.cc:104-141 | after n columns, each cell of those columns holds its stream position |
| KernelRandn.GeneratedOthers | src/kernel/randn/cpu.cc:104-141 | after n columns, an offset not belonging to their cells is untouched |
| KernelRandn.FillSpec | src/kernel/randn/cpu.cc:63-140 | the finished buffer holds, at offset Σ idx[d]·stride[d] of every index in shape, the underlying linear position of start + idx, and no other offset is written |
| KernelRandn.Jump | src/kernel/randn/cpu.cc:84-89 | the initial jump is the Fortran-order linear index of start in underlying_shape |
| KernelRandn.ZeroIndex | src/kernel/randn/cpu.cc:99-102 | the scratch index is set to zero |
| KernelRandn.Cpu | src/kernel/randn/cpu.cc:82-142 | the kernel leaves the buffer equal to the fill its specification gives: output = underlying[start:start+shape] |
| KernelRandn.GenerateColumns | src/kernel/randn/cpu.cc:104-141 | the loop over columns 1 to ncols-1 finishes all columns |
| KernelRandn.AdvanceColumn | src/kernel/randn/cpu.cc:106-140 | one pass of that loop generates one more column |
| KernelRandn.CpuNdim0 | src/kernel/randn/cpu.cc:160-165 | a scalar output writes exactly one value, the one at the seed's own position, and nothing else |
| KernelProdFiber.OffsetInside | src/kernel/prod_fiber/cpu.cc:41-53 | each offset (i1·k+i2)·m+i0 lies in [0, m·k·n) and decodes back to (i0, i2, i1) |
| KernelProdFiber.OffsetOfEach | src/kernel/prod_fiber/cpu.cc:41-56 | every offset in [0, m·k·n) is reached by exactly one (i0, i1, i2) |
| KernelProdFiber.ScaledAt | src/kernel/prod_fiber/cpu.cc:28-53 | the new dst at (i1·k+i2)·m+i0 is the old value times alpha·src[i2] |
| KernelProdFiber.ScaledOutside | src/kernel/prod_fiber/cpu.cc:41-56 | entries at or beyond m·k·n are untouched, and nothing changes when m, n or k is 0 |
| KernelProdFiber.ProgressStart | src/kernel/prod_fiber/cpu.cc:41 | before the loops nothing is scaled |
| KernelProdFiber.ProgressEnd | src/kernel/prod_fiber/cpu.cc:41-56 | after all k sources every fiber is scaled |
| KernelProdFiber.ProgressNextSource | src/kernel/prod_fiber/cpu.cc:41-45 | finishing the inner loop for one source is starting the next |
| KernelProdFiber.Cpu | src/kernel/prod_fiber/cpu.cc:22-58 | the kernel turns dst into its scaled image and never writes src |
| KernelProdFiber.FiberStep | src/kernel/prod_fiber/cpu.cc:46-54 | scaling one fiber advances the progress by one fiber |
| KernelProdFiber.FiberCell | src/kernel/prod_fiber/cpu.cc:48-53 | an offset lies in fiber (i2, i1) iff it decodes to that i2 and i1 |
| KernelProdFiber.ScaleFiber | src/kernel/prod_fiber/cpu.cc:48-53 | multiplies m consecutive entries in place by one factor and leaves the rest alone |
| BaseModel.Entries | wrappers/python/nntile/model/base_model.py:29-31 | a list extended by tensors holds each tensor, in order, as an element of its own |
| BaseModel.ReversedAt | wrappers/python/nntile/model/base_model.py:46 | `reversed` puts element |s|-1-i at position i |
| BaseModel.EntriesFlat | wrappers/python/nntile/model/base_model.py:29-31 | a list built by `extend` holds only tensors, never a nested list |
| BaseModel.ExtendKeepsFlat | wrappers/python/nntile/model/base_model.py:29-31 | extending with one more layer's parameters gives the constructor's list for the longer layer list |
| BaseModel.AppendNests | wrappers/python/nntile/model/base_model.py:34-37 | `append` adds the whole parameter list as one element, so the result differs from what the constructor builds |
| BaseModel.AppendExample | wrappers/python/nntile/model/base_model.py:30-37 | a concrete instance: appending a layer with parameters [3] gives [1, 2, [3]] where construction gives [1, 2, 3] |
| BaseModel.ForwardCalls | wrappers/python/nntile/model/base_model.py:40-42 | one forward call per layer |
| BaseModel.BackwardCalls | wrappers/python/nntile/model/base_model.py:45-47 | one backward call per layer |
| BaseModel.BackwardMirrorsForward | wrappers/python/nntile/model/base_model.py:40-47 | the i-th backward call is on the layer of the (n-1-i)-th forward call |
| BaseModel.FirstNested | wrappers/python/nntile/model/base_model.py:53-54 | the activation loop reaches exactly the tensors before the first nested list, and that list, if any, is where it raises |
| BaseModel.FirstNestedAtEnd | wrappers/python/nntile/model/base_model.py:53-54 | the activation loop runs to the end iff every activation is a tensor |
| BaseModel.AppendNestedStops | wrappers/python/nntile/model/base_model.py:35 | a nested list appended to the activations is never passed by the loop: it stops where it stopped before |
| BaseModel.ExtendTensorsReached | wrappers/python/nntile/model/base_model.py:53-54 | tensors added one by one to a list of tensors are all reached by the loop |
| BaseModel.AppendedOutputsSkipped | wrappers/python/nntile/model/base_model.py:34-54 | after `append` as written, `unregister` makes exactly the calls it made without the new output list: the layer's output tensors are never unregistered |
| BaseModel.AppendActivationsExample | wrappers/python/nntile/model/base_model.py:34-54 | activations [7], then `append` of a layer with outputs [8], gives [7, [8]]; `unregister` calls both layers and tensor 7 and stops there |
| BaseModel.UnregisterCalls | wrappers/python/nntile/model/base_model.py:50-54 | one unregister call per layer and per activation up to the first nested list |
| BaseModel.LayersBeforeActivations | wrappers/python/nntile/model/base_model.py:50-54 | every layer is unregistered before any activation |
| BaseModel.Model.constructor | wrappers/python/nntile/model/base_model.py:25-31 | holds the given activations as tensors, keeps the layers and sets parameters to the concatenation of each layer's parameters in layer order |
| BaseModel.Model.Append | wrappers/python/nntile/model/base_model.py:34-37 | adds the layer at the end, and its output list and its parameter list each as one nested element; afterwards the parameters differ from the layers' concatenation and the activations are no longer all tensors |
| BaseModel.Model.AppendExtend | wrappers/python/nntile/model/base_model.py:29-37 | the corrected append extends both the activations and the parameters and keeps the model flat |
| BaseModel.Model.ForwardAsync | wrappers/python/nntile/model/base_model.py:40-42 | calls forward on each layer in list order; the lists are unchanged |
| BaseModel.Model.BackwardAsync | wrappers/python/nntile/model/base_model.py:45-47 | calls backward on each layer in reverse order |
| BaseModel.Model.Unregister | wrappers/python/nntile/model/base_model.py:50-54 | unregisters all layers, then the activations in order; it succeeds iff every activation is a tensor, and otherwise raises the AttributeError at the first nested list |
| ScatterReference.Lows | wrappers/python/tests/nntile_core/test_tensor_scatter.py:59 | the lower end of the tile's range on every axis is idx[j]·basetile[j] |
| ScatterReference.Extents | wrappers/python/tests/nntile_core/test_tensor_scatter.py:59-62 | the extent on every axis is the clipped upper end minus the lower end |
| ScatterReference.RangeInside | wrappers/python/tests/nntile_core/test_tensor_scatter.py:58-63 | for a tile in the grid every range is non-empty and inside the tensor, and the extents are the tile's shape |
| ScatterReference.TileOfCovers | wrappers/python/tests/nntile_core/test_tensor_scatter.py:52-63 | every element of the tensor lies in the range of some tile of the grid |
| ScatterReference.TileOfUnique | wrappers/python/tests/nntile_core/test_tensor_scatter.py:52-63 | and in only one |
| ScatterReference.CUnlinearLinear | wrappers/python/tests/nntile_core/test_tensor_scatter.py:64-67 | numpy's C-order reshape: the linear index of an index decodes back to it |
| ScatterReference.Lift | wrappers/python/tests/nntile_core/test_tensor_scatter.py:57 | `reshape([1]+A_shape)` adds a leading axis of length 1 |
| ScatterReference.SliceAxis1 | wrappers/python/tests/nntile_core/test_tensor_scatter.py:63 | `np_C[:, ind0:ind1, ...]` keeps the range on axis 1 |
| ScatterReference.MergeFirst | wrappers/python/tests/nntile_core/test_tensor_scatter.py:64-66 | merging the first two axes multiplies their lengths |
| ScatterReference.Reshape | wrappers/python/tests/nntile_core/test_tensor_scatter.py:67 | the final reshape succeeds iff the element counts agree |
| ScatterReference.CutStart | wrappers/python/tests/nntile_core/test_tensor_scatter.py:57 | the lifted array meets the slicing invariant before the loop |
| ScatterReference.CutStep | wrappers/python/tests/nntile_core/test_tensor_scatter.py:58-66 | one pass of the slicing loop keeps the invariant: the leading axis enumerates, in C order, the ranges cut so far |
| ScatterReference.CutEnd | wrappers/python/tests/nntile_core/test_tensor_scatter.py:67 | after all axes, reshaping to the extents gives element x = source element lows + x |
| ScatterReference.ReferenceTile | wrappers/python/tests/nntile_core/test_tensor_scatter.py:56-67 | the reference for tile idx has the tile's clipped shape and holds the source's sub-block at lows + x |
| ScatterReference.PassedTestCoversSource | wrappers/python/tests/nntile_core/test_tensor_scatter.py:52-69 | if all grid.nelems tiles match their reference, each source element sits in its tile at its offset from the tile's corner |
| ScatterReference.OffsetInTile | wrappers/python/tests/nntile_core/test_tensor_scatter.py:58-63 | an element's offset from its tile's corner lies inside that tile's shape |
| ScatterReference.TestScenario | wrappers/python/tests/nntile_core/test_tensor_scatter.py:33-62 | shape [2,3,4] in basetile [2,2,2] gives a 1×2×2 grid of 4 tiles whose last tile along axis 1 has extent 1 |
| Indexing.HornerUnlinear | src/kernel/randn/cpu.cc:118-131 | decoding a linear index gives an index inside the shape whose Fortran-order linear index is the original |
| Indexing.UnlinearHorner | src/kernel/randn/cpu.cc:118-131 | and encoding then decoding an index inside the shape gives it back |
| Indexing.CarryStep | src/kernel/randn/cpu.cc:118-131 | the odometer step: from index j-1 to j, the full digits below m reset to 0 and digit m goes up by one |
| Indexing.CarryStaysInside | src/kernel/randn/cpu.cc:118-124 | before the last index, the carry stops before the last digit |

## Left out

- StarPU and StarPU-MPI are not executed or modelled inside. This covers task insertion, dependencies, scheduling, data transfer, flush and the waits. Every call into them is a log entry, and the insertion result is an input (`ret`).
- `starpu_conf_init` and `starpu_init` results are inputs (`confRet`, `initRet`).
- `starpu_is_initialized` reads the modelled flag.
- Starpu.StarpuHandle: the implicit move construction and the copy and move assignment that `std::shared_ptr` gives the class (include/nntile/starpu.hh:56-77) are not modelled. A move hands over the registration without changing its use count; an assignment amounts to Starpu.StarpuHandle.Destroy of the old value followed by Starpu.StarpuHandle.Copy.
- StarpuHandle's pass-through calls `get_local_ptr`, `invalidate`, `invalidate_submit`, `acquire`, `release` and `wont_use` (include/nntile/starpu.hh:84-112) only forward to StarPU. They are not modelled.
- Starpu.Guard.Destroy: C++ runs the destructor automatically. Here it is an explicit call, and the deleted copy and move operations are the single `alive` flag it consumes.
- CRC32C (`starpu_hash_crc32c_be_n`) is a free term: `Crc(previous hash, field)`. Footprint contracts therefore state which fields are hashed and in what order, not hash values. Hash collisions are not modelled.
- Floating-point scalars (`fp32_t`, `fp64_t`) are reals compared exactly. Rounding is not modelled.
- Generic blobs and tasks are typed per argument (`IndexV`, `RealV`, `SeedV`, `IndicesV`) instead of raw bytes, so sizes in bytes are not modelled.
- The randn kernel's Gaussian draw (`chameleon_randn`) and the random generator (`CORE_rnd64_jump`) are not modelled.
  - The kernel model counts generator positions in element units. Each element consumes two generator draws (src/kernel/randn/cpu.cc:31-42), while the jumps pass `shift` in element units (src/kernel/randn/cpu.cc:89 and 134). The element-unit stream therefore assumes that `CORE_rnd64_jump` scales its argument by the draws per element; the model does not check this.
  - Each output element holds the stream position it was drawn from.
  - KernelRandn.CpuNdim0 writes position 0, the seed's own position.
- KernelRandn.Cpu requires `nelems == prod(shape)` and positive extents, which is how callers use the kernel. The kernel does not check these itself.
- KernelRandn.Cpu and KernelProdFiber.Cpu use unbounded integers for `Index`. 64-bit overflow of offsets is not modelled.
- KernelProdFiber.Cpu: `m`, `n` and `k` are non-negative here. `Index` is signed, and with a negative extent the source's loops simply do not run; the model does not cover negative extents.
- The submits record `flops` as exact integer products (src/starpu/sumprod_fiber.cc:155, src/starpu/sumprod_slice.cc:154, src/starpu/normalize.cc:140, src/starpu/randn.cc:126). The source computes them in `Index` and converts to `double`; the 64-bit overflow and the rounding of that conversion are not modelled.
- `#ifdef NNTILE_USE_CUDA` code, all CUDA wrappers and CUDA kernels are not modelled. CUDA availability is the boolean `useCuda`, which only decides which codelet backends exist.
- The StarPU submits of fill, addcdiv, gelu_backward and subtract_indexed_outputs (`src/starpu/fill.cc` and the others) are not part of this model. Tile and tensor code records them as one `Called` event with their arguments and handles.
- Tile traits (`stride`, `matrix_shape`) and tensor traits (grid shape, leftover tile shape, Fortran-order `linear_to_index`) are not part of this model's sources. `tile_traits.dfy` and `tensor_traits.dfy` define them as NNTile does, and the proofs rely on those definitions.
- The tile-level `sumprod_slice` calls the StarPU submit without `redux`, so it uses the declared default. That default is 0, as for sumprod_fiber (include/nntile/starpu/sumprod_fiber.hh:71-72); `include/nntile/starpu/sumprod_slice.hh` is not part of this model.
- TileSumprodSlice.Validate: omits the `ndim == 0` branch of the checks. TileSumprodSlice.Check includes it, and TileSumprodSlice.ScalarInputUnreachable proves it can never fire.
- The submits of adamw_step, normalize, hypot_scalar_inverse, logsumexp and drelu are modelled. Their `restrict_where` and `restore_where` are not, because they are the same two codelet updates Codelets.Registry.RestrictBoth and Codelets.Registry.RestoreBoth already state.
- `init` for those operations is modelled only for the codelet table, not for StarPU's internal codelet structure.
- In `Codelets.Lookup`, the per-type `codelet<T>()` lookup of every operation follows include/nntile/starpu/randn.hh. The other operations' headers hold the same table.
- BaseModel: the layers are values (id, parameter list, output-activation list), and the layers' own `forward_async`, `backward_async` and `unregister` are logged as calls. Aliasing of the Python lists passed to the constructor is not modelled.
- ScatterReference:
  - The test's random input (`np.random.randn`) is any source array.
  - The StarPU `scatter` itself is not modelled; a tile is any array.
  - The test's loop over tiles with an early `return False` is ScatterReference.PassedTestCoversSource: the conclusion that holds when every tile matched.
  - Array equality is on functions from index to value, so the comparison is a ghost predicate (ScatterReference.TileMatches), not executable code.
- MPI ranks and tile owners are inputs: `rank`, and the tensor's `ranks` sequence.

## Findings

| source | as written | input that shows it | evidently intended | confidence | as-written member | corrected member |
|---|---|---|---|---|---|---|
| wrappers/python/nntile/model/base_model.py:35 | `append` adds the new layer's `activations_output` list to `activations` with `list.append`, as one nested element | a model with activations [7], then `append` of a layer whose `activations_output` is [8]: `activations` becomes [7, [8]], and `unregister` unregisters the layers and tensor 7, then raises AttributeError at [8]; tensor 8 is never unregistered | extend `activations`, giving [7, 8], so that `unregister` reaches every output tensor | not executed | BaseModel.AppendActivationsExample | BaseModel.Model.AppendExtend |
| wrappers/python/nntile/model/base_model.py:37 | `append` adds the new layer's parameter list to `parameters` with `list.append`, as one nested element | a model built from a layer with parameters [1, 2], then `append` of a layer with parameters [3]: `parameters` becomes [1, 2, [3]] | extend `parameters` as `__init__` does (line 31), giving [1, 2, 3] | not executed | BaseModel.Model.Append | BaseModel.Model.AppendExtend |
