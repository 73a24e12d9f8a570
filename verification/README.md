# Verified model of the quantized GEMM benchmarks

The repository benchmarks quantized matrix products on RISC-V boards: many kernels for one product, a
small allocator for tightly coupled memory (TCM), and machine benchmarks with their own barrier and
pointer rings. This project models those parts in Dafny and proves that they do what they are for.
`dafny verify dfyconfig.toml` checks everything.

- **Products.** Thirteen implementations for a Q4_0 weight matrix and Q8_0 activations (m8b for two matrix units,
  its two cache-blocked variants, m4i and m4i-CB, m4n32b, m32n4, m4b, RR, the upstream IME2 path and two
  RVV kernels) are modelled from packing to the output. Over the reals each output element is the reference
  dot product of its row and column, whatever the shape, the order of the parallel tiles and the stale
  contents of the buffers. The kernels that fold block by block with fused multiply-adds are also equal
  operation for operation, hence to the bit. The two IQ2_XXS kernels equal each other, and the reference
  exactly in the columns whose packed weights are safe.
- **Allocator.** The free list of an arena is sorted, has no adjacent blocks and partitions the arena
  together with the live blocks, in every reachable state; its capacity suffices; allocation succeeds
  exactly when it can and is lowest-fit; the free array depends only on which bytes are allocated; each CPU
  is served from its own region.
- **Barrier.** The generation spin barrier is safe over every interleaving and any number of rounds,
  cannot deadlock, and terminates under every fair schedule, with the workers' failure paths; the timed
  passes of all workers lie between the same two waits.
- **Quantizers and rings.** The scale, the codes and the error bounds of every block of every row; shuffles
  in which every permutation comes from one choice of draws, and rings that visit each node once.

## Reading guide

Floats are modelled twice. `Floats.Flt` is the expression a kernel computes (multiply, fused
multiply-add, conversion), so equal expressions mean equal floats with any rounding; `Floats.Eval` is its
value over the reals. Integers have their machine width where it can matter: 64-bit addresses and sizes,
32-bit dot lanes, 16-bit sums, the wrapping generation counter.

| files | model |
|---|---|
| BitArithmetic, FreeList, ArenaModel, TcmArena, TcmManager | the TCM allocator: arithmetic, specification, the in-place arrays, the arenas of all CPUs |
| SpinBarrier | the barrier as steps of interleaved threads, and the three workers |
| Floats, Quantized, Gemm, Reduction, VectorUnit | expressions, blocks and the reference, the product, batched reduction, vector registers |
| Ime2Kernel, Ime2Adapter | m8b on the second matrix unit |
| Ime1Dot, Ime1Kernel, Ime1Batch, Ime1Tiles, Ime1Pack, Ime1Adapter | m8b on the first |
| PanelLayout, PreUnpack, CacheBlocking | m8b-CB and m8b-DPU-CB |
| TileShapes, TileOperands, OutputCells, M4iAdapter, M4iBlocking, AccumulatingAdapters, M4bKernel, M4bAdapter | m4i, m4i-CB, m4n32b, m32n4, m4b |
| RrKernel, RrAdapter | RR |
| UpstreamIme2, UpstreamWrapper | the upstream IME2 path |
| RvvKernel, RvvAdapter | RVV-group and RVV-my |
| Iq2Block, Iq2Kernel, Iq2Gemm, Iq2Safety | the IQ2_XXS kernels |
| Quantizers, QuantizedInput, PointerRing | quantizers, kernels from float input, rings |

## Model

| member | source | states |
|---|---|---|
| `BitArithmetic.IsPowerOfTwoMeaning` | kernels/common/tcm_arena.cpp:19-21 | `is_power_of_two` accepts exactly the powers of two below 2^64. |
| `BitArithmetic.AlignUpMeaning` | kernels/common/tcm_arena.cpp:60-62 | For every power of two, `align_up` is the least multiple at or above its argument if and only if that multiple is below 2^64; otherwise it wraps to zero. |
| `ArenaModel.FitsMeaning` | kernels/common/tcm_arena.cpp:134-139 | The three guards accept a free block if and only if the aligned request has room in it, and then use the lowest offset with room; a wrapped address is never accepted. |
| `ArenaModel.RoomIsUnused` | kernels/common/tcm_arena.cpp:133-139 | A free block has room exactly where the aligned bytes lie in the arena and no live block reaches into them. |
| `ArenaModel.AllocateMeaning` | kernels/common/tcm_arena.cpp:128-170 | A request succeeds if and only if the table has an entry left and some free gap can hold it aligned; the pointer is aligned and the lowest possible, and a failure changes nothing. |
| `ArenaModel.FreeCountBound` | kernels/common/tcm_arena.cpp:25-28 | There is at most one free block more than there are live ones, so the 258 slots always suffice, also for the insertion before coalescing. |
| `ArenaModel.AllocateKeepsInv` | kernels/common/tcm_arena.cpp:128-170 | Allocation keeps the invariant: sorted, non-empty, non-adjacent free blocks that with the live ones partition the arena. |
| `ArenaModel.DeallocateKeepsInv` | kernels/common/tcm_arena.cpp:284-297 | Freeing keeps the same invariant for every pointer. |
| `ArenaModel.DeallocateMeaning` | kernels/common/tcm_arena.cpp:284-297 | A live pointer leaves the table and its block is always given back; all other pointers keep their state; an unknown pointer changes nothing. |
| `ArenaModel.AllocateThenDeallocate` | kernels/common/tcm_arena.cpp:128-302 | Freeing what was just allocated restores the arena exactly. |
| `ArenaModel.RunKeepsInv` | kernels/common/tcm_arena.cpp:128-302 | Every state reached by any sequence of calls satisfies the invariant. |
| `ArenaModel.FreeDetermined` | kernels/common/tcm_arena.cpp:40-47 | The free array is a function of the set of allocated bytes. |
| `ArenaModel.RunsAgree` | kernels/common/tcm_arena.cpp:128-302 | Two runs of calls that leave the same bytes allocated leave the same free array. |
| `ArenaModel.DrainRestores` | kernels/common/tcm_arena.cpp:273-302 | Freeing every live pointer, in any order and with any other pointers in between, restores the single block `{0, bytes}`. |
| `FreeList.CarveKeepsCanonical` | kernels/common/tcm_arena.cpp:141-163 | All four split cases keep the list canonical and remove exactly the carved bytes. |
| `FreeList.GiveBackKeepsCanonical` | kernels/common/tcm_arena.cpp:172-198 | Insertion with both merges keeps the list canonical and adds exactly the returned bytes. |
| `FreeList.CanonicalUnique` | kernels/common/tcm_arena.cpp:40-47 | Canonical lists that cover the same bytes are equal. |
| `TcmArena.InsertThenMerge` | kernels/common/tcm_arena.cpp:172-198 | Inserting first and merging after, as the code does, gives the block back. |
| `TcmArena.TcmArena.OpenAt` | kernels/common/tcm_arena.cpp:177-181 | The upward shift in place inserts one block. |
| `TcmArena.TcmArena.Split` | kernels/common/tcm_arena.cpp:141-163 | The four in-place cases carve the request out of the array. |
| `TcmArena.TcmArena.AllocateFrom` | kernels/common/tcm_arena.cpp:128-170 | The scan, split and table append on the arrays refine the specified allocation, overflow branch included. |
| `TcmArena.TcmArena.InsertFreeBlock` | kernels/common/tcm_arena.cpp:172-198 | The in-place insertion and coalescing give the block back. |
| `TcmArena.TcmArena.Release` | kernels/common/tcm_arena.cpp:284-297 | The search, swap-remove and insertion refine the specified deallocation. |
| `TcmManager.NoOverlap` | kernels/common/tcm_arena.cpp:113-126 | After any requests from any CPUs no two live allocations share an address, whichever arenas they come from. |
| `TcmManager.RegionsOfA100` | kernels/common/tcm_arena.cpp:91-95 | The eight A100 regions are 393216 bytes each, one after the other, and together are exactly the mapping. |
| `TcmManager.RegionOfA60` | kernels/common/tcm_arena.cpp:83-87 | The A60 mapping is one region of 524288 bytes. |
| `TcmManager.ServeAllKeepsRegions` | kernels/common/tcm_arena.cpp:228-249 | No request moves or resizes a region. |
| `TcmManager.ServedOnA100` | kernels/common/tcm_arena.cpp:113-126 | After any requests CPU 8 + i is served from the i-th region alone, at the lowest aligned address that no live block reaches, and refused only when there is none or 256 entries are taken; every other CPU is refused. |
| `TcmManager.ServedOnA60` | kernels/common/tcm_arena.cpp:113-126 | The same for CPUs 0 to 3 and the one region. |
| `TcmManager.OwnerOfLive` | kernels/common/tcm_arena.cpp:279-284 | The range test finds the arena of a live pointer if and only if that arena ends below 2^64, and otherwise finds none. |
| `TcmManager.DeallocateReachesOwner` | kernels/common/tcm_arena.cpp:273-302 | A free from any CPU releases the pointer in its own arena and touches no other if and only if that arena ends below 2^64. |
| `TcmManager.TopRegionNeverFreed` | kernels/common/tcm_arena.cpp:281-282 | The wrapped range test: a block of an arena that ends at 2^64 is not freed. |
| `TcmManager.UnknownPointerIgnored` | kernels/common/tcm_arena.cpp:273-302 | Null, unknown and already freed pointers change nothing in any arena. |
| `TcmManager.AllocateThenFree` | kernels/common/tcm_arena.cpp:251-302 | An allocation on one CPU undone by a free on any CPU leaves the allocator as it was. |
| `TcmManager.TcmAllocator.Initialize` | kernels/common/tcm_arena.cpp:228-249 | The first call hands out the regions in order; later calls change nothing. |
| `TcmManager.TcmAllocator.Allocate` | kernels/common/tcm_arena.cpp:251-271 | Zero sizes, bad alignments, a failed mapping, a foreign CPU and an oversized request are refused; the rest goes to the CPU's arena only. |
| `TcmManager.TcmAllocator.FindOwner` | kernels/common/tcm_arena.cpp:279-284 | The loop returns the first arena whose range test holds. |
| `TcmManager.TcmAllocator.Deallocate` | kernels/common/tcm_arena.cpp:273-302 | Exactly the owner's arena is changed. |
| `SpinBarrier.NextKeepsInv` | machine-benchmarks/spacemit-k3-a100/k3_load_sharing.cpp:111-127 | Each atomic access of each thread keeps the protocol invariant. |
| `SpinBarrier.Safety` | machine-benchmarks/spacemit-k3-a100/k3_load_sharing.cpp:111-127 | Over every interleaving and any number of rounds no thread returns from its r-th wait before all have arrived at theirs, none runs a whole round ahead, and the reset never erases an arrival. |
| `SpinBarrier.GenerationMoved` | machine-benchmarks/spacemit-k3-a100/k3_bandwidth_diagnose.cpp:79-87 | One release always changes the wrapped generation, so the equality test stays right when the counter wraps. |
| `SpinBarrier.Progress` | machine-benchmarks/spacemit-k3-a100/k3_load_sharing.cpp:111-127 | From every reachable state some thread can take a step that is not a spin, until all have finished. |
| `SpinBarrier.NextDecreases` | machine-benchmarks/spacemit-k3-a100/k3_load_sharing.cpp:111-127 | Every step that is not a spin decreases a measure that bounds the length of the run. |
| `SpinBarrier.StaysEnabled` | machine-benchmarks/spacemit-k3-a100/k3_load_sharing.cpp:111-127 | A thread that can step stays able to: no wakeup is lost. |
| `SpinBarrier.FairTermination` | machine-benchmarks/spacemit-k3-a100/k3_load_sharing.cpp:111-127 | Any rounds of turns in which every thread occurs, in any order and with repeats, finish all threads once there are as many rounds as the measure. |
| `SpinBarrier.WorkersTerminate` | machine-benchmarks/spacemit-k3-a100/k3_load_sharing.cpp:153-185 | Every success and failure path of the three workers performs the waits of the others, so under any fair schedule all terminate. |
| `SpinBarrier.BarrierSeparates` | machine-benchmarks/spacemit-k3-a100/k3_load_sharing.cpp:111-127 | Over every run no thread is past an action that follows its r-th wait before every thread has done all that precedes its own r-th wait. |
| `SpinBarrier.TimedTogether` | machine-benchmarks/spacemit-k3-a100/k3_load_sharing.cpp:153-185 | No worker takes its timed pass before every worker has arrived at its first wait and all set-up and warm-up is over; none returns from its second wait before every timed pass is taken; every worker that gets so far takes one. |
| `SpinBarrier.LoadSharingStaged` | machine-benchmarks/spacemit-k3-a100/k3_load_sharing.cpp:153-185 | Set-up, then warm-up, before the first wait, the one timed pass between the two, the rest after the second, and no timed pass on a failure path. |
| `SpinBarrier.BandwidthDiagnoseStaged` | machine-benchmarks/spacemit-k3-a100/k3_bandwidth_diagnose.cpp:142-173 | The same, between the ready and the done barrier. |
| `SpinBarrier.ScalingStaged` | machine-benchmarks/spacemit-k3-a100/k3_scaling.cpp:85-108 | Set-up and warm-up before the one wait, the timed pass after it. |
| `SpinBarrier.LoadSharingWaits` | machine-benchmarks/spacemit-k3-a100/k3_load_sharing.cpp:153-185 | Each path waits twice on the one barrier, whatever fails. |
| `SpinBarrier.BandwidthDiagnoseWaits` | machine-benchmarks/spacemit-k3-a100/k3_bandwidth_diagnose.cpp:142-173 | Each path waits once on each of the two barriers, in order. |
| `SpinBarrier.ScalingWaits` | machine-benchmarks/spacemit-k3-a100/k3_scaling.cpp:85-108 | Each path waits once. |
| `Quantized.DotQ40Q80` | bench/llama_reference/llama_reference.cpp:134-146 | The two-nibbles-a-byte loop is the scaled sum of `a * (w - 8)`. |
| `Gemm.ComputedIsReference` | bench/llama_reference/llama_reference.cpp:165-177 | An element folded with all its block terms is, over the reals, the reference dot product. |
| `Gemm.ProductUnique` | bench/llama_reference/llama_reference.cpp:165-177 | The product is determined operation by operation: kernels that compute it store the same floats. |
| `Floats.EvalFold` | bench/llama_reference/llama_reference.cpp:134-146 | A chain of fused multiply-adds evaluates over the reals to the sum of its terms. |
| `Ime2Adapter.PackABlock` | kernels/q4_0-q8_0-IME-m8b/implementations/smt-ime2/adapter.cpp:79-93 | The A copies give each row segment its own place and leave the earlier blocks alone. |
| `Ime2Adapter.PackBBlock` | kernels/q4_0-q8_0-IME-m8b/implementations/smt-ime2/adapter.cpp:102-112 | The B copies give each column its bytes and scale, and leave the earlier blocks alone. |
| `Ime2Kernel.DotTile` | kernels/q4_0-q8_0-IME-m8b/implementations/smt-ime2/kernel.cpp:50-115 | The eight accumulators hold the 16 x 32 components of the block. |
| `Ime2Kernel.TargetInjective` | kernels/q4_0-q8_0-IME-m8b/implementations/smt-ime2/kernel.cpp:149-168 | The chunked stores write each of the 512 component positions once. |
| `Ime2Kernel.Scatter` | kernels/q4_0-q8_0-IME-m8b/implementations/smt-ime2/kernel.cpp:149-168 | The short and the masked stores, with their pulled-back bases, leave the row-major component tile. |
| `Ime2Adapter.ComponentIsBlockDot` | kernels/q4_0-q8_0-IME-m8b/implementations/smt-ime2/kernel.cpp:60-115 | A component of packed operands is the reference integer sum. |
| `Ime2Kernel.FlushBatch` | kernels/q4_0-q8_0-IME-m8b/implementations/smt-ime2/kernel.cpp:178-224 | A flush folds the buffered blocks into the tile in K order. |
| `Ime2Kernel.TileKernel` | kernels/q4_0-q8_0-IME-m8b/implementations/smt-ime2/kernel.cpp:40-226 | For every block count each tile element is folded once with each of its terms, in K order. |
| `Ime2Adapter.M8State.constructor` | kernels/q4_0-q8_0-IME-m8b/implementations/smt-ime2/adapter.cpp:48-115 | `prepare` leaves every block of A and B packed. |
| `Ime2Adapter.M8State.ComputeTile` | kernels/q4_0-q8_0-IME-m8b/implementations/smt-ime2/adapter.cpp:139-150 | One tile is completed and no finished tile is disturbed. |
| `Ime2Adapter.M8State.Run` | kernels/q4_0-q8_0-IME-m8b/implementations/smt-ime2/adapter.cpp:117-156 | Any order of the row tiles and any stale output give the product. |
| `Ime2Adapter.Multiply` | kernels/q4_0-q8_0-IME-m8b/implementations/smt-ime2/adapter.cpp:48-156 | End to end: every output element is, over the reals, the reference dot product of its row and column, for every admitted shape and input. |
| `Ime1Dot.GroupRegisters` | kernels/q4_0-q8_0-IME-m8b/implementations/smt-ime1/kernel.cpp:49-71 | Unpacked low and high nibbles of a plane are two K windows of the columns. |
| `Ime1Dot.VmadotPair` | kernels/q4_0-q8_0-IME-m8b/implementations/smt-ime1/kernel.cpp:81-99 | Two dots add the next sixteen K values, without leaving 32 bits. |
| `Ime1Pack.PackA` | kernels/q4_0-q8_0-IME-m8b/implementations/smt-ime1/adapter.cpp:59-64 | The chunk reorder of the staged block is the layout the kernel reads. |
| `Ime1Pack.PackQ4N16` | kernels/common/q4_0_common.h:79-94 | The two-plane nibble packing keeps every weight code and scale at its place. |
| `Ime1Kernel.DotBlock` | kernels/q4_0-q8_0-IME-m8b/implementations/smt-ime1/kernel.cpp:45-100 | The eight accumulators hold the 8 x 16 block dots. |
| `Ime1Kernel.QuadInjective` | kernels/q4_0-q8_0-IME-m8b/implementations/smt-ime1/kernel.cpp:109-125 | The stores of distinct accumulator rows go to distinct segments. |
| `Ime1Kernel.Scatter` | kernels/q4_0-q8_0-IME-m8b/implementations/smt-ime1/kernel.cpp:109-125 | All low stores and then all masked high stores leave every accumulator row at its place. |
| `Ime1Batch.Flush` | kernels/q4_0-q8_0-IME-m8b/implementations/smt-ime1/kernel.cpp:134-174 | A flush folds the buffered blocks in K order. |
| `Ime1Batch.TileKernel` | kernels/q4_0-q8_0-IME-m8b/implementations/smt-ime1/kernel.cpp:26-176 | For every block count each tile element is folded once with each of its terms, in K order, and nothing outside the tile changes. |
| `Ime1Adapter.M8State.RunOnce` | kernels/q4_0-q8_0-IME-m8b/implementations/smt-ime1/adapter.cpp:72-91 | Any order of the row tiles and any stale output give the product. |
| `Ime1Adapter.CompareKernels` | kernels/q4_0-q8_0-IME-m8b-DPU-CB/implementations/spacemit-k1-a60/adapter.cpp:82-139 | m8b-CB and m8b-DPU-CB store, operation for operation, the floats of the unblocked m8b, for any shape, order of the parallel N tiles and stale contents. |
| `PreUnpack.UnpackBlock` | kernels/q4_0-q8_0-IME-m8b-DPU-CB/implementations/spacemit-k1-a60/kernel.cpp:30-45 | The stored nibbles are the signed weights of the packed block, register by register. |
| `PreUnpack.PanelFlush` | kernels/q4_0-q8_0-IME-m8b-DPU-CB/implementations/spacemit-k1-a60/kernel.cpp:151-212 | A flush starts from zero, C or the local tile and stores to C or the local tile, and always folds in K order. |
| `PreUnpack.PanelKernel` | kernels/q4_0-q8_0-IME-m8b-DPU-CB/implementations/spacemit-k1-a60/kernel.cpp:47-214 | With its first-panel, first-flush and final-flush cases the kernel folds the panel onto zero or onto C. |
| `PanelLayout.IndexInBounds` | kernels/q4_0-q8_0-IME-m8b-CB/implementations/spacemit-k1-a60/adapter.cpp:65-71 | Padded and dense panel indices are in bounds for every shape. |
| `PanelLayout.IndexInjective` | kernels/q4_0-q8_0-IME-m8b-CB/implementations/spacemit-k1-a60/adapter.cpp:65-71 | Distinct (M tile, K block) pairs have distinct places, padded or dense. |
| `PanelLayout.IndexOnto` | kernels/q4_0-q8_0-IME-m8b-DPU-CB/implementations/spacemit-k1-a60/adapter.cpp:65-71 | The dense index is onto `0 .. tiles_m * blocks_k`, with a short last panel too. |
| `CacheBlocking.CallReady` | kernels/q4_0-q8_0-IME-m8b-DPU-CB/implementations/spacemit-k1-a60/adapter.cpp:115-118 | A kernel call reads back exactly the blocks `prepare` stored for its tile. |
| `CacheBlocking.TileUpdated` | kernels/q4_0-q8_0-IME-m8b-DPU-CB/implementations/spacemit-k1-a60/adapter.cpp:119-123 | A kernel call extends the tile's sums by the panel's blocks. |
| `CacheBlocking.CacheBlockedState.PackActivations` | kernels/q4_0-q8_0-IME-m8b-CB/implementations/spacemit-k1-a60/adapter.cpp:65-78 | The panel-major repack stores every block of every M tile. |
| `CacheBlocking.CacheBlockedState.UnpackWeights` | kernels/q4_0-q8_0-IME-m8b-DPU-CB/implementations/spacemit-k1-a60/adapter.cpp:91-99 | After the pre-unpack every weight block is unpacked. |
| `CacheBlocking.CacheBlockedState.UpdateTile` | kernels/q4_0-q8_0-IME-m8b-CB/implementations/spacemit-k1-a60/adapter.cpp:101-113 | One kernel call brings a tile from the panel's first block to its end, first panel included. |
| `CacheBlocking.CacheBlockedState.UpdatePanel` | kernels/q4_0-q8_0-IME-m8b-DPU-CB/implementations/spacemit-k1-a60/adapter.cpp:101-126 | Chunks of M tiles and any order of N tiles visit each tile of the panel once. |
| `CacheBlocking.CacheBlockedState.CopyOut` | kernels/q4_0-q8_0-IME-m8b-CB/implementations/spacemit-k1-a60/adapter.cpp:118-127 | Every packed C tile reaches its place in the output. |
| `CacheBlocking.CacheBlockedState.Run` | kernels/q4_0-q8_0-IME-m8b-CB/implementations/spacemit-k1-a60/adapter.cpp:82-128 | Whatever packed C and the output hold, the run leaves the product. |
| `CacheBlocking.Multiply` | kernels/q4_0-q8_0-IME-m8b-CB/implementations/spacemit-k1-a60/adapter.cpp:50-128 | End to end, both blocked kernels: every element is the reference dot product over the reals. |
| `TileOperands.PackRows` | kernels/common/q4_0_common.h:31-50 | The staged four-row groups are what the m4 and m32 kernels read. |
| `TileOperands.PackColumns` | kernels/q4_0-q8_0-IME-m4n32b/implementations/smt-ime1/adapter.cpp:41-79 | The plane and group packing is what the kernels read, for any tile width. |
| `TileOperands.FoldedMeets` | kernels/q4_0-q8_0-IME-m4n32b/implementations/smt-ime1/adapter.cpp:84-109 | Folding a K panel onto a window advances each element by those blocks. |
| `TileShapes.KernelM4i` | kernels/q4_0-q8_0-IME-m4i/implementations/smt-ime1/kernel.cpp:11-144 | Immediate reduction in register order folds every lane once with each block, in K order. |
| `TileShapes.UnpackMiv` | kernels/q4_0-q8_0-IME-m4i/implementations/smt-ime1/kernel.cpp:149-203 | The register-order tile becomes four rows of the output, and nothing outside the window changes. |
| `M4iAdapter.Run` | kernels/q4_0-q8_0-IME-m4i/implementations/smt-ime1/adapter.cpp:26-45 | Any order of the tile rows and any stale output give the product. |
| `M4iAdapter.Multiply` | kernels/q4_0-q8_0-IME-m4i/implementations/smt-ime1/adapter.cpp:19-45 | m4i end to end: packing, kernel and unpacking leave the product. |
| `M4iBlocking.CopiedNext` | kernels/q4_0-q8_0-IME-m4i-CB/implementations/spacemit-k1-a60/adapter.cpp:59-66 | One copied block keeps the blocks already copied. |
| `M4iBlocking.ReadBack` | kernels/q4_0-q8_0-IME-m4i-CB/implementations/spacemit-k1-a60/adapter.cpp:80-97 | The slice a kernel call reads is the blocks that were copied for it, padding never included. |
| `M4iBlocking.M4iState.Accumulate` | kernels/q4_0-q8_0-IME-m4i-CB/implementations/spacemit-k1-a60/adapter.cpp:80-100 | All K panels bring every packed tile to its whole fold, whatever it held. |
| `M4iBlocking.M4iState.Run` | kernels/q4_0-q8_0-IME-m4i-CB/implementations/spacemit-k1-a60/adapter.cpp:70-115 | The blocked run leaves the product. |
| `M4iBlocking.CompareM4i` | kernels/q4_0-q8_0-IME-m4i-CB/implementations/spacemit-k1-a60/adapter.cpp:45-115 | m4i, m4i-CB and m8b store the same floats for every shape all three admit. |
| `TileShapes.StoreGroup` | kernels/q4_0-q8_0-IME-m4n32b/implementations/smt-ime1/kernel.cpp:20-35 | A short and a masked store put one group of a half into two component rows. |
| `TileShapes.ReduceBatch` | kernels/q4_0-q8_0-IME-m4n32b/implementations/smt-ime1/kernel.cpp:47-70 | The buffered blocks are folded in K order. |
| `TileShapes.KernelM4n32b` | kernels/q4_0-q8_0-IME-m4n32b/implementations/smt-ime1/kernel.cpp:74-142 | For every block count each element is folded once with each block, in K order. |
| `AccumulatingAdapters.CallM4n32b` | kernels/q4_0-q8_0-IME-m4n32b/implementations/smt-ime1/kernel.cpp:74-142 | A call advances its window of the output by a K panel, from zero or from what is there, and keeps the rest. |
| `AccumulatingAdapters.RunM4n32b` | kernels/q4_0-q8_0-IME-m4n32b/implementations/smt-ime1/adapter.cpp:84-109 | The K panel, row chunk, N tile and row nest leaves the product for every K. |
| `TileShapes.KernelM32n4` | kernels/q4_0-q8_0-IME-m32n4/implementations/smt-ime1/kernel.cpp:17-82 | Deferred row reduction folds each element once with each block of the panel, in K order. |
| `AccumulatingAdapters.CallM32n4` | kernels/q4_0-q8_0-IME-m32n4/implementations/smt-ime1/kernel.cpp:17-82 | A call adds its K panel to its window of the output and keeps the rest. |
| `AccumulatingAdapters.RunM32n4` | kernels/q4_0-q8_0-IME-m32n4/implementations/smt-ime1/adapter.cpp:74-93 | The zero fill and the K panel, column chunk, M tile and column nest leave the product for every K. |
| `AccumulatingAdapters.CompareShapes` | kernels/q4_0-q8_0-IME-m32n4/implementations/smt-ime1/adapter.cpp:40-93 | m4i, m4n32b and m32n4 store the same floats for every shape all three admit and every K. |
| `M4bKernel.Unpack` | kernels/q4_0-q8_0-IME-m4b/implementations/smt-ime1/kernel.cpp:110-155 | `store_unpack` leaves the row-major tile. |
| `M4bKernel.KernelM4b` | kernels/q4_0-q8_0-IME-m4b/implementations/smt-ime1/kernel.cpp:23-192 | For every block count the `bk % 32` buffer changes nothing: each element is its own unbatched fold. |
| `M4bKernel.OwnFoldEval` | kernels/q4_0-q8_0-IME-m4b/implementations/smt-ime1/kernel.cpp:163-182 | m4b multiplies by the two scales separately; over the reals it is the same sum. |
| `M4bAdapter.MultiplyOwn` | kernels/q4_0-q8_0-IME-m4b/implementations/smt-ime1/adapter.cpp:12-30 | m4b end to end: its own fold in every element, and the reference dot product over the reals. |
| `RrKernel.OuterProduct` | kernels/q4_0-q8_0-IME-RR/implementations/smt-ime2/kernel.cpp:57-64 | The masked weight scales annihilate all but column zero: a lane is one product of two scales. |
| `RrKernel.SlideStep` | kernels/q4_0-q8_0-IME-RR/implementations/smt-ime2/kernel.cpp:120-120 | After t slides column zero holds tile t's scales. |
| `RrKernel.WStationary` | kernels/q4_0-q8_0-IME-RR/implementations/smt-ime2/kernel.cpp:39-123 | For any tile count, a partial last group included, every tile is reduced with its own scales. |
| `RrAdapter.PackScales` | kernels/q4_0-q8_0-IME-RR/implementations/smt-ime2/adapter.cpp:97-109 | A tile's scales fill its column of the group and no other. |
| `RrAdapter.PlacesDiffer` | kernels/q4_0-q8_0-IME-RR/implementations/smt-ime2/adapter.cpp:94-109 | Distinct blocks have distinct places, or share a scale group in different columns. |
| `RrAdapter.RrState.KernelCall` | kernels/q4_0-q8_0-IME-RR/implementations/smt-ime2/adapter.cpp:155-165 | One K block advances every tile of the chunk. |
| `RrAdapter.RrState.UnpackTile` | kernels/q4_0-q8_0-IME-RR/implementations/smt-ime2/adapter.cpp:45-60 | Four 8 x 8 matrices reach their places in the output. |
| `RrAdapter.RrState.RunChunk` | kernels/q4_0-q8_0-IME-RR/implementations/smt-ime2/adapter.cpp:151-169 | A chunk is zeroed, accumulated over all of K and copied out. |
| `RrAdapter.Multiply` | kernels/q4_0-q8_0-IME-RR/implementations/smt-ime2/adapter.cpp:62-175 | RR end to end over the reals, for every tile count and chunking. |
| `UpstreamIme2.PackColumn` | kernels/q4_0-q8_0-IME-upstream/implementations/smt-ime2/adapter.cpp:47-63 | The two byte groups of a packed column pair the codes K and K + 1 of each half. |
| `UpstreamIme2.NegatedSum` | kernels/q4_0-q8_0-IME-upstream/implementations/smt-ime2/adapter.cpp:94-115 | The 16-bit sum never wraps: what is stored is its negation. |
| `UpstreamIme2.SplitIsBlockDot` | kernels/q4_0-q8_0-IME-upstream/implementations/smt-ime2/ime2_kernels.cpp:590-695 | Sixteen times the high-nibble dots, plus the low-nibble dots, plus eight times the stored sum is the sum of `a * (w - 8)`. |
| `UpstreamIme2.BlockSum` | kernels/q4_0-q8_0-IME-upstream/implementations/smt-ime2/ime2_kernels.cpp:590-695 | The vector kernels' split computation is the reference integer sum. |
| `UpstreamIme2.BlockSumRef` | kernels/q4_0-q8_0-IME-upstream/implementations/smt-ime2/ime2_kernels.cpp:68-92 | The scalar reference kernel's byte loop is the same sum. |
| `UpstreamWrapper.TileKernel` | kernels/q4_0-q8_0-IME-upstream/implementations/smt-ime2/ime2_kernels.cpp:590-695 | Every element of the rows taken is the sum of its terms. |
| `UpstreamWrapper.GemmKernel` | kernels/q4_0-q8_0-IME-upstream/implementations/smt-ime2/ime2_kernels.cpp:928-954 | Takes four rows when four are left, else one; leaves those rows right and keeps what was. |
| `UpstreamWrapper.WalkRows` | kernels/q4_0-q8_0-IME-upstream/implementations/smt-ime2/wrapper.cpp:24-38 | The rows-handled loop ends, takes each row once and keeps what was right. |
| `UpstreamWrapper.Wrapper` | kernels/q4_0-q8_0-IME-upstream/implementations/smt-ime2/wrapper.cpp:14-41 | All rows and columns of the call are right afterwards. |
| `UpstreamWrapper.Multiply` | kernels/q4_0-q8_0-IME-upstream/implementations/smt-ime2/adapter.cpp:94-149 | The upstream IME2 path end to end, for row counts that are not a multiple of four too. |
| `RvvKernel.PlaceInjective` | kernels/q4_0-q8_0-RVV-group/implementations/rvv-vlen256/adapter.cpp:37-46 | The overlapping 24-byte interleave gives each (row, code) its own byte. |
| `RvvKernel.WordByte` | kernels/q4_0-q8_0-RVV-group/implementations/rvv-vlen256/kernel.cpp:64-110 | Bytes taken from a 64-bit word by shift and mask are the stored signed codes. |
| `RvvKernel.BlockSums` | kernels/q4_0-q8_0-RVV-group/implementations/rvv-vlen256/kernel.cpp:64-180 | The prefetch pipeline multiplies every byte row once and loads none past the block. |
| `RvvKernel.SumsAreBlockDots` | kernels/q4_0-q8_0-RVV-my/implementations/rvv-vlen256/kernel.cpp:60-140 | Every 16-bit lane is the exact reference sum and stays within 32512. |
| `RvvAdapter.PackA` | kernels/q4_0-q8_0-RVV-group/implementations/rvv-vlen256/adapter.cpp:32-47 | The interleaved activations, for twelve and for eight rows. |
| `RvvAdapter.PackB` | kernels/q4_0-q8_0-RVV-my/implementations/rvv-vlen256/adapter.cpp:39-48 | The byte rows of the weights. |
| `RvvAdapter.RunTile` | kernels/q4_0-q8_0-RVV-my/implementations/rvv-vlen256/kernel.cpp:49-188 | One tile of the output is the product; other finished elements stay. |
| `RvvAdapter.Multiply` | kernels/q4_0-q8_0-RVV-group/implementations/rvv-vlen256/adapter.cpp:28-66 | RVV-group and RVV-my end to end: codes within 127 suffice for the product. |
| `QuantizedInput.RvvFromFloats` | kernels/q4_0-q8_0-RVV-my/implementations/rvv-vlen256/adapter.cpp:25-57 | The same from float activations: the quantizer itself supplies the range. |
| `Iq2Block.SignMaskEven` | kernels/common/iq2_xxs.h:25-27 | The mask keeps the seven index bits and sets an even number of bits. |
| `Iq2Block.DecodeSubblock` | kernels/common/iq2_xxs.h:29-41 | With sign indices s0..s3 and scale code c as the 7-bit and 4-bit fields of the word: lane l of group g is the entry magnitude, negative exactly when bit l of s_g, or for lane 7 the parity of its seven bits, is set; the scale is 2c + 1. |
| `Iq2Block.WordFields` | kernels/common/iq2_xxs.h:29-41 | Every 32-bit word has such fields. |
| `Iq2Block.MaskBit` | kernels/common/iq2_xxs.h:25-27 | The bits of the sign mask are those of the index and, as bit 7, their parity. |
| `Iq2Block.DecodeBlock` | kernels/common/iq2_xxs.h:29-41 | All eight subblocks mean, bit by bit, what their words and indices say. |
| `Iq2Block.EvenNegations` | kernels/common/iq2_xxs.h:25-41 | Every group of eight decoded weights has an even number negated. |
| `Iq2Block.DecodedTotal` | kernels/common/iq2_xxs.h:29-41 | A decoded subblock has the magnitudes of its four grid entries, whatever the signs. |
| `Iq2Block.KernelBlockFits` | kernels/iq2_xxs-q8_K-RVV-my-br/implementations/rvv-vlen256/kernel.cpp:168-181 | The 32-bit block sums never wrap. |
| `Iq2Block.BlockDifference` | kernels/iq2_xxs-q8_K-RVV-my-br/implementations/rvv-vlen256/kernel.cpp:153-181 | The exact sum is the kernel's plus 65536 times the scaled carries lost. |
| `Iq2Block.AgreesForAll` | kernels/iq2_xxs-q8_K-RVV-my-br/implementations/rvv-vlen256/kernel.cpp:153-181 | A weight block gives the exact sum for all activation codes if and only if each subblock's magnitudes total at most 258. |
| `Iq2Block.GridOverflows` | kernels/common/iq2_xxs.h:14-23 | A block of the repository's own grid entry 10 whose exact sum wraps in every subblock. |
| `Iq2Safety.LostIsDifference` | bench/llama_reference/llama_reference.cpp:148-161 | How far an element is from the reference, exactly. |
| `Iq2Safety.DotIq2Q8K` | bench/llama_reference/llama_reference.cpp:148-161 | The decode, sum and scale loop is 0.125 times both scales times the exact integer sum. |
| `Iq2Safety.ReferenceDot` | bench/llama_reference/llama_reference.cpp:193-205 | The sum over the blocks is the reference element the kernels are compared with. |
| `Iq2Safety.AgreesExactlyWhenSafe` | bench/llama_reference/llama_reference.cpp:148-161 | A column of packed weights gives the reference for every row of quantized activations if and only if every block with a scale has, in each subblock, grid entries of total magnitude at most 258. |
| `Iq2Kernel.PackA` | kernels/iq2_xxs-q8_K-RVV-my-br/implementations/rvv-vlen256/kernel.cpp:78-89 | The twelve-row interleave. |
| `Iq2Kernel.PackW` | kernels/iq2_xxs-q8_K-RVV-my-br/implementations/rvv-vlen256/kernel.cpp:57-68 | The write-back leaves the weights column-interleaved. |
| `Iq2Kernel.SubblockSums` | kernels/iq2_xxs-q8_K-RVV-my-br/implementations/rvv-vlen256/kernel.cpp:153-165 | The 16-bit sums with wrap-around, step by step. |
| `Iq2Kernel.BlockSumsBatch` | kernels/iq2_xxs-q8_K-RVV-my-br/implementations/rvv-vlen256/kernel.cpp:168-181 | All subblock sums first, then the scales: the kernel's block sum. |
| `Iq2Kernel.BlockSumsImmediate` | kernels/iq2_xxs-q8_K-RVV-my-ir/implementations/rvv-vlen256/kernel.cpp:146-175 | Scales as soon as a subblock is done: the same block sum. |
| `Iq2Gemm.FitsIsReference` | bench/llama_reference/llama_reference.cpp:148-161 | Sums that fit 16 bits give the reference element. |
| `Iq2Gemm.MultiplyBr` | kernels/iq2_xxs-q8_K-RVV-my-br/implementations/rvv-vlen256/kernel.cpp:143-212 | For every shape, K over several panels included, every element is the scaled sum of its block sums. |
| `Iq2Gemm.MultiplyIr` | kernels/iq2_xxs-q8_K-RVV-my-ir/implementations/rvv-vlen256/kernel.cpp:146-195 | The same element values from the other loop order. |
| `Iq2Gemm.Compare` | kernels/iq2_xxs-q8_K-RVV-common/implementations/rvv-vlen256/iq2_xxs_adapter.cpp:44-55 | From packed weights: both kernels agree everywhere, and with the reference in every safe column. |
| `QuantizedInput.QuantizeQ8KBlock` | bench/llama_reference/llama_reference.cpp:54-70 | 127 times the scale is the largest magnitude; every code is the rounded quotient, errs by 1/254 of that magnitude at most and is 127 or -127 for an element of it. |
| `QuantizedInput.Iq2FromFloats` | kernels/iq2_xxs-q8_K-RVV-common/implementations/rvv-vlen256/iq2_xxs_adapter.cpp:44-55 | The same comparison from float activations. |
| `Quantizers.CodeQ8` | bench/llama_reference/llama_reference.cpp:38-52 | Scaling by the largest magnitude and rounding errs by half a step at most. |
| `Quantizers.CodeQ4` | bench/llama_reference/llama_reference.cpp:13-36 | Half a step at most, or one step at the clamped opposite extreme. |
| `Quantizers.ExtremeCode` | bench/llama_reference/llama_reference.cpp:13-36 | The element that sets the scale gets code zero. |
| `Quantizers.FaithfulUnique` | bench/llama_reference/llama_reference.cpp:38-52 | What is promised of a Q8_0 block determines its scale and every code. |
| `Quantizers.QuantizeQ40Block` | bench/llama_reference/llama_reference.cpp:13-36 | One block: -8 times the scale is the first element of largest magnitude, every weight the rounded quotient or 7, with its error bound. |
| `Quantizers.QuantizeRowQ80` | bench/llama_reference/llama_reference.cpp:38-52 | Every block of any row: 127 times the scale is the largest magnitude, codes are the rounded quotients, errors are at most 1/254 of it, an element of that magnitude gets 127 or -127. |
| `Quantizers.QuantizeRowQ40` | bench/llama_reference/llama_reference.cpp:13-36 | Every block of any row: the scale from the first largest element, rounded weights in -8..7, the error bounds, -8 for that element. |
| `QuantizedInput.QuantizeActivations` | kernels/q4_0-q8_0-IME-m8b/implementations/smt-ime2/adapter.cpp:75-78 | Quantizing row after row gives matrix blocks that all have their scale and codes. |
| `PointerRing.ShuffledOrder` | machine-benchmarks/spacemit-k3-a100/k3_mem_latency.cpp:67-74 | The order is a function of the draws, the swap of place i taking draw(i) modulo i + 1, and a permutation; the last place holds the first draw. |
| `PointerRing.ShuffleOneToOne` | machine-benchmarks/spacemit-k3-a100/k3_mem_latency.cpp:72-74 | Every permutation comes from exactly one choice of reduced draws. |
| `PointerRing.FirstSettled` | machine-benchmarks/spacemit-k3-a100/k3_mem_latency.cpp:72-74 | The place swapped first keeps what its chosen place held. |
| `PointerRing.ZeroDrawsRotate` | machine-benchmarks/spacemit-k3-a100/k3_mem_latency.cpp:72-74 | Four nodes and zero draws give the order 1, 2, 3, 0. |
| `PointerRing.BuildRing` | machine-benchmarks/spacemit-k3-a100/k3_mem_latency.cpp:75-80 | Each node, 64 bytes a node, is linked once, to the next of the order. |
| `PointerRing.Chase` | machine-benchmarks/spacemit-k3-a100/k3_mem_latency.cpp:21-31 | From place j, the node as many places on as there are loads, round the ring. |
| `PointerRing.RepeatsOnlyAfterAll` | machine-benchmarks/k1_memory_latency.cpp:135-144 | A node is met again if and only if the step counts agree modulo the node count. |
| `PointerRing.VisitsEveryNode` | machine-benchmarks/k1_memory_latency.cpp:135-144 | Every node is met within one round. |
| `PointerRing.ShuffledPanels` | machine-benchmarks/dpu_cb_prefetch.cpp:121-133 | The panel offsets are those of the same shuffle of the draws. |
| `PointerRing.FixPrefix` | machine-benchmarks/dpu_cb_prefetch.cpp:134-141 | Panels 37, 4 and 81 are found and brought to the first three places by one swap each; all else stays. |
| `VectorUnit.Vmadot1Lane` | kernels/q4_0-q8_0-IME-m8b/implementations/smt-ime1/kernel.cpp:81-99 | A lane of the 4 x 8 by 8 x 4 dot, without wrap for these operands. |
| `VectorUnit.Vmadot2Lane` | kernels/q4_0-q8_0-IME-m8b/implementations/smt-ime2/kernel.cpp:96-114 | A lane of the 8 x 16 by 16 x 8 dot, without wrap for these operands. |
| `VectorUnit.StoreMasked` | kernels/q4_0-q8_0-IME-m8b/implementations/smt-ime2/kernel.cpp:156-158 | A masked store of short length writes exactly the window it selects. |

## Findings

**IQ2_XXS, 16-bit subblock sums.** Both kernels add 32 products in 16-bit lanes
(kernels/iq2_xxs-q8_K-RVV-my-br/implementations/rvv-vlen256/kernel.cpp:111-120), while the reference adds
them in wider integers. For activation codes within 127 they agree on a weight block if and only if every
subblock's magnitudes total at most 258 (`Iq2Block.AgreesForAll`; for a whole column of packed weights,
`Iq2Safety.AgreesExactlyWhenSafe`, where blocks with a zero scale are exempt). Signs do not matter, so the
condition is a sum over four grid indices that a caller can look up (`Iq2Block.DecodedTotal`). The grid's
own entries violate it: four copies of entry 10, 0x08080808082b2b2b (kernels/common/iq2_xxs.h:14-23), total
676, and activations of 127 give 85852 where the lane holds 20316 (`Iq2Block.GridOverflows`). The two
kernels still agree with each other (`Iq2Gemm.Compare`).

**A region that ends at 2^64.** `deallocate` tests `address >= begin + bytes` in 64 bits
(kernels/common/tcm_arena.cpp:282). A free reaches the arena of its pointer if and only if that arena's
region ends below 2^64 (`TcmManager.DeallocateReachesOwner`); in a region that ends exactly there nothing is
ever freed (`TcmManager.TopRegionNeverFreed`). A user-space mapping never lies there, so in practice every
free reaches its arena.

**A chase of zero steps.** The loop of `chase` decrements before it tests
(machine-benchmarks/spacemit-k3-a100/k3_mem_latency.cpp:21-31), so a count of zero would make 2^64 loads.
`PointerRing.Chase` counts it so; the benchmark never asks for zero.

## Left out

- Rounding of floats and the half-precision conversions: kernels are compared as expressions, or over the reals.
- RR and the IQ2 kernels are modelled over the reals only; m4b and the upstream IME2 path have expressions of their own, which are compared with the reference over the reals.
- `mmap`, `/dev/tcm`, `sched_getcpu`, affinity, timing and the performance counters: the mapped address and the CPU are parameters, `call_once` is a flag.
- Mutexes, memory orders: each allocator call is one step, barrier accesses are sequentially consistent.
- The choice between TCM and the stack for kernel buffers: the buffers hold anything at the start either way.
- Parallel loops are run tile by tile in any order; interleaving inside a tile is not modelled, and tiles write disjoint elements.
- The body of `quantize_a_4row_i8` is not part of this model: its output layout, 32-byte chunks by K window, is assumed, and its codes are taken to be those of the reference quantizer whose scales overwrite its own.
- The plain m8b-DPU adapter: it would repeat the pre-unpack of m8b-DPU-CB and the tile loop of m8b.
- Packed operands of the first matrix unit's kernels, RVV and IQ2 are records of bytes and scales per block, not one flat buffer; the m8b kernel of the second unit and RR use the flat index arithmetic.
- m4i, m4n32b, m32n4 and m4b hold each packed tile as a sequence of its own; m8b, m8b-CB, m8b-DPU-CB and m4i-CB fill arrays in place.
- UpstreamWrapper.Multiply: the four-row kernel always stores 32 columns, so shapes have columns in multiples of 32, as the adapter demands.
- UpstreamIme2.BlockSum: the bits of `smt.vpack` and `smt.vnpack4` are not modelled, only that they separate the nibbles.
- M4bKernel.Unpack: gives the tile of `store_unpack` directly; the pulled-back masked stores are modelled for m4i, m4n32b and both m8b kernels.
- The IQ2 grid is a parameter of 256 entries of eight magnitudes below 128, and the sign table is computed by `sign_mask`; the lookup tables are not compared with it.
- `std::shuffle`, `std::mt19937_64` and the xorshift are arbitrary streams of draws.
- Q4_K kernels, the group sums of `quantize_row_q8_K`, the RVV-upstream kernels, the IME1 upstream kernels, the registry, argument parsing and statistics.
