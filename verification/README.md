# Verification models of the Kraken inference kernels and offloading code

This project models the parts of the Kraken TP3 serving stack whose correctness rests on
index arithmetic, byte copies and step-by-step state changes, and proves what they are for.

- **Recurrent state in block columns** (`AlignPolicy`, `AlignState`, `AlignStep`, `AlignWorld`,
  `AlignRunner`, `AlignRuns`). A request keeps its recurrent state in columns of a block table. A step
  migrates the state to the column it will run in, runs the model over confirmed and draft
  tokens, takes the accepted count, and saves the state at the last completed block. A state
  stands for the tokens it was computed from, so "the right state" means equal histories.
  `AlignWorld` is the protocol over batches, the prefix cache, admissions and evictions;
  `AlignRunner` is the worker that updates dictionary, staging arrays and pool in place, in
  both of its forms, proved against the protocol; `AlignRuns` loops over whole runs of it.
- **Copies under concurrency** (`RaceFree`, `TiledMemcpy`, `StateBlockCopy`, `LaneOrder`,
  `CopyRefinement`, `Bytes`). Byte memory, tiles and lanes. `RaceFree` gives a machine of
  single-byte loads and stores and the ordering that makes any interleaving a simultaneous
  copy; the kernels' loops are shown to meet it. `CopyRefinement` reads the bytes back: the
  copy is the step that the protocol takes.
- **Mixed-residency memory** (`VmmState`, `VmmDriver`, `OwnerBooks`, `Residency`,
  `ResidencyPlan`, `Rollback`, `MixedResidency`, `ResidencyRuns`, `LazyTable`, `VmmPolicy`). A
  driver with handles, reservations and mappings, any of whose calls may fail, the owner object
  that swaps the memory behind a fixed address range, and the table backed chunk by chunk. The
  driver model refuses what CUDA refuses: partial unmaps, maps over mapped or unreserved
  addresses, freeing a range in use.
- **Merging attention over key shards** (`Extended`, `Softmax`, `LseCombine`, `DcpMask`,
  `DcpExchange`). Reals with NaN and the two infinities; an exponential and its logarithm are
  parameters with their two laws, so both bases are covered. Each implementation is proved
  equal to softmax attention over the union of the shards. A shard without keys reports any
  log-sum-exp that is not finite.
- **Projection kernels** (`RealSums`, `Projection`, `TensorCoreGemv`, `SimtGemv`, `TiledGemm`).
  Three tilings of the same sum of products, over the reals, each proved equal to it for every
  element of the output.
- **Expert slices, cache zeroing, block size, prompt ranges** (`ExpertSlices`, `KvLayout`,
  `KvZeroer`, `BlockSize`, `PrefillRanges`).

`dafny verify dfyconfig.toml` checks the project.

Where code and documentation disagree, the model follows the code:

- `region_plan` is documented to return the largest whole-page prefix covering the wanted
  fraction of the live bytes; it returns the smallest one, counted in pages of the region.
- A cold fraction above 1 gives a negative page count; the page set is then empty, but the
  chunking test compares the count with 0, so such a region is never chunked.
- The pre-copy kernel's bias is documented as the accepted count less one; the V2 staging
  stores that maximised with 0, which is the same for every accepted count the sampler gives.

## Model

| member | source | states |
|---|---|---|
| AlignPolicy.StagingAgrees | GLM-5.3-Flash Kraken-tp3/mamba_utils.py:606-624 | The V1 and V2 staging of a step advance to the same column and leave the same accepted count, and whenever either migrates a state they migrate the same one with the same bias |
| AlignPolicy.RunningColumn | GLM-5.3-Flash Kraken-tp3/mamba_utils.py:1746-1762 | The running column is past every complete block of the computed tokens and holds the last scheduled token |
| AlignPolicy.StateSlotIsRunningColumn | GLM-5.3-Flash Kraken-tp3/mamba_utils.py:62-67 | The index kernel's first state slot is the column the preprocess step names, for every positive sequence length, and 0 for an empty one |
| AlignPolicy.PostAgrees | GLM-5.3-Flash Kraken-tp3/mamba_utils.py:526-537 | The kernel that is given the advanced count and the one that derives it decide alike on every input, negative counts included |
| AlignPolicy.SavesIffBoundary | GLM-5.3-Flash Kraken-tp3/mamba_utils.py:536-541 | A step saves if and only if some multiple of the block size lies among the token counts its forward pass wrote a state for |
| AlignPolicy.DecodeSavesLastBoundary | GLM-5.3-Flash Kraken-tp3/mamba_utils.py:522-545 | A decode step saves if and only if it commits past a block boundary, and then the boundary saved is the last one |
| AlignPolicy.SaveGeometry | GLM-5.3-Flash Kraken-tp3/mamba_utils.py:543-555 | For a saving step: the bias is below the accepted count, so source plus bias stays in the speculative columns; the destination never passes the source; the count is reset only if the new count is itself the boundary; the copy is skipped only when it would be the identity |
| AlignPolicy.NextColumnPastBoundary | GLM-5.3-Flash Kraken-tp3/mamba_utils.py:1746-1762 | No later step runs in a column saved before it |
| AlignState.CopyBlockShows | GLM-5.3-Flash Kraken-tp3/mamba_utils.py:222-240 | A block copy carries what the source columns show at the bias to offset 0 of the destination, for both kinds of state |
| AlignState.CopyBlockSamples | GLM-5.3-Flash Kraken-tp3/mamba_utils.py:222-240 | Sample by sample: the first width - bias come from the source at the bias, the rest of the destination stays; the temporal state is the biased column's |
| AlignState.ForwardShows | GLM-5.3-Flash Kraken-tp3/mamba_utils.py:1750-1761 | If the running column shows a history at the accepted offset, after the forward pass column `col + i` shows that history with the confirmed tokens and the first `i` drafts appended |
| AlignState.ForwardFrame | GLM-5.3-Flash Kraken-tp3/mamba_utils.py:1750-1761 | The forward pass changes no block outside the columns of the speculative positions |
| AlignStep.PrecopyLoads | GLM-5.3-Flash Kraken-tp3/mamba_utils.py:680-709 | Whether it migrates or not, the pre-copy leaves exactly the committed tokens at temporal column index + accepted - 1 and in the convolution window shifted by accepted - 1 |
| AlignStep.ForwardWrites | GLM-5.3-Flash Kraken-tp3/mamba_utils.py:1750-1761 | Started there, the forward pass leaves one correct state per speculative position |
| AlignStep.PostSaves | GLM-5.3-Flash Kraken-tp3/mamba_utils.py:543-578 | A saving step leaves the state for exactly the boundary count in column boundary / block size - 1, copied or already in place |
| AlignStep.PostLeavesReady | GLM-5.3-Flash Kraken-tp3/mamba_utils.py:547-555 | After the postprocess the next step finds exactly the committed tokens, so a reset of the count loses no token |
| AlignStep.PhasesStayInWindow | GLM-5.3-Flash Kraken-tp3/mamba_utils.py:557-578 | Each phase writes only the request's own window of columns, never a block of already complete tokens |
| AlignWorld.PassWorks | GLM-5.3-Flash Kraken-tp3/mamba_utils.py:669-709 | One kernel pass over a batch takes every request from the phase's precondition to its postcondition and touches nothing outside the requests' windows |
| AlignWorld.BatchKeepsWorld | GLM-5.3-Flash Kraken-tp3/mamba_utils.py:1694-1798 | A batch keeps every request resumable and every cached block true, and each of its forward passes starts from exactly that request's committed tokens |
| AlignWorld.BatchKeepsCache | GLM-5.3-Flash Kraken-tp3/mamba_utils.py:536-578 | A batch forgets no cached block and changes none of their histories; every block it adds is where one of its jobs saved a boundary, under what that job saved |
| AlignWorld.CachedBlocksAreStable | GLM-5.3-Flash Kraken-tp3/mamba_utils.py:445-578 | A block that is in the prefix cache is not changed by any step of any request |
| AlignWorld.BoundariesArePublished | GLM-5.3-Flash Kraken-tp3/mamba_utils.py:536-578 | Each saved boundary is published under its block with exactly the tokens up to it, and survives the other requests of the batch |
| AlignWorld.DecodePublishesLastBoundary | GLM-5.3-Flash Kraken-tp3/mamba_utils.py:536-545 | A decode step publishes if and only if it completes a block; what it publishes is the committed tokens cut at the last complete block |
| AlignWorld.EventKeepsWorld | GLM-5.3-Flash Kraken-tp3/mamba_utils.py:1646-1661 | Steps, admissions (fresh or resumed from a cached block) and evictions each keep the world consistent |
| AlignWorld.StartOk | GLM-5.3-Flash Kraken-tp3/mamba_utils.py:1736-1741 | An engine whose requests have run nothing and whose cache is empty is a consistent world |
| AlignWorld.AlwaysAdmissible | GLM-5.3-Flash Kraken-tp3/mamba_utils.py:1736-1741 | A fresh request can always be admitted, and a cached history resumed in the block that holds it |
| AlignWorld.FirstStepOk | GLM-5.3-Flash Kraken-tp3/mamba_utils.py:1736-1762 | Given blocks that nobody uses, a fresh request can take its first step, with any inputs and any number of accepted drafts |
| AlignWorld.RunKeepsWorld | GLM-5.3-Flash Kraken-tp3/mamba_utils.py:1694-1798 | Over every run of such events, each request's next step finds exactly its committed tokens and each cached block holds exactly its own |
| AlignWorld.RunKeepsCache | GLM-5.3-Flash Kraken-tp3/mamba_utils.py:536-578 | Over every run: a block once cached stays cached under the same history until an eviction names it, and still holds that history |
| AlignRunner.Worker.CopyStateBlock | GLM-5.3-Flash Kraken-tp3/mamba_utils.py:199-240 | In place, on the block pool: the new pool is the block-copy function of the old one |
| AlignRunner.Worker.CleanupStateIdx | GLM-5.3-Flash Kraken-tp3/mamba_utils.py:1646-1661 | Exactly the finished, preempted and resumed entries leave the dictionary; the others keep their value |
| AlignRunner.Worker.StageRow | GLM-5.3-Flash Kraken-tp3/mamba_utils.py:1739-1784 | One iteration stages what the protocol's staging function says, updates its own dictionary entry and no other row |
| AlignRunner.Worker.PreprocessMamba | GLM-5.3-Flash Kraken-tp3/mamba_utils.py:1722-1784 | The loop over the batch stages every row and advances every entry of the dictionary |
| AlignRunner.Worker.PreprocessAlignFused | GLM-5.3-Flash Kraken-tp3/mamba_utils.py:581-624 | The fused V2 preprocess stores, per slot, the V2 staging of the old state, and leaves slots outside the batch alone |
| AlignRunner.Worker.PrecopyAlignFused | GLM-5.3-Flash Kraken-tp3/mamba_utils.py:627-709 | The pre-copy kernel computes the pre-copy pass of the protocol, with rows found by batch position or by slot |
| AlignRunner.Worker.PostprocessRow | GLM-5.3-Flash Kraken-tp3/mamba_utils.py:522-578 | One program of the postprocess kernel, in either form of its inputs, with the counts read from the staged arrays: the pool is the protocol's, the accepted count is the advanced request's |
| AlignRunner.Worker.PostprocessFused | GLM-5.3-Flash Kraken-tp3/mamba_utils.py:445-578 | The kernel over the batch computes the postprocess pass and settles every row's accepted count |
| AlignRunner.Worker.RunBatch | GLM-5.3-Flash Kraken-tp3/mamba_utils.py:1694-1798 | A whole V1 step leaves the pool that the protocol's step function computes, and every request's dictionary entry as the next step expects it |
| AlignRunner.Worker.StageFused | GLM-5.3-Flash Kraken-tp3/mamba_utils.py:606-624 | What the V2 kernel stores serves the pre-copy kernel and the forward pass exactly as the V1 staging does |
| AlignRunner.Worker.RunBatchFused | GLM-5.3-Flash Kraken-tp3/mamba_utils.py:581-709 | A whole V2 step leaves the same pool, and every slot, in the batch or not, as the next V2 step expects it |
| AlignRunner.Worker.StagePostprocessInputs | GLM-5.3-Flash Kraken-tp3/mamba_utils.py:1904-1950 | The staged arrays hold, per batch position, what the kernel's derived form needs: running column, scheduled, computed and draft counts |
| AlignRuns.RunV1 | GLM-5.3-Flash Kraken-tp3/mamba_utils.py:1694-1798 | Any run of the V1 worker, with steps, admissions, the dictionary cleanup and cache evictions in any order, leaves the pool, requests and dictionary of the protocol's run, whose world is consistent; the accepted counts of each step are those that earlier steps left in the input batch |
| AlignRuns.SaveCounts | GLM-5.3-Flash Kraken-tp3/mamba_utils.py:1895-1901 | The counts the kernel left in the rows go back to the input batch, request by request; other requests keep theirs |
| AlignRuns.RunV2 | GLM-5.3-Flash Kraken-tp3/mamba_utils.py:581-709 | Any run of the V2 worker over the same events leaves the same pool and requests, and every slot as the next step expects it |
| AlignRunner.EntriesAdvance | GLM-5.3-Flash Kraken-tp3/mamba_utils.py:1722-1762 | Over a batch, entries of scheduled requests become their running columns and all other entries stay, which is what the advanced requests carry |
| AlignRunner.DictAfterAt | GLM-5.3-Flash Kraken-tp3/mamba_utils.py:1761-1762 | The dictionary entry after a step is the one the advanced request carries into the next |
| RaceFree.HazardFreeRunCopies | GLM-5.3-Flash Kraken-tp3/mamba_utils.py:722-733 | Every interleaving of single-byte loads and stores in which each byte is loaded before the store that overwrites it performs the simultaneous copy |
| RaceFree.DisjointSpanCopies | GLM-5.3-Flash Kraken-tp3/mamba_utils.py:330-343 | Disjoint regions copy correctly under every interleaving |
| RaceFree.LeftShiftCopies | GLM-5.3-Flash Kraken-tp3/mamba_utils.py:345-347 | A left shift copies like memmove whenever each source byte is loaded before its overwriter stores |
| RaceFree.UnorderedLeftShiftFails | GLM-5.3-Flash Kraken-tp3/mamba_utils.py:729-732 | Without that order a two-byte shift can lose a byte, so the barrier is needed |
| TiledMemcpy.ByteHasOneTile | GLM-5.3-Flash Kraken-tp3/mamba_utils.py:148-157 | Every byte of the copy belongs to exactly one tile, on both paths and for all addresses, sizes and tile counts |
| TiledMemcpy.PerTileIsLeast | GLM-5.3-Flash Kraken-tp3/mamba_utils.py:150-157 | A tile's share is a whole number of vector iterations, enough for all tiles together to get through, and the least such; so only the last tile with work is ever masked |
| TiledMemcpy.BodyAligned | GLM-5.3-Flash Kraken-tp3/mamba_utils.py:135-165 | On the vectorized path every 64-bit access is 8-aligned in source and destination |
| TiledMemcpy.CopyTile | GLM-5.3-Flash Kraken-tp3/mamba_utils.py:132-190 | One program writes exactly the bytes its tile owns, each from its own source byte, and nothing else |
| TiledMemcpy.CopyTiles | GLM-5.3-Flash Kraken-tp3/mamba_utils.py:111-190 | Running every tile in any order is a plain copy and changes no byte outside the destination |
| LaneOrder.ConcurrentTilesCopy | GLM-5.3-Flash Kraken-tp3/mamba_utils.py:111-190 | Any interleaving of all tiles' programs, each loading and storing the bytes its tile owns, copies a disjoint region |
| LaneOrder.LaneTakes | GLM-5.3-Flash Kraken-tp3/mamba_utils.py:132-190 | The lane of a byte is the one that the kernel's loop hands it to: head and tail bytes have one each, and turn `i` hands unit `i * vec + lane` to `lane` |
| LaneOrder.OverwriterIsReader | GLM-5.3-Flash Kraken-tp3/mamba_utils.py:345-358 | Why the token loop needs no barrier: the byte that overwrites a source byte is handled by the lane that reads it |
| LaneOrder.TokenShiftCopies | GLM-5.3-Flash Kraken-tp3/mamba_utils.py:345-358 | The same-block token shift equals memmove under every interleaving of its lanes |
| LaneOrder.RowShiftCopies | GLM-5.3-Flash Kraken-tp3/mamba_utils.py:280-316 | Under every interleaving of its lanes the same-block row shift leaves exactly the shifted rows that the row loop is proved to leave |
| LaneOrder.BatchShiftCopies | GLM-5.3-Flash Kraken-tp3/mamba_utils.py:719-733 | The batch copy of left-overlapping regions equals memmove under every interleaving its barriers allow |
| LaneOrder.ShiftMovesRowTokens | GLM-5.3-Flash Kraken-tp3/mamba_utils.py:280-316 | The row-major shift, read token by token across the rows, is the same window step |
| LaneOrder.ShiftMovesTokens | GLM-5.3-Flash Kraken-tp3/mamba_utils.py:226-230 | Read in tokens, the byte shift is `dst := src[bias..] + dst[width - bias..]`, the step the protocol takes |
| CopyRefinement.RunsCopied | GLM-5.3-Flash Kraken-tp3/mamba_utils.py:222-240 | Token by token and in both layouts, the byte copy moves those from the bias on to the front of the window and keeps the rest |
| CopyRefinement.CopyKeepsRest | GLM-5.3-Flash Kraken-tp3/mamba_utils.py:222-240 | Whatever the layout, only the data bytes of the destination block are written |
| CopyRefinement.CopyRefinesWindows | GLM-5.3-Flash Kraken-tp3/mamba_utils.py:199-240 | If memory holds the pool's convolution windows, in either layout and any encoding of samples, then after the byte copy it holds those of the protocol's block copy, in every block |
| CopyRefinement.CopyRefinesStates | GLM-5.3-Flash Kraken-tp3/mamba_utils.py:231-240 | The same for the temporal states and any encoding of histories |
| StateBlockCopy.CopyConvTokens | GLM-5.3-Flash Kraken-tp3/mamba_utils.py:319-359 | Token-major convolution copy, all three branches: the window shifted by the bias, the samples past it untouched |
| StateBlockCopy.CopyConvRows | GLM-5.3-Flash Kraken-tp3/mamba_utils.py:268-317 | Dimension-major convolution copy: every row shifted by the bias, nothing else in the block or elsewhere changed |
| StateBlockCopy.CopyStateBlock | GLM-5.3-Flash Kraken-tp3/mamba_utils.py:199-377 | The whole device function over its tile axis, tiles in any order: temporal or convolution copy between the blocks the table names, at base + block * stride, or to a given destination block |
| StateBlockCopy.BatchMemcpy | GLM-5.3-Flash Kraken-tp3/mamba_utils.py:712-733 | Block by block with a load, a barrier and a store, the copy is memmove for disjoint and left-overlapping regions |
| MixedResidency.Allocation.Build | DeepSeek-V4.1-Flash Kraken-tp3-20261019/src/vllm/model_executor/offloader/vmm_shim.py:242-374 | Rejects exactly the invalid arguments; otherwise succeeds if and only if no driver call fails, and then the pieces tile the range, each mapped whole to a handle of its own size, with the requested prefix in device memory and chunks of the requested size |
| MixedResidency.Allocation.MapAt | DeepSeek-V4.1-Flash Kraken-tp3-20261019/src/vllm/model_executor/offloader/vmm_shim.py:380-390 | One recorded mapping; if the grant fails the mapping is recorded without access, if the map fails nothing changed |
| MixedResidency.Allocation.UnmapAt | DeepSeek-V4.1-Flash Kraken-tp3-20261019/src/vllm/model_executor/offloader/vmm_shim.py:392-395 | One whole mapping removed from records and driver, or nothing changed |
| MixedResidency.Allocation.Remap | DeepSeek-V4.1-Flash Kraken-tp3-20261019/src/vllm/model_executor/offloader/vmm_shim.py:431-438 | Unmap and map; a failing map is undone by mapping the old handle again, and only a second failure loses the mapping |
| MixedResidency.Allocation.CleanUp | DeepSeek-V4.1-Flash Kraken-tp3-20261019/src/vllm/model_executor/offloader/vmm_shim.py:441-448 | The `finally` part drops the temporary mapping, its range, and the new handle unless it is in use, and touches nothing else even when it fails |
| MixedResidency.Allocation.PromoteUpTo | DeepSeek-V4.1-Flash Kraken-tp3-20261019/src/vllm/model_executor/offloader/vmm_shim.py:397-449 | Guards and results; success is exactly the promotion; a single failure whose cleanup succeeds leaves records and driver exactly as before, and only a second failure or a failed cleanup can raise otherwise; with at most one failing driver call the contents never change; a successful cleanup leaves no temporary range |
| MixedResidency.Allocation.EvictPromoted | DeepSeek-V4.1-Flash Kraken-tp3-20261019/src/vllm/model_executor/offloader/vmm_shim.py:495-516 | Success is exactly the eviction; a failed remap that could be undone leaves records and driver exactly as before; a failed release leaves the eviction done and the handle on record |
| MixedResidency.Allocation.PromoteChunk | DeepSeek-V4.1-Flash Kraken-tp3-20261019/src/vllm/model_executor/offloader/vmm_shim.py:455-493 | Success promotes exactly the next chunk, whose host handle is held afterwards exactly if it is to be kept; a failure before the canonical unmap changes no byte and nothing but the new handle's entry |
| MixedResidency.Allocation.Free | DeepSeek-V4.1-Flash Kraken-tp3-20261019/src/vllm/model_executor/offloader/vmm_shim.py:531-541 | Done if and only if no driver call failed; then nothing of the owner is mapped or held; an interrupted call leaves a state from which it can be called again |
| MixedResidency.PromotionVerdict | DeepSeek-V4.1-Flash Kraken-tp3-20261019/src/vllm/model_executor/offloader/vmm_shim.py:425-449 | From what the body and the cleanup of a promotion did: a clean sweep after success leaves exactly the promotion, after failure exactly the old state |
| Rollback.SweepRestores | DeepSeek-V4.1-Flash Kraken-tp3-20261019/src/vllm/model_executor/offloader/vmm_shim.py:441-448 | Sweeping a promotion that never reached the canonical range restores records and driver exactly |
| Rollback.SweepCompletes | DeepSeek-V4.1-Flash Kraken-tp3-20261019/src/vllm/model_executor/offloader/vmm_shim.py:439-448 | Sweeping one that did leaves exactly the promotion |
| Rollback.AsideIsInvisible | DeepSeek-V4.1-Flash Kraken-tp3-20261019/src/vllm/model_executor/offloader/vmm_shim.py:423-430 | Whatever a temporary range and a new handle contain, the canonical range reads the same |
| Residency.DeviceBytesArePrefix | DeepSeek-V4.1-Flash Kraken-tp3-20261019/src/vllm/model_executor/offloader/vmm_shim.py:229-233 | An offset of the range is backed by device memory if and only if it is below `hot_bytes` |
| Residency.PromotionKeepsContents | DeepSeek-V4.1-Flash Kraken-tp3-20261019/src/vllm/model_executor/offloader/vmm_shim.py:428-440 | A promotion changes no byte a kernel reads, and the retained host copy equals what it reads |
| Residency.EvictionShowsRetained | DeepSeek-V4.1-Flash Kraken-tp3-20261019/src/vllm/model_executor/offloader/vmm_shim.py:501-515 | An eviction shows the retained host copy and changes nothing else |
| Residency.EvictionUnreleased | DeepSeek-V4.1-Flash Kraken-tp3-20261019/src/vllm/model_executor/offloader/vmm_shim.py:501-516 | An eviction whose promoted handle could not be released shows the same bytes and leaves the allocation usable |
| Residency.EvictionInvisibleIff | DeepSeek-V4.1-Flash Kraken-tp3-20261019/src/vllm/model_executor/offloader/vmm_shim.py:402-404 | An eviction is invisible if and only if the promoted region still reads as the retained copy |
| Residency.ChunkPromotionKeepsContents | DeepSeek-V4.1-Flash Kraken-tp3-20261019/src/vllm/model_executor/offloader/vmm_shim.py:478-492 | A chunk promotion changes no byte a kernel reads, host memory kept or not |
| Residency.StoreChangesOneByte | DeepSeek-V4.1-Flash Kraken-tp3-20261019/src/vllm/model_executor/offloader/vmm_shim.py:238-239 | A store through the fixed range changes the byte it names and never the retained host copy of a promoted region |
| OwnerBooks.FreedHoldsNothing | DeepSeek-V4.1-Flash Kraken-tp3-20261019/src/vllm/model_executor/offloader/vmm_shim.py:535-541 | Once freed with no temporary range left, the driver holds exactly what belongs to others |
| OwnerBooks.OthersKeep | DeepSeek-V4.1-Flash Kraken-tp3-20261019/src/vllm/model_executor/offloader/vmm_shim.py:535-541 | Whatever an operation leaves of the rest of the driver, it leaves whole: each mapping, reservation and handle of others is there, unchanged and not taken over |
| ResidencyPlan.OpenIntact | DeepSeek-V4.1-Flash Kraken-tp3-20261019/src/vllm/model_executor/offloader/vmm_shim.py:347-374 | Every part mapped and readable makes an undisturbed allocation |
| ResidencyPlan.CutParts | DeepSeek-V4.1-Flash Kraken-tp3-20261019/src/vllm/model_executor/offloader/vmm_shim.py:259-335 | The parts cover the range exactly: a hot prefix, a cold rest, or chunks of the given size when all is cold |
| ResidencyRuns.OnlyStoresShow | DeepSeek-V4.1-Flash Kraken-tp3-20261019/src/vllm/model_executor/offloader/vmm_shim.py:397-516 | Over every sequence of stores, promotions and evictions with no eviction after a store to the promoted region, what is read is what the stores alone make of it |
| ResidencyRuns.DirtyMeans | DeepSeek-V4.1-Flash Kraken-tp3-20261019/src/vllm/model_executor/offloader/vmm_shim.py:495-516 | What the clean runs exclude, exactly: an eviction after a store to the promoted region with no eviction between |
| ResidencyRuns.Drive | DeepSeek-V4.1-Flash Kraken-tp3-20261019/src/vllm/model_executor/offloader/vmm_shim.py:397-541 | Any sequence, with any failures, keeps the records consistent, other owners' memory untouched and, unless a cleanup failed, no temporary range; as long as each operation finished or was refused, which is every run without failing calls, the range reads as the finished ones say, and as the stores alone say when evictions are clean |
| ResidencyRuns.Life | DeepSeek-V4.1-Flash Kraken-tp3-20261019/src/vllm/model_executor/offloader/vmm_shim.py:242-541 | Build, any operations with any failures, free as often as it takes: once freed, and unless a cleanup failed, the driver holds exactly what it held before |
| LazyTable.ChunkInside | DeepSeek-V4.1-Flash Kraken-tp3-20261019/src/vllm/model_executor/offloader/vmm_shim.py:575-575 | The chunks are nonempty, follow one another and end at the size of the range |
| LazyTable.ChunkOf | DeepSeek-V4.1-Flash Kraken-tp3-20261019/src/vllm/model_executor/offloader/vmm_shim.py:575-575 | Every offset of the range is in the chunk that its quotient by the step names |
| LazyTable.LazyHostTable.Open | DeepSeek-V4.1-Flash Kraken-tp3-20261019/src/vllm/model_executor/offloader/vmm_shim.py:565-585 | Rejects exactly a non-positive size; otherwise succeeds if and only if no driver call fails, and then exactly the first chunk is mapped |
| LazyTable.LazyHostTable.MapChunk | DeepSeek-V4.1-Flash Kraken-tp3-20261019/src/vllm/model_executor/offloader/vmm_shim.py:591-616 | A mapped chunk is left alone; success adds exactly this chunk and keeps the bytes of the others; a failed create or map leaves the driver as it was; a failed grant leaves a mapped chunk that is not on record |
| LazyTable.LazyHostTable.MapAll | DeepSeek-V4.1-Flash Kraken-tp3-20261019/src/vllm/model_executor/offloader/vmm_shim.py:618-620 | Success maps every chunk and keeps the handles and bytes of those mapped before; a failure before any grant leaves a consistent table |
| LazyTable.LazyHostTable.Free | DeepSeek-V4.1-Flash Kraken-tp3-20261019/src/vllm/model_executor/offloader/vmm_shim.py:628-637 | Success leaves the driver as it was before the table's range was reserved; after a failed unmap or return the table is consistent and the call can be repeated; after a failed release an unmapped chunk is still on record |
| LazyTable.AllReadable | DeepSeek-V4.1-Flash Kraken-tp3-20261019/src/vllm/model_executor/offloader/vmm_shim.py:558-562 | Once all chunks are mapped every byte of the range can be read |
| LazyTable.NothingLeft | DeepSeek-V4.1-Flash Kraken-tp3-20261019/src/vllm/model_executor/offloader/vmm_shim.py:631-636 | Without chunks the driver is back where it was when the range had been reserved |
| LazyTable.StuckStays | DeepSeek-V4.1-Flash Kraken-tp3-20261019/src/vllm/model_executor/offloader/vmm_shim.py:615-616 | After a failed grant the driver never takes the range back, however many recorded chunks are dropped: `free` cannot finish |
| LazyTable.TidyIsNotStuck | DeepSeek-V4.1-Flash Kraken-tp3-20261019/src/vllm/model_executor/offloader/vmm_shim.py:606-616 | A consistent table has no such chunk |
| VmmPolicy.PlanIsLeast | DeepSeek-V4.1-Flash Kraken-tp3-20261019/src/vllm/model_executor/offloader/vmm_policy.py:28-37 | The region holds the experts with less than a page to spare, and the hot prefix is the least whole-page prefix with the wanted fraction, cut at the region |
| VmmPolicy.HotBytesEnough | DeepSeek-V4.1-Flash Kraken-tp3-20261019/src/vllm/model_executor/offloader/vmm_policy.py:28-41 | In bytes, the prefix holds the wanted fraction of the region, and none of it when everything is cold |
| VmmPolicy.PromotedBytes | DeepSeek-V4.1-Flash Kraken-tp3-20261019/src/vllm/model_executor/offloader/vmm_shim.py:303-313 | After k chunk promotions the first k chunks, or everything, are in device memory; promoting all chunks covers the region |
| VmmPolicy.PromotedExperts | DeepSeek-V4.1-Flash Kraken-tp3-20261019/src/vllm/model_executor/offloader/uva_p4.py:107-109 | With chunks sized for so many experts, k promotions bring every expert below k times that number wholly to device memory |
| VmmPolicy.WrapParameter | DeepSeek-V4.1-Flash Kraken-tp3-20261019/src/vllm/model_executor/offloader/uva_p4.py:99-117 | The allocation is the fewest whole pages that hold the experts; its hot part is the fewest whole pages of the wanted fraction, cut at the region; it is chunked exactly if chunks are asked for, it is a weight and the hot part rounds up to none, each chunk then the fewest pages for its experts; it succeeds exactly if no driver call fails |
| DcpMask.MasksAgree | GLM-5.3-Flash Kraken-tp3/dcp.py:88-97 | The fused boundary count and the eager search mark the same rows: padding, and rows whose owning request has local length 0; every row before the padding has an owner |
| DcpMask.OneOwner | GLM-5.3-Flash Kraken-tp3/dcp.py:91-93 | A row has at most one owning request, so requests without rows are skipped |
| DcpMask.MaskEmptyShards | GLM-5.3-Flash Kraken-tp3/dcp.py:72-97 | In place: exactly the marked rows become minus infinity |
| DcpExchange.PackRoundTrip | GLM-5.3-Flash Kraken-tp3/dcp.py:709-730 | No bit of a log-sum-exp is lost in either packing, NaN payloads included |
| DcpExchange.NegInfBits | GLM-5.3-Flash Kraken-tp3/dcp.py:715-715 | The word sent for a masked row is minus infinity in IEEE 754 single precision |
| DcpExchange.PackSend | GLM-5.3-Flash Kraken-tp3/dcp.py:645-732 | Every head is sent once: head g of a token is in place g % perRank of the message of rank g / perRank, with its outputs and its log-sum-exp bits, minus infinity where the row is masked, as one element or two |
| DcpExchange.ReceivedIsGathered | GLM-5.3-Flash Kraken-tp3/dcp.py:693-730 | What the exchange delivers for a rank's heads is what the all-gather delivers for them, one path masking by boundary count and the other by search |
| DcpExchange.CombineReceived | GLM-5.3-Flash Kraken-tp3/dcp.py:735-857 | From packed messages to result, for head me * perRank + h: softmax attention over the union of that head's shards, equal to the all-gather plus reduce-scatter result |
| Softmax.AnySplit | GLM-5.3-Flash Kraken-tp3/dcp.py:546-612 | However the keys are dealt out to ranks, attention and log-sum-exp over the union of the shards are those of the keys in their own order |
| DcpExchange.Local.SameWord | GLM-5.3-Flash Kraken-tp3/dcp.py:72-97 | The word the fused pack sends is the word the eager mask leaves |
| LseCombine.UnpackCombine | GLM-5.3-Flash Kraken-tp3/dcp.py:755-857 | The three loops give softmax attention and log-sum-exp over the union of the shards: zero and minus infinity when none has keys |
| LseCombine.GatherScatterIsAttention | GLM-5.3-Flash Kraken-tp3/dcp.py:161-214 | The correction kernel on every rank and the sum over ranks give the same attention and log-sum-exp |
| LseCombine.ReferenceIsAttention | GLM-5.3-Flash Kraken-tp3/dcp.py:546-612 | The reference combine, clamp and NaN replacements included, gives the same pair |
| LseCombine.ClampIsIdle | GLM-5.3-Flash Kraken-tp3/dcp.py:595-597 | Whenever some log-sum-exp is finite the weight sum is at least one and the clamp changes nothing; otherwise the sum is zero |
| Extended.SpecialCases | GLM-5.3-Flash Kraken-tp3/dcp.py:165-214 | Infinities and zeros in the kernels' arithmetic follow IEEE 754: opposite infinities cancel to NaN, zero times infinity is NaN, a quotient by zero is signed |
| Extended.SpecialLogs | GLM-5.3-Flash Kraken-tp3/dcp.py:177-186 | The logarithm of zero is minus infinity, that of a negative value NaN, and it undoes the exponential |
| TensorCoreGemv.SlotRoundTrip | GLM-5.3-Flash Kraken-tp3-20260927/src/b12x/gemm/bf16_gemv/_tensor_core.py:116-136 | From the K index a slot reads, chunk, fragment and slot can be read back: no index is read twice |
| TensorCoreGemv.IndexRoundTrip | GLM-5.3-Flash Kraken-tp3-20260927/src/b12x/gemm/bf16_gemv/_tensor_core.py:116-136 | Every K index is read by some slot |
| TensorCoreGemv.SlotsMeet | GLM-5.3-Flash Kraken-tp3-20260927/src/b12x/gemm/bf16_gemv/_tensor_core.py:117-136 | Both operands of an instruction see the same K index in the same slot, for the fragment layout of mma.m16n8k16 (PTX ISA, Matrix Fragments for mma.m16n8k16 with floating point type) |
| TensorCoreGemv.ChunkSum | GLM-5.3-Flash Kraken-tp3-20260927/src/b12x/gemm/bf16_gemv/_tensor_core.py:131-136 | One chunk's four fragments add up its 64 terms, each once |
| TensorCoreGemv.WarpLoop | GLM-5.3-Flash Kraken-tp3-20260927/src/b12x/gemm/bf16_gemv/_tensor_core.py:112-136 | A warp's accumulators after its loop are the accumulated instructions of its chunks |
| TensorCoreGemv.AccumulatedIs | GLM-5.3-Flash Kraken-tp3-20260927/src/b12x/gemm/bf16_gemv/_tensor_core.py:116-136 | Those are the products of the warp's own stretch of K, in the wanted row and column |
| TensorCoreGemv.AccumulateBlock | GLM-5.3-Flash Kraken-tp3-20260927/src/b12x/gemm/bf16_gemv/_tensor_core.py:138-145 | Each lane of each warp leaves its four accumulators at its own place of the shared buffer |
| TensorCoreGemv.ReduceWarps | GLM-5.3-Flash Kraken-tp3-20260927/src/b12x/gemm/bf16_gemv/_tensor_core.py:146-150 | The sum over the warps in shared memory is the sum over all of K |
| TensorCoreGemv.OutputRoundTrip | GLM-5.3-Flash Kraken-tp3-20260927/src/b12x/gemm/bf16_gemv/_tensor_core.py:151-154 | Every feature and row of a tile has an accumulator that stores it |
| TensorCoreGemv.AccRoundTrip | GLM-5.3-Flash Kraken-tp3-20260927/src/b12x/gemm/bf16_gemv/_tensor_core.py:151-154 | And only one: lane and accumulator can be read back from feature and row |
| TensorCoreGemv.RunBlock | GLM-5.3-Flash Kraken-tp3-20260927/src/b12x/gemm/bf16_gemv/_tensor_core.py:87-154 | One block stores the dot product at every output element of its tile that is in range, and writes nowhere else, despite clamped loads |
| TensorCoreGemv.Gemv | GLM-5.3-Flash Kraken-tp3-20260927/src/b12x/gemm/bf16_gemv/_tensor_core.py:39-154 | The launch: every live row and feature gets `sum_k x[m,k] * w[n,k]`, and nothing else in the output changes |
| Projection.AnswerIsDot | GLM-5.3-Flash Kraken-tp3-20260927/src/b12x/gemm/bf16_gemv/_kernel.py:66-69 | What the kernels store is the dot product of the two strided rows, element by element in memory, and the bias of the feature |
| SimtGemv.ThreadsCover | GLM-5.3-Flash Kraken-tp3-20260927/src/b12x/gemm/bf16_gemv/_kernel.py:173-185 | Strided threads together take every term once, for every length |
| SimtGemv.VectorDot | GLM-5.3-Flash Kraken-tp3-20260927/src/b12x/gemm/bf16_gemv/_kernel.py:171-185 | The vector loop of one thread accumulates its own groups of eight for each live row of the tile |
| SimtGemv.ScalarDot | GLM-5.3-Flash Kraken-tp3-20260927/src/b12x/gemm/bf16_gemv/_kernel.py:229-253 | The scalar loop does the same element by element, for any strides |
| SimtGemv.AccumulateRows | GLM-5.3-Flash Kraken-tp3-20260927/src/b12x/gemm/bf16_gemv/_kernel.py:163-224 | All threads of a block together give each live row its whole dot product, on either path |
| SimtGemv.RunBlock | GLM-5.3-Flash Kraken-tp3-20260927/src/b12x/gemm/bf16_gemv/_kernel.py:148-227 | One block stores its column for the live rows of its tile, bias included, and nothing else |
| SimtGemv.Project | GLM-5.3-Flash Kraken-tp3-20260927/src/b12x/gemm/bf16_gemv/_kernel.py:110-227 | For every row count, rows per tile, K and strides: each element of the output is the sum over k of x[row, k] * w[feature, k], read at their strides, plus the bias of the feature if there is one; nothing else changes |
| TiledGemm.LoadTile | GLM-5.3-Flash Kraken-tp3-20260927/src/b12x/gemm/bf16_gemv/_kernel.py:324-366 | Either load path fills the whole shared tile: the operand where in range, zero elsewhere |
| TiledGemm.WholeVector | GLM-5.3-Flash Kraken-tp3-20260927/src/b12x/gemm/bf16_gemv/_kernel.py:339-354 | An eight-element load lies in one row of the tile and is inside K as a whole or not at all |
| TiledGemm.AccumulateTile | GLM-5.3-Flash Kraken-tp3-20260927/src/b12x/gemm/bf16_gemv/_kernel.py:412-469 | With or without the flush, the result is the sum of all tiles' contributions: none dropped, none repeated |
| TiledGemm.FlushIsNear | GLM-5.3-Flash Kraken-tp3-20260927/src/b12x/gemm/bf16_gemv/_kernel.py:460-469 | For long K the next flush is the end of the tile's group of sixteen or the last tile, and for short K there is none |
| TiledGemm.TilesAreDot | GLM-5.3-Flash Kraken-tp3-20260927/src/b12x/gemm/bf16_gemv/_kernel.py:338-366 | For a live row and feature that sum is the whole dot product, zero fill and all |
| TiledGemm.RunTile | GLM-5.3-Flash Kraken-tp3-20260927/src/b12x/gemm/bf16_gemv/_kernel.py:368-486 | One block stores exactly the elements of its tile that are in range |
| TiledGemm.Project | GLM-5.3-Flash Kraken-tp3-20260927/src/b12x/gemm/bf16_gemv/_kernel.py:264-486 | For every row count, feature count, K and strides: each element of the output is the sum over k of x[row, k] * w[feature, k], read at their strides, plus the bias of the feature if there is one; nothing else changes |
| Projection.NoOverlap | GLM-5.3-Flash Kraken-tp3-20260927/src/b12x/gemm/bf16_gemv/_kernel.py:530-544 | If the span test passes, no byte of any output element is a byte of any input element |
| Projection.RefusesCommonBytes | GLM-5.3-Flash Kraken-tp3-20260927/src/b12x/gemm/bf16_gemv/_kernel.py:530-544 | The span test refuses if and only if the stretches from first to last byte of input and output have a byte in common |
| ExpertSlices.ExtentsPartition | DeepSeek-V4.1-Flash Kraken-tp3-20261019/src/vllm/model_executor/model_loader/csf_utils.py:47-60 | Successive ranks' extents follow one another from 0 to the size, and no extent splits a scale group or a byte |
| ExpertSlices.ExtentExists | DeepSeek-V4.1-Flash Kraken-tp3-20261019/src/vllm/model_executor/model_loader/csf_utils.py:47-60 | An extent exists if and only if the rank is in range and the size is a positive number of whole groups per rank; all extents are equally long |
| ExpertSlices.LoadExpert | DeepSeek-V4.1-Flash Kraken-tp3-20261019/src/vllm/model_executor/model_loader/mxfp4_csf_loader.py:170-205 | Slot s gets the rank's gate rows, up rows and down columns of one expert; every other slot keeps its bytes |
| ExpertSlices.LoadWeights | DeepSeek-V4.1-Flash Kraken-tp3-20261019/src/vllm/model_executor/model_loader/mxfp4_csf_loader.py:125-230 | Succeeds if and only if every geometry check passes and there are exactly the stated experts; then every slot holds its expert's slices and the scale lists hold the matching scales in order |
| ExpertSlices.ReadLayer | DeepSeek-V4.1-Flash Kraken-tp3-20261019/src/vllm/model_executor/model_loader/mxfp4_csf_loader.py:58-111 | With an order, slot s holds the slices of expert order[s]; without one, those of expert s; it raises exactly if a geometry check fails, the number of experts differs, or an expert is missing |
| ExpertSlices.SliceReadsSame | DeepSeek-V4.1-Flash Kraken-tp3-20261019/src/vllm/model_executor/model_loader/mxfp4_csf_loader.py:184-193 | A slice that starts on a scale group reads the same channels as the whole row |
| ExpertSlices.RankComputesItsTerms | DeepSeek-V4.1-Flash Kraken-tp3-20261019/src/vllm/model_executor/model_loader/mxfp4_csf_loader.py:184-205 | From its slices a rank computes the expert's terms for exactly its own channels |
| ExpertSlices.RanksAddUp | DeepSeek-V4.1-Flash Kraken-tp3-20261019/src/vllm/model_executor/model_loader/mxfp4_csf_loader.py:149-205 | For every number of ranks, the sum of the ranks' outputs is the unsharded expert's output |
| ExpertSlices.OutputIsDense | DeepSeek-V4.1-Flash Kraken-tp3-20261019/src/vllm/model_executor/model_loader/mxfp4_csf_loader.py:149-205 | The unsharded output is the plain gated projection over the decoded weights: down times act(gate x, up x) |
| ExpertSlices.LayerAddsUp | DeepSeek-V4.1-Flash Kraken-tp3-20261019/src/vllm/model_executor/model_loader/mxfp4_csf_loader.py:88-205 | From what the ranks' loads left in slot `s`, slices and returned scales, the ranks compute outputs that add up to the whole output of the expert the order put there |
| KvLayout.OffsetSplits | GLM-5.3-Flash Kraken-tp3/utils.py:267-277 | Each element's offset is the offset of its head group plus an offset inside the page |
| KvLayout.ProductIsLegal | GLM-5.3-Flash Kraken-tp3/utils.py:279-280 | The index tuples enumerated are exactly the ones within the outer dimensions |
| KvLayout.PageIsKernelBlock | GLM-5.3-Flash Kraken-tp3/utils.py:278-283 | A table entry's page for a logical block is the page of the kernel block that the virtual split gives |
| KvLayout.AllSpansArePages | GLM-5.3-Flash Kraken-tp3/utils.py:247-301 | The entries demanded are exactly the pages of the handled layers' head groups and virtual blocks |
| KvLayout.ElementInLogicalBlock | GLM-5.3-Flash Kraken-tp3/utils.py:274-277 | Every byte of every element of a logical block is in one of its pages |
| KvLayout.PageInMemory | GLM-5.3-Flash Kraken-tp3/utils.py:274-277 | A page ends with its last element, so it stays inside the tensor's memory |
| KvZeroer.KvBlockZeroer.AddSpan | GLM-5.3-Flash Kraken-tp3/utils.py:284-300 | Files one page, keeping the widest per address; refuses if and only if the address is taken with another stride |
| KvZeroer.KvBlockZeroer.AddLayer | GLM-5.3-Flash Kraken-tp3/utils.py:262-300 | Passes if and only if the layer's own checks hold and its pages clash with none before |
| KvZeroer.KvBlockZeroer.BuildTable | GLM-5.3-Flash Kraken-tp3/utils.py:247-300 | Passes if and only if every check on a group or layer holds and no two pages at one address differ in stride; then the table covers every page, lists each address once, and widens none beyond a page that some layer has |
| KvZeroer.KvBlockZeroer.Init | GLM-5.3-Flash Kraken-tp3/utils.py:302-311 | The chunk width is the least power of two that holds the widest page, or 1024; the chunks reach the end of every page and are not one too many |
| KvZeroer.LaunchShape | GLM-5.3-Flash Kraken-tp3/utils.py:306-311 | Width and number of chunks computed from the page sizes, with the bounds above |
| KvZeroer.ZeroChunk | GLM-5.3-Flash Kraken-tp3/utils.py:169-186 | One program zeroes exactly the words of its chunk that are inside the page |
| KvZeroer.GridTouches | GLM-5.3-Flash Kraken-tp3/utils.py:313-334 | A whole grid touches exactly the listed pages of the named blocks |
| KvZeroer.PagesAreBlocks | GLM-5.3-Flash Kraken-tp3/utils.py:210-225 | Those are exactly the named logical blocks of the handled layers: overlays, head groups and virtual splits included |
| KvZeroer.NamedElements | GLM-5.3-Flash Kraken-tp3/utils.py:210-225 | Every byte of every element that a handled layer keeps in a named block is among them |
| KvZeroer.KvBlockZeroer.ZeroBlockIds | GLM-5.3-Flash Kraken-tp3/utils.py:313-334 | After the launch, programs in any order: for every attention group with a kernel block size and every layer of it that is not the runner's alone and has its tensor on this device, each byte of each element in a named block is zero; a byte in no page of such a block is unchanged |
| BlockSize.IsSupported | GLM-5.3-Flash Kraken-tp3/utils.py:436-453 | True if and only if every backend lists the size or a base that divides it |
| BlockSize.Candidates | GLM-5.3-Flash Kraken-tp3/utils.py:458-465 | Exactly the explicit sizes that divide the manager's |
| BlockSize.CommonDivisorIsCandidate | GLM-5.3-Flash Kraken-tp3/utils.py:458-465 | The comment's claim: when the manager's size is refused, every divisor that all backends accept is an explicit size |
| BlockSize.SelectCommonBlockSize | GLM-5.3-Flash Kraken-tp3/utils.py:414-470 | The result is the largest divisor for which each backend lists the size itself or a base that divides it; it raises if and only if there is none |
| PrefillRanges.ExtendCovers | DeepSeek-V4.1-Flash Kraken-tp3-20261019/src/vllm/utils/b12x.py:285-290 | Appending or merging a range covers exactly the old tokens and the new ones |
| PrefillRanges.ExtendNormal | DeepSeek-V4.1-Flash Kraken-tp3-20261019/src/vllm/utils/b12x.py:285-290 | And keeps the ranges nonempty, increasing, disjoint, never adjacent and within the limit |
| PrefillRanges.PromptEnd | DeepSeek-V4.1-Flash Kraken-tp3-20261019/src/vllm/utils/b12x.py:280-284 | A request's clipped range is exactly its tokens that are still inside the prompt |
| PrefillRanges.Build | DeepSeek-V4.1-Flash Kraken-tp3-20261019/src/vllm/utils/b12x.py:267-291 | The ranges cover exactly the tokens still inside their request's prompt; it raises if and only if the requests reach past the padded size |

## Left out

- Rounding, BF16 conversion and overflow: arithmetic on values is over the reals; indices and
  addresses are unbounded integers, so 32-bit and 64-bit wrap-around is not modelled.
- The model's own forward kernels: the forward pass is an environment step that reads the
  running column at the accepted offset and writes one state per speculative position.
- The scheduler and the block tables: a job's table is assumed long enough, distinct over its
  window, exclusive to it, and to keep the blocks that the next step reads.
- One temporal and one convolution tensor stand for all layers and groups in the protocol; the
  byte-level copies take one state tensor's metadata at a time.
- The path of `preprocess_mamba` that collects pointer triples for one batch copy: the decision
  is `StageRow`, the copy `BatchMemcpy`; the metadata capacity checks are not modelled.
- The prefix-checkpoint kernel is its guard plus `CopyStateBlock` with a destination block; the
  guard is not modelled.
- Programs of one kernel for different requests run one after another here; their windows are
  disjoint. Lanes and tiles of one copy are interleaved freely (`RaceFree`, `LaneOrder`). One
  program per request stands for its state and tile programs, which read the accepted count
  of the step before any of them resets it.
- AlignRuns.RunV1: the input batch is one accepted count per request here, 1 for an admitted
  one; how it reorders its rows is not modelled.
- AlignRuns.RunV2: takes from the input batch that an admitted request's slot starts at the
  column of its last computed token with accepted count 1.
- MixedResidency.Allocation.Build: does not say what a failed construction leaves behind,
  because the source releases nothing there.
- MixedResidency.Allocation.PromoteChunk: does not claim the mapping back after a failure past
  the canonical unmap, because the source has no way back there; `Free` still releases all.
- MixedResidency.Allocation.Free: a temporary range whose own cleanup failed is not returned,
  because the source no longer knows its address as a reservation.
- ResidencyRuns.Drive: says what is read only while each operation finished, was refused or
  rejected, or was an eviction that merely kept its handle; after a second failure in one
  operation the mapping can be lost, and only consistency and the frame are claimed.
- ResidencyRuns.Life: claims the driver's final state only if no cleanup failed, for the same
  reason; such a run ends with the range still reserved.
- VmmPolicy.WrapParameter: one parameter of the loop; finding the parameters, filling the range
  and replacing the tensor are not modelled (a fill is a sequence of stores).
- LazyTable.LazyHostTable.MapChunk: after a failed release of a handle that could not be mapped it
  says only that the records are unchanged, because the source keeps no record of that handle.
- LazyTable.LazyHostTable.Free: not claimed to finish on a second call after a failed release,
  because the source would unmap the same chunk again.
- `cold_experts`, `hot_blocks` and `summary`.
- World size 1, zero requests in the fused mask, and the argument checks before either mask.
- LseCombine.UnpackCombine: one token, head and coordinate; the grid over them and the strides
  are in `DcpExchange` only as far as messages are concerned.
- The collectives deliver every message to its rank; symmetric-memory workspaces are not part
  of this model.
- Internals of the tiled matrix instruction and its shared-memory swizzle: one matrix step adds
  the products of sixteen columns.
- Which nibble of a byte comes first and how a scale byte is read: both are parameters.
- ExpertSlices.LoadWeights: scales are planes of bytes; the compressed scale codec, its upload
  and the tensor store are not part of this model.
- KvZeroer.KvBlockZeroer.Init: cache tensors have at least one element along every dimension
  after the block dimension.
- Router rows for relabelled experts, launch configuration, compile caches and environment
  variables, benchmarks and reports.
