# A verified model of ollama's allocators, codecs and stores

This project models six parts of ollama that carry state machines, allocators or
codecs, and proves what each of them promises, for all inputs and over whole runs.
`dafny verify dfyconfig.toml` checks everything.

* **The causal key-value cache** (`Kv*.dfy`). A fixed array of cells, each with a
  position and the sequences that own it, a row of keys and values beside each cell,
  and an index of ranges. What sequence `s` holds is its view, `Tokens(cells, rows, s)`:
  the multiset of its (position, token) entries. A row is a token with the rotary
  phase its key has been rotated to. `KvCausal.Causal` is the cache, updated in place;
  `KvWrapper.WrapperCache` drives several of them. `KvRuns` says what the views are at
  every point of a run, told from the history of calls alone.
* **The byte-pair encoder** (`Bpe*.dfy`). A linked list embedded in an array and a heap
  with stale entries, proved to compute a result of the naive rule "join an adjacent
  pair of least rank until no pair can be joined".
* **The GPU layer allocator** (`Gpu*.dfy`). A round-robin packer over a shrinking list
  of GPUs, with its accounting and the prediction of a complete fit.
* **The model file codec** (`Gguf*.dfy`) and **the Modelfile parser and printer**
  (`Modelfile*.dfy`). Both are proved by round trips.
* **The runner scheduler** (`Sched*.dfy`). Two loops, timers and requests as events
  that interleave freely.
* **The blob store** (`Store*.dfy`). Pulls that may fail anywhere, copies, deletions and
  prunings, and downloads in parts.

Where the code updates things in place the model does too: each such method is proved
equal to a function of the old state, and the promises are lemmas about that function.
What these functions mean is stated once more without them: `KvRuns` tells the views from
the calls, `BpeCodec.CutAtFirst` the fragments from where special tokens occur,
`GpuMeaning` the estimate from the request, `GgufFormat` the format in plain numbers,
`ModelfileLayout` the commands from how people write them, `SchedProgress` what has to
happen in every run, and `StoreEffects` what is gone or new after each operation.
`Helpers.dfy` holds what the six parts share.

Some promises turn out not to hold of the code in general. The code is modelled as it
is, and the exact condition is proved:

* `defrag` joins neighbouring moves into one block copy whose direction is the reverse
  of the moves (causal.go:318-330), so rows end up beside the wrong cells. Tokens stay
  at their positions exactly when no two moves are joined
  (`KvBlocks.DefragKeepsTokensIff`); `KvRuns.TokenLost` is a run of four calls on an empty
  cache, each as a caller should make it, after which a token is gone.
* `StartForward` with an empty batch still asks for one free cell; in general a cache is
  full exactly when fewer than `max(1, batch)` cells are free
  (`KvCausal.Causal.StartForward`).
* `CopyPrefix` of a sequence onto itself erases it (`KvOps.CopyOntoItself`).
* The way back that is documented after a failed `Remove`, removing up to `MaxInt32`,
  empties the sequence exactly when its positions are neither negative nor `MaxInt32`
  (`KvOps.RecoveryEmpties`).
* The unwind of `WrapperCache.StartForward` gives every sequence back the tokens at its
  positions exactly when every batch position lies beyond what its sequence held
  (`KvUnwind.UndoneIff`).
* Bytes 0x00 and 0x7e do not survive encoding and decoding; text comes back exactly when
  none stands outside a special token (`BpeCodec.RoundTrip`).
* A complete fit is not predicted on any GPUs, however large, for no layers, for more
  layers than the model has, and for an output layer without weights; some GPU is large
  enough for every other request (`GpuFit.NeverFits`).
* Of the GPUs that still have room only some are tried for the output layer
  (memory.go:252-262). It is placed exactly when one that is tried has room for it
  (`GpuFit.OutputPlacedIff`); `GpuFit.OutputIsNotTried` is a model that would fit on two
  GPUs and is predicted not to, with the default of all layers.
* The offset recorded for a tensor leads to its data exactly when the sizes of all
  tensors but the last are multiples of 32 (`GgufFile.DataRoundTrip`).
* Leaving out large arrays is invisible exactly when no string that is discarded has a
  length of 2^63 or more (`GgufFile.ElisionIsTransparent`); `GgufFile.BoundHidesError` is a
  file that is decoded with a bound and not without one.
* A Modelfile is parsed back from its printed form exactly when each command is fit to be
  printed (`ModelfileProofs.RoundTrip`); `ModelfileProofs.EdgeTabIsLost` is one that is not.
* Reference counts of runners are safe in runs where no runner is queued to expire a
  second time and none is unloaded between lookup and grant; without either condition a
  runner in use is lost (`SchedRuns.ExpiringTwice`, `SchedRuns.GrantingClosed`), as in the
  runs `SchedExamples.UnloadedInUse` and `SchedExamples.GrantedClosed` from the start.
* A request that is postponed when the last number of parallel sequences tried for it
  exceeds one is told to reload a runner that would suit it
  (`SchedRuns.PostponedIsReloaded`, with the run `SchedExamples.PostponedReloads`). That
  takes a number that was set: left to itself the scheduler tries four and then one.
* Pruning keeps the blobs of all manifests exactly when each digest is also referred to
  in its canonical spelling, or its file cannot be removed (`StoreSafety.PruneKeepsIff`).
* A pull verifies all that it downloads, whatever files the registry sends, exactly when
  no digest that was missing is listed again after the entry that first names its file, or
  nothing can go through at all: some digest is invalid, or a missing file is named by one
  digest only, which is not the digest of any content, as upper-case letters or a dash make
  it (`StoreSafety.PulledIsVerifiedIff`). A second entry finds the file of the first, and
  then neither is verified (images.go:573, 580); `StoreSafety.WrongContentIsKept` is such a
  pull.
* The naive rule of the byte-pair encoder leaves a choice among pairs of equal rank. The
  order makes no difference exactly when the pairs do not overlap
  (`BpeMerge.TiesCommuteIff`); `BpeMerge.TieDecides` is a text with two encodings, of which
  the heap picks one.
* A cache whose mask cannot be made fails with the batch already stored, and the unwind of
  `WrapperCache.StartForward` passes it over (causal.go:161-163, wrapper.go:48): a failed
  call with some batch leaves every position as it was exactly when the cache that refused
  was full and the batch lay beyond what the caches before it held (`KvWrapper.AllOrNothingIff`).

## Model

| member | source | states |
|---|---|---|
| KvCausal.Causal.constructor | ollama/kvcache/causal.go:80-107 | A new cache is empty, in order, its capacity is the requested one rounded up to the padding, and paddings of 0 count as 1 |
| KvCausal.Causal.FindStartLoc | ollama/kvcache/causal.go:174-189 | First fit: the first run of free cells that is long enough, and an error exactly when there is none |
| KvCausal.Causal.StartForward | ollama/kvcache/causal.go:121-164 | Stores the batch in the first block that fits, after compaction if need be; is full exactly when fewer cells are free than the batch (at least one) needs, and otherwise fails exactly when the mask cannot be made, with the batch stored; the index stays exact, the window is aligned, covers all that is visible and is no wider than whole pads make it, and the mask is right |
| KvCausal.Causal.StoreBatch | ollama/kvcache/causal.go:134-156 | The batch overlays the reserved block, the index stays exact and the window spans each sequence of the batch |
| KvCausal.Causal.BuildMask | ollama/kvcache/causal.go:202-225 | The window is widened by less than a pad on each side, covers every visible cell and begins and ends at whole pads; the mask over it is right, padding rows closed; an error exactly when its tensor cannot be made |
| KvCausal.Causal.Defrag | ollama/kvcache/causal.go:279-377 | Cells become the compacted ones, rows what the issued block copies make of them, and the index is exact again |
| KvCausal.Causal.MoveAll | ollama/kvcache/causal.go:296-358 | The two-pointer walk performs exactly the list of moves, and its pending block copies those of the joined blocks |
| KvCausal.Causal.CopyRows | ollama/kvcache/causal.go:241-277 | One tensor copy of a block of rows |
| KvCausal.Causal.ResetRanges | ollama/kvcache/causal.go:360-376 | Rebuilding the ranges makes the index agree with a scan of the cells for every sequence |
| KvCausal.Causal.Put | ollama/kvcache/causal.go:426-459 | The rows of the batch overlay the reserved block |
| KvCausal.Causal.CopyPrefix | ollama/kvcache/causal.go:461-482 | Every cell is shared as a copy of the prefix asks for; the index stays exact and keys stay in phase |
| KvCausal.Causal.Shift | ollama/kvcache/causal.go:484-535 | Rotates exactly the keys of the sequence from a position on, or nothing when it fails |
| KvCausal.Causal.Remove | ollama/kvcache/causal.go:537-583 | The scan goes as far as the first shared cell to be renumbered; a complete one leaves the index exact and keys in phase with positions, a failed one leaves the index exact for all other sequences and their keys in phase |
| KvCausal.Causal.Forget | ollama/kvcache/causal.go:537-583 | The documented recovery succeeds, empties the sequence, restores the index, changes no other sequence and leaves all keys in phase |
| KvCausal.Causal.Forward | ollama/kvcache/causal.go:121-164 | One pass adds exactly the batch to the views, or nothing when the cache is full, whether or not it compacts; tokens and phases too, if no rows are copied as a block; without a mask the positions of the batch are left behind |
| KvDefrag.CompactedIsPrefix | ollama/kvcache/causal.go:279-358 | After compaction the occupied cells are a prefix of the cache |
| KvDefrag.CompactedPermutes | ollama/kvcache/causal.go:279-358 | Compaction permutes the occupied cells and keeps the number of holes |
| KvDefrag.CompactedKeepsPositions | ollama/kvcache/causal.go:279-358 | Compaction changes the positions of no sequence |
| KvDefrag.CompactedHasBlock | ollama/kvcache/causal.go:121-132 | After compaction a block of n cells is free exactly when n cells are free anywhere |
| KvDefrag.Moved | ollama/kvcache/causal.go:314-348 | Each hole receives the cell it was paired with, which leaves a hole behind |
| KvBlocks.DefragKeepsTokensIff | ollama/kvcache/causal.go:241-358 | With distinct positions, compaction keeps all tokens at their positions whatever the rows hold exactly when no two moves are joined into one copy |
| KvBlocks.UnmergedKeepsTokens | ollama/kvcache/causal.go:241-358 | With one copy per move every row stays with its cell: all views are kept |
| KvBlocks.UnmergedKeepsPhase | ollama/kvcache/causal.go:241-358 | With one copy per move every key stays in phase with its position |
| KvBlocks.MergeBreaksTokens | ollama/kvcache/causal.go:318-330 | One joined copy gives some position of some sequence another token |
| KvOps.BatchAddsTokens | ollama/kvcache/causal.go:134-139 | Storing a batch in free cells adds exactly its entries to each view |
| KvOps.CopyPrefixViews | ollama/kvcache/causal.go:461-482 | Between distinct sequences the destination becomes exactly the source below the length, and nothing else changes |
| KvOps.CopyOntoItself | ollama/kvcache/causal.go:461-482 | Copying a sequence onto itself erases it, which is a copy of its prefix exactly when that was empty |
| KvOps.RemoveKeepsOthers | ollama/kvcache/causal.go:537-583 | Removal, complete or failed, changes the view of no other sequence |
| KvOps.RemoveCuts | ollama/kvcache/causal.go:537-583 | A complete removal cuts the interval out and renumbers the tail to continue at its beginning |
| KvOps.RemoveKeepsPhase | ollama/kvcache/causal.go:484-583 | The rotation touches exactly the renumbered cells, none of them shared, so keys stay in phase |
| KvOps.RecoveryEmpties | ollama/kvcache/causal.go:537-583 | Removing up to MaxInt32 succeeds and leaves nothing exactly when positions are neither negative nor MaxInt32 |
| KvOps.RemoveKeepsRecoverable | ollama/kvcache/causal.go:537-583 | A failed removal leaves the sequence recoverable |
| KvOps.RecoveryRestoresPhase | ollama/kvcache/causal.go:537-583 | After a failed removal and the recovery every key that is left is in phase |
| KvIndex.StoreKeepsIndex | ollama/kvcache/causal.go:139-156 | Storing a cell and widening a range keeps the index exact |
| KvIndex.CopyKeepsIndex | ollama/kvcache/causal.go:461-482 | The range scanned while copying keeps the index exact |
| KvIndex.RemoveKeepsIndex | ollama/kvcache/causal.go:537-583 | Removal keeps the index exact for all other sequences |
| KvIndex.RestoreIndex | ollama/kvcache/causal.go:568-573 | With the scanned range, or without an entry if there is none, the index is exact for all sequences |
| KvMask.RoundUpLeast | ollama/kvcache/causal.go:191-197 | Rounding up gives the least multiple that is no smaller |
| KvMask.VisibleMeans | ollama/kvcache/causal.go:213-219 | For positions a model can have, an entry is open for the same sequence, causally, within the sliding window |
| KvMask.MaskIsComplete | ollama/kvcache/causal.go:202-225 | The mask over the window is the mask over the whole cache |
| KvRuns.RunIsHistory | ollama/kvcache/causal.go:121-583 | At every point of a proper run from an empty cache each sequence holds at each position exactly the tokens that the calls so far say, told without a cache: batches added, prefixes copied, stretches cut, abandoned sequences emptied |
| KvRuns.RunKeepsKeys | ollama/kvcache/causal.go:121-583 | At every point of a proper run every key that is held is rotated to its position |
| KvRuns.TokenLost | ollama/kvcache/causal.go:318-330 | A run from an empty cache whose last call joins two moves, after which a token is no longer at its position |
| KvUnwind.UndoneIff | ollama/kvcache/wrapper.go:46-54 | Taking a batch out again gives every sequence its tokens at their positions, whatever the rows, exactly when the batch lies beyond what was held |
| KvUnwind.UndoneRestores | ollama/kvcache/wrapper.go:46-54 | The same for the cache as it was before it was compacted for the batch: its positions, and its tokens too if compaction joined no two moves |
| KvWrapper.WrapperCache.StartForward | ollama/kvcache/wrapper.go:43-59 | Fails as the first cache does that fails; if none does all hold the batch in their compacted cells and rows; otherwise later caches are untouched, earlier ones hold the positions and, if compaction joined no two moves, the tokens they held before exactly when the batch lies beyond them, and the failed one has at most been compacted if it was full, and keeps the batch if it has no mask |
| KvWrapper.WrapperCache.Undo | ollama/kvcache/wrapper.go:46-54 | The batch is taken out of the caches that had accepted it, last one first: cells, rows and views; the cache that refused it and those after stay as they are |
| KvWrapper.AllOrNothingIff | ollama/kvcache/wrapper.go:43-59 | A failed call with a batch that is not empty leaves all positions of all caches as they were exactly when the cache that refused was full and the batch lay beyond what the caches before it held |
| BpeHeap.PopMin | ollama/model/process_text.go:237-248 | Pops some pair of least rank |
| BpeHeap.MergeFragment | ollama/model/process_text.go:208-271 | The heap-driven loop ends with a result of the naive rule: each join is of an adjacent pair of least rank, and none is left |
| BpeHeap.MergeStep | ollama/model/process_text.go:256-270 | Splicing the list performs one step of the naive rule and keeps list and heap in order |
| BpeMerge.CurrentMeans | ollama/model/process_text.go:250-254 | An entry that is not skipped stands for two neighbouring live nodes with their present text: stale entries never fire |
| BpeMerge.LeastIsStep | ollama/model/process_text.go:247-270 | Joining a current entry of least rank is a step of the naive rule |
| BpeMerge.MergedHeapOk | ollama/model/process_text.go:256-270 | After a join and two pushes every mergeable neighbouring pair is in the heap |
| BpeMerge.EmptyIsFinal | ollama/model/process_text.go:247-271 | When the heap is empty no neighbouring pair can be joined |
| BpeMerge.RunConcat | ollama/model/process_text.go:256-257 | Joins keep the text of the fragment |
| BpeMerge.TiesAreEqual | ollama/model/process_text.go:237-248 | Pairs of equal rank have the same two texts |
| BpeMerge.TiesCommuteIff | ollama/model/process_text.go:237-271 | Joining two tied pairs in either order leads to the same parts, each keeping its rank until then, exactly when they do not overlap; if they do, three equal parts follow one another and the results differ |
| BpeMerge.TieDecides | ollama/model/process_text.go:237-271 | A vocabulary and a text with two results of the naive rule |
| BpeText.SplitPass | ollama/model/process_text.go:148-174 | Splicing the list of fragments in place splits each by the special token |
| BpeText.SplitKeepsText | ollama/model/process_text.go:148-174 | Splitting by special tokens keeps the text |
| BpeVocab.RankIsOnePair | ollama/model/process_text.go:88-102 | A merge key determines both its sides: a rank belongs to one pair of strings |
| BpeVocab.RankIsPlace | ollama/model/process_text.go:88-102 | The rank of a pair is the last place at which the merges name it: left side, space, right side |
| BpeVocab.MapsByTable | ollama/model/process_text.go:186-198 | A byte that is no visible character of Latin-1 is mapped to the rune 0x100 plus the number of such bytes below it, all others to themselves; 0x7e is the one exception |
| BpeVocab.ByteRoundTrip | ollama/model/process_text.go:186-198 | Which byte comes back from the rune it is mapped to |
| BpeVocab.SurviveIff | ollama/model/process_text.go:186-198 | Text survives mapping and unmapping exactly when it has neither byte 0x00 nor 0x7e |
| BpeCodec.MapText | ollama/model/process_text.go:186-198 | The mapping of bytes to runes |
| BpeCodec.EncodeSplit | ollama/model/process_text.go:184-281 | A split is one token, or the tokens of a result of the naive rule |
| BpeCodec.SplitMeans | ollama/model/process_text.go:200-281 | A split that is a token is encoded to it alone; otherwise to the tokens of the merged parts, in order, without those parts that have none |
| BpeCodec.PiecesEncode | ollama/model/process_text.go:184-206 | Nothing is joined across the pieces of the pre-tokenizer: where each piece is a token, their tokens in order are the encoding, and nothing else is |
| BpeCodec.Encode | ollama/model/process_text.go:147-306 | The whole encoding; on request, and unless it is empty, with the mark of the beginning before it and that of the end behind it, as the vocabulary asks |
| BpeCodec.Decode | ollama/model/process_text.go:308-334 | The text the ids stand for |
| BpeCodec.FragmentsOfText | ollama/model/process_text.go:148-174 | The fragments make up the text, and those with ids are special tokens |
| BpeCodec.CutAtFirst | ollama/model/process_text.go:148-174 | Special tokens take precedence in the order of their ids: the first that occurs is cut out at its first occurrence, and what lies before and behind is cut in the same way |
| BpeCodec.NoSpecials | ollama/model/process_text.go:148-174 | A text in which no special token occurs is one fragment |
| BpeCodec.FragmentsAreClear | ollama/model/process_text.go:148-174 | No special token occurs in any fragment that is left as plain text |
| BpeVocab.SpecialsInOrder | ollama/model/process_text.go:76-86 | The special tokens are exactly the values of type 3, in the order of their ids |
| BpeCodec.RoundTrip | ollama/model/process_text.go:147-334 | Decoding an encoding gives back the special tokens and what survives of the rest; the text itself exactly when no byte 0x00 or 0x7e stands outside a special token |
| GpuEstimate.EstimateGPULayers | ollama/llm/memory.go:74-342 | The loops over GPUs and blocks compute the estimate |
| GpuEstimate.Prepare | ollama/llm/memory.go:95-178 | The sizes the estimate starts from |
| GpuProofs.GraphSizesAgree | ollama/llm/memory.go:143-158 | On metal and on several GPUs both graph sizes agree; the room checked for is enough for either |
| GpuMeaning.PlanIsFootprint | ollama/llm/memory.go:95-178 | The sizes the estimate starts from, told from the request: blocks with their share of the cache, a missing one as large as the last known; the weights and graphs of all projectors or else the vision part; the graphs on metal, on several GPUs, and otherwise; norm and output or embedding |
| GpuMeaning.EstimateMeans | ollama/llm/memory.go:180-342 | An estimate with layers, told from the request: the GPUs in use are exactly those with room for minimum, graph and two blocks, the first of them for the projectors too; each is asked for its minimum, one block as a buffer, its layers and the graph, the first also for the projectors, all within its free memory; the split counts the layers |
| GpuMeaning.OverflowMeans | ollama/llm/memory.go:243-300 | The total adds the blocks that are left, each as large as the last one, and an output layer that is wanted and not placed |
| GpuMeaning.ProjectorsMustFit | ollama/llm/memory.go:180-213 | Where no GPU has room for the projectors as well, no layer is placed and no fit predicted |
| GpuMeaning.RoundRobin | ollama/llm/memory.go:230-241 | As long as no GPU is dropped, block k goes to the GPU at place k modulo the number of GPUs in use |
| GpuMeaning.OutputGoesTo | ollama/llm/memory.go:252-262 | The output layer goes to the GPU with room at place count modulo n, n - 1, ..., the first of those tried |
| GpuEstimate.Reserve | ollama/llm/memory.go:180-213 | Memory is set aside on the GPUs that can hold a layer, the projectors on the first |
| GpuEstimate.Distribute | ollama/llm/memory.go:230-241 | Round robin over a shrinking list |
| GpuEstimate.Finish | ollama/llm/memory.go:243-268 | The output layer goes behind a complete model; what is not placed is overflow |
| GpuProofs.PickDrops | ollama/llm/memory.go:230-241 | Only GPUs without room for the block are dropped, and the one picked has room |
| GpuProofs.BlocksPlaced | ollama/llm/memory.go:215-242 | Placed blocks are a prefix of the model's blocks, memory set aside is the reservation and the placed blocks, it fits with the graph, and a dropped GPU has no room for some block |
| GpuProofs.OutputComesLast | ollama/llm/memory.go:252-262 | The output layer is placed only behind all blocks, on a GPU with room for it |
| GpuProofs.NeverOvercommits | ollama/llm/memory.go:180-281 | What is put on a GPU, with the overhead to be kept free, stays within its free memory |
| GpuProofs.LayersAreCounted | ollama/llm/memory.go:215-342 | Layers never exceed the block count plus one or what was asked for, and are the sum over the GPUs |
| GpuProofs.MemoryIsAccounted | ollama/llm/memory.go:243-342 | Memory is the sum of reservations, placed blocks, output layer and graphs; with everything placed there is no overflow |
| GpuProofs.UniformIsOptimal | ollama/llm/memory.go:215-242 | With blocks of one size round robin places as many as asked for or as many as all GPUs together have room for |
| GpuFit.ByLibrary | ollama/discover/types.go:103-125 | GPUs grouped by library and variant, in order of first appearance |
| GpuFit.GroupsPartition | ollama/discover/types.go:103-125 | Grouping loses no GPU and duplicates none |
| GpuMeaning.GroupsMean | ollama/discover/types.go:103-125 | A group holds exactly the GPUs of its kind, and the groups come in the order in which their kinds first appear |
| GpuMeaning.KindMeans | ollama/discover/types.go:103-125 | GPUs are of one kind exactly when library and variant agree |
| GpuFit.PredictServerFit | ollama/llm/memory.go:18-36 | The first group with a complete fit decides; a fit is reported exactly when some group has one |
| GpuFit.FitIsHosted | ollama/llm/memory.go:18-36 | A predicted fit places exactly the layers asked for, within the memory of every GPU |
| GpuFit.OutputPlacedIff | ollama/llm/memory.go:252-262 | The output layer is placed exactly when it is wanted and one of the GPUs tried for it, those at places count mod 1 to count mod n, has room |
| GpuFit.FitsIff | ollama/llm/memory.go:18-36 | On GPUs that are no CPU a fit is predicted exactly when as many blocks are placed as were asked for, or all of them are and a GPU tried for the output layer has room |
| GpuFit.OutputIsNotTried | ollama/llm/memory.go:252-262 | Two GPUs and a model, one of them with room for the output layer, for which no fit is predicted |
| GpuFit.NeverFits | ollama/llm/memory.go:18-36 | No GPUs other than a CPU are ever predicted to fit exactly for the hopeless requests: no layers, more layers than there are, or an output layer without weights; a CPU never is |
| GpuFit.UniformFit | ollama/llm/memory.go:18-36 | With blocks of one size, for any number of layers asked for, a fit is predicted exactly when all GPUs together have room for the blocks wanted and, if the output layer is wanted, a GPU that is tried for it has room |
| GgufWriter.WriteGGUF | ollama/fs/ggml/gguf.go:508-561 | Writes exactly the file, keys in bytewise order; fails exactly when some value has an improper type |
| GgufWriter.SortedKeys | ollama/fs/ggml/gguf.go:525-526 | The keys, each once, in bytewise order |
| GgufFormat.BeforeMeans | ollama/fs/ggml/gguf.go:525-526 | One key comes before another exactly when it is smaller at the first byte that differs, or begins it |
| GgufWriter.Writer.WritePair | ollama/fs/ggml/gguf.go:563-616 | The bytes of a key with its typed value |
| GgufWriter.Writer.WriteInfo | ollama/fs/ggml/gguf.go:618-643 | The bytes of a description, dimensions last to first |
| GgufWriter.Writer.WriteData | ollama/fs/ggml/gguf.go:645-661 | Data behind padding to a multiple of 32 |
| GgufReader.DecodeFile | ollama/fs/ggml/ggml.go:360-397 | The reader computes the decoding |
| GgufReader.Reader.DiscardText | ollama/fs/ggml/gguf.go:301-317 | Discarding a string piece by piece ends where reading it would; a length of 2^63 or more counts as nothing |
| GgufReader.Reader.ReadList | ollama/fs/ggml/gguf.go:425-489 | An array is collected within the bound and only moved past beyond it |
| GgufReader.Reader.ReadAllPairs | ollama/fs/ggml/gguf.go:141-191 | The pairs, later ones counting |
| GgufReader.Reader.ReadDescriptions | ollama/fs/ggml/gguf.go:193-233 | The descriptions and the number of parameters |
| GgufReader.Reader.SeekPast | ollama/fs/ggml/gguf.go:251-265 | Moves past the padded data of every tensor |
| GgufBytes.StringAt | ollama/fs/ggml/gguf.go:319-361 | A written string is read back |
| GgufBytes.SkipIsRead | ollama/fs/ggml/gguf.go:301-343 | Discarding consumes exactly what reading would, when reading is possible |
| GgufFormat.LeDigit | ollama/fs/ggml/gguf.go:270-282 | Numbers are little-endian |
| GgufFormat.TwosComplement | ollama/fs/ggml/gguf.go:270-282 | Signed numbers are in two's complement |
| GgufFormat.NumberRead | ollama/fs/ggml/gguf.go:141-191 | A number of any of the ten types is read from as many bytes as its type has |
| GgufFormat.TypeCodes | ollama/fs/ggml/gguf.go:563-616 | The type codes that written values and their elements begin with |
| GgufFormat.KeptWithin | ollama/fs/ggml/gguf.go:39-41 | The elements of an array are kept exactly within the bound; a bound of 0 stands for 1024 |
| GgufFormat.HeadBytes | ollama/fs/ggml/gguf.go:508-523 | A file begins with "GGUF", version 3 and the two counts |
| GgufFormat.OthersAreRefused | ollama/fs/ggml/ggml.go:360-397 | What does not begin with "GGUF" is not decoded |
| GgufValue.ValueAt | ollama/fs/ggml/gguf.go:563-616 | A written value of any type is read back, without its elements if it is beyond the bound |
| GgufValue.PairsAt | ollama/fs/ggml/gguf.go:528-532 | Written pairs are read back |
| GgufValue.PairsElided | ollama/fs/ggml/gguf.go:425-489 | Pairs read without a bound are read within any bound, lacking only elements, and conversely exactly when no discarded string is unreadable |
| GgufTensor.SizeReversed | ollama/fs/ggml/ggml.go:305-315 | Parameters and size do not depend on the order of dimensions, in 64-bit arithmetic |
| GgufTensor.InfoAt | ollama/fs/ggml/gguf.go:618-643 | A written description is read back, dimensions reversed |
| GgufTensor.OffsetsHit | ollama/fs/ggml/gguf.go:544-558 | Recorded offsets lead to the data exactly when all sizes but the last are multiples of 32 |
| GgufTensor.DataSkipped | ollama/fs/ggml/gguf.go:251-265 | The reader moves past exactly the bytes that were written |
| GgufFormat.BlocksOfFormat | ollama/fs/ggml/ggml.go:212-303 | Elements and bytes of a block of every kind, in plain numbers |
| GgufFormat.SizeOfBlocks | ollama/fs/ggml/ggml.go:305-315 | A tensor of n whole blocks takes n times the bytes of a block |
| GgufFormat.DecodeEnds | ollama/fs/ggml/gguf.go:193-265 | Decoding any file of tensors of whole blocks ends right behind the last one: each begins at a multiple of the alignment and takes its blocks |
| GgufFormat.ParametersAreElements | ollama/fs/ggml/gguf.go:193-236 | The number of parameters is the number of all elements, in 64-bit arithmetic |
| GgufFormat.InfoLayout | ollama/fs/ggml/gguf.go:618-643 | Where each part of a description lies, the last dimension first |
| GgufFile.MetadataRoundTrip | ollama/fs/ggml/gguf.go:141-249 | Keys, values and descriptions come back as written, with the parameter count |
| GgufFile.RoundTrip | ollama/fs/ggml/gguf.go:508-661 | Decoding what was written succeeds and ends at the end of the file, if tensors write their size and any alignment key is 32 |
| GgufFile.DataRoundTrip | ollama/fs/ggml/gguf.go:544-661 | The data of every tensor is in the file, and where offsets lead to it |
| GgufFile.ElisionIsTransparent | ollama/fs/ggml/gguf.go:301-343 | Any bound gives the same keys, tensors and offsets; when it accepts more files than no bound |
| GgufFile.BoundHidesError | ollama/fs/ggml/gguf.go:301-343 | A whole file that is decoded with a bound and not without one |
| ModelfileParser.ParseFile | ollama/parser/parser.go:320-449 | The rune-driven loop computes the parse |
| ModelfileLayout.LayoutParses | ollama/parser/parser.go:320-508 | A Modelfile is read as its commands, in order, whatever comments, blank lines and blanks lie between them, in whatever letter case the keywords are and however values are quoted; it is refused exactly if none names the model |
| ModelfileLayout.LastLineParses | ollama/parser/parser.go:411-449 | The last line needs no newline, be it a command or a comment |
| ModelfileLayout.UnknownWord | ollama/parser/parser.go:354-362 | A word that is no keyword is an invalid command, reported with its line |
| ModelfileLayout.BrokenWord | ollama/parser/parser.go:461-470 | So is a word with anything but letters in it |
| ModelfileLayout.UnknownRole | ollama/parser/parser.go:377-385 | A message of another role than the three is refused, with its line |
| ModelfileLayout.OpenQuotes | ollama/parser/parser.go:411-432 | A value whose quotes are still open at the end is an unexpected end |
| ModelfileLayout.PaddedStands | ollama/parser/parser.go:388-409 | Blanks round a value are not part of it |
| ModelfileParser.FileString | ollama/parser/parser.go:30-37 | The commands, one after the other |
| ModelfileParser.CutRole | ollama/parser/parser.go:281-282 | Splits a message at the first colon and space |
| ModelfileQuotes.PlainStands | ollama/parser/parser.go:278 | Which values are read back without quotes |
| ModelfileQuotes.SingleStands | ollama/parser/parser.go:522-541 | Which values without quotes of their own are read back from between quotes, an equivalence |
| ModelfileQuotes.TripleStands | ollama/parser/parser.go:522-541 | Which values are read back from between triple quotes, an equivalence |
| ModelfileQuotes.QuoteStands | ollama/parser/parser.go:510-541 | Which values are read back from the way they are quoted, an equivalence |
| ModelfileNeeds.ValueNeeded | ollama/parser/parser.go:392-409 | A value that is not fit is never read back, whatever follows it |
| ModelfileNeeds.NeverClosed | ollama/parser/parser.go:392-409 | A value with open quotes swallows the newline behind it |
| ModelfileProofs.LineReads | ollama/parser/parser.go:274-289 | A fit command is read back from its own line or lines |
| ModelfileProofs.LineNeeded | ollama/parser/parser.go:274-289 | A command that is the next one read from its own text is fit |
| ModelfileProofs.RoundTrip | ollama/parser/parser.go:30-541 | A Modelfile is parsed back from its printed form exactly when every command is fit and one names the model |
| ModelfileProofs.EdgeTabIsLost | ollama/parser/parser.go:510-520 | A Modelfile that is not parsed back |
| SchedSafety.CoreStep | ollama/server/sched.go:116-472 | Every event, in any order, keeps reference counts equal to holders and loaded runners open, under the two conditions |
| SchedSafety.FinishesItsOwn | ollama/server/sched.go:321-331 | A finish event counts for the runner its request holds |
| SchedRuns.CountsAreHolders | ollama/server/sched.go:314-472 | In every such run counts are holders, and held runners are the loaded ones |
| SchedRuns.NothingInUseIsUnloaded | ollama/server/sched.go:363-387 | In every such run only idle loaded runners are unloaded and no count underflows |
| SchedRuns.ExpiringTwice | ollama/server/sched.go:363-387 | Wherever a runner is queued to expire twice, the second event removes a runner in use |
| SchedRuns.GrantingClosed | ollama/server/sched.go:143-153 | Wherever a usable runner is idle, it can be unloaded between lookup and grant and is then handed out closed |
| SchedRuns.NeverBeyondTheLimit | ollama/server/sched.go:154-186 | In every run no more runners are loaded than the limit, once it is set |
| SchedProgress.IdleIsLeaving | ollama/server/sched.go:314-390 | In every run a loaded runner that nobody uses has an expired event on its way or, only if it may stay for a while, a timer that runs or has gone off |
| SchedProgress.WaitingIsAnswered | ollama/server/sched.go:277-311 | In every run a request that waits for an unload is owed one: it has happened, an expired event is on its way, or a runner in use is to be unloaded when idle, and then some request holds it |
| SchedProgress.TimersAreForIdle | ollama/server/sched.go:314-411 | In runs under the two conditions a timer runs only for a loaded idle runner that may stay |
| SchedProgress.DurationChanges | ollama/server/sched.go:394-411 | How long a runner stays is changed only by a request that is granted it and asks for a time, or by being told to expire |
| SchedProgress.DurationIsKept | ollama/server/sched.go:394-472 | A request that asks for a time gets it, and a runner told to expire has none left |
| SchedRuns.KeptExactlyWhenEqual | ollama/server/sched.go:575-610 | When a runner is kept for a request, an equivalence in every run |
| SchedRuns.PostponedIsReloaded | ollama/server/sched.go:259-272 | A request postponed after trying several parallel sequences is told to reload a runner loaded for an equal one |
| SchedExamples.UnloadedInUse | ollama/server/sched.go:363-387 | A run from the initial state in which a runner in use is removed by a second expired event |
| SchedExamples.GrantedClosed | ollama/server/sched.go:143-153 | A run from the initial state in which a request is handed a closed runner |
| SchedExamples.PostponedReloads | ollama/server/sched.go:259-272 | A run from the initial state in which a postponed request is told to reload a healthy runner that was loaded for an equal one |
| SchedFit.PickBestFullFit | ollama/server/sched.go:689-738 | The first choice, in order of preference, that fits, with its context; none exactly when nothing fits |
| SchedFit.SortedMeans | ollama/server/sched.go:700-705 | Sorted by free memory: no GPU comes before one with more of it |
| SchedFit.PickBestPartialFit | ollama/server/sched.go:741-760 | The group with the most predicted memory |
| SchedFit.PlaceFirst | ollama/server/sched.go:223-235 | The context is the one asked for, once per parallel sequence |
| StoreOps.Store.DeleteUnusedLayers | ollama/server/images.go:369-398 | Removes exactly the blobs of the given digests that no readable manifest refers to |
| StoreOps.Store.PruneLayers | ollama/server/images.go:400-442 | Removes misnamed files, then unused blobs |
| StoreOps.Store.RemoveLayerFile | ollama/server/layer.go:104-130 | Removes the blob of a layer unless some manifest refers to it |
| StoreOps.Store.DeleteModel | ollama/server/manifest.go:36-61 | Removes the manifest, then the layers nobody else needs, up to the first error |
| StoreOps.Store.CopyModel | ollama/server/images.go:330-367 | Copies a manifest, whole or not |
| StoreOps.Store.Download | ollama/server/images.go:562-576 | Downloads missing layers in turn until an answer is missing |
| StoreOps.Store.VerifyAll | ollama/server/images.go:578-597 | Verifies what was downloaded; the first mismatch is removed and ends the pull |
| StoreOps.Store.PullModel | ollama/server/images.go:526-630 | A pull, wherever it fails |
| StoreEffects.CopyMeans | ollama/server/images.go:330-367 | The destination manifest is the source, broken, or as it was; nothing else changes |
| StoreEffects.DeleteMeans | ollama/server/manifest.go:36-61 | The manifest is gone and no other; of its layers exactly those files are gone that no other manifest refers to, up to the first that cannot be removed |
| StoreEffects.DeleteRefused | ollama/server/manifest.go:36-97 | Deleting what cannot be read changes nothing |
| StoreEffects.PullMeans | ollama/server/images.go:526-630 | A pull that goes through writes its manifest and no other, has what it downloaded, and loses, where it prunes, exactly the files that only the replaced manifest referred to |
| StoreEffects.RefusedMeans | ollama/server/images.go:526-597 | A pull that does not go through leaves the manifests, loses no blob and adds none but listed ones |
| StoreEffects.ValidMeans | ollama/server/modelpath.go:126-135 | What is accepted as a digest: sha256, a colon or dash, 64 hexadecimal digits; the file has the dash |
| StoreSafety.PruneIsExact | ollama/server/images.go:400-442 | After pruning the blobs are exactly the referenced ones, and those that cannot be removed |
| StoreSafety.PruneKeepsIff | ollama/server/images.go:400-442 | Without canonical digests, when pruning keeps what is needed |
| StoreSafety.PullIsSafe | ollama/server/images.go:526-630 | A pull keeps the blobs of all readable manifests wherever it fails |
| StoreSafety.AcceptsIff | ollama/server/images.go:562-597 | A pull goes through exactly when every digest is valid and some content comes for every missing file, the right one unless its digest is listed again |
| StoreSafety.RefusedWritesNothing | ollama/server/images.go:562-630 | A pull that does not go through writes no manifest |
| StoreSafety.PullKeepsFetched | ollama/server/images.go:562-630 | What a pull that goes through has downloaded is still there, unchanged, when it has pruned |
| StoreSafety.PulledIsVerifiedIff | ollama/server/images.go:562-597 | Whatever files the registry sends, what a pull that goes through leaves of its downloads has been verified: exactly when no missing digest is listed again after the entry that first names its file, some digest is invalid, or some missing file is named by one digest only, which no content has |
| StoreSafety.TwiceIsAccepted | ollama/server/images.go:562-597 | For a missing digest that is listed again, in a list that can go through, there are files with which the wrong content is accepted |
| StoreSafety.WrongContentIsKept | ollama/server/images.go:562-630 | A pull of a manifest that lists a layer twice writes the manifest and keeps the wrong content under its digest |
| StoreSafety.DeleteIsSafe | ollama/server/manifest.go:36-61 | Deleting a model keeps the blobs of the others |
| StoreSafety.RunsAreSafe | ollama/server/images.go:330-630 | Any sequence of pulls, copies, deletions and prunings keeps the blobs of all readable manifests |
| StoreDownload.BlobDownload.constructor | ollama/server/download.go:144-173 | Parts of the right size follow one another over the whole blob |
| StoreDownload.PartSizes | ollama/server/download.go:144-173 | Parts of 100 MB, of 1 GB, or between these a sixteenth of the blob |
| StoreDownload.BlobDownload.DownloadChunk | ollama/server/download.go:328-356 | What is completed of a part is in the file, however a request ends |
| StoreDownload.BlobDownload.Run | ollama/server/download.go:213-326 | Any schedule of requests, endings and restarts: once all parts are completed the file is the blob |

## Left out

- KvCausal.Causal.StartForward: the tensors of all layers are one array of rows, and the limit on moves per compute graph (causal.go:308, 341-347) is not modelled, since it only divides the same copies among graphs.
- KvCausal.Causal.StartForward: before anything is compacted some layer must have its rows, since the code divides by the number of such layers (causal.go:308).
- KvCausal.Causal.Shift: the rotation of a key is the addition of a phase; the arithmetic of rotary embedding is not modelled.
- KvWrapper.WrapperCache.StartForward: no position is MaxInt32, which the removals of the unwind take for "to the end".
- KvRuns.RunIsHistory: calls that fail for want of a mask are not part of a run, since what their cells hold is left to chance; the calls of a run are related to the methods of the cache by their contracts; in a proper run positions are neither negative nor MaxInt32, intervals are not inverted, keys come rotated to their positions and no compaction joins two moves.
- The encoder cache, and WrapperCache.Remove and CopyPrefix, which forward to each cache.
- BpeCodec.Encode: the regular expression that splits text is a parameter, assumed to partition it.
- BpeCodec.RoundTrip: the vocabulary is closed under single bytes and merges, and special tokens are ASCII.
- GpuEstimate.EstimateGPULayers: there is some GPU and some block, since the code indexes the one and divides by the number of the other; sizes are natural numbers below the range of 64-bit words; sizes of graphs and of the key-value cache are inputs, and so is what is read from projector files.
- GgufReader.DecodeFile: version 1 and big-endian files are reported as unreadable; a program that panics (negative lengths, an alignment of zero) is taken to fail.
- GgufWriter.WriteGGUF: tensors are taken in the order they are sorted into, which may be any; data is written in one piece.
- GgufFile.RoundTrip: the order of keys is bytewise, and lengths are below 2^63, as lengths of Go slices are.
- ModelfileParser.ParseFile: text is a sequence of runes without a byte order mark, and which runes beyond ASCII are printable is a parameter.
- CreateRequest and the paths of files in a Modelfile.
- SchedRuns.CountsAreHolders: what a load, a fit or a health check decides is left open; timers go off at any time.
- SchedRuns.NeverBeyondTheLimit: the limit is taken from a list of GPUs that is not empty.
- SchedFit.PickBestFullFit: the prediction is a function of GPUs and context; that filterGPUsWithoutLoadingModels and updateFreeSpace change the list beforehand is not modelled.
- Requests that are cancelled before they are scheduled, and the shutdown of the scheduler.
- StoreOps.Store.PullModel: blobs stand for the digests of their content; operations do not overlap; directories, which PruneDirectory removes, are not modelled.
- StoreDownload.BlobDownload.Run: the server honours ranges, writes do not fall short, and the division into parts has been saved completely before an interruption.
- Network, authentication, timing and backoff; creation, conversion and quantization of models; sampling.
