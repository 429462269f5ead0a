# RapidBench, verified

A Dafny model of the parts of RapidBench whose correctness does not depend on the device, with proofs of what
they promise. Each source file that works by changing things step by step is modelled by methods on arrays,
fields and loops, proved against a specification; the theorems are about the specification, for all inputs, all
runs and all interleavings.

- `ApplicationJson`, `ApplicationJsonGrammar`, `JsonCorpus`, `DecimalText`: the fixed-schema JSON parser, the language it
  accepts, the printer of its corpus, and what the name hash detects.
- `RadixSort`, `Sobel`, `ApplicationWorkload`: the radix oracle, the fast edge filter against its reference
  convolution, and the workload object whose validation accepts exactly correct outputs.
- `Gates`, `GatesTheorems`, `GatesEnding`, `GatesLedger`: workers and coordinator of the CPU application engine, one
  atomic access at a time; the ledger counts batches, failures and times from the events alone, and published snapshots
  are proved against it. `LegacyBarrier`: when the older engine's barrier hangs.
- `AioQueue`, `StorageFile`, `StorageStop`: the submit/reap/resubmit loop, the preparation of the test file, the random
  offsets, and stop requests racing the end of a run.
- `CpuList`, `CpuListGrammar`, `CpuTopology` (file `Topology.dfy`): the CPU-list parser and its grammar,
  performance groups, the preferred CPU.
- `HalfFloat`, `HalfRounding`, `GpuRing`, `MemoryRotation`: binary16 rounding on float bits, hazards and masks of the
  output ring, the shader's rotated read against its oracle.
- `ScoreWindows`, `MemoryEngine`, `MemoryPhases`: score windows and peak; buffer sizes, slices, attempts, the final
  summary, and the phase word of an attempt under all interleavings.
- `RunLease`, `RunControllers`: the run lease over any number of controllers, as values and as objects.

Where the code deviates from what its documentation says, the model follows the code:

- Out-of-order completions make the storage queue submit a slot twice (`AioQueue.ReapedInReverse`); `AioQueue.BatchExact`
  and `AioQueue.StepInOrderExactly` say exactly when.
- The parser overwrites its result before it notices what follows an empty array (`ApplicationJson.ParseApplicationJson`).
- The CPU-list loop never ends for a range that ends at 2^32 - 1 (`CpuList.PrintedListExactly`).
- A best CPU with an id of 2^31 or more defeats the choice of the preferred CPU (`CpuTopology.PreferredExactly`), and then
  the order of enumeration decides (`CpuTopology.OrderIrrelevantExactly`).
- Rounding can take the memory buffer below the minimum (`MemoryEngine.ChoiceTooSmallExactly`).
- The shader's subtraction is not the modulo once the sum passes 32 bits (`MemoryRotation.BaseIsModuloExactly`); the buffers
  the engine allocates stay clear of that.
- A storage stop request can overwrite the terminal state of a run, for good (`StorageStop.TerminalShownExactly`).
- A stop at the wrong moment leaves the older CPU engine waiting for ever (`LegacyBarrier.CanEndExactly`).

`dafny verify dfyconfig.toml` checks everything.

## Model

| member | source | states |
|---|---|---|
| ApplicationJsonGrammar.DocumentExact | native/benchmark_core/src/cpu_application_workload.cpp:128-162 | The parser's language, both ways: a text is read as a list of records if and only if the records are valid and the text renders them with any whitespace between tokens (sections 2, 6 and 7 of RFC 8259, restricted to the fixed schema) |
| ApplicationJsonGrammar.DocumentSound | native/benchmark_core/src/cpu_application_workload.cpp:128-162 | Whatever is accepted is a rendering of the records returned |
| ApplicationJsonGrammar.DocumentComplete | native/benchmark_core/src/cpu_application_workload.cpp:128-162 | Every rendering of every list of valid records is accepted and read back as that list |
| ApplicationJsonGrammar.RecordSound | native/benchmark_core/src/cpu_application_workload.cpp:139-153 | A record that was read occupies exactly its tokens, with whitespace between them |
| ApplicationJsonGrammar.RecordComplete | native/benchmark_core/src/cpu_application_workload.cpp:139-153 | The tokens of a valid record, however spaced, are read as that record |
| ApplicationJsonGrammar.NumberExact | native/benchmark_core/src/cpu_application_workload.cpp:40-51 | A number is read if and only if it is the canonical decimal of a value below 2^64 and no digit follows: no leading zero, no overflow, no truncation |
| ApplicationJsonGrammar.NameExact | native/benchmark_core/src/cpu_application_workload.cpp:52-66 | A name is read if and only if it is a quoted run of printable ASCII without quote and backslash |
| ApplicationJson.ParseApplicationJson | native/benchmark_core/src/cpu_application_workload.cpp:128-162 | The parser succeeds exactly on the language and then stores the number of records, the sum of the ids, the sum of the values, the number of active records, each modulo 2^64, and the FNV-1a hash of all names in order; on failure the result is untouched, except that a text opening with an empty array has already overwritten it |
| ApplicationJson.Cursor.Number | native/benchmark_core/src/cpu_application_workload.cpp:40-51 | The digit loop with its overflow guard reads exactly what the number grammar reads, and reports the value |
| ApplicationJson.Cursor.Name | native/benchmark_core/src/cpu_application_workload.cpp:52-66 | The name loop reads exactly a quoted name, advances past it, and hashes it; the hash is unchanged on failure |
| ApplicationJson.Cursor.Token | native/benchmark_core/src/cpu_application_workload.cpp:33-39 | A token is consumed after whitespace if and only if it is next; otherwise only the whitespace is |
| ApplicationJson.Cursor.Space | native/benchmark_core/src/cpu_application_workload.cpp:28-32 | Skips exactly the four JSON whitespace characters |
| ApplicationJson.Cursor.End | native/benchmark_core/src/cpu_application_workload.cpp:67-70 | True exactly when only whitespace is left |
| ApplicationJson.ReadRecord | native/benchmark_core/src/cpu_application_workload.cpp:139-157 | One turn of the record loop reads one record and adds it to the running summary, whose meaning FoldSummarizes pins |
| ApplicationJson.ReadRecords | native/benchmark_core/src/cpu_application_workload.cpp:138-158 | The loop reads records while commas follow and folds all of them in order |
| ApplicationJson.FoldSummarizes | native/benchmark_core/src/cpu_application_workload.cpp:131-157 | What the loop accumulates, said of the records alone: their number, the sums of their ids and values, the number of active ones, modulo 2^64, and the hash of the concatenated names |
| ApplicationJson.HashAppend | native/benchmark_core/src/cpu_application_workload.cpp:18-23 | Hashing a concatenation is hashing the second part from the first part's hash |
| JsonCorpus.PrintThenParse | native/benchmark_core/src/cpu_application_workload.cpp:207-226 | Round trip: the text printed for any list of valid records parses to that list |
| JsonCorpus.BuildJsonCorpus | native/benchmark_core/src/cpu_application_workload.cpp:207-226 | The constructor's loop builds the printed corpus and, beside it, the counts, sums and hash of its records, which parsing it must give |
| JsonCorpus.CorpusValid | native/benchmark_core/src/cpu_application_workload.cpp:207-218 | Every record the generator makes is one the parser accepts |
| JsonCorpus.CorpusTotals | native/benchmark_core/src/cpu_application_workload.cpp:207-226 | Closed forms of a corpus summary: rows, the ids' triangular sum, every row active but each third from the first, values below 10^6 |
| JsonCorpus.NeverZero | native/benchmark_core/src/cpu_application_workload.cpp:12-17 | The generator never reaches zero, where it would stay |
| JsonCorpus.XorBitwise | native/benchmark_core/src/cpu_application_workload.cpp:18-23 | The hash step's exclusive or, bit by bit |
| JsonCorpus.HashStepInjective | native/benchmark_core/src/cpu_application_workload.cpp:18-23 | One FNV-1a step separates different hashes and different characters modulo 2^64 |
| JsonCorpus.OneCharacterIsNoticed | native/benchmark_core/src/cpu_application_workload.cpp:18-23 | Replacing any one hashed character by another changes the name hash |
| RadixSort.PassSorts | native/benchmark_core/src/cpu_application_workload.cpp:82-94 | A counting pass turns an array sorted by its low digits into one sorted by one digit more |
| RadixSort.PassIsStable | native/benchmark_core/src/cpu_application_workload.cpp:92-93 | Elements with the same digit keep their order in a pass |
| RadixSort.PassPermutes | native/benchmark_core/src/cpu_application_workload.cpp:82-94 | A pass rearranges its input |
| RadixSort.DestinationInBucket | native/benchmark_core/src/cpu_application_workload.cpp:92-93 | Each write goes to a slot in range, inside the bucket of its digit |
| RadixSort.DestinationInjective | native/benchmark_core/src/cpu_application_workload.cpp:92-93 | No slot is written twice |
| RadixSort.DestinationOnto | native/benchmark_core/src/cpu_application_workload.cpp:92-93 | Every slot is written |
| RadixSort.CountDigits | native/benchmark_core/src/cpu_application_workload.cpp:83-85 | The counting loop: how many elements carry each digit |
| RadixSort.StartOffsets | native/benchmark_core/src/cpu_application_workload.cpp:86-91 | The prefix sums, in place: where each bucket starts |
| RadixSort.CountingPass | native/benchmark_core/src/cpu_application_workload.cpp:82-94 | The in-place pass over two buffers leaves the stable rearrangement in the second |
| RadixSort.ReferenceSort | native/benchmark_core/src/cpu_application_workload.cpp:79-96 | Four passes and three swaps return a sorted permutation of any list of 32-bit words |
| RadixSort.SortedIsUnique | native/benchmark_core/src/cpu_application_workload.cpp:272-275 | There is only one sorted permutation |
| RadixSort.OracleDecidesSorting | native/benchmark_core/src/cpu_application_workload.cpp:272-275 | An output equals the radix reference if and only if it is the sorted permutation of the keys |
| Sobel.ApplicationSobel | native/benchmark_core/src/cpu_application_workload.cpp:164-190 | The fast filter refuses missing, aliased or mis-sized buffers and otherwise writes, whatever the output held: 0 on the border; inside, with gx and gy weighed out on the eight neighbours, 255 if and only if |gx| + |gy| is at least 255, and that sum below |
| Sobel.ReferenceSobel | native/benchmark_core/src/cpu_application_workload.cpp:98-118 | The nested kernel loops compute that same image, stated on the eight neighbours; up to a side of 65536 every 32-bit index is exact |
| Sobel.ConvolveBoth | native/benchmark_core/src/cpu_application_workload.cpp:106-113 | The two inner loops sum the nine weighted neighbours for both kernels |
| Sobel.ConvolveExpands | native/benchmark_core/src/cpu_application_workload.cpp:179-184 | Both convolutions written out without the zero weights, as the fast filter does |
| Sobel.FilteredExactly | native/benchmark_core/src/cpu_application_workload.cpp:98-118 | An image has border zero and the clamped sum of the two gradients at every inner pixel if and only if it is the image both filters compute |
| ApplicationWorkload.Workload.constructor | native/benchmark_core/src/cpu_application_workload.cpp:192-241 | Builds inputs and references that belong together: sort keys with both range ends, a duplicate and the generator's words, the printed corpus, the image pixel by pixel; an output not yet written does not validate, but a filter output of zeros might |
| ApplicationWorkload.Workload.RunBatch | native/benchmark_core/src/cpu_application_workload.cpp:248-270 | Every batch, on the unchanged input, leaves an output that validates and touches only the output of its own test; it counts the keys, the characters of the text, or the pixels |
| ApplicationWorkload.Workload.ValidatesExactlyTheCorrect | native/benchmark_core/src/cpu_application_workload.cpp:272-282 | Validation accepts exactly the correct outputs: the sorted permutation of the keys; a successful parse with the counts, sums and hash of the corpus; the image of clamped gradients over its neighbours |
| ApplicationWorkload.GenerateKeys | native/benchmark_core/src/cpu_application_workload.cpp:196-206 | Key i is the generator's word i + 1, but for both range ends in front and the third a copy of the fourth |
| ApplicationWorkload.GenerateImage | native/benchmark_core/src/cpu_application_workload.cpp:228-236 | Pixel (x, y) is 3x + 5y plus three bits of its own draw, modulo 256 |
| Gates.RunKeeps | native/benchmark_core/src/cpu_application_engine.cpp:38-102 | The invariant of workers, coordinator, counters, phase word and stop flag holds along every interleaving of single atomic accesses, over any number of runs |
| GatesTheorems.NoTimedBatchBeforeAllWarm | native/benchmark_core/src/cpu_application_engine.cpp:66-92 | Phase safety: whenever any worker runs or has counted a timed batch, every selected CPU's worker has been spawned and has finished warming up |
| GatesTheorems.PublishedBeforeRead | native/benchmark_core/src/cpu_application_engine.cpp:67-77 | Publication: whatever a worker is about to read of the warm deadline, the start and the deadline has been written and is not being written |
| GatesTheorems.CompletedClaims | native/benchmark_core/src/cpu_application_engine.cpp:281-326 | A Completed snapshot has error 0, units equal to the positive sum over all workers, elapsed equal to their maximum, all workers joined, and every contributing worker validated after the joins |
| GatesTheorems.CancelledClaims | native/benchmark_core/src/cpu_application_engine.cpp:304-315 | Cancelled means that a user asked, or the destructor, and nothing failed; Error carries a code; a stop neither asked for has an error |
| GatesLedger.SnapshotExactly | native/benchmark_core/src/cpu_application_engine.cpp:66-303 | Counted from the events alone: whenever no run is on, the published units are the batch size times the timed batches finished since the start; a completed or cancelled run began no other, and its elapsed time runs from the published start to the latest finish |
| GatesLedger.OutcomeExactly | native/benchmark_core/src/cpu_application_engine.cpp:272-315 | How a run ends, from the failures its events noted: Error if and only if it carries a code, one of those noted if there are any; -30 only with nothing measured; Completed whenever none failed, units were counted and nobody stopped it |
| GatesLedger.StartsAfterWarmUp | native/benchmark_core/src/cpu_application_engine.cpp:229-242 | The start is never published before the warm-up's deadline was set and its length has passed since |
| GatesLedger.ProgressClaims | native/benchmark_core/src/cpu_application_engine.cpp:203-257 | What a running snapshot's state says: preparing exactly until the warm-up's deadline is set; from then on every CPU's worker is ready; measuring, every worker has warmed up |
| GatesLedger.FirstErrorStays | native/benchmark_core/src/cpu_application_engine.cpp:43-47 | The first failure recorded in a run is the one that stays |
| GatesTheorems.EventFalls | native/benchmark_core/src/cpu_application_engine.cpp:43-102 | Once stop is set, every effective step of a thread lowers a measure and no other step raises it |
| GatesTheorems.NeverStuck | native/benchmark_core/src/cpu_application_engine.cpp:48-102 | Short of rest, some thread can always take a step that is not a mere poll |
| GatesTheorems.StopDrains | native/benchmark_core/src/cpu_application_engine.cpp:43-102 | After a stop a run has no more effective steps left than the measure says: workers end, the coordinator passes its joins |
| GatesEnding.StoppedRunEnds | native/benchmark_core/src/cpu_application_engine.cpp:43-102 | From every state with a stop requested, the threads alone bring the coordinator to rest |
| GatesEnding.RunEnds | native/benchmark_core/src/cpu_application_engine.cpp:48-102 | Without a stop too: from every state a run can be in, the threads and passing time bring the coordinator to rest |
| GatesEnding.EveryRunCanEnd | native/benchmark_core/src/cpu_application_engine.cpp:38-326 | No deadlock: after any history of starts, stops, failures and the destructor, the run can be brought to rest, where every started thread is done and the published state is terminal |
| LegacyBarrier.CanEndExactly | native/benchmark_core/src/engine.cpp:323-351 | The older engine's barrier: a reachable state can still end if and only if its coordinator is not past the stop check while a worker has left, or must leave, without being counted |
| LegacyBarrier.HangsForEver | native/benchmark_core/src/engine.cpp:844-854 | Once that is so, no continuation gets the coordinator past its wait |
| LegacyBarrier.HangStartsExactly | native/benchmark_core/src/engine.cpp:333-336 | The one way into it: a stop after the coordinator's check while a worker still waits for the measurement to start |
| LegacyBarrier.EndsUnlessHanging | native/benchmark_core/src/engine.cpp:736-854 | From every other state, letting the threads run ends the run |
| LegacyBarrier.OneWorkerCanHang | native/benchmark_core/src/engine.cpp:736-765 | The hang is reachable with a single worker |
| AioQueue.PlayAccounts | native/benchmark_core/src/storage_engine.cpp:623-673 | Along every sequence of reaped batches, submitted is reaped plus outstanding, at most eight are outstanding, bytes are completions times the block; a phase that ends well has none outstanding and counted all it submitted |
| AioQueue.BatchExact | native/benchmark_core/src/storage_engine.cpp:648-655 | The resubmitted batch is the reaped one if and only if every reaped position j holds a slot of at least j; if and only if not, some slot is submitted twice |
| AioQueue.PhaseAccounts | native/benchmark_core/src/storage_engine.cpp:590-673 | The same for a whole phase, from its eight submissions on |
| AioQueue.PhaseExactly | native/benchmark_core/src/storage_engine.cpp:616-673 | A phase from its list of rounds alone: up to the first expired or stopped round each completion submits one request, from it on none does and completions only drain the eight outstanding; when it fails, ends or waits, and what it has logged, outstanding and counted |
| AioQueue.EightAnswersEnd | native/benchmark_core/src/storage_engine.cpp:623-669 | Once expired, eight non-empty batches end a phase |
| AioQueue.PhaseInOrder | native/benchmark_core/src/storage_engine.cpp:590-673 | In a whole phase whose batches are all reaped in order, the k-th request goes to the k-th planned offset and no buffer serves two requests at once |
| AioQueue.ReapedInReverse | native/benchmark_core/src/storage_engine.cpp:605 | Reaping slots in the order 1, 0 submits slot 0 twice and drops slot 1 |
| AioQueue.PlayInOrder | native/benchmark_core/src/storage_engine.cpp:623-669 | While batches are reaped in order, the k-th request of the phase goes to the k-th planned offset and no buffer serves two requests at once |
| AioQueue.StepInOrderExactly | native/benchmark_core/src/storage_engine.cpp:648-662 | One out-of-order batch is enough to put two requests on one buffer: the state stays orderly if and only if the batch was reaped in order |
| AioQueue.SequentialSweep | native/benchmark_core/src/storage_engine.cpp:599-603 | The sequential offsets sweep the file block by block and start over at its end |
| AioQueue.RandomLaps | native/benchmark_core/src/storage_engine.cpp:599-600 | The random offsets are taken lap by lap from the list, each lap in the list's order |
| AioQueue.Queue.Prepare | native/benchmark_core/src/storage_engine.cpp:590-606 | Fills one control block with the next offset and points the slot's own submission entry at it |
| AioQueue.Queue.Resubmit | native/benchmark_core/src/storage_engine.cpp:648-654 | The resubmission loop leaves exactly the batch whose exactness is characterised above |
| AioQueue.Queue.Turn | native/benchmark_core/src/storage_engine.cpp:623-669 | The loop body, on arrays and counters, is one step of the queue |
| AioQueue.Queue.CountBytes | native/benchmark_core/src/storage_engine.cpp:636-647 | Completions are counted up to the first incomplete one, and only when measuring |
| AioQueue.Queue.Open | native/benchmark_core/src/storage_engine.cpp:607-622 | All eight slots are prepared and submitted, or the phase fails |
| AioQueue.Queue.Run | native/benchmark_core/src/storage_engine.cpp:616-673 | The whole phase on arrays and counters is the run of the steps above |
| AioQueue.Queue.RunPhase | native/benchmark_core/src/storage_engine.cpp:590-673 | Opening and loop on arrays and counters are the whole phase of the theorems, or fail at once |
| StorageFile.RawFile.Fill | native/benchmark_core/src/storage_engine.cpp:354-382 | The fill loop with its 64-bit offset: it prepares the file if and only if one pass goes well, or direct I/O gives up on the way, the file reopens and a second pass goes well; then every block was written through the descriptor in use since its truncation; otherwise which of stop, reopening or writing ended it, and when; it restarts at most once and makes at most two writes a block |
| StorageFile.RawFile.Open | native/benchmark_core/src/storage_engine.cpp:311-332 | Direct I/O is kept exactly when the kernel grants it with alignments of at most 4096 |
| StorageFile.MakeRandomOffsets | native/benchmark_core/src/storage_engine.cpp:408-426 | In whatever order the shuffle leaves them, the list holds exactly the multiples of the block whose block lies in the region rounded down to blocks, each once |
| StorageFile.EachBlockOnce | native/benchmark_core/src/storage_engine.cpp:419-425 | A list names each block of its region exactly once and nothing else |
| StorageFile.WorkersSplitTheFile | native/benchmark_core/src/storage_engine.cpp:765-771 | The four synchronous workers' regions need no rounding, and every block of the file lies in exactly one of them |
| StorageStop.TerminalShownExactly | native/benchmark_core/src/storage_engine.cpp:1186-1206 | With any number of stop requests, a run that ended shows its terminal state if and only if no request published its stale copy afterwards |
| StorageStop.CanBeLostExactly | native/benchmark_core/src/storage_engine.cpp:1186-1196 | The terminal state can still be lost if and only if some request has read the snapshot and not yet published |
| StorageStop.BusyForGood | native/benchmark_core/src/storage_engine.cpp:1151-1155 | Once lost, no later event makes the snapshot terminal, so no run can be started again |
| CpuList.ParseCpuList | native/benchmark_core/src/topology.cpp:88-135 | Returns exactly the strictly ascending union of the admitted ranges read, throws on a number beyond 64 bits, or is caught in the loop over an admitted range, that is, one whose 32-bit counter never passes its end |
| CpuListGrammar.ReadExactly | native/benchmark_core/src/topology.cpp:88-124 | The scan's language, both ways, for every text: what is read, and whether a number overflows, is exactly what the list's grammar of numbers, dashes and skipped characters says |
| CpuList.LoopEndsExactly | native/benchmark_core/src/topology.cpp:126-128 | The 32-bit loop counter passes the end of a range at some time if and only if the range ends below 2^32 - 1, and first after one turn for each id |
| CpuList.PushRange | native/benchmark_core/src/topology.cpp:126-128 | The loop with its wrapping counter leaves if and only if the counter passes the end, having pushed the ids of the range in order |
| CpuList.YieldsUnique | native/benchmark_core/src/topology.cpp:88-135 | What was read determines the outcome |
| CpuList.PrintThenRead | native/benchmark_core/src/topology.cpp:91-131 | Any list of ranges in the kernel's comma and dash format is read back exactly |
| CpuList.PrintedListExactly | native/benchmark_core/src/topology.cpp:88-135 | For every printed list of ranges: some loop is never left if and only if a range of at most 4096 ids ends at 2^32 - 1, and otherwise the result is the ascending union of the ranges in order and at most 4096 wide |
| CpuList.TopIdIsEndless | native/benchmark_core/src/topology.cpp:126 | The list of the top id alone is read, entered and never left |
| CpuList.PrintedListYields | native/benchmark_core/src/topology.cpp:88-135 | Round trip: printed ranges below the top id and at most 4096 wide yield exactly their ids in ascending order |
| CpuList.ReadOne | native/benchmark_core/src/topology.cpp:92-124 | One turn of the scan reads one entry as the grammar does |
| CpuList.SortUnique | native/benchmark_core/src/topology.cpp:132-134 | Sorting and removing duplicates keeps the ids and makes them strictly ascending |
| CpuTopology.AssignPerformanceGroups | native/benchmark_core/src/topology.cpp:324-438 | With all cluster ids present and two of them different, groups are told apart by cluster id; otherwise likewise by policy id; otherwise, when ranks are all equal, by whichever is complete; otherwise by rank, and only then inferred. The count is the number of different keys, at most 16; equal keys share a group, different ones only the last; flags and preferred CPU follow, nothing else changes, and a null topology is left alone |
| CpuTopology.AssignedIsGrouped | native/benchmark_core/src/topology.cpp:345-424 | The numbers computed from the chosen identities are the groups that the evidence, read off the CPUs, demands |
| CpuTopology.GroupsFollowKeys | native/benchmark_core/src/topology.cpp:397-414 | Group numbers follow (maximum rank, identity); different identities share a number only in the last group |
| CpuTopology.GroupsInRange | native/benchmark_core/src/topology.cpp:407-423 | Every CPU's group number is below the count, which is at most 16 |
| CpuTopology.GroupsHaveNoGaps | native/benchmark_core/src/topology.cpp:407-423 | Every number below the count belongs to some CPU |
| CpuTopology.CollectGroupRanks | native/benchmark_core/src/topology.cpp:387-395 | The map loop: each identity with its largest rank |
| CpuTopology.OrderGroups | native/benchmark_core/src/topology.cpp:397-403 | The identities in the order of their keys |
| CpuTopology.AssignNumbers | native/benchmark_core/src/topology.cpp:410-414 | Position in that order, folded at 15, is the number of smaller keys, folded at 15 |
| CpuTopology.PreferredExactly | native/benchmark_core/src/topology.cpp:416-437 | The single pass chooses the highest-ranked CPU with the least id when evidence is complete, otherwise the least available id, otherwise the least id, if and only if that CPU's id is below 2^31 |
| CpuTopology.BestIsPreferred | native/benchmark_core/src/topology.cpp:416-437 | So it does whenever all ids are below 2^31 |
| CpuTopology.PreferredIgnoresOrder | native/benchmark_core/src/topology.cpp:416-437 | The preferred CPU does not depend on the order of enumeration when the best CPU's id is below 2^31 |
| CpuTopology.OrderIrrelevantExactly | native/benchmark_core/src/topology.cpp:416-437 | Order cannot matter if and only if there is no CPU, or the best CPU's id is below 2^31, or all CPUs have one id; otherwise two orders of the same CPUs get different answers |
| CpuTopology.HugeIdsDefeatTheChoice | native/benchmark_core/src/topology.cpp:434-435 | Two CPUs whose two orders are both answered wrongly |
| CpuTopology.SelectCpuCandidates | native/benchmark_core/src/topology.cpp:530-556 | The result is a list of distinct positions of candidate CPUs, best first by rank and then id, with no candidate left out that precedes one taken, as many as requested or available |
| CpuTopology.ArrangementsAgree | native/benchmark_core/src/topology.cpp:540-545 | The unstable sort has only one result, as far as ids go |
| CpuTopology.SelectionIsPrefix | native/benchmark_core/src/topology.cpp:547-549 | A selection of k threads is the first k of the full selection |
| CpuTopology.PreferredIsOneThreadSelection | native/benchmark_core/src/topology.cpp:565-569 | With complete evidence the one-thread selection of present CPUs is the preferred CPU if and only if the best CPU's id is below 2^31 |
| HalfRounding.HalfRoundsToNearestEven | native/benchmark_core/src/gpu_validation.cpp:24-47 | Over all finite binary32 patterns, in the subnormal, normal and overflow regimes: binary16 round to nearest, ties to even, sign kept (sections 3.6 and 4.3.1 of IEEE 754-2019) |
| HalfRounding.HalfRoundsTowardZero | native/benchmark_core/src/gpu_validation.cpp:24-47 | When truncating: the largest half value not above the magnitude, at most 65504 (section 4.3.2) |
| HalfRounding.FieldsMean | native/benchmark_core/src/gpu_validation.cpp:24-47 | The magnitudes the rounding theorems compare are those of the exponent and fraction fields, subnormal or not (section 3.4 of IEEE 754-2019) |
| HalfRounding.NearestOrdered | native/benchmark_core/src/gpu_validation.cpp:24-47 | Nearest-even rounding is ordered, hence single-valued |
| HalfRounding.HalfIdempotent | native/benchmark_core/src/gpu_validation.cpp:24-47 | Rounding a rounded value in either mode changes nothing, infinities and NaNs included |
| HalfRounding.HalfIsMonotone | native/benchmark_core/src/gpu_validation.cpp:24-47 | Rounding never reverses the order of two values, signs and infinities included |
| HalfRounding.RoundNormalBits | native/benchmark_core/src/gpu_validation.cpp:43-46 | Adding 0xFFF and the lowest kept bit before clearing rounds up exactly past the tie, or at the tie when odd |
| GpuRing.RegionIs | native/benchmark_core/src/gpu_validation.cpp:169-171 | The 32-bit wrap of the ring index is harmless: the region is 7 * ring + repetition modulo 16 |
| GpuRing.RecordBatch | native/benchmark_core/src/gpu_benchmark.cpp:709-741 | The recorded commands: dispatches with their push constants in order, a barrier after every sixteenth (in the memory test after each), none trailing |
| GpuRing.DispatchesExactly | native/benchmark_core/src/gpu_benchmark.cpp:709-741 | Where each repetition's dispatch stands among the commands, which quarter or region it addresses, and what follows it |
| GpuRing.CollisionsAreFenced | native/benchmark_core/src/gpu_benchmark.cpp:728-741 | Two dispatches of a batch that write the same place always have a barrier between them |
| GpuRing.LapsUseEveryRegion | native/benchmark_core/src/gpu_benchmark.cpp:728-741 | The dispatches before a barrier have used every region, so none is placed early |
| GpuRing.WrittenRegions | native/benchmark_core/src/gpu_validation.cpp:173-179 | The mask holds exactly the regions some dispatch of the batch writes, and no bit beyond the sixteen |
| GpuRing.BatchWrites | native/benchmark_core/src/gpu_benchmark.cpp:709-724 | The regions the recorded dispatches write are those of their repetitions |
| GpuRing.Measure | native/benchmark_core/src/gpu_benchmark.cpp:1747-1764 | The accumulated mask is exactly what has been written since the sink was cleared, and not empty after a batch |
| GpuRing.SixteenBatchesCover | native/benchmark_core/src/gpu_validation.cpp:169-171 | Sixteen consecutive batches, however short, write all regions |
| GpuRing.LapCovers | native/benchmark_core/src/gpu_validation.cpp:173-179 | A batch of sixteen or more writes all regions |
| MemoryRotation.BaseIsModuloExactly | native/gpu/shaders/memory_bandwidth.comp:19-22 | The shader's single conditional subtraction equals the oracle's modulo if and only if the sum stays in 32 bits |
| MemoryRotation.LoadsInRange | native/gpu/shaders/memory_bandwidth.comp:23-27 | All sixteen loads are in range, aligned to an invocation, even when the sum wraps |
| MemoryRotation.LoadedOnce | native/gpu/shaders/memory_bandwidth.comp:18-27 | Without a wrap every element has one reader, and which |
| MemoryRotation.ExactlyOnceExactly | native/gpu/shaders/memory_bandwidth.comp:18-27 | One dispatch loads each element exactly once if and only if its largest sum stays in 32 bits |
| MemoryRotation.BatchOffsetsAreExact | native/benchmark_core/src/gpu_benchmark.cpp:714-718 | For every buffer of whole 16 KiB up to 256 MiB and every rotation, the quarter offsets are valid and each dispatch loads each element exactly once |
| MemoryRotation.Shade | native/gpu/shaders/memory_bandwidth.comp:18-28 | The shader's loop yields a quarter of the sum of the sixteen vectors from its base on, all in range |
| MemoryRotation.Reference | native/benchmark_core/src/gpu_validation.cpp:130-144 | The oracle's loops yield a quarter of the sum of the 64 numbers from the position (16 index + offset) mod count on |
| MemoryRotation.OutputIsQuarterSum | native/benchmark_core/src/gpu_validation.cpp:130-144 | The output both theorems speak of is a quarter of the sum of 64 consecutive numbers |
| MemoryRotation.ShaderMatchesOracle | native/benchmark_core/src/gpu_validation.cpp:130-144 | For every buffer the engine allocates, shader and oracle agree on every invocation |
| MemoryRotation.ValidatorMatchesLastDispatch | native/benchmark_core/src/gpu_benchmark.cpp:1760-1764 | After a batch the validator expects of every invocation exactly what the batch's last dispatch delivers |
| ScoreWindows.ReadTotals | native/benchmark_core/src/engine.cpp:208-222 | Work summed modulo 2^64; the elapsed time is some worker's and no worker's is longer |
| ScoreWindows.WindowsAddUp | native/benchmark_core/src/engine.cpp:776-834 | The windows telescope: with the final one, which counts exactly when the workers end after the last cut, works and lengths sum to the run's totals |
| ScoreWindows.CutsExactly | native/benchmark_core/src/engine.cpp:822-834 | How many windows the loop cuts, in terms of the sampling times alone |
| ScoreWindows.WindowsExactly | native/benchmark_core/src/engine.cpp:776-885 | Which windows there are, from the samples alone: cuts at the first sample past a third of the duration and the first later one past two thirds, each window from one cut to the next, and the last to the run's end when it is later |
| ScoreWindows.ScoreCompares | native/benchmark_core/src/engine.cpp:102-108 | A window scores at least a rate if and only if its work is at least the rate times its time, and likewise at most |
| ScoreWindows.ThroughputBetweenWindows | native/benchmark_core/src/engine.cpp:876-885 | Whole-run throughput lies between any bounds on the window scores when the final window counts and no window has work in no time |
| ScoreWindows.TimelessWorkIsLost | native/benchmark_core/src/engine.cpp:102-108 | With work in a window of no length the throughput can exceed every window score |
| ScoreWindows.Measure | native/benchmark_core/src/engine.cpp:776-919 | The measuring loop and finalisation publish the run's totals, the median or the throughput, the variation and the largest value seen |
| ScoreWindows.PeakNotBelowScore | native/benchmark_core/src/engine.cpp:887-919 | Every completed or cancelled measurement publishes a peak not below its score, short runs included |
| ScoreWindows.MedianExactly | native/benchmark_core/src/engine.cpp:898-911 | The median is used if and only if two samples in a row allow two cuts and the workers end after the second |
| ScoreWindows.ScoreIsMedian | native/benchmark_core/src/engine.cpp:898-911 | The published score of a run with three windows is the middle one of their scores, and the variation the distance of the outer two over it |
| ScoreWindows.ScoreAndThroughputAgree | native/benchmark_core/src/engine.cpp:898-911 | A three-window score and the run's throughput lie in the same spread of window scores |
| MemoryEngine.ChoiceIsLargest | native/benchmark_core/src/memory_engine.cpp:78-88 | Between 32 and 256 MiB and at an eighth of the memory available, if known: the chosen size is the largest multiple of 256 bytes a thread that fits |
| MemoryEngine.ChoiceTooSmallExactly | native/benchmark_core/src/memory_engine.cpp:84-102 | It falls below the minimum the allocator demands if and only if no whole number of granules fits between minimum and target |
| MemoryEngine.SixThreadsAreRefused | native/benchmark_core/src/memory_engine.cpp:84-102 | With six threads and 256 MiB available the allocation is not even tried |
| MemoryEngine.AllocateBuffer | native/benchmark_core/src/memory_engine.cpp:100-120 | Asks for the rounded size halved again and again until granted or below 32 MiB; what is granted is aligned, at least the minimum and at most what was asked, and every larger request was refused |
| MemoryEngine.RequestIs | native/benchmark_core/src/memory_engine.cpp:100-120 | The k-th request is the size in units of 128 divided by 2^k, and is made while at least 32 MiB |
| MemoryEngine.FourTries | native/benchmark_core/src/memory_engine.cpp:100-120 | At most four allocations are tried |
| MemoryEngine.WorkersDoNotInterfere | native/benchmark_core/src/memory_engine.cpp:239-285 | Slices lie in the buffer and are pairwise disjoint; for a copy every source is disjoint from every destination |
| MemoryEngine.SliceIsLargest | native/benchmark_core/src/memory_engine.cpp:239-241 | A slice is the largest multiple of 128 bytes such that one for each worker fits into the buffer, or into half of it for a copy |
| MemoryEngine.LittleIsUnused | native/benchmark_core/src/memory_engine.cpp:239-242 | Less than an alignment unit a thread, beyond the division's remainder, is left over |
| MemoryEngine.MeasurePasses | native/benchmark_core/src/memory_engine.cpp:317-324 | A worker's record holds its passes' bytes and its last completion |
| MemoryEngine.Summarize | native/benchmark_core/include/benchmark/memory_timing.h:24-39 | Bytes summed and the last completion among workers that did anything |
| MemoryEngine.SummaryCovers | native/benchmark_core/include/benchmark/memory_timing.h:24-39 | The summary counts each completed pass once, over the shortest interval from the start that holds them all |
| MemoryEngine.Run | native/benchmark_core/src/memory_engine.cpp:197-203 | At most three attempts, each on the CPUs the last reading showed, each repeated exactly because they had changed; the report is the last attempt's, with the state and error its own events demand |
| MemoryEngine.StableMeansUnchanged | native/benchmark_core/src/memory_engine.cpp:386-410 | A completed stable run was measured on exactly the CPUs read after its own warm-up; an unstable one could not read them or saw a third change |
| MemoryEngine.ReportCoversLastAttempt | native/benchmark_core/src/memory_engine.cpp:464-468 | Reported bytes are the last attempt's completed passes times the slice, twice that for a copy, over the shortest time that holds them; the rate is their quotient |
| MemoryPhases.EndsAreWrittenFirst | native/benchmark_core/src/memory_engine.cpp:304-318 | In every interleaving a worker reads the end of the warm-up, or of the measurement, only after the coordinator wrote it |
| MemoryPhases.MembershipIsFrozen | native/benchmark_core/src/memory_engine.cpp:389-413 | Once any pass is counted, every worker has warmed up, the decision to measure stands, and nobody joins or leaves |
| MemoryPhases.GivenUpCountsNothing | native/benchmark_core/src/memory_engine.cpp:403-408 | An attempt that is given up is one of the first two, had no failed creation, and has counted nothing |
| MemoryPhases.ReportIsFinal | native/benchmark_core/src/memory_engine.cpp:458-468 | What is reported is what all workers counted, and none is left to count more |
| MemoryPhases.ReportCountsPasses | native/benchmark_core/src/memory_engine.cpp:317-324 | The reported total is the number of passes begun by the events of the attempt |
| MemoryPhases.NeverStuck | native/benchmark_core/src/memory_engine.cpp:303-324 | In every state short of the end some thread can move forward, whether a stop came or a creation failed |
| MemoryPhases.RunsToItsEnd | native/benchmark_core/src/memory_engine.cpp:303-468 | Every attempt can be run to its end from every state |
| RunLease.OneRunAtATime | packages/benchmark_native/lib/src/benchmark_run_coordinator.dart:20-92 | In every reachable world at most one controller holds a lease, it is the coordinator's active one, and no other engine has a live run |
| RunLease.GivenUpOnlyWhenQuiet | packages/benchmark_native/lib/src/benchmark_controller.dart:206-294 | A lease is only given up by its holder's own event, with no run of the holder left alive |
| RunLease.NoNextItemAfterStop | packages/benchmark_native/lib/src/benchmark_controller.dart:156-167 | After a stop, or the background while active, no further run of that controller starts until somebody starts it again |
| RunLease.OneStartMakesAtMostTwoRuns | packages/benchmark_native/lib/src/benchmark_controller.dart:250-254 | One start makes at most two runs |
| RunLease.StartsExactly | packages/benchmark_native/lib/src/benchmark_controller.dart:119-134 | Exactly when a start takes effect; otherwise it changes no run, and marks the controller unavailable exactly when its engine refused |
| RunLease.SequenceContinuesExactly | packages/benchmark_native/lib/src/benchmark_controller.dart:250-262 | The multi-core run follows a completed single-core run under the same lease if and only if nobody stopped the sequence |
| RunLease.StopReachesTheRun | packages/benchmark_native/lib/src/benchmark_controller.dart:156-162 | A stop, or the background, always reaches a live run |
| RunLease.PollFreesTheLease | packages/benchmark_native/lib/src/benchmark_controller.dart:206-271 | A held lease always has its poll pending, and exactly when a poll frees it |
| RunLease.PollShowsTheRun | packages/benchmark_native/lib/src/benchmark_controller.dart:206-271 | After a poll under a lease the listeners are shown the engine's own run, state and test; without one nothing changes |
| RunLease.NothingAfterDisposal | packages/benchmark_native/lib/src/benchmark_controller.dart:286-294 | Once disposed, a controller holds no lease and starts no run, whatever follows |
| RunLease.PlayKeeps | packages/benchmark_native/lib/src/benchmark_controller.dart:119-294 | The invariant holds over every run of start, stop, poll, dispose, native and foreground events of any number of controllers |
| RunLease.LeaseLastsUntilReleased | packages/benchmark_native/lib/src/benchmark_run_coordinator.dart:27-40 | Whatever is called on the coordinator, only its own release ends a lease |
| RunLease.ReleasedForGood | packages/benchmark_native/lib/src/benchmark_run_coordinator.dart:35-40 | Releasing a lease that was given up before changes nothing, ever after |
| RunControllers.Coordinator.TryAcquire | packages/benchmark_native/lib/src/benchmark_run_coordinator.dart:27-33 | A new lease if and only if none is active and the application is in the foreground |
| RunControllers.Coordinator.GiveBack | packages/benchmark_native/lib/src/benchmark_run_coordinator.dart:35-40 | Releases by identity |
| RunControllers.Coordinator.SetForeground | packages/benchmark_native/lib/src/benchmark_run_coordinator.dart:42-48 | Asks the active lease's owner to stop and keeps the lease |
| RunControllers.Controller.FinishBenchmark | packages/benchmark_native/lib/src/benchmark_run_coordinator.dart:71-75 | Gives up the controller's own lease |
| RunControllers.Controller.AbortBenchmark | packages/benchmark_native/lib/src/benchmark_run_coordinator.dart:78-84 | Destroys the engine before giving up the lease |
| RunControllers.Controller.StartCpuBench | packages/benchmark_native/lib/src/benchmark_controller.dart:119-134 | The method on the objects is the start on the values |
| RunControllers.Controller.StartTest | packages/benchmark_native/lib/src/benchmark_controller.dart:169-204 | The method on the objects starts a run or aborts |
| RunControllers.Controller.Stop | packages/benchmark_native/lib/src/benchmark_controller.dart:156-167 | The method on the objects is the stop on the values |
| RunControllers.Controller.Poll | packages/benchmark_native/lib/src/benchmark_controller.dart:206-272 | The method on the objects is the poll on the values |
| RunControllers.Controller.Dispose | packages/benchmark_native/lib/src/benchmark_controller.dart:286-294 | The method on the objects is the disposal on the values |
| RunControllers.Application.Live | packages/benchmark_native/lib/src/benchmark_controller.dart:119-294 | From n new controllers on, after any events, the objects are in a reachable world, so all of the above holds of them |
| RunControllers.Application.Handle | packages/benchmark_native/lib/src/benchmark_controller.dart:119-294 | Any event on any number of controllers and engines, updated in place, is the event on the values: what holds of reachable worlds holds of the objects |

## Left out

- PlayInOrder: covers runs whose batches are all reaped in order; for others StepInOrderExactly says that order is lost.
- ThroughputBetweenWindows: excludes work in a window of no length, which scores nothing; TimelessWorkIsLost shows why.
- ReadTotals: the checksum, the processor times and the affinity counts it also collects are not modelled.
- LittleIsUnused: says how much of the active part is unused, not that destinations of a copy are aligned.
- ParseCpuList: unsigned long is taken to have 64 bits, as on the supported platforms; a loop that is never left is not
  followed to the point where its vector exhausts the memory.
- Weak memory: atomics and condition variables are sequentially consistent, Dart events atomic, listeners without effect.
- Units and times in snapshots published while a run goes on (ProgressClaims covers their state), and rates, flags, hints,
  telemetry and digests in any snapshot.
- Between `MemoryPhases`, which interleaves the threads of an attempt, and `MemoryEngine`, which chains attempts and times
  passes, the passes of a worker are the only link.
- The choice of CPUs for the CPU application test and enumeration of topology: filters over given lists.
- std::sort is an insertion sort with the same result, std::shuffle any permutation, vectors are sequences.
- Scores, timings and shader values are reals; floating-point kernels and their tolerances are not modelled.
- The validator's sampling, and the integer and floating reference kernels of the GPU tests.
- SQLite tests, raw I/O, the synchronous storage loops, clocks, allocation and driver calls: answers given as parameters.
- The other controllers, scores and selections shown to users, C and FFI copying, capability reports, UI and build files.
