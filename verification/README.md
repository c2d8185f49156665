# StackPulse capture pipeline: a Dafny model

StackPulse is a Linux sampling profiler. This project models the parts of it
where correctness depends on more than one function, and proves what those parts
promise for every input, every run or every interleaving:

- `Commits.dfy`, `Ring.dfy`: the perf ring reader. Records are handed out without
  a copy and released in any order; the tail only moves over a contiguous released
  prefix. `Ring.Interleave` runs the reader against a kernel that may write
  anywhere it is allowed to, and is compared with a flat machine (`Ring.World`)
  that keeps every record it received and has no completion map and no handles.
- `Sorter.dfy`: the round-robin merge of per-CPU rings into timestamp order, as a
  state machine over whole runs.
- `FlatQueue.dfy`, `HeldSamples.dfy`, `SettledRecords.dfy`: rings and sorter together. Queued samples
  still lie in ring memory while the kernel writes; detaching all of them frees
  every ring and changes nothing that is read later. `HeldSamples.Run` compares
  every schedule on any number of rings with a queue of record numbers, and
  `SettledRecords.FinishedAsBuilt` follows a record from its contents through ring
  and queue to what is finally seen of it.
- `FrameTable.dfy`, `Compaction.dfy`, `TableCompaction.dfy`, `StackTable.dfy`,
  `Symbolizer.dfy`: the resolution caches of the symbolizer. `Symbolizer.Replay`
  compares every history with a symbolizer that caches nothing.
- `ImageLimits.dfy`, `ExactImages.dfy`, `SharedImages.dfy`: the two bounded image
  stores, each compared with a plain list.
- `SampleRecord.dfy`, `WireFormat.dfy`, `CallChain.dfy`: decoding sample records,
  the record builder the decoder inverts, the bytes of the perf ABI that ring reader
  and decoder agree on, and call chains.
- `RingPlan.dfy`: ring sizes, budget, watermark and fallback search.
- `Registers.dfy`: reading packed registers by counting mask bits.
- `Descendants.dfy`: walking a process tree that may hold cycles.
- `Recorder.dfy`: the consumer of the rings, from reading to the counters, with
  the sorter in between, as a class and as a function on values. On that function
  `SampleAccount.dfy` proves the account of samples over whole sessions,
  `CallEffects.dfy` what a flush achieves and how far a session got in time, and `SinkOrder.dfy` that sessions hand events
  over in order and without long waits.
- `Bits.dfy`: machine-word helpers.

Objects whose methods update them are classes, `Vec` and `VecDeque` fields are
sequences, hash maps and B-tree maps are maps, the ring memory is an array. Loops
are loops. Ghost fields (`done`, `live`, `published`, `issued`, `flat`, `lost`, `handed`)
hold what the running program does not store and the proofs are about.

## Assumptions that the source leaves to its surroundings

- Sorter order: a ring's timestamps never decrease, and a ring yields nothing
  older than an event that was queued before the ring's last complete read
  started, or before the ring was opened (`Sorter.Visible`).
  `Sorter.StaleEventBreaksOrder` shows that order is lost without it. For whole
  sessions the same is said of the events each ring delivers
  (`SinkOrder.SessionTimely`).
- Symbolizer: between updates the resolver does not change a settled answer, and
  an update changes only what it invalidates (`Symbolizer.Honest`). A provisional
  answer is a single frame, and an answer is never empty (`FrameTable.WellFormed`).
- Ring: the kernel writes only positions from head up to tail plus capacity, and
  the head passed to a read is one that was published. Positions stay below 2^64.
- Sorter rounds and sequence numbers stay below the limits at which the source
  panics.

Where the code does less than a reader may expect, the exact condition is proved:
a built record whose stack dump is not a whole number of words carries padding
that the decoder rejects (`SampleRecord.RoundTrip`), and a drain that stops at a
sample leaves it in no counter (`SampleAccount.DrainKeepsLaw` for one drain,
`SampleAccount.SessionLaw` for whole sessions, with a failing session in
`SampleAccount.ErrorLosesSample`).

## Model

| member | source | states |
|---|---|---|
| Commits.CommitState.constructor | src/linux/ring_buffer.rs:270-275 | A new state has nothing complete: `committed` is the start position and `pending` is empty. |
| Commits.CommitState.Complete | src/linux/ring_buffer.rs:277-307 | For completions in any order the state is exactly the completed bytes: `committed` is the first incomplete position, `pending` the maximal completed runs beyond it (disjoint, not adjacent); the tail moves exactly when the completed range starts at it. |
| Commits.MergedRepresents | src/linux/ring_buffer.rs:292-305 | Joining a range with the run that ends where it starts and the run that starts where it ends gives again exactly the maximal runs. |
| Commits.WalkContinues | src/linux/ring_buffer.rs:281-289 | Each step of the walk over adjoining runs keeps all completed bytes covered and moves forward. |
| Commits.OrderIrrelevant | src/linux/ring_buffer.rs:264-308 | The bookkeeping is a function of the set of completed bytes: two completion orders of the same bytes end in the same state. |
| Commits.NothingPendingWhenComplete | src/linux/ring_buffer.rs:264-308 | Once a contiguous stretch is complete, `committed` is its end and nothing is pending. |
| Ring.RingBuffer.AsBytes | src/linux/ring_buffer.rs:159-170 | A live handle shows the bytes that were published at its positions, in place or copied. |
| Ring.RingBuffer.CompleteRange | src/linux/ring_buffer.rs:216-224 | Completing a range records exactly its bytes and publishes the committed position as the new tail when it moved. |
| Ring.RingBuffer.CheckNext | src/linux/ring_buffer.rs:95-136 | For every head a reader can be given: a head behind the reader, and only that, is a regression; a head more than one capacity ahead, and only that, is refused as such; in between every outcome agrees with framing the bytes the ring exposes (end, partial header, invalid length, partial record), and no overflow check fires. |
| Ring.RingBuffer.ExposedIsPublished | src/linux/ring_buffer.rs:95-136 | Up to the published head, what the ring exposes after masking is exactly the unread part of the published stream. |
| Ring.RingBuffer.Take | src/linux/ring_buffer.rs:137-151 | A record is handed out in place, or as its two pieces put together if it wraps; either way it shows the published bytes; only a copied record is released at once. |
| Ring.RingBuffer.NextRecordTo | src/linux/ring_buffer.rs:95-151 | One read yields the next published record, in place exactly if it does not wrap; regressed and too distant heads are exactly the rejections that framing does not explain; an error or an empty read changes neither position, tail nor bookkeeping. |
| Ring.RingBuffer.Drain | src/linux/ring_buffer.rs:95-151 | Draining to a captured head yields exactly the records of the published stream, in order and byte for byte, at every wrap offset, and the same error if the stream ends in a malformed record. |
| Ring.SplitJoin | src/linux/ring_buffer.rs:95-151 | Framing is the inverse of concatenating records, so the reference the reader is compared with is the right one. |
| Ring.SplitPrefix | src/linux/ring_buffer.rs:95-151 | Records that together start the stream are the first records of its framing. |
| WireFormat.FramingIs | src/linux/ring_buffer.rs:95-136 | Framing any stream cuts it into records as long as the little-endian word at byte 6 of each says, and leaves a rest that decides the error: none if it is empty, a partial header below 8 bytes, an invalid length below 8 or above the capacity, otherwise a partial record. |
| WireFormat.BuiltIsRecord | src/linux/perf_event.rs:1417-1491 | A built record that fits a 16-bit size and the ring is a record for the reader. |
| WireFormat.FramesBuilt | src/linux/perf_event.rs:1417-1491 | The reader takes a stream of built records apart into exactly those records, without an error. |
| WireFormat.ReceivedAsBuilt | src/linux/ring_buffer.rs:95-151 | Whatever the schedule, if built records were published, those received are the first of them, as they were built. |
| Ring.RingBuffer.Drop | src/linux/ring_buffer.rs:184-193 | Dropping a mapped handle completes its range and nothing else; dropping a copy releases nothing. |
| Ring.RingBuffer.Detach | src/linux/ring_buffer.rs:173-182 | Detaching copies at most the asked-for prefix of the record and releases its ring space. |
| Ring.RingBuffer.DetachAll | src/linux/ring_buffer.rs:173-193 | After every held record is detached the tail equals the read position, nothing is pending, and each copy is the prefix asked for. |
| Ring.WrappedBytes | src/linux/aligned_bytes.rs:68-82 | The two slices of a wrapped record, put together, are the published bytes. |
| Ring.ContiguousBytes | src/linux/ring_buffer.rs:252-261 | A range that does not wrap lies contiguously at its masked offset. |
| Ring.WriteKeepsIntact | src/linux/ring_buffer.rs:184-193 | A kernel write anywhere in [head, tail + capacity) leaves every byte between tail and head as it was. |
| Ring.TailIsBehind | src/linux/ring_buffer.rs:216-224 | The tail is never past the reader and never past the start of a live record. |
| Ring.FirstIncomplete | src/linux/ring_buffer.rs:264-308 | After any releases the tail is the start of the first record still held in place, or the read position if there is none. |
| Ring.RingBuffer.Act | src/linux/ring_buffer.rs:95-193 | Each step of the ring, kernel or reader, is the same step of the flat machine, and yields the same record. |
| Ring.RingBuffer.TakeNext | src/linux/ring_buffer.rs:95-151 | A read up to a published head is the flat machine's read, and tells exactly what framing its unread stream tells: the record's own handle, the end, or the error. |
| Ring.RingBuffer.Free | src/linux/ring_buffer.rs:184-193 | Dropping a handle is the flat machine's release of that record. |
| Ring.RingBuffer.CopyOut | src/linux/ring_buffer.rs:173-182 | Detaching a handle releases its record and yields the asked-for prefix of the record as it was received. |
| Ring.RingBuffer.HandleShows | src/linux/ring_buffer.rs:159-170 | The handle of a record in use shows that record. |
| Ring.RingBuffer.NothingInUse | src/linux/ring_buffer.rs:264-308 | With no record in use the tail is at the read position and nothing is pending. |
| Ring.WorldStaysOk | src/linux/ring_buffer.rs:95-193 | Every step keeps the received records well framed and a prefix of the published stream. |
| Ring.Interleave | src/linux/ring_buffer.rs:95-151 | For every schedule of kernel writes, publications, reads, drops and detaches: the records received are those of the flat machine and the first records of the published stream; the handles still held are exactly those it holds, each showing the bytes it was read with; after every single step tail, read position and head are its positions, with tail <= read position <= head <= tail + capacity. |
| Bits.MaskIsModulo | src/linux/ring_buffer.rs:247-250 | Masking with size - 1 is the position modulo a power-of-two size. |
| Sorter.EventSorter.constructor | src/linux/sorter.rs:48-55 | A new sorter is empty, in round 0, with no group begun. |
| Sorter.EventSorter.AdvanceRound | src/linux/sorter.rs:68-71 | The round number grows by one and no group is current; the queue is untouched. |
| Sorter.EventSorter.AbortRound | src/linux/sorter.rs:79-81 | Only the current group is cleared; the round number and the queue stay. |
| Sorter.EventSorter.BeginGroup | src/linux/sorter.rs:85-91 | Groups of a round are begun in non-decreasing order; only the current group changes. |
| Sorter.EventSorter.Pop | src/linux/sorter.rs:94-102 | The first event by (key, sequence) leaves the queue exactly when the read position has reached its group one round later; otherwise nothing changes. |
| Sorter.EventSorter.ForcePop | src/linux/sorter.rs:105-107 | The first event leaves the queue whatever the round. |
| Sorter.EventSorter.VisitValuesMut | src/linux/sorter.rs:109-115 | Rewriting queued values changes no key, so the queue order is unchanged, and every value becomes what the visitor makes of it. |
| Sorter.EventSorter.ReplaceValue | src/linux/sorter.rs:109-115 | One value changes in place: same keys, same order, all other values as before. |
| Sorter.EventSorter.Take | src/linux/mod.rs:855-868 | The next value of a drain: the first event if forced or released, otherwise nothing and no change. |
| Sorter.EventSorter.PushCurrentGroup | src/linux/sorter.rs:117-133 | The event is queued under the current group and round with a fresh sequence number. |
| Sorter.StepKeeps | src/linux/sorter.rs:68-133 | Every enabled operation (begin, push, finish, pop, drain, force, advance, abort, a new set of rings) keeps the run invariant. |
| Sorter.PopsInOrder | src/linux/sorter.rs:94-102 | Over every admissible run, aborted rounds and forced pops included, the popped events are strictly ordered by (key, sequence). |
| Sorter.NothingLost | src/linux/sorter.rs:94-133 | Every queued event is waiting, popped once or forced out once, and in only one of these places. |
| Sorter.BoundedDelay | src/linux/sorter.rs:94-102 | An event whose own group has been reached two rounds after it was queued cannot be held back: the queue then releases something, so draining at each group releases it. |
| Sorter.StaleEventBreaksOrder | src/linux/sorter.rs:94-102 | Order needs the readers' promise: there is a run of possible operations, broken only by a ring that delivers late, which pops two events in the wrong order. |
| HeldSamples.SampleQueue.DetachQueuedEvents | src/linux/mod.rs:844-847 | After detaching all queued samples no sample lies in a ring; every ring is wholly released (nothing live or pending, tail at the read position); keys and order of the queue, and what every event is read as, are as before. |
| HeldSamples.SampleQueue.DetachOne | src/linux/perf_event.rs:914-922 | Detaching one sample turns it into a copy under the same key, releases its record in the flat machine and leaves every other queued event as it was. |
| HeldSamples.SampleQueue.CaughtUp | src/linux/ring_buffer.rs:264-308 | A ring of which no record is in use has its tail at the read position and nothing pending. |
| HeldSamples.SampleQueue.TakeRecord | src/linux/perf_event.rs:763-770 | A read takes exactly the record in hand that framing the unread stream gives, and tells the end or the error exactly as framing does; nothing else changes. |
| HeldSamples.SampleQueue.HandleRecord | src/linux/perf_event.rs:771-808 | The record's own bytes decide its fate, spelled out by SettledRecords.ReadOutcome: a usable sample is queued in place under its time, a malformed record refused, an unusable sample skipped, any other record queued without ring memory; all but the first give their space back. |
| HeldSamples.SampleQueue.ReadEvent | src/linux/perf_event.rs:763-809 | Reading one event is the flat queue's read: the record framing gives next, its fate, and the event reported; no other queued event, view or published byte changes. |
| HeldSamples.SampleQueue.FinishNext | src/linux/mod.rs:855-884 | The event released, or forced out, is the first of the queue; a sample is read as its record was published, whatever was written, read, detached or released since; its ring space is given back. |
| HeldSamples.SampleQueue.KernelStep | src/linux/ring_buffer.rs:184-193 | Anything the kernel may write or publish is the flat ring's step; the queue and everything read from it stay. |
| HeldSamples.SampleQueue.ReadAsPublished | src/linux/perf_event.rs:907-912 | Every queued event, in place or copied, is read as its record was published. |
| HeldSamples.SampleQueue.GiveBack | src/linux/ring_buffer.rs:184-193 | Giving the record in hand back releases that record and nothing else. |
| HeldSamples.SampleQueue.KeepSample | src/linux/perf_event.rs:789-799 | A kept sample is queued under its time with its record's own handle. |
| HeldSamples.SampleQueue.Perform | src/linux/perf_group.rs:1149-1182 | Every step, of the kernel or of the reader, is the flat queue's step and reports the same. |
| HeldSamples.Run | src/linux/perf_group.rs:1149-1182 | For every schedule of kernel writes, publications, reads, rounds, detaches and finished events on any number of rings: reads come to the same ends as in the flat queue, each finished sample is seen as its record was published, and every ring has the flat ring's tail, read position and head. |
| SettledRecords.FinishedAsPublished | src/linux/perf_event.rs:763-809 | Over every schedule each finished sample's record is that record of its ring's published stream. Of all records received exactly those are queued or finished, each in one place and once, that lie word-aligned, carry a sample header and decode with a process id below 2^31 and a thread id above 0 and below 2^31; they wait under the time they decode to. |
| SettledRecords.ReadOutcome | src/linux/perf_event.rs:763-809 | What one read reports and queues: the end or a refusal if no record is framed; for an aligned sample record a refusal if it does not decode, the sample under its time if its ids are usable, nothing but a skip otherwise; for any other record a refusal or a plain event, as its parser says. |
| SettledRecords.FinishedAsBuilt | src/linux/perf_event.rs:1417-1491 | If the rings publish built records of the format, then after any schedule the samples queued or finished are exactly the received ones that lie aligned, have whole-word dumps and usable ids, and each is seen with the very call chain, 64-bit registers and filled stack it was built from. |
| SettledRecords.ActTimed | src/linux/mod.rs:823-826 | Every step keeps each queued sample under the time its record decodes to. |
| FlatQueue.ActOk | src/linux/mod.rs:844-884 | Every step keeps the records in use equal to the queued ones, no record queued twice, and all records under their numbers. |
| SettledRecords.ReadSettled | src/linux/perf_event.rs:763-809 | A record that is read is queued exactly if it is aligned, a sample, and decodes with usable ids. |
| SettledRecords.TakenOutSettled | src/linux/mod.rs:855-868 | An event taken out leaves the queue and joins the finished ones, once. |
| FlatQueue.DetachedViews | src/linux/perf_event.rs:914-922 | Detaching changes what no event is read as. |
| Compaction.RetainRanges | src/symbolize.rs:664-677 | One pass with one cursor keeps exactly the elements that lie in some range, in order. |
| Compaction.CoveredSize | src/symbolize.rs:1062-1078 | The ranges together are as long as the set of elements some range covers. |
| Compaction.GatheredPiece | src/symbolize.rs:1080-1097 | Each range reads the same elements at its relocated place in the kept array. |
| Compaction.GatheredLength | src/symbolize.rs:1080-1097 | No gap is left: the kept array is as long as the ranges together. |
| Compaction.Lockstep | src/symbolize.rs:1082-1089 | Retaining the same ranges of two parallel arrays keeps element i of both from the same old index. |
| Compaction.MoveOne | src/symbolize.rs:1043-1060 | A left-moving copy puts one range in place and clobbers neither a range already moved nor one still to move. |
| Compaction.CompactInPlace | src/symbolize.rs:1043-1060 | After compaction every range reads what it read before, ranges are disjoint and in bounds, and every index of the array is in some range. |
| TableCompaction.CompactTable | src/symbolize.rs:1062-1102 | Every cached frame range reads the same frames and the same keys at its new place; the new table has exactly the frames some range covered; retry and vacant slots are dropped, and keys keep their meaning. |
| TableCompaction.RetainedFrames | src/symbolize.rs:1065-1070 | The sum of the cached lengths is the number of frames that some range covers. |
| TableCompaction.KeysFollow | src/symbolize.rs:1080-1097 | Frames and keys move together, so each key still denotes the frame it was issued for. |
| FrameTable.ReusableIsFree | src/symbolize.rs:1597-1634 | A slot that is reused belongs to no cached range, to no other retry slot and to no remaining vacant slot. |
| FrameTable.PlaceKeepsTable | src/symbolize.rs:1578-1650 | Placing a result keeps cached ranges in bounds and pairwise disjoint, and disjoint from retry and vacant slots. |
| FrameTable.PlaceReads | src/symbolize.rs:1578-1650 | A placed result reads back as what was resolved, and no other cached range changes. |
| FrameTable.PlaceGrows | src/symbolize.rs:1578-1650 | A result takes at most as many new places as it has frames. |
| FrameTable.PlaceReuses | src/symbolize.rs:1597-1634 | A single frame takes over the key's own retry slot, else the newest vacant one, and the table does not grow; anything else is appended and the retry slot becomes vacant; exactly a provisional result keeps its place reserved. |
| FrameTable.PlaceKeepsKeys | src/symbolize.rs:1657-1668 | New frames take serials never issued before; every key in the array still denotes the frame it was issued for. |
| Symbolizer.EditTable | src/symbolize.rs:1578-1650 | The statements that append, take over a slot or release one compute exactly the reference placement. |
| StackTable.NotTruncated | src/symbolize.rs:1307-1320 | Below 2^32 frames the cast of a range to 32-bit indices loses nothing. |
| StackTable.SharedKey | src/symbolize.rs:163-169 | Real processes share a cache entry exactly for the same kernel frame; any other frame shares one only with itself in the same process. |
| StackTable.IndicesView | src/symbolize.rs:1307-1332 | The index list of a stack whose frames are cached denotes the concatenation of what the resolver gives for each frame. |
| StackTable.StacksKept | src/symbolize.rs:1197-1218 | A cached stack stays right as long as the ranges it indexes stay where they are. |
| Symbolizer.Symbolizer.ClearTransientFrameCache | src/symbolize.rs:1353-1357 | Exactly the provisional results are forgotten; their slots stay reserved. |
| Symbolizer.Symbolizer.FinishFrameBatch | src/symbolize.rs:1534-1651 | A batch caches one result for every pending frame; a backend failure leaves the table unchanged; a table of 2^32 frames or more is refused. |
| Symbolizer.Symbolizer.PrepareFrames | src/symbolize.rs:1359-1370 | The frames still to resolve are those not cached, each once. |
| Symbolizer.Symbolizer.ClearResolutionCache | src/symbolize.rs:1003-1011 | Both caches, all slots and all provisional marks are emptied, while the next serial stays, so no key is reissued. |
| Symbolizer.Symbolizer.ClearResolutionCacheIfFull | src/symbolize.rs:1013-1041 | At 2^32 frames or at the limit set, both caches are emptied and the next serial stays; at the limit of stacks or of their indices alone, only the stacks are; otherwise nothing changes. Afterwards the frame table is indexable with 32 bits. |
| Symbolizer.Symbolizer.CacheStackFrameIds | src/symbolize.rs:1195-1218 | A stack is cached exactly if all its frames are; a miss leaves the index list as it was. |
| Symbolizer.Symbolizer.CachedStack | src/symbolize.rs:1220-1227 | A cached stack answers what resolving it afresh would. |
| Symbolizer.Symbolizer.Resolve | src/symbolize.rs:1127-1193 | Resolving returns the in-order concatenation of what the resolver gives for each frame, for kernel frames as process 0 and for others as the stack's process, marked cacheable exactly if none of these is provisional. A stack of another spool, and only that, is refused as such; otherwise it fails only if the backend does on a non-empty stack or the table reached 2^32 frames, and the table grows by no more than the frames resolved afresh; a cache miss after a batch never happens. |
| Symbolizer.Symbolizer.CompactResolvedStackFrameIds | src/symbolize.rs:1043-1060 | Every cached stack reads the same indices after compaction, and every index kept belongs to some cached stack. |
| Symbolizer.Symbolizer.CompactResolvedFramesIfNeeded | src/symbolize.rs:1062-1102 | Compaction happens exactly if some frames are stale and they are at least 4096 or at least half of those kept; then the table holds just the covered frames, repacked with the same contents, and no stack stays cached; otherwise nothing changes. |
| Symbolizer.Symbolizer.RetainUnaffected | src/symbolize.rs:967-984 | Exactly those frames survive that are no process's, of a process not invalidated, or independent of a perf map that alone changed, and, kept internally, exactly the stacks of processes not invalidated; they agree with the resolver after the update. |
| Symbolizer.Symbolizer.Apply | src/symbolize.rs:967-985 | After an update the caches agree with the new resolver: a kernel change or a full cache empties both, otherwise exactly the unaffected frames survive, and the unaffected stacks do unless frames moved; stacks kept internally are left without a gap in their index list. |
| Symbolizer.Replay | src/symbolize.rs:1127-1193 | For every history of resolves and updates, in both stack cache modes and under any cache limit, each reply is what an uncached symbolizer replies; it is refused for size only if the history resolved 2^32 frames or more, and for the backend only if that failed on a non-empty stack; a frame key never changes its meaning. |
| ExactImages.ExactImageStore.Insert | src/native_module.rs:56-93 | Inserting is inserting into a plain list: a module that already holds the image changes nothing; otherwise it moves to the end with the token of its image, or a fresh one, and the longest suffix within module, image and byte limits stays. |
| ExactImages.ExactImageStore.EvictUntilWithinLimits | src/native_module.rs:83-92 | Eviction leaves exactly the longest suffix of the queue that fits all three limits, even if the byte total had saturated. |
| ExactImages.ExactImageStore.RemoveEntry | src/native_module.rs:138-151 | Removing a module lowers its image's count without underflow and forgets an image nobody holds. |
| ExactImages.ExactImageStore.Alias | src/native_module.rs:95-104 | Aliasing is inserting the source's own image and size for the new module; an unknown source changes nothing. |
| ExactImages.AddHolder | src/native_module.rs:123-136 | One more holder of a retained image raises its count and changes neither bytes nor token. |
| ExactImages.AddImage | src/native_module.rs:123-136 | A new image adds its bytes, saturating, and takes a token never used before. |
| ExactImages.TokensIdentifyImages | src/native_module.rs:123-136 | Two modules have equal tokens exactly if they hold the same live image. |
| ExactImages.Settled | src/native_module.rs:83-92 | Within the limits the byte total is exact again, whatever saturated before. |
| ExactImages.HeldByListing | src/native_module.rs:123-151 | The images counted for a stretch of the queue are those its modules hold, and their bytes are charged once per image. |
| ExactImages.TrimmedListing | src/native_module.rs:83-92 | A queue suffix that fits while every longer one does not is the trimmed list. |
| ExactImages.Serve | src/native_module.rs:56-104 | Every run of inserts and aliases leaves exactly the modules, images, sizes and tokens of the reference list, in its order and within all limits; equal tokens mean the same image and the other way round. |
| SharedImages.ElfSectionCache.InsertSharedImage | src/native_module.rs:410-429 | An accepted image becomes the most recent and exactly the longest most-recent suffix within both bounds is kept; an image over the byte bound changes nothing. |
| SharedImages.ElfSectionCache.EvictExcess | src/native_module.rs:420-428 | Evicting from the front leaves exactly the longest suffix within both bounds. |
| SharedImages.ElfSectionCache.TouchSharedImage | src/native_module.rs:431-434 | A touched image becomes the most recent; contents and bytes stay. |
| ImageLimits.TrimIsLongestFit | src/native_module.rs:420-428 | The reference keeps a suffix that fits, and every longer suffix does not. |
| ImageLimits.LongestFitIsTrim | src/native_module.rs:420-428 | No other suffix is the longest that fits. |
| SharedImages.NewestSurvives | src/native_module.rs:410-429 | An image within the byte bound survives its own insertion. |
| SharedImages.Debited | src/native_module.rs:436-444 | The byte total covers every cached image, so its subtraction never saturates. |
| SharedImages.Serve | src/native_module.rs:410-434 | Every run of inserts and touches leaves exactly the contents of the reference list, within both bounds. |
| SampleRecord.ByteCursor.ReadBytes | src/linux/perf_event.rs:1564-1569 | A read advances over exactly the bytes it returns, or fails without moving when the record is too short. |
| SampleRecord.ByteCursor.ReadU64Slice | src/linux/perf_event.rs:1554-1562 | A word slice is returned exactly if it lies in the record and is aligned. |
| SampleRecord.ByteCursor.ParseCallChain | src/linux/perf_event.rs:1190-1204 | The cursor parser of the call chain computes the same part, and stops at the same place, as the positional definition. |
| SampleRecord.ByteCursor.ParseUserRegs | src/linux/perf_event.rs:1206-1229 | The same for the registers: 32-bit registers are skipped over, unknown ABIs rejected. |
| SampleRecord.ByteCursor.ParseUserStack | src/linux/perf_event.rs:1231-1250 | The same for the stack: the fill count follows a non-empty dump and must not exceed it. |
| SampleRecord.ParseSampleRecord | src/linux/perf_event.rs:1115-1144 | The stateful parser decides and returns exactly what the positional decoder does, for every byte string, address and format. |
| SampleRecord.DecodedInBounds | src/linux/perf_event.rs:1115-1250 | Every slice a decoded sample refers to lies in the record, and its word slices are aligned whole words. |
| SampleRecord.BuildRecord | src/linux/perf_event.rs:1417-1491 | Pushing the fields, padding and patching the size yields the specified record. |
| SampleRecord.RoundTrip | src/linux/perf_event.rs:1417-1491 | For every record that can be built: with 32- or 64-bit registers, or none requested, it decodes exactly if its stack dump is a whole number of words, and then every field, the privilege of its CPU mode, its exactness flag, the registers, the chain and the filled part of the stack come back; an unknown register ABI is rejected; under the empty ABI it decodes exactly if what follows the ABI word frames as a stack part to the end. |
| WireFormat.SeenAsBuilt | src/linux/perf_event.rs:907-912 | A built record with known registers and whole-word dump, decoded and read through its layout, shows its ids, time, call chain, 64-bit registers and filled stack. |
| WireFormat.SupportedFormats | src/linux/perf_event.rs:1152-1164 | The decoder takes exactly eight formats: address, ids and time always, and call chain, registers and stack each or not. |
| WireFormat.FormatFlags | src/linux/perf_event.rs:1252-1254 | Bit 5 of the sample type asks for call chains, bit 12 for registers, bit 13 for stacks. |
| WireFormat.HeaderBytes | src/linux/perf_event.rs:1417-1491 | A built record starts with type 9, its flags and its own length, each little-endian, and ends on a whole word filled up with zeros. |
| WireFormat.SampleHeaderIs | src/linux/perf_event.rs:1147-1150 | A sample record is exactly one of type 9 that is as long as its header says. |
| SampleRecord.DetachKeepsView | src/linux/perf_event.rs:858-922 | Cutting a record after its last part changes nothing that is later read through its layout, wherever the copy lies. |
| CallChain.MarkersAreHighWords | src/linux/perf_event.rs:1267-1269 | The wrapping test recognises exactly the last 4095 words of the address space. |
| CallChain.CallChainIter.Next | src/linux/perf_event.rs:997-1022 | Each call consumes one leading word and the addresses up to the next marker, reports the context that word's value stands for (hypervisor, kernel, user, guest, guest kernel, guest user, otherwise unknown), and fails exactly at the end. |
| CallChain.Collect | src/linux/perf_event.rs:997-1022 | Iteration terminates and yields one entry for each group of the cut of the whole list at its markers, with that group's addresses and the context its leading word stands for. |
| CallChain.CutIsUnique | src/linux/perf_event.rs:997-1022 | There is only one such cut. |
| RingPlan.PageExpIsSmallest | src/linux/perf_event.rs:598-626 | An exponent is accepted exactly if it is the least whose ring covers the request and any record, and stays within 256 MiB; no overflow check refuses a size that would fit. |
| RingPlan.OneStackIsLeast | src/linux/perf_event.rs:312-321 | Sizing for one stack succeeds whenever sizing for many does, with no larger a ring. |
| RingPlan.BudgetIsLargest | src/linux/perf_event.rs:636-645 | The budget exponent is the largest whose ring fits the budget, if one does. |
| RingPlan.PlanExists | src/linux/perf_event.rs:312-326 | A plan exists exactly if the request is sizeable and a ring for one stack fits the budget. |
| RingPlan.PlanInOrder | src/linux/perf_event.rs:312-326 | fallback <= requested <= the size asked for; both hold any record and a stack, fit the budget and 256 MiB; nothing between requested and asked for would fit the budget. |
| RingPlan.WakeupWithinRing | src/linux/perf_event.rs:628-634 | For every ring within the limit the watermark is an eighth of it, at least one byte; neither shift nor narrowing loses a bit. |
| RingPlan.WakeupInPlan | src/linux/perf_event.rs:628-634 | Every size the fallback search may try has such a watermark. |
| RingPlan.OpenRingWithFallback | src/linux/perf_event.rs:662-679 | The search tries each size once, in descending order, and opens exactly the largest that maps before a final error; it ends out of budget only at the fallback size. |
| Registers.RegValueIsExact | src/linux/convert_regs.rs:44-51 | From values packed in ascending bit order and cut anywhere, a register reads as its own value exactly if its bit is set and its place was kept; otherwise as nothing. |
| Registers.RankIsCount | src/linux/convert_regs.rs:49-50 | The number of mask bits below a register is its place in the packed order. |
| Registers.MaskBits | src/linux/convert_regs.rs:71-77 | The folded mask has exactly the bits of the instruction pointer and the sixteen general registers. |
| Registers.ConvertRegs | src/linux/convert_regs.rs:58-70 | Conversion succeeds exactly if all 17 values are present; ip is the value at place 8, and RAX, RBX, RCX, RDX, RSI, RDI, RBP, RSP are those at places 0 to 7, R8 to R15 those at 9 to 16. |
| Registers.ConvertSampled | src/linux/convert_regs.rs:58-77 | A sample taken with the mask gives every register the value the kernel has under its number: RAX to RSP numbers 0 to 7 in the order AX, BX, CX, DX, SI, DI, BP, SP, ip number 8, R8 to R15 numbers 16 to 23. |
| Registers.PackedIs | src/linux/convert_regs.rs:71-77 | What the kernel packs for the mask are the registers numbered 0 to 8 and 16 to 23, in that order. |
| Registers.PackedAtRank | src/linux/convert_regs.rs:58-77 | What the kernel packs for the mask is 17 values, each at the place conversion reads it from. |
| Descendants.EdgesViaProcChildren | src/children.rs:39-54 | The walk terminates on every finite relation and lists each reachable non-root exactly once, with a true parent edge whose parent is a root or listed before; it gives up exactly if some reachable process has no readable list. |
| Descendants.EdgesViaTable | src/children.rs:103-118 | The same for the table built from stat lines, where a missing entry means no children. |
| Descendants.Expand | src/children.rs:45-51 | Expanding one process lists exactly its children not seen before and puts them on the stack; afterwards every process seen waits there or has all its children seen. |
| Descendants.ClosedIsComplete | src/children.rs:39-54 | A set that holds the roots and is closed under children holds everything reachable, so the list is complete. |
| Descendants.ListedIsReachable | src/children.rs:39-54 | Everything listed is reachable from a root. |
| Descendants.ChildrenOf | src/children.rs:84-101 | The table relates a process to a parent exactly if an entry says so. |
| Descendants.DescendantEdges | src/children.rs:35-37 | The scan uses the children lists if all that are needed are readable and the stat lines otherwise. |
| Recorder.DrainSink.PrepareSampleMeta | src/linux/mod.rs:2230-2262 | A sample is kept, with its time and ids, exactly if both ids are below 2^31, the thread is not 0 and a time is present. It is counted as seen, and if dropped in one more counter: missing_pid without ids or with too large a process, then missing_tid, idle for thread 0, missing_timestamp. |
| Recorder.DrainSink.PrepareEvent | src/linux/mod.rs:815-821 | After an error nothing is prepared or counted; other records are never counted as samples. |
| Recorder.DrainSink.QueueEvent | src/linux/mod.rs:823-826 | A prepared event enters the sorter under its timestamp, current group and round with the next sequence number; a skipped one changes nothing. |
| Recorder.DrainSink.RecordPreparedSample | src/linux/mod.rs:2333-2387 | A kernel or guest-kernel sample is counted as excluded if kernel samples are off; any other as empty or as written, as its write says; a failed write changes no counter. |
| Recorder.DrainSink.FinishEvent | src/linux/mod.rs:870-884 | Finishing an event is the reference step: under an error nothing is recorded and a sample is given up; otherwise it is recorded, and the last finished timestamp covers it. |
| Recorder.DrainSink.DrainSorter | src/linux/mod.rs:855-868 | Draining is the reference drain: events are taken and finished until none is released or one fails. |
| Recorder.DrainSink.DetachQueuedEvents | src/linux/mod.rs:844-847 | Every queued sample leaves its ring; keys, order and all else of the queue stay. |
| Recorder.DrainSink.FinishNext | src/linux/mod.rs:855-868 | One turn of the drain: if an event is released it leaves the queue and is finished, and the drain goes on exactly without an error; otherwise nothing changes. |
| Recorder.DrainSink.DrainOutputRing | src/linux/perf_group.rs:1172-1182 | Reading a ring is preparing and queueing each of its events in order. |
| Recorder.DrainSink.DrainEventRound | src/linux/perf_group.rs:1149-1170 | One pass over the rings is the reference pass: each ring is begun, read and followed by a drain; the round advances only after all rings were read; the first failed read detaches what is queued and aborts the round. |
| Recorder.DrainSink.Consume | src/linux/perf_group.rs:1101-1137 | One call is the reference call: a first pass, a second one only if events still wait, detaching what is then queued, and a forced drain if flushing, or if a sweep is due without an error; it succeeds exactly if every pass was complete and no event failed. |
| Recorder.CallDetaches | src/linux/perf_group.rs:1101-1137 | However a call ends, aborted or not, it leaves no queued sample in a ring. |
| CallEffects.FlushEmpties | src/linux/perf_group.rs:1133-1137 | A call that flushes, or sweeps, and succeeds leaves nothing queued. |
| CallEffects.NothingForced | src/linux/mod.rs:1098-1106 | A call that neither flushes nor sweeps, a sweep while an error is pending, and a call that could not read a ring force nothing out: what leaves the queue left by the release rule. |
| CallEffects.PendingErrorTakesOne | src/linux/mod.rs:855-868 | A forced drain with an error pending takes exactly one event out. |
| CallEffects.SessionFlushed | src/linux/perf_group.rs:1133-1137 | A session whose last call flushes and succeeds leaves nothing queued. |
| CallEffects.FlushedAccount | src/linux/mod.rs:2230-2262 | If every call succeeds and the last one flushes, below the counters' maximum each sample delivered is in exactly one counter. |
| CallEffects.CallSees | src/linux/perf_group.rs:1101-1131 | A successful call sees the samples of its first pass, and those of its second exactly if the first left events queued. |
| CallEffects.CallStartsAfresh | src/linux/mod.rs:1069-1075 | A call carries over neither an error nor a finished time from the call before. |
| CallEffects.LastFinishedIsLatest | src/linux/mod.rs:870-884 | A call that succeeds ends with the greatest timestamp of the events it has taken out as its last finished time. |
| Recorder.Session | src/linux/perf_group.rs:1101-1137 | Any number of calls on a new consumer end in the counters and the queue of the reference session, and succeed exactly if it does. |
| SampleAccount.SessionConserves | src/linux/mod.rs:2230-2262 | After any session of successful calls sample_events is the number of samples the rings delivered (capped at the counter's maximum), and below that maximum sample_events = missing_pid + missing_tid + idle + missing_timestamp + excluded_kernel + empty + written + queued. |
| SampleAccount.DrainKeepsLaw | src/linux/mod.rs:855-884 | From any balanced state, inside a pass or between calls, the law holds after a drain exactly if it held before and the drain does not stop at a sample. It stops at an event if that event and all earlier ones are due (or forced), the earlier ones can be finished, and the event cannot, or is first while an error is pending. |
| SampleAccount.SessionLaw | src/linux/mod.rs:855-884 | After any calls, whatever failed, below the counters' maximum the samples in no counter and not queued are as many as the drains that stopped at a sample; so the law holds exactly if no drain of the session did. |
| SampleAccount.DrainLoss | src/linux/mod.rs:855-884 | Where a drain stops is decided by the state before it: it ends without an error exactly if none was pending and no event stops it, and loses one sample if it stops at one, none otherwise. |
| SampleAccount.ErrorLosesSample | src/linux/mod.rs:855-884 | There is a session, a failing record followed by a good sample, after which the sample was seen, is not queued and is in no counter. |
| SampleAccount.DrainBalance | src/linux/mod.rs:855-868 | A drain, forced or not, failing or not, keeps the balance: seen = settled + queued + lost. |
| SampleAccount.FinishBalance | src/linux/mod.rs:870-884 | Finishing an event settles or loses the sample in hand, never both. |
| SampleAccount.ReadAllBalance | src/linux/mod.rs:815-826 | Reading a ring keeps the balance and counts each of its samples once, none while an error is pending. |
| SampleAccount.PassBalance | src/linux/perf_group.rs:1149-1170 | A pass keeps the balance; without an error it loses nothing and sees exactly the samples of the rings it read. |
| SampleAccount.ConsumeBalance | src/linux/perf_group.rs:1101-1137 | A call keeps the balance; a successful one loses nothing and sees exactly what its passes read. |
| SampleAccount.ServeBalance | src/linux/perf_group.rs:1101-1137 | A session keeps the balance whatever fails in it. |
| SinkOrder.SessionInOrder | src/linux/sorter.rs:94-102 | Over every session whose rings deliver in time, failing reads, failing events, flushes and sweeps included: of any two events taken out, and of one taken out and one still queued, the first sorts before the second by (timestamp, sequence), unless it was forced out before the second was queued. Every event queued was taken out once or still waits. |
| SinkOrder.LastFlushInOrder | src/linux/perf_group.rs:1133-1137 | A session that forces events out only in its last call takes everything out strictly in order. |
| SinkOrder.WaitsAtMostTwoRounds | src/linux/perf_group.rs:1149-1170 | After a complete pass without an error only events of the last two rounds still wait. |
| SinkOrder.PassFollows | src/linux/perf_group.rs:1149-1170 | A pass is an admissible run of sorter operations: it drains at each group, advances only after all rings were read and aborts on a failed read. |
| SinkOrder.CallFollows | src/linux/perf_group.rs:1101-1137 | A call, with its passes, its rings that come and go and its flush, is an admissible run of sorter operations. |
| SinkOrder.DrainFollows | src/linux/mod.rs:855-868 | A drain is a sequence of pops, or of forced pops, taking out exactly what leaves the queue. |
| SinkOrder.ReadAllFollows | src/linux/perf_group.rs:1172-1182 | Reading a ring in time is a sequence of pushes, each allowed by what the ring promised; events that are not queued need not be in time. |
| SinkOrder.PassDrains | src/linux/perf_group.rs:1149-1170 | After a complete pass without an error nothing that is due is left in the queue. |
| SinkOrder.ReadsWhenDrained | src/linux/perf_group.rs:1157-1160 | When a ring is read, nothing that was due before is still queued, unless an error is pending. |
| SinkOrder.ReachNext | src/linux/sorter.rs:68-133 | An enabled operation after an admissible run gives an admissible run that keeps the sorter's invariant. |

## Left out

- System calls: perf_event_open, mmap, poll, `/proc` reads. Their results are parameters (`Attempt`, `Relation`, `Entry`, `RingRead`).
- Memory fences, volatile access and mutexes: ring operations are atomic steps.
- Spool files and symbol backends: a stack is a list of frame references, a backend is the resolver function with a failure flag; writing a sample's frames is empty, written or failed.
- Big-endian hosts: words are little-endian, where the source uses the host's order.
- Aligned buffer pool: a copied record is its bytes; which buffer holds them, and its reuse, are not modelled.
- Owned (non-ring) samples, raw frame resolution and lost-event counters: they would add only easy members.
- Process retirement, kernel symbol refresh and perf-map scanning inside `update`: only what an update invalidates is modelled.
- Python-runtime markers, attach and signal sequencing, error texts: not part of this model.
- aarch64 registers: only the x86-64 table is modelled.
- `/proc/<pid>/stat` parsing and the sorting of children lists: their results are inputs.
- SampleRecord.BuildRecord: takes arbitrary fields where the source's builder fills in a synthetic pattern, so it covers more records than that builder writes.
- Compaction.CompactInPlace: works on a sequence that each copy replaces, as the source's vector is; sharing of that memory is not modelled.
- ExactImages.ExactImageStore.Insert: image addresses are numbers, and tokens are counted by the store instead of by a global counter shared by all stores.
- Symbolizer.Symbolizer.FinishFrameBatch: the six fields of the frame table are one value, and a failing backend fails before any result is placed.
- Sorter.EventSorter.Pop: the heap is a map with a least element, not a binary tree, and keys and groups are integers.
- RingPlan.OpenRingWithFallback: the outcome of opening a size is fixed beforehand for each size, which each size being tried once makes no restriction.
- Recorder.Session: the outcome of writing a sample is fixed when it is read; whether it is used is decided when it is finished. Of a queued sample's memory only whether it lies in a ring is kept here; the memory itself is the subject of HeldSamples.
- Ring.RingBuffer.NextRecordTo: says nothing about heads that lie past the published one but within a capacity of the reader; the kernel has then promised nothing about the bytes, and CheckNext covers the checks themselves.
- Sorter.EventSorter.VisitValuesMut: the visitor is a function of the value; visits that change the rings as well are HeldSamples.SampleQueue.DetachQueuedEvents.
- HeldSamples.SampleQueue.HandleRecord: parsing a record that is no sample is an input, its timestamp or a refusal.
- HeldSamples.Run: the set of rings is fixed for a run, rounds may begin rings in any ascending order, and copies are aligned as the buffer pool aligns them, to a multiple of 8.
- SampleAccount.ServeBalance: a sample read while an error is pending is counted nowhere, as in the source, so it is not in the balance.
- Recorder.DrainSink.RecordPreparedSample: an error while refreshing maps or modules counts as a failed write.
