# Spoor: a verified model of the tracing runtime and its instrumentation pass

Spoor records function entries and exits. An LLVM pass inserts the calls; the runtime
collects the events of each thread in a ring buffer made of borrowed slices, hands full
buffers to a background worker, and the worker writes trace files. This project models
those parts in Dafny and proves what they guarantee in every interleaving and for every
answer of the pool, the writer and the clock.

`dafny verify dfyconfig.toml` checks the whole project.

## How it is laid out

- `Common.dfy`: options, results, sums over sequences, 64-bit and 32-bit arithmetic.
- `Slices.dfy`, `SliceBuffer.dfy`: the two ring slices and the circular buffer over
  borrowed slices, as classes, each proved to be a simpler ring on values.
- `ReservedPool.dfy`, `DynamicPool.dfy`: the lock-free pools as step machines, one step for
  each access to an atomic; atomics are sequentially consistent words of 64 bits.
  `CombinedPool.dfy`: the two pools behind one class, whose calls play those steps to the end.
- `Records.dfy`, `Completions.dfy`, `FlushQueue.dfy`, `FlushWrites.dfy`: the flush queue as a step
  machine, one step for each lock section or atomic, and what it writes. `FlushDrain.dfy`,
  `FlushClosing.dfy`, `FlushStray.dfy`: how drains end. `FlushClock.dfy`, `FlushWaits.dfy`,
  `FlushMisses.dfy`: what the completion of a Flush waits for. `DiskFlushQueue.dfy`: the queue as
  a class between calls, with the slices in its records.
- `Journals.dfy`, `EventLogger.dfy`: a thread's logger, and what it keeps of what is logged.
- `RuntimeManager.dfy`, `RuntimeRuns.dfy`: the whole runtime as a step machine, from Initialize to
  the destruction of the pool. `RuntimeEvents.dfy`: what becomes of the events logged in its runs.
- `Bytes.dfy`, `TraceFormat.dfy`, `TraceFile.dfy`: byte order, the layout of trace files, the
  writer and the reader. `EndToEnd.dfy`: logger, queue, writer and reader put together.
- `Program.dfy`, `Instrumentation.dfy`, `Prefixes.dfy`, `RuntimeCalls.dfy`, `Filters.dfy`,
  `InstrumentModule.dfy`: a small intermediate representation with a call-tree semantics, the pass
  as a transformation of it, for executions that end and for those that do not, the calls of the
  runtime an instrumented program makes, the filters, and the pass's loops.

## What the proofs found in the code

- A `Clear` of the flush queue that meets a record in the worker's hand puts `queue_size_` off
  by one. A later drain then ends exactly if a record is queued at the size check
  (`DrainEndsIff`): if none is, it never ends (`OverlappingClearHangs`, `StuckForever`,
  `DeinitializeHangs`); if one is, it ends with a record still queued (`OverlappingClearStrands`,
  `StrayEnds`), and the pool is destroyed while it is not full (`DeinitializeAborts`,
  `DestroyedNotFull`). `FullWhenDestroyed` gives the exact condition.
- The completion of a Flush waits for the records that are queued and stamped by then and for all
  that have a tag. A record in hand without a tag is waited for if it is doomed, that is, if the
  worker cannot let go of it before it is gone (`FlushWaits`). If it is loose, a run in which the
  clock never goes back takes the completion while the record is queued (`FlushMisses`; one such
  run is `FlushMissesRecordInHand`). A record in hand is one or the other, by the attempts it has
  left, its age and the Flushes under way, unless a drain meets it on its way back to the queue
  (`DoomedOrLoose`).
- A `Clear` drops the tag of the record in hand. If that record is doomed, it is gone when the
  installed completion has run (`ClearWaits`); if it is loose, the completion can run while it is
  queued (`ClearMisses`; one such run is `ClearDropsTag`).
- An Enqueue that was past its check of `draining_` when a drain began can leave its record behind.
  The records left are exactly those committed after the worker saw its counter at 0
  (`DrainEndsWithCalls`).
- `size_` of the reserved pool can wrap below zero for a moment, and the pool then reads as full
  while its only slice is out (`FullWhileLent`). `FullOverRuns` says exactly when `Full()` holds.
- On a host of the other byte order every event's type reads as 0, and a compressed file is
  rejected. `AcrossByteOrdersIff` says exactly when such a file is read correctly.
- A trace file of 2^31 events or more cannot be read back (`FlushedFileReads`).
- Function ids of one module can repeat beyond 2^32 definitions; `IdsDistinctIff` says exactly
  when they do.

## Model

| member | source | states |
|---|---|---|
| Slices.PushKeepsNewest | spoor/runtime/buffer/unowned_buffer_slice.h:52-58 | a push into a ring slice keeps exactly the newest items that fit, in order |
| Slices.ChunksSpellContents | spoor/runtime/buffer/owned_buffer_slice.h:85-98 | the memory chunks of a slice, joined, are its items from the oldest to the newest |
| Slices.SliceHoldsNewest | spoor/runtime/buffer/owned_buffer_slice.h:53-98 | after any calls a slice holds the newest items pushed since the last Clear, as many as its capacity allows |
| Slices.OwnedBufferSlice.Push | spoor/runtime/buffer/owned_buffer_slice.h:53-63 | the growing vector is one push further as a ring |
| Slices.OwnedBufferSlice.Clear | spoor/runtime/buffer/owned_buffer_slice.h:79-82 | the slice is the empty ring of its capacity |
| Slices.OwnedBufferSlice.WillWrapOnNextPush | spoor/runtime/buffer/owned_buffer_slice.h:121-123 | true exactly when the ring is full with its cursor at its end |
| Slices.OwnedBufferSlice.ContiguousMemoryChunks | spoor/runtime/buffer/owned_buffer_slice.h:85-98 | the chunks of the ring, none when it is empty |
| Slices.UnownedBufferSlice.Push | spoor/runtime/buffer/unowned_buffer_slice.h:52-58 | the same ring is kept in a span of a foreign array, and nothing outside the span changes |
| Slices.UnownedBufferSlice.Clear | spoor/runtime/buffer/unowned_buffer_slice.h:70-73 | the slice is the empty ring of the span's length, and the array is untouched |
| Slices.UnownedBufferSlice.ContiguousMemoryChunks | spoor/runtime/buffer/unowned_buffer_slice.h:76-89 | the chunks of the ring, read from the span |
| Slices.DriveBoth | spoor/runtime/buffer/unowned_buffer_slice.h:52-114 | for every sequence of calls and every capacity, 0 included, the two kinds of slice show the same size, fullness, wrap prediction and chunks after each call |
| SliceBuffer.PushKeepsNewest | spoor/runtime/buffer/circular_slice_buffer.h:83-98 | whatever the pool answers, a push keeps the newest items, as many as the buffer then holds, and never shrinks it |
| SliceBuffer.BufferHoldsNewest | spoor/runtime/buffer/circular_slice_buffer.h:83-109 | for every sequence of Push and Clear and every pattern of lent and refused slices, the contents are the last Size() items pushed since the last Clear, those dropped for want of a slice counted |
| SliceBuffer.AcquiredIsBounded | spoor/runtime/buffer/circular_slice_buffer.h:169-189 | the acquired capacity never exceeds the capacity over a pool that lends no more than asked, and overshoots by less than a slice over the reserved pool |
| SliceBuffer.FlatAtEnd | spoor/runtime/buffer/circular_slice_buffer.h:132-137 | every slice but the one being filled is full, so the flat ring is at its end exactly when the last slice will wrap, and then size and acquired capacity agree |
| SliceBuffer.PushRefines | spoor/runtime/buffer/circular_slice_buffer.h:83-98 | a push into the chosen slice is one push of the flat ring, and the layout and both counters stay right |
| SliceBuffer.CircularSliceBuffer.PrepareToPush | spoor/runtime/buffer/circular_slice_buffer.h:169-189 | a slice is asked for exactly when the ring is at its end below capacity, with Size() equal to the acquired capacity, so the amount asked for is positive |
| SliceBuffer.CircularSliceBuffer.Push | spoor/runtime/buffer/circular_slice_buffer.h:83-98 | the list of slices refines the flat ring, and the pool is asked exactly when the flat ring wants more |
| SliceBuffer.CircularSliceBuffer.Clear | spoor/runtime/buffer/circular_slice_buffer.h:101-109 | every slice goes back, in order, and the buffer is empty |
| SliceBuffer.CircularSliceBuffer.WillWrapOnNextPush | spoor/runtime/buffer/circular_slice_buffer.h:132-137 | true exactly when the next push overwrites without asking for a slice |
| SliceBuffer.CircularSliceBuffer.ContiguousMemoryChunks | spoor/runtime/buffer/circular_slice_buffer.h:140-166 | the chunks, joined, are the contents from the oldest to the newest item |
| SliceBuffer.DriveBuffer | spoor/runtime/buffer/circular_slice_buffer.h:83-166 | for every sequence of calls and every pattern of answers, after each call the joined chunks of the buffer are the last Size() items pushed since the last Clear |
| ReservedPool.MakeSpans | spoor/runtime/buffer/reserved_buffer_slice_pool.h:87-112 | the slices are non-empty, follow each other without gap or overlap, end at the capacity, and all but the last have the maximal size |
| ReservedPool.SpansPartition | spoor/runtime/buffer/reserved_buffer_slice_pool.h:87-112 | every place of the buffer is in a slice, slices do not overlap, and there are at most as many as places |
| ReservedPool.StepKeepsInv | spoor/runtime/buffer/reserved_buffer_slice_pool.h:122-175 | every atomic step of any thread keeps the ownership and size invariant |
| ReservedPool.ReturnKeepsInv | spoor/runtime/buffer/reserved_buffer_slice_pool.h:135-175 | Return's index check accepts every slice the pool has issued |
| ReservedPool.PoolOverRuns | spoor/runtime/buffer/reserved_buffer_slice_pool.h:122-175 | in every interleaving a slice has at most one pointer out, a slice about to be issued is empty and free, no pointer is lost, and size_ is the free capacity up to pending updates, modulo 2^64 |
| ReservedPool.FullOverRuns | spoor/runtime/buffer/reserved_buffer_slice_pool.h:122-175 | in every interleaving size_ is the capacity less what callers hold or have not quite given back, modulo 2^64, and Full() holds exactly when that is nothing or more than the capacity |
| ReservedPool.QuietPoolIsExact | spoor/runtime/buffer/reserved_buffer_slice_pool.h:144-161 | with no call in progress the size is exact, and Full() holds exactly when no pointer is out |
| ReservedPool.FullWhileLent | spoor/runtime/buffer/reserved_buffer_slice_pool.h:159-175 | a run in which size_ wraps and the pool reads as full while its only slice is out |
| DynamicPool.NoWrapAround | spoor/runtime/buffer/dynamic_buffer_slice_pool.h:92-97 | for any value read, however stale, neither the subtraction nor the sum wraps, and the slice size is the least of the request, the slice limit and the room |
| DynamicPool.StepKeepsInv | spoor/runtime/buffer/dynamic_buffer_slice_pool.h:89-123 | every load, compare-and-swap (failing for no reason or not) and return keeps the accounting invariant |
| DynamicPool.PoolOverRuns | spoor/runtime/buffer/dynamic_buffer_slice_pool.h:89-152 | in every interleaving and at any capacity below 2^64 the counter is the total capacity issued, never more than the pool's, and Full() holds exactly when every slice is back |
| CombinedPool.BorrowReserved | spoor/runtime/buffer/reserved_buffer_slice_pool.h:122-132 | an undisturbed Borrow issues the first free slice, empty, and fails only when every slice is lent |
| CombinedPool.ReturnReserved | spoor/runtime/buffer/reserved_buffer_slice_pool.h:164-175 | an undisturbed Return takes the pointer in and leaves the slice empty and free |
| CombinedPool.BorrowDynamic | spoor/runtime/buffer/dynamic_buffer_slice_pool.h:89-109 | Borrow fails exactly when every attempt fails for no reason or there is no room, and otherwise issues the largest slice allowed |
| CombinedPool.CombinedBufferSlicePool.Borrow | spoor/runtime/buffer/combined_buffer_slice_pool.h:87-97 | the first reserved slice that is free is lent; only when every reserved one is out a dynamic one, of the least of the request, the slice limit and the room left; none exactly when there is neither or every swap fails; no slice is lent that is already out |
| CombinedPool.CombinedBufferSlicePool.Return | spoor/runtime/buffer/combined_buffer_slice_pool.h:100-109 | a slice of another pool is refused, any other leaves the lent slices |
| CombinedPool.CombinedBufferSlicePool.ReturnAll | spoor/runtime/buffer/combined_buffer_slice_pool.h:113-123 | the pool's own slices are taken back and those of other pools come back in order |
| CombinedPool.CombinedBufferSlicePool.Full | spoor/runtime/buffer/combined_buffer_slice_pool.h:174-186 | both pools are full exactly when no slice is out |
| CombinedPool.ReturnSlices | util/memory/owned_ptr.h:57-62 | destroying owning pointers gives each slice back to the pool that lent it, once |
| FlushQueue.StepKeepsBook | spoor/runtime/flush_queue/disk_flush_queue.cc:94-134 | every step keeps each record ever queued in one place only, with distinct ids, and tags on pending records |
| FlushQueue.StepKeepsSize | spoor/runtime/flush_queue/disk_flush_queue.cc:33-134 | every step keeps queue_size_ equal to the pending records less the drift, modulo 2^64 |
| FlushQueue.StepKeepsDesk | spoor/runtime/flush_queue/disk_flush_queue.cc:112-190 | every step keeps completions single-use and owed records accounted for |
| FlushDrain.QueueSizeOverRuns | spoor/runtime/flush_queue/disk_flush_queue.cc:33-140 | in every interleaving queue_size_ is the queued records plus the one in hand less 1 if the last Clear met a record in hand, modulo 2^64, and exact in runs without such a Clear |
| FlushDrain.RecordsOverRuns | spoor/runtime/flush_queue/disk_flush_queue.cc:54-134 | each id handed out is pending once or gone exactly one way, and manual_flush_record_ids_ holds only pending ids |
| FlushDrain.CompletionsOverRuns | spoor/runtime/flush_queue/disk_flush_queue.cc:112-190 | a completion runs at most once, and only after every record with a tag at its Flush, those of earlier Flushes included, was written, exhausted, expired or cleared, save those whose tag a Clear dropped while in hand |
| FlushDrain.CompletionsHaveOccasions | spoor/runtime/flush_queue/disk_flush_queue.cc:37-86 | the worker takes a completion only when no tag is left and its step before found the queue empty or dealt with a record that it had just tried to write; a record that expired or is not due is no occasion |
| FlushDrain.CompletionRuns | spoor/runtime/flush_queue/disk_flush_queue.cc:37-86 | with flush_all_events an installed completion does run: the worker takes it within a bounded number of its steps, whatever the clock and the writer answer |
| FlushWrites.WritesAreLimited | spoor/runtime/flush_queue/disk_flush_queue.cc:71-81 | no record is written successfully twice or attempted more than max(1, max_buffer_flush_attempts) times |
| FlushWrites.WriteOrderIsQueueOrder | spoor/runtime/flush_queue/disk_flush_queue.cc:60-110 | with flush_all_events and only successful writes the write order is the enqueue order, and without a Clear nothing is missing |
| FlushDrain.WorkDescends | spoor/runtime/flush_queue/disk_flush_queue.cc:37-86 | each step of a draining worker lowers a measure built from max(1, remaining attempts) of the pending records, and each write uses up one of them |
| FlushDrain.DrainEnds | spoor/runtime/flush_queue/disk_flush_queue.cc:37-92 | with flush_all_events a drain ends, within a bound on its steps and write calls, with no record left, whatever callers do meanwhile, short of an Enqueue past its check that commits (FlushClosing.DrainEndsWithCalls), a Clear over a record in hand, or a second Run |
| FlushClosing.DrainEndsWithCalls | spoor/runtime/flush_queue/disk_flush_queue.cc:37-110 | with Enqueue calls past their check when it begins a drain still ends, each call adds a fixed price to its steps and its attempts to the write calls, and the records left are exactly those committed after the worker saw its counter at 0 and not cleared since |
| FlushDrain.DrainBegins | spoor/runtime/flush_queue/disk_flush_queue.cc:89-92 | DrainAndStop puts every run without an overlapping Clear into a state from which the drain ends |
| FlushDrain.ExitCondition | spoor/runtime/flush_queue/disk_flush_queue.cc:37 | the worker leaves its loop exactly when as many records wait as its counter is off by |
| FlushDrain.StuckForever | spoor/runtime/flush_queue/disk_flush_queue.cc:37-47 | a drain whose counter is off by one with nothing queued never ends unless a record is queued or the queue is cleared |
| FlushDrain.OverlappingClearHangs | spoor/runtime/flush_queue/disk_flush_queue.cc:128-134 | a run in which a Clear over a record in hand leads to such a drain |
| FlushDrain.OverlappingClearStrands | spoor/runtime/flush_queue/disk_flush_queue.cc:74-87 | a run in which the worker stops with a record still queued after such a Clear |
| FlushDrain.FlushMissesRecordInHand | spoor/runtime/flush_queue/disk_flush_queue.cc:121-125 | a run in which a Flush completion runs while an older record still waits to be written |
| FlushDrain.ClearDropsTag | spoor/runtime/flush_queue/disk_flush_queue.cc:128-134 | a run in which a completion runs although the record its Flush tagged is still queued |
| FlushClock.SteadyRunsAreTimely | spoor/runtime/flush_queue/disk_flush_queue.cc:94-126 | in every run in which neither the worker nor a Flush reads the clock below an earlier reading, no record and no Enqueue in progress is stamped after the latest reading, and a worker that has found a record fresh has a positive retention time |
| FlushWaits.FlushWaits | spoor/runtime/flush_queue/disk_flush_queue.cc:112-126 | with a steady clock, unless the record in hand is untagged and not doomed, a completion that has run means that every record tagged, or queued or in hand and stamped by its Flush, is gone or had its tag dropped by a Clear since |
| FlushMisses.FlushMisses | spoor/runtime/flush_queue/disk_flush_queue.cc:112-126 | in every state in which that record is loose, some run with a steady clock takes the completion while the record is queued, and no Clear has dropped a tag of it |
| FlushMisses.ClearMisses | spoor/runtime/flush_queue/disk_flush_queue.cc:128-134 | in every state with a completion installed and a loose record in hand, a Clear can be followed, with a steady clock, by the completion being taken while the record is queued |
| FlushWaits.ClearWaits | spoor/runtime/flush_queue/disk_flush_queue.cc:128-134 | if the record in hand is doomed, a Clear does no harm: the record is gone when the installed completion has run |
| FlushWaits.DoomedOrLoose | spoor/runtime/flush_queue/disk_flush_queue.cc:49-82 | a record in hand is never both doomed and loose, and is one of them unless a drain is under way and the record is about to be put back, or about to be looked at for that |
| FlushStray.StrayDescends | spoor/runtime/flush_queue/disk_flush_queue.cc:37-86 | each step of a draining worker whose counter is off by one, with records enough, lowers the same measure |
| FlushStray.StrayEnds | spoor/runtime/flush_queue/disk_flush_queue.cc:37-92 | such a drain ends, within the same bounds, with exactly one record left, as long as no record is queued, no Clear comes and the worker is not started again meanwhile |
| FlushStray.DrainEndsIff | spoor/runtime/flush_queue/disk_flush_queue.cc:37-92 | with flush_all_events a drain ends exactly if, at the size check, the counter is exact or a record is queued; it leaves as many records as the counter is off by |
| DiskFlushQueue.WorkCustody | spoor/runtime/flush_queue/disk_flush_queue.cc:37-83 | a step of the worker lets go of the slices of a record it destroys and of no others |
| DiskFlushQueue.WorkOn | spoor/runtime/flush_queue/disk_flush_queue.cc:37-83 | a step of the worker is that of the step machine, keeps its invariant, and yields exactly the slices dropped |
| DiskFlushQueue.DiskFlushQueue.Run | spoor/runtime/flush_queue/disk_flush_queue.cc:33-36 | a queue that was not running is ready to accept buffers, with no drain under way and its records kept; a running one is left alone |
| DiskFlushQueue.DiskFlushQueue.Enqueue | spoor/runtime/flush_queue/disk_flush_queue.cc:94-110 | a buffer is accepted exactly when the queue is running and not draining, and its slices come along |
| DiskFlushQueue.DiskFlushQueue.Flush | spoor/runtime/flush_queue/disk_flush_queue.cc:112-126 | the records stamped by now are tagged; the completion is installed and owed every tagged record, or runs at once without a worker; no slice moves |
| DiskFlushQueue.DiskFlushQueue.Clear | spoor/runtime/flush_queue/disk_flush_queue.cc:128-134 | the slices of the queued records go back to the pool, the record in hand stays |
| DiskFlushQueue.DiskFlushQueue.Work | spoor/runtime/flush_queue/disk_flush_queue.cc:37-83 | slices outside the queue are untouched by a step of the worker |
| DiskFlushQueue.DiskFlushQueue.DrainAndStop | spoor/runtime/flush_queue/disk_flush_queue.cc:89-92 | a queue that is not running or already draining is left alone; otherwise it ends for all answers of the writer, within the write calls the pending records allow, with as many records left as the counter was off by and every other slice back in the pool |
| Journals.EventsAreOnlyDropped | spoor/runtime/event_logger/event_logger.cc:48-59 | whatever pool and queue answer, what is sent and kept is a subsequence of what was logged, and each refusal costs at least one event |
| Journals.LosslessIff | spoor/runtime/event_logger/event_logger.cc:48-59 | a logger with positive capacity that flushes when full keeps every event, in order, exactly when no slice and no buffer was refused |
| EventLogger.EventLogger.Flush | spoor/runtime/event_logger/event_logger.cc:54-59 | a buffer with something in it goes on, or is destroyed if refused; either way its slices leave the logger |
| EventLogger.EventLogger.Push | spoor/runtime/event_logger/event_logger.cc:48-50 | a buffer that wants a slice asks the pool for exactly what it lacks, and the answer is the pool's; a slice lent is in the buffer afterwards |
| EventLogger.EventLogger.LogEvent | spoor/runtime/event_logger/event_logger.cc:48-52 | the pool is asked when the buffer wants a slice; what is handed over and what is left are the buffer after the push; an event logged while a reserved slice is free, or the dynamic pool can lend, is in the buffer or handed over; slices are conserved |
| EventLogger.EventLogger.Clear | spoor/runtime/event_logger/event_logger.cc:61-64 | the buffer is empty and its slices are back |
| EventLogger.EventLogger.SetPool | spoor/runtime/event_logger/event_logger.cc:37-46 | losing the pool hands on what is left, a new pool comes with an empty buffer, and the old pool gets back what is not handed on |
| RuntimeManager.StepKeepsInv | spoor/runtime/runtime_manager/runtime_manager.cc:29-155 | every call and every step of the queue keeps the balance of slices and the stages of the lifecycle |
| RuntimeManager.SlicesOverRuns | spoor/runtime/runtime_manager/runtime_manager.cc:29-155 | in every run of fewer than 2^64 steps a slice is lent at most once, a lent slice is in exactly one buffer, of a logger, a call or a record, and there once, a slice not lent is in none, and none is out while the runtime is down |
| RuntimeManager.FullWhenDestroyed | spoor/runtime/runtime_manager/runtime_manager.cc:49-67 | when Deinitialize destroys the pool it is full exactly if the last Clear of the queue met no record in hand |
| RuntimeManager.NeverAborts | spoor/runtime/runtime_manager/runtime_manager.cc:49-67 | a run whose Clears meet no record in hand never destroys a pool that is not full, over any number of lifecycles |
| RuntimeManager.DeinitializeEnds | spoor/runtime/runtime_manager/runtime_manager.cc:60-67 | from DrainAndStop on, within a bounded number of steps and for all answers of the writer, every record is gone and a full pool is destroyed |
| RuntimeManager.DeinitializeAborts | spoor/runtime/runtime_manager/runtime_manager.cc:60-67 | a Deinitialize whose drain is off by one with a record queued at the size check destroys a pool that is not full |
| RuntimeManager.DeinitializeHangs | spoor/runtime/runtime_manager/runtime_manager.cc:60-67 | with none queued there it never returns; in this stage of Deinitialize no application call is made, so that only the worker acts |
| RuntimeRuns.DestroyedNotFull | spoor/runtime/runtime_manager/runtime_manager.cc:49-67 | a run of the runtime from its start to the destruction of a pool with a slice out |
| RuntimeEvents.EventsOverRuns | spoor/runtime/runtime_manager/runtime_manager.cc:29-155 | in every run, for every logger there is or was: the events in its buffers that have come to the queue, followed by those in its present buffer, are a subsequence of the events logged through it, and with flush_all_events they are all of them exactly if no slice was refused to it; no buffer is ever refused by the queue |
| RuntimeEvents.EventsReachQueue | spoor/runtime/runtime_manager/runtime_manager.cc:49-65 | when Deinitialize drains the queue, every event logged through any logger has come to the queue, exactly if no slice was refused |
| RuntimeEvents.FlushReachesQueue | spoor/runtime/runtime_manager/runtime_manager.cc:137-145 | after a Flush of a logger nothing is left in its buffer, and every event logged through it has come to the queue |
| RuntimeEvents.EventsAreWritten | spoor/runtime/runtime_manager/runtime_manager.cc:49-67 | over whole lifecycles with flush_all_events, no failed write and no Clear, when the worker has stopped each buffer of each logger has been given to the writer, and they hold every event logged exactly if no slice was refused |
| RuntimeEvents.QueueFollows | spoor/runtime/runtime_manager/runtime_manager.cc:29-155 | the queue inside a run of the runtime runs as the flush queue does by itself, so that all that holds of its runs holds here |
| RuntimeEvents.EnabledIff | spoor/runtime/runtime_manager/runtime_manager.cc:49-78 | the runtime is enabled exactly if an Enable after Initialize has not been revoked by Disable or Deinitialize since |
| RuntimeEvents.LoggersAreSupplied | spoor/runtime/runtime_manager/runtime_manager.cc:29-85 | while the runtime is initialized every subscribed logger has a buffer, those that came before Initialize and those that came after |
| Bytes.LoadForeign | spoor/runtime/trace/trace_file_reader.cc:92-124 | a word stored in the other byte order loads swapped, and swapping it gives the word |
| Bytes.WideSwap | spoor/runtime/trace/trace_file_reader.cc:120-121 | swapping a word at twice its width leaves nothing in the lower half |
| Bytes.StoredByte | spoor/runtime/trace/trace.h:63-77 | byte k of a stored value is its k-th digit to base 256 on a little-endian host, counted from the other end on a big-endian one |
| TraceFormat.HeaderRoundTrip | spoor/runtime/trace/trace.h:63-77 | the 64 bytes of a header load as the header on a host of the same order |
| TraceFormat.HeaderAcross | spoor/runtime/trace/trace_file_reader.cc:92-110 | across byte orders a header loses its compression strategy and nothing else |
| TraceFormat.HeaderLayout | spoor/runtime/trace/trace.h:63-77 | where in the 64 bytes each field of a header lies |
| TraceFormat.HeaderRead | spoor/runtime/trace/trace_file_reader.cc:92-110 | of any 64 bytes a host reads each field in the order in which they lie, and the compression strategy only in its own order |
| TraceFormat.EventRoundTrip | spoor/runtime/trace/trace.h:83-95 | the 24 bytes of an event load as the event on a host of the same order |
| TraceFormat.EventAcross | spoor/runtime/trace/trace_file_reader.cc:112-124 | across byte orders an event's type becomes 0 and every other field is kept |
| TraceFormat.EventsLayout | spoor/runtime/trace/trace.h:83-95 | where in the 24 bytes of each event its fields lie |
| TraceFile.TraceFileWriter.Write | spoor/runtime/trace/trace_file_writer.cc:27-70 | an empty buffer leaves no file; otherwise the file is the header and the buffer's events from the oldest to the newest: the compressed bytes with the strategy in byte 11 exactly if compression succeeds and saves room, the plain bytes with 0 there if not |
| TraceFile.WrittenBytes | spoor/runtime/trace/trace_file_writer.cc:49-68 | the bytes of a file: the header, in which only byte 11 depends on the compressor, and the compressed or plain events |
| TraceFile.Read | spoor/runtime/trace/trace_file_reader.cc:51-90 | the reader's loop yields the trace or the error the file's bytes determine, and marks the files on which the code is undefined, a bare header among them |
| TraceFile.ReadOfBytes | spoor/runtime/trace/trace_file_reader.cc:51-90 | what the reader makes of any bytes, from the bytes: too short, wrong magic number, wrong version, undefined, data that do not uncompress or have the wrong length, or as many events as the header says |
| TraceFile.ReadHeaderAgrees | spoor/runtime/trace/trace_file_reader.cc:35-49 | reading only the header gives the header or the error that reading the file gives |
| TraceFile.ReadAfterWrite | spoor/runtime/trace/trace_file_reader.cc:51-90 | on a host of the same order a written file with something after its header is accepted exactly for the right magic number, version and event count, gives back the header naming the encoding used and exactly the events, and takes at most 64 + 24n bytes |
| TraceFile.ReadAcrossByteOrders | spoor/runtime/trace/trace_file_reader.cc:92-124 | on a host of the other order a plain file loses the types of its events and a compressed file is rejected |
| TraceFile.AcrossByteOrdersIff | spoor/runtime/trace/trace_file_reader.cc:92-124 | both hosts read a file with something after its header the same exactly when it is plain and every type is 0 |
| TraceFile.FlushedFileReads | spoor/runtime/flush_queue/disk_flush_queue.cc:152-175 | a file the flush queue writes reads back exactly when its events number fewer than 2^31 |
| TraceFile.FlushedFileLayout | spoor/runtime/flush_queue/disk_flush_queue.cc:152-175 | which bytes of a file the flush queue writes hold the magic number, the byte order, the session, the process, the thread, the two clocks and the number of events |
| EndToEnd.GivenIsQueued | spoor/runtime/flush_queue/disk_flush_queue.cc:60-110 | with flush_all_events, only successful writes and no Clear, a queue with no record left has given the writer exactly the buffers queued, in order |
| EndToEnd.HandedIsSent | spoor/runtime/event_logger/event_logger.cc:48-59 | the buffers a logger hands over hold, in order, the events its journal counts as sent |
| EndToEnd.OrderIsKept | spoor/runtime/flush_queue/disk_flush_queue.cc:94-110 | when each Enqueue of a thread is over before its next, the thread's buffers in the queue, followed by the one its call still has, are in every interleaving with other threads those it handed over, in that order |
| EndToEnd.TraceIsLossless | spoor/runtime/flush_queue/disk_flush_queue.cc:60-110 | then the files of a thread whose logger was refused nothing and which hands its buffers over one call at a time, read in the order they were written, give back exactly the events the thread logged, in order |
| Filters.InstrumentFunction | spoor/instrumentation/filters/filters.cc:17-50 | the two searches decide as specified and name the first rule that allows, or else the first that blocks |
| Filters.FirstMeans | spoor/instrumentation/filters/filters.cc:20-45 | the rule found is that of the first filter of the action that picks the function, and one is found exactly when there is one |
| Filters.DecisionMeans | spoor/instrumentation/filters/filters.cc:46-49 | a function is kept exactly when some filter allows it or none blocks it, whatever the order of the filters |
| Filters.FieldsMean | spoor/instrumentation/filters/filter.cc:10-33 | what each field of a filter asks for when it is the only one set: the path, the demangled name or the linkage name matches, the count is below, the count is above; a filter with none picks every function |
| Filters.FieldsCombine | spoor/instrumentation/filters/filter.cc:10-33 | a filter picks a function exactly when each of its fields alone does, whatever its action and rule |
| Filters.ReasonMeans | spoor/instrumentation/filters/filters.cc:17-50 | the rule given is that of the first filter that allows the function, or else of the first that blocks it, and none exactly when no filter picks it |
| InstrumentModule.FunctionIdDecodes | spoor/instrumentation/inject_instrumentation/inject_instrumentation.cc:146-150 | below 2^32 definitions the upper half of an id is the module's hash and the lower half the definition's index |
| InstrumentModule.IdsDistinctIff | spoor/instrumentation/inject_instrumentation/inject_instrumentation.cc:146-158 | the ids of n definitions are pairwise distinct exactly when the module's hash is 0 or n is at most 2^32 times its lowest set bit |
| InstrumentModule.IdsAreStable | spoor/instrumentation/inject_instrumentation/inject_instrumentation.cc:146-157 | ids tell definitions apart, decode to the module's hash and the number of definitions before, and do not depend on filters or options |
| InstrumentModule.TableIsRecord | spoor/instrumentation/inject_instrumentation/inject_instrumentation.cc:154-182 | the symbol table has exactly one entry for each definition, under its id, and no other, with its names, the number of all its instructions in 32 bits, the decision and the rule behind it |
| InstrumentModule.KeptAsDescribed | spoor/instrumentation/inject_instrumentation/inject_instrumentation.cc:228-248 | the pass changes a definition exactly when its symbol says that it is instrumented |
| InstrumentModule.InsertExits | spoor/instrumentation/inject_instrumentation/inject_instrumentation.cc:257-268 | walking a block while inserting puts the exit calls in front of each return and nowhere else |
| InstrumentModule.InsertEntry | spoor/instrumentation/inject_instrumentation/inject_instrumentation.cc:250-256 | the entry calls come at the first insertion point, in order, with those of main in front |
| InstrumentModule.InstrumentModule | spoor/instrumentation/inject_instrumentation/inject_instrumentation.cc:114-271 | the pass's loop yields the transformed module, from which erasing the runtime's calls gives back the module, the symbol table, and true exactly if the module was changed |
| Instrumentation.EraseApply | spoor/instrumentation/inject_instrumentation/inject_instrumentation.cc:250-268 | erasing the injected calls from an instrumented module gives back the module |
| Instrumentation.OriginalRun | spoor/instrumentation/inject_instrumentation/inject_instrumentation.cc:250-268 | every execution of the original that leaves through a return has an instrumented one with the same visible trace, whose log is the tree of the calls of kept functions |
| Instrumentation.InstrumentedRun | spoor/instrumentation/inject_instrumentation/inject_instrumentation.cc:247-268 | every instrumented execution that leaves through a return shows what an original one shows, and its log reads back as that one's call tree: entries and exits nest, matching ones have the same id, and blocked functions leave no event |
| Instrumentation.ParseSpell | spoor/instrumentation/inject_instrumentation/inject_instrumentation.cc:256-266 | a log spelled out from a call tree is well nested and reads back as that tree |
| Prefixes.OriginalPrefix | spoor/instrumentation/inject_instrumentation/inject_instrumentation.cc:250-268 | however far an execution of the original has come, ended or not, an instrumented one shows the same, and closing the kept functions on the call stack makes its log well nested, with the calls made so far as its tree |
| Prefixes.InstrumentedPrefix | spoor/instrumentation/inject_instrumentation/inject_instrumentation.cc:250-268 | however far an instrumented execution has come, it shows what an original one has shown at some point, and the entries open in its log are exactly those of the kept functions on that one's call stack |
| Prefixes.WholeRun | spoor/instrumentation/inject_instrumentation/inject_instrumentation.cc:257-268 | an execution that has ended is one that is in no function any more |
| RuntimeCalls.RuntimeIsSetUp | spoor/instrumentation/inject_instrumentation/inject_instrumentation.cc:249-268 | every execution, ended or not, that starts in a kept main shows Initialize first if the options ask for it, Enable next exactly if they ask for that, then the entry of main; one that starts in another kept function shows its entry first; when it has ended the last is the exit, in main followed by Deinitialize |
| RuntimeCalls.CallsFollowScript | spoor/instrumentation/inject_instrumentation/inject_instrumentation.cc:249-268 | an activation of a kept main makes exactly these calls of the runtime itself, in this order; of any other kept function, its entry and its exit; of a function left out, none; as long as it has not returned it has made the first of them |

## Left out

- Circular buffers inside records and loggers: they are held as the flat ring that the class refines, since a buffer is moved and never shared; update in place is modelled in the class itself.
- RuntimeManager.StepKeepsInv: the manager is a step machine on values, because its calls interleave with the worker; the loops over loggers are one step for each logger, and application threads make no calls between Deinitialize and the destruction of the pool.
- EventLogger.EventLogger.Flush: what goes to the queue is an output and the queue's acceptance an input; the two are joined in the step machine of the runtime.
- DiskFlushQueue.DiskFlushQueue.DrainAndStop: a call that never returns has no contract: an off-count drain with too few records to notice (FlushStray.DrainEndsIff says which), and, without flush_all_events, a drain that ends only when the clock expires its records; callers do not act during the call, which FlushDrain.DrainEnds and FlushStray.StrayEnds allow.
- Run and DrainAndStop of the queue each read and write their flags in one step; in the code a second caller could come between the exchange of one flag and the access to the other.
- RuntimeManager.DeinitializeHangs: calls of the application that reach the queue while Deinitialize drains it are not modelled there; FlushDrain.StuckForever covers those that queue and clear nothing.
- FlushMisses.FlushMisses: whether a completion can overtake a record in hand is left open for one kind of state: without flush_all_events, during a drain, the record being about to go back to the queue, and expired or without attempts or an earlier Flush to save it. There it depends on the age, tags and order of the records queued with it. The same holds of FlushMisses.ClearMisses.
- RuntimeEvents.EventsOverRuns: a Clear of a logger drops its events and begins its history anew; without flush_all_events a buffer that wraps keeps the newest events, and the statement is that of a subsequence.
- EndToEnd.TraceIsLossless: that the buffers a thread's calls bring to the queue are those its logger hands over is a premise, since logger and queue are joined by the caller; so is that a compressor does not make a file of a header alone.
- The number of write attempts is unbounded below; the code's counter is 32 bits wide and underflows only from its least value.
- `OwnedPtr::operator=`, which overwrites a pointer without returning it: no modelled path uses it.
- Data races of application threads with Deinitialize, and the lifetime of loggers afterwards.
- Pointers returned twice or to the wrong pool by hand: owning pointers are linear in the model.
- File system, clocks, thread creation and hashing: their answers are inputs. Trace file names are not modelled.
- Snappy, regular expressions, demangling and the module hash: an arbitrary inverse pair, an arbitrary predicate, and arbitrary inputs.
- A strategy byte that names no compressor, a file that is only a header, whose end the code dereferences, and an event count whose 64-bit product meets an impossible size: the code's behaviour is undefined there, and the reader of the model answers `Undefined`.
- The declarations of runtime functions that the pass adds to a module, debug locations, and the fields of a symbol other than names, instruction count, decision and rule.
- Exceptions, tail calls that must not be followed by code, and terminators other than branches and returns: exits are logged only before returns.
- Equality operators, getters, the symbol and configuration files, the Perfetto and CSV converters, and command-line tools: they would add only easy members.
