# fastio: the executors behind positioned and batched file I/O

fastio reads and writes files at explicit offsets through several backends. This project
models the parts of it whose correctness depends on what the operating system does in
between: the io_uring submission loops, the check on write batches that lets an executor
reorder them, Tokio's waves of writer threads, the Windows calls that borrow the file
pointer, the emulated cursor of the io_uring file, and page-aligned memory maps. The main
results hold for every decision the kernel, the thread scheduler or the sort may take.

## How it is modelled

- `Splicing`, `Transfers`: a write replaces a range of the file and zero-fills a gap before
  it; a read fills cells of a buffer, and a cell knows whether it has been written. A
  `Transfer` is one contiguous read or write. `Progressed(w, jobs, done, k)` is the
  one-line specification everything is measured against: the first `done[i]` bytes of each
  job, in list order. `Performed` is the same with every job complete.
- `Scheduler`: the loop as a state machine on values, its invariant `Inv`, and one lemma for
  each step that keeps it.
- `Schedules`: whole runs. A run is a function of the turns the kernel takes, so "whatever
  the kernel does" is a quantifier over `seq<Turn>`; `Settles` is the promise of a call and
  `Produces` says that a call is the run which given turns determine.
- `Overflows`: transfers that run past the last 64-bit offset, and what they leave behind.
- `Leftovers`: cursor operations as a function of the kernel's turn, and runs of the loop on a
  ring that holds something when the call gets it, with the in-flight counter 32 bits wide
  and the submission queue possibly full. `CleanRuns` ties them to the runs above.
- `Rings`: the kernel as an adversary (`Ring`), the file, the buffers, and the thread's
  cached ring. Every decision of the kernel is left open by the contract of
  `SubmitAndWait`, so a caller proved against that contract is proved for all of them.
- `Batches`: the loop itself. `read_at_batch`, `submit_read_exact_at`,
  `submit_write_exact_at` and `submit_write_slices_at` repeat one loop text; it stands here
  once, over a list of jobs, with the same variables (`done`, `state`, `inFlight`,
  `pending`) and branches. `Chunks` derives the job list of a chunked transfer.
- `Uring`, `Settling`, `Cursors`, `Handles`: the io_uring file, its cursor, and scripts of
  operations on handles that share both. The two single-shot functions differ only in the
  opcode and share `SubmitOne`.
- `WriteSlices`, `Executors`, `Windows`, `Agreement`: batches of writes and every way of
  carrying them out. `Mmap`: mapped regions.

Assumptions about the environment, all of them visible as contracts in `Rings.dfy`,
`Executors.dfy` and `Windows.dfy`:

- There is no other writer. A completion with a positive result transferred exactly that
  many leading bytes of its request, ended within 64-bit offsets, and for a read lay
  inside the file; any other result transferred nothing.
- The kernel moves bytes while the program waits. What it does between two calls counts as
  done in the next wait.
- A wait, failed or not, may take any of the queued entries and answer any of those it has
  taken, in any order; a successful wait takes all. Nothing is lost. It may also deliver
  nothing, any number of times but not for ever (`patience`); this is all that termination
  rests on.
- A new ring has at least as many slots as asked for, and its completion queue at least as
  many as its submission queue. `SubmitAndWait` requires that the completion queue has room
  for an answer to everything held, so every call of it also shows that the queue cannot
  overflow.
- Every failed call of the system, and every transfer that stops at zero bytes, is on
  record (`Event` for the ring, `requests` for the making of rings, `faults` elsewhere), so
  that a contract can say which error a call returns and that Ok met none.
- A slice is at most `isize::MAX` bytes, on a 64-bit target.

## What came out

- Ok from a loop means exactly the sequential result. After an error the file still holds
  exactly a prefix of every job, and those prefixes are the bytes that completions
  reported. An error does not mean that bytes are missing
  (`Schedules.ErrorAlthoughEveryByteMoved`): a call that does not overflow returns Ok
  exactly when every byte has moved and no wait has failed.
- "The ring is quiescent when a loop returns" is false at the "offset overflow" exit, which
  returns without draining (`src/uring.rs:302-304`, `src/uring.rs:434-436`). With two bytes
  at offset `u64::MAX`, a chunk size of one and a depth of two
  (`Overflows.TwoBytesAtTheLastOffset`), an entry stays in the ring. For every transfer whose
  offset is a 64-bit number, the call leaves entries in the ring if and only if it returns
  that error. Before the call, let `m` be the first chunk that starts past the last offset:
  - some kernel makes the call leave entries if and only if there is a chunk `m`, the depth
    is at least two, and, for a read of which the ring cannot hold chunk `m` at once, the
    first `m - depth + 1` chunks lie inside the file (`SometimesStrands`). A write needs no such
    condition;
  - every kernel does if and only if chunk `m` is among the first `depth` (`AlwaysStrands`);
  - a kernel that moves nothing past `i64::MAX`, as Linux does not, can do so only in that
    last case.

  With a depth of one the exit is never taken. `read_at_batch` and `submit_write_slices_at`
  never take it.
- After that exit a read's buffer is given up while entries still point into it, at cells
  that nothing has filled yet (`Overflows.StrandedReadsStillWrite`).
- A cursor read or write leaves its entry in the cached ring if and only if the wait fails
  or ends without an answer (`src/uring.rs:380`, `src/uring.rs:507`). The kernel can make
  that happen if and only if the buffer is not empty.
- `with_ring` hands out whatever the cached ring still holds (`src/uring.rs:612-630`). "A
  returned call leaves the ring quiescent" is therefore false of a ring that was not:
  whatever the kernel does, a loop that returns leaves exactly as much in the ring as it
  found there, and the entries in flight if it gives up on an offset
  (`Leftovers.ReturnsWithWhatItFound`, for numbers that 32 bits can count). So a return that is not such an exit leaves the ring
  quiescent if and only if the call found it quiescent.
- On a ring that was not quiescent a completion that an earlier call left may be counted as
  progress of the next one. A read then returns Ok with cells of its buffer unwritten, and a
  write returns Ok with its bytes missing from the file. Both happen after a cursor operation
  whose wait fails and one late answer (`Leftovers.BufferUnwrittenAfterAFailedWait`,
  `Leftovers.WriteLostAfterAFailedWait`). So every other operation here requires a quiescent
  ring, and says exactly when it leaves one.
- `read_at_batch` says that its regions must not overlap (`src/uring.rs:137-139`). They
  may: every region has a buffer of its own, and the result is the same.
- `seek` reports a target above the 64-bit range as a negative position
  (`src/uring.rs:693-694`).

## Model

| member | source | states |
|---|---|---|
| Splicing.SpliceCommutes | src/uring.rs:520-610 | writes that share no byte commute, zero-filled gaps past the end included |
| Splicing.SpliceAppends | src/uring.rs:551-561 | resubmitting the rest of a write where it stopped equals one longer write |
| Splicing.SpliceByteByByte | src/sync/linux.rs:98-100 | a write byte by byte, with zeros in a gap before it and nothing cut off |
| Transfers.JobAdvances | src/uring.rs:479-486 | moving more bytes of any one job, whatever the others have done, is the same as having carried that job further in list order |
| Transfers.ProgressedByteByByte | src/uring.rs:452-487 | a partly written batch, byte by byte: prefixes where they cover, the old byte or zero elsewhere, and where the file ends |
| Scheduler.InvStarts | src/uring.rs:532-534 | the freshly initialised variables satisfy the loop invariant |
| Scheduler.InvSkips | src/uring.rs:545-550 | marking a job without remaining bytes done keeps the invariant |
| Scheduler.InvSubmits | src/uring.rs:551-570 | submitting the rest of an idle job, with room, no error and a 64-bit offset, keeps it |
| Scheduler.InvDelivers | src/uring.rs:580-584 | answers to any entries, in any order, with any legal results, keep it |
| Scheduler.InvWaitFails | src/uring.rs:580-582 | a failed wait is recorded unless an error already is, and keeps it |
| Scheduler.CompletionAdvancesJob | src/uring.rs:585-604 | the bytes a completion moved are exactly those its job's counter will claim |
| Scheduler.InvReaps | src/uring.rs:585-604 | processing a completion is never out of range, keeps the invariant, never lowers the byte count and raises it unless an error is on record |
| Scheduler.InFlightEntries | src/uring.rs:159-235 | in_flight is the number of jobs in flight and of unanswered entries, at most the depth; one entry per user data, asking for the bytes right after those done; no two entries touch the same byte |
| Scheduler.NothingInFlightMeansComplete | src/uring.rs:573-578 | with nothing in flight and no job idle, every job is complete and the world is the sequential result |
| Schedules.EveryRunSettles | src/uring.rs:536-608 | whatever turns the kernel takes, the finished run keeps the promise: exact prefixes equal to the reported bytes, first error returned, no submission after it, submissions at most bytes moved plus depth, queue never full; and nothing is left in the ring unless an offset overflowed |
| Schedules.EveryRunIsConsistent | src/uring.rs:536-608 | safety over whole runs: the invariant holds after any sequence of turns of the kernel, and after the pass that follows |
| Schedules.OkExactlyWhenCompleteAndNoWaitFailed | src/uring.rs:573-608 | a call that does not overflow returns Ok if and only if every byte has moved and no wait has failed |
| Schedules.ErrorAlthoughEveryByteMoved | src/uring.rs:327-329 | a concrete run that returns an error with every byte moved |
| Overflows.FirstPassStrands | src/uring.rs:413-450 | the first pass stops at an overflow exactly when a job among the first `depth` starts past the last offset, with all earlier jobs' entries pushed |
| Overflows.OverflowStrands | src/uring.rs:434-436 | a run over consecutive chunks that gives up does so at the first chunk past the end, with the one before it in flight, so it leaves entries in the ring and the depth is at least two |
| Overflows.StrandsExactly | src/uring.rs:413-450 | some turns of the kernel leave entries in the ring if and only if the jobs that do not fit beside the first one past the end can be completed |
| Overflows.ReachOverflow | src/uring.rs:413-488 | from any error-free point of a run the kernel can bring such a call to the overflow exit |
| Overflows.ChunkedTransferStrandsExactly | src/uring.rs:404-436 | the two conditions on offset, length, chunk size, depth and file length: when some kernel leaves entries in the ring, and when every kernel does |
| Overflows.SignedKernelsStrandExactly | src/uring.rs:302-304 | a kernel that moves nothing past the last signed offset leaves entries exactly where every kernel does |
| Overflows.TwoBytesAtTheLastOffset | src/uring.rs:434-436 | a concrete call that leaves an entry in the ring |
| Overflows.ThreeBytesBeforeTheLastOffset | src/uring.rs:434-436 | a concrete call for which it depends on the kernel |
| Overflows.StrandedReadsStillWrite | src/uring.rs:302-304 | every entry that a chunked read leaves in the ring points at cells of its buffer which are as they were before the call, and any answer that reports bytes writes them there |
| Leftovers.ReturnsWithWhatItFound | src/uring.rs:612-630 | on any ring and under any kernel a loop that returns leaves as much in the ring as it found, and its entries in flight if it gives up on an offset; otherwise the ring is left quiescent if and only if it was found quiescent |
| Leftovers.CleanRuns | src/uring.rs:258-360 | every run of the loop on a quiescent ring is one of the runs on any ring: the queue does not fill up and the counter does not wrap |
| Leftovers.StaleResultIsCounted | src/uring.rs:331-356 | a call with one job counts any positive result left by an earlier call as its own bytes: it returns Ok with its own entry unanswered if they are enough, and otherwise asks only for the bytes after them |
| Leftovers.StaleResultLosesAWrite | src/uring.rs:463-486 | such a write returns Ok with its byte missing from the file |
| Leftovers.StaleResultLeavesACellUnwritten | src/uring.rs:331-356 | such a read returns Ok with a cell of its buffer unwritten |
| Leftovers.WriteLostAfterAFailedWait | src/uring.rs:494-518 | a concrete cursor write whose wait fails, a late answer, and an Ok for a write that is not in the file |
| Leftovers.BufferUnwrittenAfterAFailedWait | src/uring.rs:362-391 | a concrete cursor read whose wait fails, a late answer, and an Ok for a buffer that is not written |
| Leftovers.LoneCallLeavesWhatItFound | src/uring.rs:362-391 | on any ring a cursor operation leaves as much as it found, and one entry more if and only if the wait fails or brings no answer |
| Leftovers.LoneCallCanLeaveItsEntry | src/uring.rs:362-391 | the kernel can make a cursor operation leave its entry if and only if the buffer is not empty |
| Leftovers.LoneCallMoves | src/uring.rs:494-518 | a cursor operation on a quiescent ring moves the bytes it reports, and none if it reports an error of the transfer |
| Rings.Ring.Push | src/uring.rs:192-198 | a push fails exactly when the submission queue is full |
| Rings.Ring.SubmitAndWait | src/uring.rs:580-582 | what any wait may do: take, answer and transfer in any order, lose nothing |
| Rings.Ring.Completion | src/uring.rs:584 | collects everything that has arrived, in order |
| Rings.RingCache.WithRing | src/uring.rs:612-630 | the ring handed out has the depth asked for, and is the cached one with all it holds if that is large enough; a failed creation leaves the cached ring; capacity never shrinks |
| Rings.RequestRings | src/uring.rs:612-630 | over any run of requests with varying depths the capacity never shrinks, the ring handed out is large enough, a depth once granted is granted from then on, and a refusal changes nothing |
| Batches.Batch.Submit | src/uring.rs:551-570 | the push of an idle job's rest always finds a slot |
| Batches.Batch.Visit | src/uring.rs:537-571 | one job of a pass: skipped, marked, submitted or given up on, as the pass specification says; the queue-full branch is not reached |
| Batches.Batch.SubmitIdle | src/uring.rs:537-571 | a whole pass does exactly what the pass specification says, at the variables, the ring and the log |
| Batches.Batch.Wait | src/uring.rs:580-584 | waiting and collecting is a turn the kernel may take; a failure is recorded unless an error already is |
| Batches.Batch.Reap | src/uring.rs:585-604 | one completion keeps the invariant, and counts bytes or records an error |
| Batches.Batch.Settle | src/uring.rs:580-605 | a round of waiting and processing is one turn of the run; it uses up patience, or leaves fewer entries in flight and, without an error, more bytes moved |
| Batches.Batch.Drive | src/uring.rs:536-608 | the loop terminates, and is the run that the kernel's turns determine, from the first pass to what it leaves in the ring; it settles; the ring is quiescent unless an offset overflowed |
| Chunks.ChunksPartition | src/uring.rs:269-296 | chunks are nonempty, in order, adjacent, cover the whole, and their bounds do not overflow |
| Chunks.ChunkedIsSound | src/uring.rs:404-440 | the chunks of one transfer may be carried out in any order |
| Chunks.AllChunksAreTheWhole | src/uring.rs:404-440 | carrying out all chunks carries out the transfer |
| Chunks.ChunksByLimit | src/uring.rs:404-422 | as many chunks of the file's chunk size as it takes, with their bounds |
| Overflows.FirstPassOfChunks | src/uring.rs:434-436 | exactly when the first pass of a chunked transfer overflows |
| Settling.BatchIsInitialised | src/buffer.rs:55-77 | after a batch read that returned Ok every cell of every buffer has been written, with its region's bytes |
| Settling.LastByteWasRead | src/uring.rs:341-356 | a complete chunked read lies inside the file |
| Uring.File.Open | src/uring.rs:778-803 | which options are refused, with which error; a file that is handed out has those options and a cursor at zero; a failure of the system is on record |
| Uring.File.TryClone | src/uring.rs:84-91 | a clone shares the file and the cursor and keeps the depth and the chunk size |
| Uring.File.SubmitWriteExactAt | src/uring.rs:393-492 | Ok: the data spliced in at the offset and nothing else changed; otherwise prefixes of chunks and the first failure at the ring; the transfer is cut by the file's chunk size, and every entry pushed asks for the rest of its chunk; the ring keeps entries if and only if the error is the offset overflow, which takes the stated relation of offset, length, chunk size and depth; no ring only if one was asked for and refused |
| Uring.File.SubmitReadExactAt | src/uring.rs:258-360 | Ok: the buffer is fully written with the file's bytes; the file and other buffers are unchanged; the same about the cut, the error and the ring |
| Uring.File.ReadAt | src/uring.rs:131-133 | Ok: the bytes of the range, from a buffer without unwritten cells; the same about the cut, the error and the ring |
| Uring.File.StrandsExactly | src/uring.rs:404-436 | the relations of offset, length, chunk size, depth and file length in those contracts are exact over all kernels |
| Uring.File.ReadAtBatch | src/uring.rs:140-239 | Ok: region by region the bytes of the file, overlapping and empty regions included; an error is the first failure at the ring; the ring is always left quiescent |
| Uring.File.SubmitWriteSlicesAt | src/uring.rs:520-610 | Ok: the slices applied in list order; an error is the first failure at the ring; the overflow exit is not reached; the ring is always left quiescent |
| Uring.File.SubmitOne | src/uring.rs:494-518 | exactly one entry is submitted and its one answer returned, a count as Ok and a negative number as that OS error; the bytes moved are those reported; the ring keeps the entry if and only if the wait fails or brings no answer |
| Uring.File.Read | src/uring.rs:633-646 | one submission at the old cursor, whose answer is the result; returns the bytes between the old and the new cursor; an error leaves the cursor, and an OS error the buffers |
| Uring.File.Write | src/uring.rs:648-663 | one submission at the old cursor, whose answer is the result, except that no bytes is an error; places the bytes there and moves past them; an error leaves the cursor |
| Uring.File.Seek | src/uring.rs:671-698 | the exact integer sum when it is a 64-bit offset, else an error and no move |
| Handles.ReadOnce | src/uring.rs:633-646 | one read of a script: one request for a ring, one submission at the shared position, and the bytes it answered |
| Handles.RunReads | src/uring.rs:633-646 | any script of cursor reads on handles that share a cursor, with positioned reads between: the bytes returned are one contiguous range that ends at the cursor |
| Handles.RunWrites | src/uring.rs:648-663 | any script of cursor writes on such handles is one write of everything counted at the first position; only an operation that leaves its entry in the ring may place more |
| WriteSlices.New | src/write.rs:36-49 | accepts if and only if no nonempty slice overflows and no two slices share a byte; overflow is reported first |
| WriteSlices.NeighboursClear | src/write.rs:43-47 | comparing neighbours of the sorted ranges finds every overlap |
| WriteSlices.AcceptedIgnoresOrder | src/write.rs:36-49 | acceptance does not depend on the order of the slices |
| WriteSlices.OrderDoesNotMatter | src/write.rs:36-49 | an accepted batch leaves the same file in every order |
| WriteSlices.SlicesHoldTheirBytes | src/sync/linux.rs:102-107 | an accepted batch leaves each slice's own bytes at its offset |
| WriteSlices.OtherBytesAreKept | src/sync/linux.rs:102-107 | every other byte is the old one, or zero past the old end; and where the file ends |
| Executors.WriteSlicesInOrder | src/sync/linux.rs:102-107 | Ok: the slices in list order, no fault met; an error: a fault that was met, all before the failed slice, a prefix of it, none after |
| Executors.RunWave | src/tokio/mod.rs:157-172 | one wave of threads, any interleaving of short writes: prefixes of the wave's slices and nothing else; the error is that of the first thread in list order that failed |
| Executors.JoinInOrder | src/tokio/mod.rs:165-169 | the error of the first failed thread in list order |
| Executors.WriteSlicesInWaves | src/tokio/mod.rs:141-177 | Ok: the slices in list order, for every worker count, no fault met; an error: that of the first failed thread of the first failed wave, which starts at a multiple of the parallelism and has that many threads or fewer; earlier waves complete, later slices not begun |
| Agreement.WriteEverywhere | src/write.rs:36-49 | all four executors that return Ok leave the same file, which any reordering of the batch describes; one that does not has a failure on record |
| Windows.File.SeekReadExact | src/sync/windows.rs:134-150 | Ok exactly when the buffer is full; otherwise the first fault, with exactly a prefix filled; an overflow exactly when it stops at an offset past the end |
| Windows.File.SeekWriteExact | src/sync/windows.rs:152-168 | Ok exactly when all is written; otherwise the first fault, with exactly a prefix written; an overflow exactly when it stops at an offset past the end |
| Windows.File.ReadExactAt | src/sync/windows.rs:102-111 | a failed transfer, by a fault or an overflow, is the result even if the restore fails; the pointer is put back unless a failed restore is on record, right after the transfer's own fault if it met one |
| Windows.File.WriteAllAt | src/sync/windows.rs:123-132 | the same for writes, with exactly a prefix written on failure |
| Windows.File.WriteSlicesAt | src/sync/windows.rs:170-175 | Ok: the slices in list order and the pointer restored; an error stops at one slice, with the pointer where it was unless that slice's restore failed |
| Mmap.RangeIsSubregionOfWhole | src/mmap.rs:118-180 | a range maps exactly when it is nonempty and inside the file, through a page-aligned window inside the file, to the same bytes as a subregion of the whole map |
| Mmap.RangeErrors | src/mmap.rs:135-175 | which error a range is refused with, a page size of zero included |
| Mmap.WholeFile | src/mmap.rs:118-132 | a whole file is mapped unless it is empty |
| Mmap.SubregionIsSlice | src/mmap.rs:32-45 | a subregion exists exactly when it fits, and is that slice |
| Mmap.SubregionsCompose | src/mmap.rs:32-39 | nested subregions add up their offsets and stay inside |

## Left out

- After a return that leaves entries in the ring the kernel may go on moving bytes; the contracts describe the moment of return. Calls on a ring that is not quiescent are described by the runs of `Leftovers`, not by the contracts of methods.
- On such a ring a completion whose user data is no index into the jobs, or a counter that underflows, stops code built with overflow checks; runs that stop so do not return and are not described further.
- Linux reads an entry's offset of all ones as "at the file's own position"; here it is an offset like any other, at which nothing can be moved.
- Raw pointers, file descriptors and lifetimes are buffer indices; `as_mut_slice` never fails for the pooled buffers the loops use, so that error path is not modelled.
- The progress vectors of a loop are sequences that its methods reassign, not arrays; they are local to one call and never shared.
- The kernel's and the standard library's own code (`pwrite` loops, the sort, `IoUring`) appears only as contracts with an arbitrary implementation.
- Poisoned cursor locks, worker panics, join errors of `spawn_blocking` and error message texts.
- Preservation of the file pointer on Windows under concurrent calls, which the code documents as not atomic.
- Failures of the mapping system call itself.
- Opening, metadata, permissions, sync, `set_len`, `read_all`, `Bytes` conversions, the buffer pool and macOS, which add only easy members.
