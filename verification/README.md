# RAID5 over SPDK in Dafny

A model of the RAID5 block device of this repository and of the part of the runtime it
stands on, with proofs. Paths and line numbers refer to the repository's files.

A RAID5 bdev spreads a flat array of blocks over `ndisks >= 3` child disks. Rows of strips
form stripes; the parity strip rotates from stripe to stripe. Requests to a stripe go to one
worker thread, which keeps a queue per stripe and drains it with one task per stripe. A read
submits one child read per strip segment; if one fails, its data is rebuilt from the other
disks. A partial write reads old data and old parity, computes the new parity and writes; a
whole-stripe write only writes. Every driver task awaits its child I/Os one by one on a small
single-threaded executor with reference-counted wakers.

## Files

| file | content |
|---|---|
| `XorAlgebra.dfy`, `Geometry.dfy`, `Strips.dfy` | exclusive-or, the address map, splitting a request |
| `ScatterGather.dfy` | iovec slicing, the zero-copy splitter, byte loops over scattered memory |
| `Parity.dfy` | what a stripe should hold; whole-stripe parity, read-modify-write, reconstruction |
| `Raid5Buffers.dfy` | the driver's loops on arrays and iovecs, shown to compute those functions |
| `StripeQueue.dfy` | the per-stripe queues of a worker's I/O channel |
| `Raid5Machine.dfy` | the whole engine as a state machine: messages, tasks, child I/Os, disks, a dying disk |
| `Raid5Shape.dfy`, `Raid5Order.dfy` | what holds for any pattern of child failures: no panic, one drainer, nothing lost |
| `Raid5Data.dfy`, `Raid5Refinement.dfy` | what the data of a stripe means while at most one disk is dead and reads may fail |
| `Raid5Faults.dfy`, `Raid5Witness.dfy` | what failed child I/O does to the answers; a run in which one data disk's write fails |
| `Raid5Reports.dfy` | answers in terms of what child disks reported and when disks died, read off the actions of a run; that the machine rules nothing out |
| `LogicalArray.dfy`, `Raid5Theorems.dfy`, `Raid5Progress.dfy` | the array as read, the main theorems, termination |
| `Executor.dfy`, `BatchAwait.dfy`, `TcbCache.dfy` | tasks and wakers, awaiting a batch of I/Os, finding the current control block |

## How to read the model

A step of `Raid5Machine` is the submission of a request, the delivery of a message, the first
poll of a task, one uninterrupted stretch of driver code between two awaits, the effect of one
child I/O on its disk at any time between submission and completion, or the death of a disk.
Runs interleave the steps of any number of requests, workers and disks in any order. A child
write carries the bytes it had when it was submitted. A failed child I/O may leave anything in
the range it was to write.

Three kinds of result follow. Order, exactly-once completion, absence of panics, progress, and
which answer a request gets for how many lost child reads and failed child writes
(`Raid5Reports.AnswerByReports`) are proved for every pattern of child failures.

The results on data are proved stripe by stripe (`Raid5Theorems.BenignRun`), and ask nothing of
other stripes. At most one disk dies, at any moment, also in the middle of a write. Child writes
of the stripe fail exactly if their disk is dead; child reads fail if it is, and may also fail,
any number of them, on living disks. The disks may hold anything to begin with: the flat array is
what reads find there, and a stripe's parity may be off by any `skew`, which partial writes keep.
A whole-stripe write removes it, and so does a partial one that loses the parity read, since
rebuilt parity is right in any case (`Raid5Data.RebuiltParityData`). Before a data disk of the
stripe dies, or fails to read while it lives, the parity must be consistent, as it always is if
it was so to begin with (`Raid5Theorems.ConsistentFromStart`): a byte rebuilt from a row with a
skew would be wrong (`LogicalArray.RebuiltByteIff`). The disk that holds the stripe's parity may
be lost in any condition. A request that loses two child reads before it has written
anything gives up: a read then fails, and a write has no effect at all.

Where only a dead disk fails to read (`Raid5Faults.SparedRun`), nothing is ever given up: reads
succeed and writes take effect (`Raid5Theorems.LinearizableIfSpared`).

Lengths in the machine count bytes, so a request may start and end anywhere; the driver's block
requests are those whose offsets and lengths are multiples of the block length
(`Geometry.ScaledGeo`, `Geometry.ScaledLocate` and `Strips.SplitScales` show that the address
arithmetic and the splitting agree in blocks and in bytes). `began`, `lost` and `wrote` in a
completion, and `polled`, `done` and `woken` in a task of the executor, are history: no step
depends on them, and they are what the actions of the run say (`Raid5Reports.AnswerByReports`,
`Raid5Reports.WritesAfterDeath`, `Executor.HistoryStep`).

The guards of the machines' steps exclude nothing that may happen: see
`Raid5Reports.AnythingMayHappen`, `Raid5Reports.AnyoneMayGoOn`, `Raid5Reports.TasksGoOnWhen`,
`Raid5Reports.AnyStart`, `Executor.AnythingMayHappen` and `BatchAwait.AnyMayReport`.

`Advance` lets a task go on when all I/Os of its batch are done. That the executor brings this
about, with the right statuses, is what `BatchAwait` shows.

Where code and comment differ, the code is modelled: the comment above `complete_write`
(examples/raid5/src/raid5.rs:700-705) announces Success for one failed data disk, the code gives
Failure for every failed write (`Raid5Reports.AnswerByReports`, with a run in
`Raid5Witness.OneDataDiskFails`); `LbdevIoCtx` is documented as
reusable (ironspdk/src/lib.rs:2324-2325), but its flag is never cleared, so it serves one I/O
here as it does in the driver; a slice of length 0 is one empty iovec, or an error at the very
end (`ScatterGather.SliceIovs`).

The executor keeps a task from being queued twice, and a finished future from being polled
again, only under conditions: a task woken inside its own poll goes back to the queue as Idle,
so that one more wake queues it twice (`Executor.SelfWakeThenWake`). The conditions are exact.
Tasks are queued once as long as no wake hits an Idle task that is queued
(`Executor.QueuedOnceIff`). No finished task is in the queue as long as no future finishes while
its own task is queued (`Executor.FinishedUnqueuedIff`); a finished task in the queue can be
polled by the executor simply going on (`Executor.QueuedIsPolled`). `Executor.QueueDiscipline`
has the stronger guarantees when no task is woken inside its own poll. Completions of child disks
arrive outside the poll of the task that waits for them. No wakeup is lost in any case.

The control block a thread finds is the registered one as long as the thread runs. For a thread
that has shut down it is so exactly unless the shutdown happened while the reactor remembered
what it still remembers of the thread (`TcbCache.AnswerRightIff`, with a run in
`TcbCache.StaleAfterShutdown`).

## Model

| member | source | states |
|---|---|---|
| Geometry.ParityRotates | examples/raid5/src/raid5.rs:233-235 | parity starts on disk 0 and moves to the next disk in turn with each stripe |
| Geometry.ParityOncePerRound | examples/raid5/src/raid5.rs:233-235 | of any ndisks consecutive stripes each disk holds the parity of exactly one |
| Geometry.OwnersInTurn | examples/raid5/src/raid5.rs:229-231 | consecutive stripes go to consecutive workers in turn |
| Geometry.DataDisksInOrder | examples/raid5/src/raid5.rs:760-766 | data strips lie on the disks other than the parity disk in increasing order, which leaves one way to place them |
| Geometry.NothingMoreFits | examples/raid5/src/raid5.rs:876-880 | less than a strip of each child and less than a stripe of the array is left unused |
| Geometry.LocateInverse | examples/raid5/src/raid5.rs:225-239 | every block of the array lies on a data disk of its row, inside the usable child, and the address can be recovered from there |
| Geometry.UnlocateInverse | examples/raid5/src/raid5.rs:760-766 | every (disk, row) that is not parity is the place of exactly one block of the array |
| Geometry.CapacityIsStripes | examples/raid5/src/raid5.rs:876-880 | the reported size is a whole number of stripes, the usable child a whole number of strips |
| Geometry.StripeInside | examples/raid5/src/raid5.rs:876-891 | all blocks and all rows of a stripe, parity included, lie within array and child |
| Geometry.StripesDisjoint | examples/raid5/src/raid5.rs:258-259 | different stripes use different rows on every disk |
| Strips.SplitBounds | examples/raid5/src/raid5.rs:47-76 | segments of a request in one stripe are on different non-parity disks, at most ndisks-1, each inside a strip, and make up the request in order |
| Strips.SplitFollowsMap | examples/raid5/src/raid5.rs:57-66 | segment addresses equal the block-by-block address map |
| Strips.SplitScales | examples/raid5/src/raid5.rs:57-66 | splitting in blocks and in bytes agree |
| Geometry.ScaledGeo | examples/raid5/src/raid5.rs:225-239 | counting in blocks or in bytes gives the same stripes, parity disks and workers, and base, size and stripe length in proportion |
| Geometry.ScaledLocate | examples/raid5/src/raid5.rs:225-239 | byte i of block a is in the block's stripe, at byte i of the block's place on the block's disk |
| Raid5Buffers.SplitViews | examples/raid5/src/raid5.rs:47-76 | the loop terminates, never runs short of request memory, yields exactly those segments, and each view is the segment's part of the request's memory |
| Raid5Buffers.ViewHoldsPiece | examples/raid5/src/raid5.rs:60-71 | a view's bytes are the segment's piece of the request's bytes |
| Raid5Buffers.RequestFromViews | examples/raid5/src/raid5.rs:278-283 | once every view holds its part, in whatever order they were filled, the request's memory is the parts put together |
| ScatterGather.SliceIovs | ironspdk/src/lib.rs:596-619 | yields exactly addresses [offset, offset+len) of the flattened input, or fails just when out of range, for any iovecs, also empty ones |
| ScatterGather.IoRefSplitter.constructor | ironspdk/src/lib.rs:621-632 | a new splitter stands at the start of its parent |
| ScatterGather.IoRefSplitter.Take | ironspdk/src/lib.rs:652-669 | hands out the next piece and advances, or fails and leaves the cursor |
| ScatterGather.PiecesAreConsecutive | ironspdk/src/lib.rs:652-669 | over any series of takes the pieces are consecutive and disjoint, together a prefix of the parent |
| ScatterGather.GatherSlice | ironspdk/src/lib.rs:596-619 | a slice of the iovecs is a slice of the bytes |
| ScatterGather.Xor | examples/raid5/src/raid5.rs:749-758 | exclusive-or from any segmentation equals the flat operation and touches nothing else |
| ScatterGather.ToBuf | ironspdk/src/lib.rs:440-457 | the new buffer holds the scattered bytes in order |
| ScatterGather.CopyFromSlice | ironspdk/src/lib.rs:469-486 | memory becomes the data scattered over the segments |
| ScatterGather.GatherScatter | ironspdk/src/lib.rs:469-486 | to_buf after copy_from_slice(d) gives d, for disjoint segments |
| ScatterGather.ScatterGatherSame | ironspdk/src/lib.rs:469-486 | copy_from_slice of to_buf changes nothing |
| ScatterGather.ScatterOutside | ironspdk/src/lib.rs:469-486 | bytes outside the segments are never changed |
| Parity.AnyStripFromOthers | examples/raid5/src/raid5.rs:579-622 | a stripe with its parity cancels out, and any strip is the exclusive-or of the others |
| Parity.WriteInSegment | examples/raid5/src/raid5.rs:545-549 | on a segment's disk a write overwrites just that segment |
| Parity.RmwKeepsRows | examples/raid5/src/raid5.rs:519-530 | the parity loop leaves every row's exclusive-or as it was, for any layout of segments and any old parity |
| Parity.RmwRightIff | examples/raid5/src/raid5.rs:519-530 | the new parity is that of the new data exactly when the loop started from that of the old data |
| Parity.RmwCorrect | examples/raid5/src/raid5.rs:519-530 | for a planned write the new parity is off from that of the whole new stripe as the old one was from the old stripe's: equal to it on a consistent stripe |
| Parity.FullParityCorrect | examples/raid5/src/raid5.rs:637-651 | a whole-stripe write's parity is that of its data, whatever was there before |
| Parity.ReconstructCorrect | examples/raid5/src/raid5.rs:579-622 | the same range of all other disks gives the skipped disk's range |
| Parity.ReadCorrect | examples/raid5/src/raid5.rs:257-283 | the segments of a read, put together, are the range asked for |
| Raid5Buffers.RmwParity | examples/raid5/src/raid5.rs:519-530 | the loop over buffers and views computes Rmw |
| Raid5Buffers.FullParity | examples/raid5/src/raid5.rs:647-651 | the loop over views computes the exclusive-or of the strips |
| Raid5Buffers.XorOf | examples/raid5/src/raid5.rs:616-620 | the loop over buffers computes their exclusive-or |
| Raid5Buffers.Reconstruct | examples/raid5/src/raid5.rs:610-621 | gives nothing exactly if a read failed, else what XorOf computes |
| Raid5Buffers.FailedSegments | examples/raid5/src/raid5.rs:285-290 | collects exactly the positions of the failed reads, in order |
| Raid5Buffers.CountFailures | examples/raid5/src/raid5.rs:418-425 | counts the failures and names the disk of the last |
| Raid5Buffers.WriteStatus | examples/raid5/src/raid5.rs:706-746 | Success exactly without a failure |
| StripeQueues.Raid5IoChannel.constructor | examples/raid5/src/raid5.rs:161-165 | a new channel tracks no stripe |
| StripeQueues.Raid5IoChannel.Enqueue | examples/raid5/src/raid5.rs:85-92 | appends to the stripe's queue, marks it drained, says whether it was already |
| StripeQueues.Raid5IoChannel.Dequeue | examples/raid5/src/raid5.rs:94-104 | takes the oldest request, or removes the empty queue |
| Raid5Machine.InOneStripeIff | examples/raid5/src/raid5.rs:241-248 | the driver's test refuses exactly the requests whose bytes are not all in one stripe |
| Raid5Shape.BeginOk | examples/raid5/src/raid5.rs:241-255 | starting any request never panics and plans child I/Os inside its stripe only |
| Raid5Shape.ResumeOk | examples/raid5/src/raid5.rs:352-577 | going on never panics and keeps the plan well-formed, whatever failed |
| Raid5Shape.RmwFailedDisk | examples/raid5/src/raid5.rs:479-482 | the search for the failed segment finds the buffer whose read failed |
| Raid5Order.InitialInv | examples/raid5/src/raid5.rs:127-138 | the invariant holds when the channels are being set up: until a worker has its channel, the message that makes it comes first |
| Raid5Order.StepInv | examples/raid5/src/raid5.rs:168-188 | every step keeps the invariant (one drainer per stripe, queues on the owner only, valid plans, requests conserved in order, no panic), whatever fails |
| Raid5Theorems.OneDrainerPerStripe | examples/raid5/src/raid5.rs:168-188 | in every reachable state a queue entry exists, on the owner only, exactly while the stripe has a drainer; never two; pending requests have one; no panic |
| Raid5Theorems.NothingLost | examples/raid5/src/raid5.rs:168-188 | the submitted requests of a stripe are, in submission order, completed, in hand, queued, on their way: through message ring, run queue and stripe queue |
| Raid5Theorems.CompletedInOrder | examples/raid5/src/raid5.rs:183-186 | each completion is that of the first request of its stripe not completed before |
| Raid5Theorems.CompletedOnce | examples/raid5/src/raid5.rs:241-255 | no request is completed twice |
| Raid5Theorems.OnlyWritersWrite | examples/raid5/src/raid5.rs:532-577 | disks change only through the writes of a request in its last phase, and only rows of its stripe, whatever fails |
| Raid5Theorems.EarlyStopChangesNothing | examples/raid5/src/raid5.rs:427-517 | a request that ends before its write phase, for whatever reason, has changed no byte of its stripe |
| Raid5Theorems.NeverStuck | examples/raid5/src/raid5.rs:168-188 | while anything is under way some step is possible: no deadlock |
| Raid5Progress.RunsEnd | examples/raid5/src/raid5.rs:241-255 | a run with k requests has at most Bound(k) steps, whatever fails |
| Raid5Progress.RunsToQuiet | examples/raid5/src/raid5.rs:168-188 | every run, whatever has failed in it, can be continued, without new requests, until all is completed |
| Raid5Data.BeginData | examples/raid5/src/raid5.rs:241-255 | a request taken from matching rows is on course or rightly answered |
| Raid5Data.ReadWaitData | examples/raid5/src/raid5.rs:257-350 | a read without a failure delivers the stripe's bytes, one that lost a segment, on whatever disk, goes on to rebuild it, one that lost more fails |
| Raid5Data.ReadRepairData | examples/raid5/src/raid5.rs:295-321 | the rebuilt read succeeds with the stripe's bytes, unless a read for rebuilding failed |
| Raid5Data.RmwReadData | examples/raid5/src/raid5.rs:380-455 | phase 1 ends with the right old buffers, with the one to rebuild if one read failed, on whatever disk, or with nothing changed |
| Raid5Data.RmwRepairData | examples/raid5/src/raid5.rs:439-517 | the rebuilt old data or parity is right, so phase 3 starts properly, unless a read for rebuilding failed |
| Raid5Data.RebuiltParityData | examples/raid5/src/raid5.rs:442-456 | after a failed parity read, phase 3 writes the parity of the new stripe even if the parity on disk was wrong |
| Raid5Data.BeginWritesData | examples/raid5/src/raid5.rs:519-568 | from right old buffers the planned writes lead to the new stripe with its parity |
| Raid5Data.BeginFullData | examples/raid5/src/raid5.rs:624-676 | so do the writes of a whole stripe, without reading, and the parity they leave is consistent |
| Raid5Data.WriteWaitData | examples/raid5/src/raid5.rs:558-577 | when all writes are done the living disks hold the new stripe and the status is right |
| Raid5Data.WriteEffectData | examples/raid5/src/raid5.rs:545-556 | each single write, in any order, keeps a write on course |
| Raid5Data.DieData | examples/raid5/src/raid5.rs:292-340 | a disk may die at any point of any request, if the stripe's parity is consistent or on that disk |
| Raid5Refinement.ApplyStripe | examples/raid5/src/raid5.rs:225-239 | on the flat array a request changes its own stripe only, as computed stripe by stripe |
| Raid5Refinement.StepData | examples/raid5/src/raid5.rs:241-255 | every step, with at most one disk dead and reads failing anywhere, keeps a stripe and all answers given for it right, whatever becomes of other stripes |
| LogicalArray.CancelByStripe | examples/raid5/src/raid5.rs:579-622 | parity is consistent row by row exactly when each stripe cancels out |
| LogicalArray.FoundMatches | examples/raid5/src/raid5.rs:257-283 | any disks hold exactly the strips, and the parity with its skew, of the stripe read from them |
| LogicalArray.MatchesLogical | examples/raid5/src/raid5.rs:292-340 | disks matching a stripe read as its bytes, with a dead disk rebuilt from the others |
| LogicalArray.RebuiltByteIff | examples/raid5/src/raid5.rs:579-622 | a byte rebuilt for a lost data disk is right exactly if the parity of its row was consistent |
| Raid5Theorems.ConsistentFromStart | examples/raid5/src/raid5.rs:579-622 | a stripe that starts with consistent parity can rely on it after any requests |
| Raid5Faults.AnswerPolicy | examples/raid5/src/raid5.rs:285-746 | over every run and pattern of failures, for requests whose bytes lie in one stripe: a read fails exactly if it lost two child reads, a write stops before writing exactly then, and once writing fails exactly if a child write failed |
| Raid5Reports.AnswerByReports | examples/raid5/src/raid5.rs:285-746 | the same counted over the actions of the run: which answer a request gets is a function of its kind, whether it is in one stripe, and how many of its child reads and writes were reported as failed |
| Raid5Reports.TouchesByMap | examples/raid5/src/raid5.rs:519-568 | the disks a write has to update are those holding its bytes by the address map, and the one holding its stripe's parity |
| Raid5Reports.WritesAfterDeath | examples/raid5/src/raid5.rs:715-745 | a write submitted after a disk died, not given up, fails exactly if it has to update that disk; one completed while all live, never |
| Raid5Reports.AnythingMayHappen | examples/raid5/src/raid5.rs:168-188 | in every state any request inside the array may come, any pending child I/O may report either way, any disk may die |
| Raid5Reports.AnyoneMayGoOn | examples/raid5/src/raid5.rs:168-188 | any message may be the next to be delivered or polled, any drainer may go on |
| Raid5Reports.TasksGoOnWhen | examples/raid5/src/raid5.rs:579-622 | a request goes on exactly when its child I/Os have all reported, or, rebuilding, at its first failed read |
| Raid5Reports.AnyStart | examples/raid5/src/raid5.rs:127-138 | the array may start on any disks |
| Raid5Reports.FailedWriteLeaves | examples/raid5/src/raid5.rs:545-556 | a failed child write may leave anything in its range |
| Raid5Faults.NoneGivenUp | examples/raid5/src/raid5.rs:427-517 | where only a dead disk fails to read, no request loses two reads: all reads succeed and all writes get to writing, also when the disk dies meanwhile |
| Raid5Theorems.Linearizable | examples/raid5/src/raid5.rs:168-188 | request k is answered as by a flat array that took requests 0..k-1 in order but for writes given up: reads that succeed bring its contents, in any interleaving, degraded or not, with reads failing on any disk |
| Raid5Theorems.LinearizableIfSpared | examples/raid5/src/raid5.rs:168-188 | where only a dead disk fails to read, nothing is given up: reads succeed with what requests 0..k-1 left |
| Raid5Theorems.StripeAsFlat | examples/raid5/src/raid5.rs:352-577 | at every moment a stripe not being written reads as the flat array after the completed requests not given up; while all disks live the exclusive-or of its rows is as in the beginning, or nothing since a write that covered the stripe or rebuilt its parity |
| Raid5Theorems.QuietArray | examples/raid5/src/raid5.rs:168-188 | when nothing is under way the disks hold the flat array of all requests not given up, in submission order, and parity is consistent if it was |
| Raid5Theorems.AllUpheld | examples/raid5/src/raid5.rs:168-188 | and where only a dead disk fails to read these are all requests |
| Raid5Witness.OneDataDiskFails | examples/raid5/src/raid5.rs:700-746 | a run in which a single data disk fails to write and the write is reported as Failure |
| Raid5Theorems.WriteFailsIff | examples/raid5/src/raid5.rs:715-745 | a write that got to writing, with a disk dead when it started, fails exactly if it has to update that disk; with no disk dead, never |
| Executor.FreedExactly | ironspdk/src/lib.rs:2196-2226 | the strong count is queue entries plus stored wakers plus polls under way; zero exactly when unqueued, unreachable and not being polled |
| Executor.FreedForGood | ironspdk/src/lib.rs:2196-2226 | a freed task is never used again |
| Executor.NoLostWakeup | ironspdk/src/lib.rs:2146-2193 | over every run, a task that some action woke and none has started to poll since has finished, is queued, or is being polled and Notified |
| Executor.HistoryIs | ironspdk/src/lib.rs:2146-2193 | a task counts as woken, and as done, exactly if the actions of the run made it so |
| Executor.FirstInFirstOut | ironspdk/src/lib.rs:2035-2064 | over every run, the tasks queued, whether spawned, woken or requeued, are taken up in the order in which they were queued |
| Executor.AnythingMayHappen | ironspdk/src/lib.rs:2196-2226 | stored and lent wakers may be used at any time, a poll may end either way, the head of the queue may be polled |
| Executor.NotifiedIsRequeued | ironspdk/src/lib.rs:2165-2169 | and the latter is queued when that poll returns Pending |
| Executor.QueuedOnceIff | ironspdk/src/lib.rs:2166-2188 | tasks are queued at most once throughout a run exactly when no wake hits an Idle task that is queued |
| Executor.FinishedUnqueuedIff | ironspdk/src/lib.rs:2146-2163 | throughout a run no finished task is queued exactly when no future finishes while its own task is queued |
| Executor.NeverPolledAfterReady | ironspdk/src/lib.rs:2146-2163 | and then no finished future is polled again |
| Executor.QueuedIsPolled | ironspdk/src/lib.rs:2048-2064 | while a finished task that is queued can be, by the executor going on |
| Executor.QueueDiscipline | ironspdk/src/lib.rs:2120-2193 | without wakes inside a task's own poll: Notified means queued once, Idle unqueued unless just spawned, Ready unqueued and finished |
| Executor.SelfWakeThenWake | ironspdk/src/lib.rs:2165-2168 | a run in which a self-wake and another wake queue a task twice and a finished future is polled again |
| Executor.Tcb.Spawn | ironspdk/src/lib.rs:2035-2041 | a new task at the end of the queue |
| Executor.Tcb.SpawnLocal | ironspdk/src/lib.rs:1737-1743 | a new task polled at once |
| Executor.Tcb.PollBegin | ironspdk/src/lib.rs:2048-2064 | takes the oldest task and starts its poll, unless it is running |
| Executor.Tcb.PollEnd | ironspdk/src/lib.rs:2160-2173 | a finished task is Ready, one woken meanwhile joins the end of the queue, its reference dropped |
| Executor.Tcb.WakeTask | ironspdk/src/lib.rs:2176-2193 | marks a running task, puts an idle one at the end of the queue, ignores others |
| Executor.Tcb.Wake | ironspdk/src/lib.rs:2211-2215 | waking through an owned waker uses its reference up |
| Executor.Tcb.WakeByRef | ironspdk/src/lib.rs:2217-2221 | waking by reference does not |
| Executor.Tcb.CloneWaker | ironspdk/src/lib.rs:2204-2209 | one more stored waker, one more reference |
| Executor.Tcb.DropWaker | ironspdk/src/lib.rs:2223-2226 | one less |
| BatchAwait.LbdevIoCtx.Poll | ironspdk/src/lib.rs:2356-2366 | the reported status if done, else the poller's waker is left behind |
| BatchAwait.LbdevIoCtx.Complete | ironspdk/src/lib.rs:2369-2383 | records the status and wakes whoever waits, once |
| BatchAwait.HoldsReported | ironspdk/src/lib.rs:2369-2383 | a context holds a status exactly if its callback reported that status, or its submission failed and the status is failure |
| BatchAwait.CollectsAll | examples/raid5/src/raid5.rs:418-425 | for completions in any order, before or between polls, or failed on submission: each collected status is the one reported by the I/O at that index, and once all have reported the task is finished or queued |
| BatchAwait.AnyMayReport | ironspdk/src/lib.rs:2369-2383 | at any moment any I/O that has not reported may do so, either way |
| BatchAwait.SpawnedIsFresh | examples/raid5/src/raid5.rs:418-425 | a task spawned on any executor may await any number of I/Os, some failed on submission |
| BatchAwait.LastPollFinishes | ironspdk/src/lib.rs:2356-2366 | its next poll then finishes it with all statuses |
| TcbCache.CachedIsRegistered | ironspdk/src/lib.rs:1972-2019 | on any reactor a running thread gets the block registered for it, through creation, migration, exit, shutdown and address reuse |
| TcbCache.OneTcbPerThread | ironspdk/src/lib.rs:1993-2008 | a running thread keeps one block from its first use on |
| TcbCache.ReusedAddress | ironspdk/src/lib.rs:1972-2019 | a thread created at the address of one that is gone gets a new block on every reactor, whatever the reactors remember |
| TcbCache.AnswerRightIff | ironspdk/src/lib.rs:1972-2019 | on every reactor, for every thread, running or not: the answer is the registered block exactly if the thread was not shut down while the reactor remembered what it still remembers |
| TcbCache.StaleAfterShutdown | ironspdk/src/lib.rs:1972-1990 | a run in which it was, and a block no longer registered is the answer |
| TcbCache.Runtime.TcbFromRegistry | ironspdk/src/lib.rs:1993-2008 | finds or makes the block of a thread |
| TcbCache.Runtime.Current | ironspdk/src/lib.rs:1972-1990 | the cached path and the slow path agree with the registry |
| TcbCache.Runtime.Shutdown | ironspdk/src/lib.rs:2080-2084 | the thread's block leaves the registry |

## Left out

- SPDK itself, foreign calls, DMA allocation, RPC dispatch and parsing, logging, start-up: plumbing.
- How long buffers live while child I/O is in flight: a child write carries its bytes, and request memory is stable until completion.
- Crash consistency, write failures of a living disk, two disks failing on write: stripes may then become inconsistent, as the repository's README says.
- Executor.Tcb.WakeTask: does not model the branch that shuts the control block down, because the executor model is that of a running thread.
- `fail_mask`, which only goes to the log.
- Machine integers: `strip_size_kb * 1024`, `stripe_off + num_blocks` and the geometry products are unbounded here.
- SPDK's own splitting of requests at stripe boundaries: requests across a boundary are modelled and fail, as in the code.
- The message that carries a completion back to the sender: a completion is logged when it is sent.
- RAID1: its read policy is simpler, and its shared read cursor across awaits makes its all-disks-failed answer mean less.
- Wakes from other threads.
- Typed thread-local storage slots.
- The order in which a batch's child I/Os are submitted, and the time at which their callbacks run relative to their effect, other than that it is later.
- The asynchronous functions `read`, `write_partial_stripe`, `write_full_stripe` and `reconstruct` as single methods: between awaits they are functions of the machine, since their steps interleave, and their loops are methods of `Raid5Buffers`; that the buffers a loop fills are those of one particular I/O is not modelled.
- A stripe whose parity is not consistent when one of its data disks dies or fails to read, from then on: that data cannot be rebuilt.
