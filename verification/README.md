# A verified model of libiio's capture path

libiio moves samples from converter hardware to a client program: the kernel fills DMA blocks, the
daemon `iiod` queues and sends them, and a client library asks for them over a text protocol and
turns bytes into numbers. This project models the parts of that path where state, threads and byte
layouts meet, and proves what they promise about every run and every input. `dafny verify
dfyconfig.toml` checks it.

- **The RAM ring** (`RingModel`, `RingRuns`, `RingContents`, `DdrRing`): a ring of slots with a
  producer, a consumer and a life cycle. `DdrRing.RingCore` works on the slot array as the C code
  does, and is proved against a queue of slot numbers; the theorems about whole runs, and about what
  the slots carry, are about that queue.
- **The direct-async queue** (`Circular`, `DirectModel`, `DirectWindow`, `DirectSnapshot`,
  `DirectLeases`, `CaptureQueue`, `DirectRuns`, `DirectSegment`, `DirectGaps`, `DirectDelivery`):
  captured frames wait in a circular array, each in a leased DMA block or spilled to the RAM ring,
  while a producer thread, a sender and a cancelling client take turns. `DirectModel` is the queue as
  a plain sequence; `CaptureQueue.DirectQueue` is the arrays, coupled to the sequence and to the ring;
  `DirectRuns` interleaves the threads in any order; `DirectSegment` drives the arrays through any
  such run. `DirectLeases` balances the DMA blocks on lease against the slots that hold them.
  `DirectGaps` and `DirectDelivery` say what the client gets to see.
- **Frame records** (`ShiftRegister`, `Crc32`, `CounterRecord`, `SampleSequence`): the 80-byte record
  of a frame, its checksum, its rebasing when frames before it are dropped, and the numbering of
  frames and of the samples lost between them.
- **The wire** (`TextLine`, `ReadBuf`, `FrameReply`, `SegmentWire`, `PeerLimit`, `MetadataClient`,
  `BatchBuffer`): both ends of READBUF and READBUFMA byte by byte, and the client's buffer with its
  batches, finite segments and cancellation.
- **Samples** (`Binary`, `SampleCodec`, `SampleConvert`, `ScanLayout`, `ScanOrder`, `ScanData`, `ChannelOrder`,
  `Strides`, `Slices`): conversion between raw and host numbers in place, where each channel lies in
  a scan, reading and writing one channel, and the order of the channels.
- **Attribute blocks** (`AttributeBlocks`): packing, unpacking and checking the blocks that carry all
  attributes of a device.
- **Lifetimes** (`BlockLeases`, `EntryLifetime`): leases of kernel blocks, and the device entries that
  clients, producer threads and the worker share.

Methods of classes and methods on arrays follow the C functions statement by statement; their
contracts equate the new state with a function of the old one. Threads are state machines: one step
is what a thread does under a lock, or between two of them.

## Findings

Where the code does not do what its callers or its documentation expect, the model keeps the code,
and a lemma says exactly when it goes wrong.

- **Attribute blocks are packed behind the buffer** (local.c:589-628). The packing loop rounds a value
  up to four bytes without asking whether the buffer has room for that; the unsigned length that is left then
  wraps around and the loop goes on. A buffer is safe for all attributes if and only if its length is
  a multiple of four or less than four (`AttributeBlocks.SafeBuffers`). The server's own buffer offers
  65535 bytes (iiod/ops.c:4147-4176): two attributes are enough, and already one whose value fills the
  offer makes the result 65536, so that the newline put behind it lies behind the buffer
  (`ServerBufferOverruns`).
- **Attribute blocks to be written have no such check at all** (device.c:934-1000): when the values so
  far fill the megabyte to the last byte, the next attribute is written behind it, with a space that
  has wrapped around. This happens exactly then (`AttributeBlocks.PastExactlyWhenFull`), so one
  attribute is always safe and two are not (`SafeCounts`).
- **Attribute blocks are read behind their end** (local.c:652-678), for the same reason and under exactly
  the same condition on the length of the block (`AttributeBlocks.SafeLengths`); five bytes from a
  client suffice (`FiveBytesReadBehind`). The block is refused in the end, but only after the read.
- **The first frame of a segment that follows another one can lose a gap** (iiod/ops.c:2145-2215).
  COUNTER_METADATA_V1.md:66-68 promises that the count of missing samples is rebased to the last
  delivered frame when queued frames are dropped. The code forgets that frame between segments, so
  the first frame reaches back to the end of the previous segment if and only if nothing captured was
  dropped before it (`DirectGaps.FirstFrameReachesBack`); a run where it does not is
  `RearmedSegmentCanLoseAGap`. From the first delivered frame on, every gap is exact (`ExactGaps`).
- **An empty refill desynchronises READBUF** (iiod/ops.c:1448-1542, iiod-client.c:731-790). The server
  prints `0` and goes on, while the client takes `0` for the end. A reply is read to its last byte, and no
  further, if and only if every chunk has between 1 and INT_MAX bytes (`ReadBuf.ReplyIsFramed`,
  `EmptyRefillDesynchronises`).
- **A pending READBUF is passed over** while the device is open with samples wider than what is left
  of the request (iiod/ops.c:2710-2715). The client waits without a word until the device is reopened
  with samples that fit, which ends the request without the missing bytes, or the worker ends; it is
  left waiting exactly since such a reopening and in no other case (`ReadBuf.PassedOverExactly`,
  `NarrowerSamplesAnswer`).
- **`iio_buffer_first` skips an index** whose first channel is disabled while another channel of the same
  index is enabled (buffer.c:994-1030): it finds the place of a channel if no index before it is
  skipped, and for channels of one length only then (`ScanLayout.FirstIsPlace`, `FirstIsPlaceExactly`,
  `FirstSkipsAnIndexHere`).
- **A frame of another size than a ring slot ends the capture** with -EIO when it would have to be
  spilled (iiod/ops.c:1067-1121), and nothing else does: the other checks of the queue, -EIO when
  queue and ring disagree, -EBUSY when the backlog cannot be dropped and -ESHUTDOWN when the ring has
  stopped, are never taken (`CaptureQueue.DirectQueue.SpillNewestDma`, `DirectSegment.DropNeverBlocked`,
  `SpillFindsRingRunning`).
- **A producer that fails with -ECANCELED or -EPIPE leaves the RAM ring running**: the reason it is
  mapped to (iiod/ops.c:2018-2027) is one that `iiod_ddr_ring_core_fail` rejects
  (`CaptureQueue.DirectQueue.ProducerExit`).
- **The RAM ring cannot serve a second segment**: making it an extension (iiod/ddr-ring-core.c:41-52)
  succeeds if and only if no call before has started, failed or cancelled it, and gives -EINVAL
  otherwise (`RingRuns.ExtensionStartsOnce`).
- **Discarding can break the low-water mark**: it leaves just the frame the consumer holds, so the mark
  is kept if and only if it is at most one with a frame held, or zero without; and unless it is zero it
  can no longer be guaranteed from then on (`RingRuns.DiscardAgainstMark`). Every ring of four slots or
  more without a target can be discarded below its mark (`DiscardBreaksMark`).
- **-EOVERFLOW cannot happen** when frames of one size are numbered (iiod/spf-buffer-layout.c:66-92):
  a frame is refused if and only if it runs past the counter or overlaps the one before it
  (`SampleSequence.RefusedIffOverlaps`).
- **Inverse conversion does nothing** for samples of more than 1024 bytes (channel.c:598-625;
  `SampleConvert.ConvertInverse`). Up to that size, writing a number and reading it gives it back if
  and only if the format can represent it (`WriteThenRead`).

## Model

| member | source | states |
|---|---|---|
| RingRuns.FirstInFirstOut | iiod/ddr-ring-core.c:54-96 | after any sequence of calls on a fresh ring, frames left in the order they were committed, those waiting follow them, produced equals consumed plus queued plus discarded, and without discards the n-th frame out is the n-th committed |
| RingRuns.TerminalForever | iiod/ddr-ring-core.c:257-307 | a ring that completed, failed or was cancelled stays so whatever is called, with the same reason and error |
| RingRuns.FailedRingDrains | iiod/ddr-ring-core.c:109-141 | after a failure, whether it holds a frame or not, the consumer still gets every committed frame, and only then the error |
| RingRuns.CompleteMeetsTarget | iiod/ddr-ring-core.c:194-215 | over every run in which no one completes the ring from outside, a complete ring has consumed or discarded exactly its target |
| RingRuns.SomeoneCanGoOn | iiod/ddr-ring-core.c:54-141 | a running ring with nothing reserved never refuses both the producer and the consumer |
| RingRuns.LowWaterKept | iiod/ddr-ring-core.c:73-96 | once started, the queue never falls below the low-water mark over any run without discards, or with any if the mark is zero |
| RingRuns.DiscardAgainstMark | iiod/ddr-ring-core.c:217-255 | after a discard the queue is at its low-water mark or above if and only if the mark is at most one with a frame in the consumer's hand, or zero without; the stronger floor that keeps the mark from then on holds if and only if the mark is zero |
| RingRuns.DiscardBreaksMark | iiod/ddr-ring-core.c:217-255 | every ring of four slots or more without a target, filled and then discarded with one frame held, is below its mark |
| RingRuns.ExtensionStartsOnce | iiod/ddr-ring-core.c:41-52 | after any run of calls, the ring can be made an extension if and only if no call has started, failed or cancelled it; otherwise -EINVAL |
| RingRuns.ConsumerGate | iiod/ddr-ring-core.c:109-141 | over every run from a start, the first frame is handed out if and only if all slots, or the target if it is smaller, are queued, and a later one if and only if more than half the slots are, or any if the target fits the ring |
| RingRuns.NothingBeforePrefill | iiod/ddr-ring-core.c:109-141 | over every run from a start without failure, nothing is consumed or held by the consumer before as many frames were committed as there are slots, or the target if it is smaller |
| RingRuns.FailureIsReported | iiod/ddr-ring-core.c:257-271 | a ring that failed with a reason and a code hands out what was committed before, then that code, and keeps both whatever is called |
| RingRuns.CancelIsFinal | iiod/ddr-ring-core.c:273-287 | a cancelled ring keeps its reason and -ECANCELED and admits neither producer nor consumer again |
| RingRuns.Reached | iiod/ddr-ring-core.c:257-307 | in every ring there can be, the state tells reason and error: none before an end, and each end its own |
| RingRuns.ReservationUndone | iiod/ddr-ring-core.c:98-107 | in every ring there can be, aborting a reservation gives back the ring from before it, and without one it is refused |
| RingRuns.ProducerIsTold | iiod/ddr-ring-core.c:54-71 | over every run, by frames committed, consumed and discarded, when the producer is admitted and which code refuses it; the check against the target never does |
| RingRuns.ConsumerIsTold | iiod/ddr-ring-core.c:109-141 | over every run, the code the consumer gets in each state; a draining ring always has a frame for it, a failed one until all are gone |
| RingRuns.DiscardIsTold | iiod/ddr-ring-core.c:217-255 | over every run, a discard is refused and changes nothing exactly while the producer holds a slot or the ring does not run, and otherwise leaves only the frame in the consumer's hand |
| RingRuns.StopIsTold | iiod/ddr-ring-core.c:257-287 | over every run, a ring can be failed or cancelled exactly until it is complete, cancelled, or failed with every committed frame consumed or discarded |
| RingContents.ReadsFindCommits | iiod/ddr-ring-core.c:54-215 | over every run of calls, writes into the producer's slot and reads from the consumer's, a read finds what its frame held when it was committed, and frames are read in commit order |
| DdrRing.RingCore.Init | iiod/ddr-ring-core.c:14-31 | a ring of at least one slot starts as the empty queue in its initial phase; one of none is refused and left alone |
| DdrRing.RingCore.ReserveProducer | iiod/ddr-ring-core.c:54-71 | a running ring with room and no reservation hands out the slot after the last committed one; every other call is refused with the reason's code and changes nothing |
| DdrRing.RingCore.CommitProducer | iiod/ddr-ring-core.c:73-96 | the reserved slot joins the end of the queue, and the frame that meets the target makes the ring drain |
| DdrRing.RingCore.AbortProducer | iiod/ddr-ring-core.c:98-107 | the reservation is undone and the queue is as before it |
| DdrRing.RingCore.ReserveConsumer | iiod/ddr-ring-core.c:109-141 | the oldest committed slot is handed out, once the prefill is there and while the queue is above the low-water mark; a failed ring first drains and then answers with its error |
| DdrRing.RingCore.ReleaseConsumer | iiod/ddr-ring-core.c:194-215 | the oldest slot leaves the queue and is counted, and the last one of a draining ring completes it; its checks of the slots never fail |
| DdrRing.RingCore.DiscardWaiting | iiod/ddr-ring-core.c:217-255 | exactly the frames behind the one being consumed are dropped and counted; its check of the slots never fails |
| DdrRing.RingCore.FailRing | iiod/ddr-ring-core.c:257-271 | the ring fails with reason and error and undoes a reservation of the producer, unless it is terminal or reason or code is not one of failure; queued frames stay |
| DdrRing.RingCore.CancelRing | iiod/ddr-ring-core.c:273-287 | the ring is cancelled and undoes a reservation of the producer, unless it is terminal or the reason is none of the two for that |
| DdrRing.RingCore.ConsumerReady | iiod/ddr-ring-core.c:143-153 | ready if and only if a reservation would succeed |
| CaptureQueue.Prepare | iiod/ops.c:696-740 | refuses exactly the sizes that leave no headroom, too much metadata, a second segment at once, or more than fits in memory; the plan of the others holds the target or all blocks and slots, and keeps three blocks, or all but two, in reserve if slots are used |
| CaptureQueue.DirectQueue.SpillNewestDma | iiod/ops.c:1067-1121 | the newest frame moves to the next ring slot with its samples and its block is released, exactly when blocks would run short; -EIO if and only if its size is not that of a slot, and then nothing changes |
| CaptureQueue.DirectQueue.DropPending | iiod/ops.c:794-874 | everything but the frame in transport leaves queue and ring together and its blocks are released; the checks that compare the two never fail |
| CaptureQueue.DirectQueue.RetireStale | iiod/ops.c:2083-2125 | the backlog is dropped, the stale block is released, and the count of stale blocks in a row gives up at its limit |
| CaptureQueue.DirectQueue.PublishFrame | iiod/ops.c:2145-2215 | the captured part of the block joins the queue, with its record rebased onto the frame it will follow and the backlog dropped if the policy says so; a block that is not queued is released |
| CaptureQueue.DirectQueue.BeginSend | iiod/ops.c:1765-1824 | the oldest frame goes into transport, reserved in the ring if it is there; a request for other than the bytes of its samples, or without room for its record, ends the segment with -ENOSPC |
| CaptureQueue.DirectQueue.ReturnHead | iiod/ops.c:1859-1861 | the block of the frame in transport goes back and nothing else changes |
| CaptureQueue.DirectQueue.EndSend | iiod/ops.c:1862-1901 | the frame leaves queue and ring together and is counted as delivered; the last one completes the ring, and an error ends the segment |
| CaptureQueue.DirectQueue.CancelSegment | iiod/ops.c:3323-3350 | the segment and its ring are cancelled, and what the producer has in hand stays valid |
| CaptureQueue.DirectQueue.ProducerExit | iiod/ops.c:2222-2235 | the producer's error becomes that of segment and ring unless there is one, and what is queued stays |
| DirectRuns.PlanIsOk | iiod/ops.c:696-740 | capacity, headroom and ring size fit each other for all sizes that are accepted |
| DirectRuns.PlanSize | iiod/ops.c:696-740 | blocks and useful ring slots together are the target, or all of them if it is larger, and at least the blocks; blocks are kept in reserve exactly if slots are used |
| DirectRuns.HeadroomKept | iiod/ops.c:2044-2066 | over every interleaving, when the producer goes on to capture, so few queued frames are in DMA memory that the headroom and one more block are left |
| DirectSegment.Segment.KernelKeepsHeadroom | iiod/ops.c:2044-2066 | at every moment of every run the blocks on lease are those of queued frames in DMA memory and the one in the producer's hand, and no others, so the kernel has its headroom, and one more block when a capture is due |
| DirectSegment.LeasesCounted | iiod/ops.c:1067-1121 | the number of leases is that of frames in DMA memory, less the head once it has gone back, plus the block in hand |
| DirectSegment.Segment.Teardown | iiod/ops.c:675-694 | after the producer has left, giving back what the slots name gives back every block on lease, each once |
| CaptureQueue.DirectQueue.ReleaseStorage | iiod/ops.c:675-694 | each slot that names a block gives it back, and just the blocks that no slot holds stay on lease |
| DirectLeases.ConservesPublished | iiod/ops.c:2145-2215 | publishing moves just the block in hand into the queue or back to the kernel, and every other block out of the queue goes back to the kernel |
| DirectLeases.SlotsHold | iiod/ops.c:675-694 | all slots of the circular array together hold exactly the blocks its window holds |
| DirectRuns.SpillAlwaysFits | iiod/ops.c:1067-1121 | whenever a frame has to be spilled, it is there, it is in a block, and the ring has a free slot |
| DirectRuns.SegmentAccounting | iiod/ops.c:1862-1901 | over every interleaving, produced plus stale equals delivered plus queued plus dropped, nothing exceeds the target, and a segment that reached it is empty, idle, without error and its ring complete |
| DirectRuns.LastFrameCompletes | iiod/ops.c:1862-1901 | completing the ring after the last frame fails if and only if the ring is no longer running, and that only after a cancel |
| DirectRuns.StaleBlocksGiveUp | iiod/ops.c:2083-2125 | over every run, a stale block takes the backlog with it except a frame in transport, and the producer gives up with -ESTALE exactly at the block that makes nine more in a row than there are DMA blocks |
| DirectRuns.BacklogIsSeamless | iiod/ops.c:2145-2215 | under the drop policy, over every run, the frames behind the next one to be sent follow it without a gap |
| DirectRuns.EndedRingTellsWhy | iiod/ops.c:1862-1901 | over every run, a cancelled segment has left its ring stopped, and a failed ring has an error beside it |
| DirectRuns.CancelStops | iiod/ops.c:3323-3350 | after a cancel, whatever the threads still do, no frame is queued, and only a send still changes the error |
| DirectRuns.CancelEndsRing | iiod/ops.c:3323-3350 | over every run, a cancel leaves the ring complete, cancelled, or failed with none of its frames queued, and a frame in it is not taken any more |
| DirectRuns.BeginExactly | iiod/ops.c:1765-1824 | the head is taken exactly if its sizes fit the request and it is in a block or in a ring that drains; otherwise it stays, and the segment ends with -ENOSPC or -ESHUTDOWN |
| DirectRuns.EndExactly | iiod/ops.c:1862-1901 | a send that fails ends the segment with its error, fails a running ring and delivers nothing; one that succeeds delivers the head, and the last of the target completes a running ring |
| DirectRuns.ProducerGoesOn | iiod/ops.c:2029-2066 | with a free slot, the producer goes on to capture exactly until the frames sent and queued meet the target or the segment is cancelled |
| DirectRuns.ProducerFailsExactly | iiod/ops.c:2222-2235 | a failing producer leaves its error in a segment that was not cancelled, and fails its ring unless the error says that the client is gone |
| DirectSnapshot.RingLearnsWhy | iiod/ops.c:2018-2027 | the reason and error a running ring keeps when its segment ends early, for each way to end |
| DirectSegment.WholeSegment | iiod/ops.c:3186-3215 | a segment on the arrays, driven by any sequence of events, ends in the state of the run of the abstract threads that takes a move for each event that could happen when its turn came, and none for the others |
| DirectSegment.Segment.Play | iiod/ops.c:2029-2235 | the same from any state on: each event that can happen takes the move it stands for, the others are passed over, and the queue in the arrays is that of the run |
| DirectSegment.PossibleCanHappen | iiod/ops.c:2044-2125 | an event can happen on the arrays if and only if it can in the run, a block being free to the kernel exactly when no queued frame is in it |
| DirectSegment.DropNeverBlocked | iiod/ops.c:2145-2215 | a producer in flight never finds the ring stopped unless cancelled, so -EBUSY is never returned |
| DirectSegment.SpillFindsRingRunning | iiod/ops.c:1067-1121 | a producer that has to spill finds the ring running, so -ESHUTDOWN is never returned |
| DirectGaps.ExactGaps | COUNTER_METADATA_V1.md:66-68 | over every interleaving, each delivered record says exactly how many samples lie between the frame delivered before it and its own, so samples and gaps add up to the whole span |
| DirectGaps.RebaseNeverFails | iiod/ops.c:2145-2215 | over every interleaving, rebasing a captured record succeeds |
| DirectGaps.LastEndIsDelivered | iiod/ops.c:1862-1901 | over every run, the end from which a loss is counted with nothing in transport is that of the last frame delivered; a failed send does not move it |
| DirectGaps.SegmentHandsOver | iiod/ops.c:1862-1901 | when a segment has met its target, the provider's next gap is counted from the end of the last delivered frame |
| DirectGaps.FirstFrameReachesBack | iiod/ops.c:2145-2215 | before anything is delivered, the first frame of a later segment reaches back to the end of the previous one if and only if every frame dropped so far was a stale one |
| DirectGaps.RearmedSegmentCanLoseAGap | iiod/ops.c:2145-2215 | after one dropped frame the first record of a later segment counts 10 missing samples where 20 are missing |
| DirectDelivery.DeliveredAsCaptured | iiod/ops.c:1765-1901 | over every interleaving, through spills and drops, the delivered samples and positions are a subsequence, in order, of those captured, one for each record sent |
| CounterRecord.DescribeEncode | iiod/spf-counter-metadata.c:87-113 | describing the record of any acceptable frame gives its span and gap back |
| CounterRecord.DescribeAcceptsExactlyBuilt | iiod/spf-counter-metadata.c:87-113 | the bytes accepted are exactly those of records of acceptable frames |
| CounterRecord.Build | iiod/spf-counter-metadata.c:61-86 | exactly the good arguments, each limit written out, write a record: its numbers, read by offset, are the arguments and the fixed fields of the format, it ends in its checksum, and it is described as theirs; nothing behind it changes, and otherwise nothing at all |
| CounterRecord.DescribedByOffset | iiod/spf-counter-metadata.c:87-113 | of 80 bytes, exactly those are described whose numbers, read by offset, are the fields of a good build, and they are described by the numbers at 32, 40 and 48 |
| CounterRecord.Rebase | iiod/spf-counter-metadata.c:114-127 | in a valid record only the bytes of the gap, its flags and the checksum change, and the gap at 40 becomes the distance from the given end to the number at 32; an invalid one, or one that begins before that end, is refused and left alone |
| CounterRecord.RebaseKeepsSpan | iiod/spf-counter-metadata.c:114-127 | a rebased record is accepted, covers the same samples and reaches back exactly to the given end |
| CounterRecord.RebaseOverrides | iiod/spf-counter-metadata.c:114-127 | rebasing twice is rebasing once, onto the later end |
| CounterRecord.RebaseIsModelled | iiod/ops.c:2145-2215 | rebasing the bytes does to span, gap and result what the queue's model does |
| CounterRecord.BurstIsRejected | iiod/spf-counter-metadata.c:30-41 | a record damaged anywhere within 32 consecutive bits, the checksum included, is refused |
| CounterRecord.DamagedByteIsRejected | iiod/spf-counter-metadata.c:30-41 | a record with any one byte changed is refused |
| Crc32.BurstChangesRaw | iiod/spf-counter-metadata.c:30-41 | two texts of any length that differ only within 32 consecutive bits have different checksums |
| Crc32.ChecksumResidue | iiod/spf-counter-metadata.c:30-41 | running the register over text and checksum ends in one common value exactly for matching checksums |
| Crc32.ChecksumIsRemainder | iiod/spf-counter-metadata.c:30-41 | for every text, the checksum is the complement of the reversed remainder of its long division by the polynomial 0x04c11db7 |
| Crc32.CheckValue | iiod/spf-counter-metadata.c:30-41 | the checksum of the digits 1 to 9 is 0xcbf43926 |
| SampleSequence.RunAccounted | iiod/spf-buffer-layout.c:66-102 | over any run of attempts, accepted frames and their gaps add up to the span, and the last frame's number counts the accepted frames and the whole frames lost |
| SampleSequence.RefusedIffOverlaps | iiod/spf-buffer-layout.c:66-92 | after any run, a frame is refused if and only if it runs past the counter, with -EINVAL, or overlaps the last accepted one, with -ERANGE |
| SampleSequence.ResolvedInRange | iiod/spf-buffer-layout.c:66-92 | from any state, an accepted frame moves number and end on within 64 bits, and -EOVERFLOW is given exactly when the number would leave them |
| SampleSequence.WatchReportsPrefix | iiod/ddr-ring-core.c:161-192 | after any frames, the watch reports the end of the longest gap-free prefix, whether a gap followed, and where the next frame should begin |
| TextLine.ReadBack | iiod-client.c:40-76 | any number a long can hold, printed on a line, is read back narrowed to an int, up to exactly the end of its line |
| TextLine.TooLargeForLong | iiod-client.c:40-76 | a printed number that no long can hold is refused |
| TextLine.BlankLinesSkipped | iiod-client.c:40-76 | any number of blank lines before a number is passed over |
| ReadBuf.ServerThread.TakeTurn | iiod/ops.c:2707-2955 | one turn of the worker, for a request that waits or is passed over, writes and leaves pending what the specification of a turn says |
| ReadBuf.ServerThread.Answer | iiod/ops.c:3130-3248 | a whole request, turn by turn to its end, writes exactly the specified reply |
| ReadBuf.Client.ReadUnlocked | iiod-client.c:731-790 | the loop over chunks returns the data, mask and rest that the recursive reader of the stream does |
| ReadBuf.ReplyIsFramed | iiod-client.c:731-790 | for every finished reply, also one that was passed over for a while, the client gets the samples sent or the error that ended them and stops at the server's last byte, if and only if every chunk has 1 to INT_MAX bytes |
| ReadBuf.ReplyDelivers | iiod/ops.c:1448-1542 | what a clean reply without error delivers is the beginning of the refills' data, joined in order, as many bytes as are owed for as long as a whole sample is left, and the mask once |
| ReadBuf.SmallRequestReadsNothing | iiod/ops.c:3163-3164 | a request for less than a sample is answered with 0 at once |
| ReadBuf.ChunkMeans | iiod-client.c:731-790 | for every number in front of a chunk: an error is returned, more than was asked for is -EOVERFLOW and nothing of it is read, and a stream that ends too early is -EPIPE |
| ReadBuf.NoNumber | iiod-client.c:731-790 | a stream that ends inside a line gives -EPIPE, and a line that is no number -EINVAL |
| ReadBuf.PassedOverExactly | iiod/ops.c:2710-2715 | over every run of events, a request is unanswered and passed over if and only if the device was reopened with samples wider than what was left of it, and since then neither with samples that fit nor has the worker ended |
| ReadBuf.NarrowerSamplesAnswer | iiod/ops.c:2710-2715 | four bytes asked for wait while samples have eight bytes, and are answered with 0 when they have four again |
| ReadBuf.EmptyRefillDesynchronises | iiod/ops.c:1448-1542 | one empty refill before a full one leaves bytes of the reply unread, for any sample and mask |
| FrameReply.AsyncThread.Answer | iiod/ops.c:1765-1901 | the worker's turns and the end of the request together write exactly the specified stream of frames or error |
| FrameReply.ReadFrameUnlocked | iiod-client.c:791-841 | one frame is read as the specification of the stream says, up to the byte where it stops |
| FrameReply.FramesAreFramed | iiod-client.c:791-841 | for every supply, the client gets the frames served, in order, and then the error if there is one, and stops at the server's last byte |
| FrameReply.CutFrame | iiod-client.c:791-841 | a frame cut off at any byte gives -EPIPE and no frame |
| FrameReply.LengthMeans | iiod-client.c:791-841 | every length line is returned, or refused with -EOVERFLOW if it is 0 or above the limit |
| SegmentWire.PendingIsUnread | buffer.c:672-734 | after any number of reads of a segment, what the client counts as pending is exactly the number of frames unread in the server's stream, or nothing is left of the reply |
| SegmentWire.ControlFindsNothingUnread | buffer.c:505-552 | whenever a control command is allowed, no byte of a reply is left unread |
| PeerLimit.ValidateDirectPeerLimit | buffer.c:298-327 | a peer's limit is accepted if and only if it is a decimal number from 1 to UINT_MAX, or missing, and frames are refused exactly above it |
| PeerLimit.LimitIsAdvertised | buffer.c:298-327 | for every number a peer prints, that number is the limit, if it is from 1 to 4294967295; without one it is 4096, and an empty or other text is refused |
| MetadataClient.RunIsSafe | buffer.c:505-552 | over every sequence of calls and interruptions, frames returned are the first ones received, none is lost while the buffer is sound, controls are refused while a reply is unread, and a failure cancels exactly once |
| MetadataClient.FailureAbsorbs | buffer.c:214-231 | once failed, a buffer stays failed, returns no more frames, allows no controls, and every refill gives -EBADF |
| MetadataClient.AcceptedExactly | buffer.c:266-392 | over every run, by what is owed, received and returned, exactly when a batch size, a segment and a control command are accepted |
| MetadataClient.RefusalCodes | buffer.c:266-392 | over every run, the code of each refused call; it changes nothing, except that a peer that cannot serve a segment takes the last one with it, and one that cannot be sent fails the buffer |
| MetadataClient.RefusedSegmentRearms | buffer.c:672-734 | over every run, a segment refused with -EBUSY or -ENODATA before its first frame leaves the buffer sound, nothing owed and nothing cancelled, and can be armed again at once |
| MetadataClient.SegmentFailsExactly | buffer.c:672-734 | a reply in a segment is returned if sizes and mask are right; otherwise it fails the buffer exactly if a frame came before it or it is neither of those two errors |
| MetadataClient.CancelIsSeen | buffer.c:672-889 | a cancel while any reply is read, or before a cached frame is taken, lets no frame through and leaves the buffer failed, cancelled once |
| MetadataClient.BatchStopsAt | buffer.c:779-873 | the first wrong or interrupted reply of a batch fails the buffer with its code, and the frames before it are lost |
| MetadataClient.RefillsRefused | buffer.c:672-794 | the refills that read nothing: which code each gets, and that only one of another shape than the armed segment fails the buffer |
| MetadataClient.SingleReadFails | buffer.c:672-889 | a single read that fails returns its error and leaves the buffer sound |
| MetadataClient.BatchFitsInAll | buffer.c:779-794 | the sequence of divisions admits a batch if and only if its sizes, samples and metadata together are within the limit |
| MetadataClient.ShortCapacityLosesNothing | buffer.c:736-765 | any number of refills with too little capacity leave the next cached frame where it is: a refill with enough returns it |
| MetadataClient.BatchingIsInvisible | buffer.c:672-889 | with a backend that delivers every frame and sizes of which every batch is within the limit, whatever batch sizes are set between refills, the caller gets the same frames, one by one and in order |
| BatchBuffer.MetadataBuffer.FillBatch | buffer.c:779-873 | the loop that fills the cache accepts all replies or fails the buffer, as the model of the client says |
| BatchBuffer.MetadataBuffer.RefillWithMetadata | buffer.c:672-889 | one refill does to the cached frames, counters and result what the model of the client says |
| BatchBuffer.MetadataBuffer.SetBatch | buffer.c:266-296 | the batch size changes, or is refused, as the model of the client says |
| BatchBuffer.MetadataBuffer.PrequeueAsync | buffer.c:329-392 | a segment is armed, refused, or fails the buffer, as the model of the client says |
| SampleCodec.ShiftedRightDivides | channel.c:484-527 | shifting the bytes down divides the number they stand for by a power of two |
| SampleCodec.ShiftedLeftMultiplies | channel.c:484-527 | shifting them up multiplies it by a power of two, modulo the width |
| SampleCodec.MaskedIsModulo | channel.c:552-564 | masking keeps the number modulo a power of two |
| SampleCodec.ExtendedIsTwosComplement | channel.c:529-550 | sign extension gives the two's complement number of the low bits at the full width |
| SampleConvert.Convert | channel.c:566-596 | in place and for every repeated sample, the bytes become those of the number that the raw sample means, and the bytes behind them stay |
| SampleConvert.ConvertInverse | channel.c:598-625 | the same in the other direction; samples larger than the scratch buffer leave the destination untouched |
| SampleConvert.ConvertedNumber | channel.c:566-596 | in either byte order, the host number is the raw one shifted down and sign-extended or masked |
| SampleConvert.InvertedNumber | channel.c:598-625 | in either byte order, the raw number is the host one masked and shifted up |
| SampleConvert.RawByOrder | channel.c:566-625 | a raw sample is the number of its bytes, highest first if the format is big-endian and lowest first if not |
| SampleConvert.WriteThenRead | channel.c:566-625 | converting there and back gives a number back if and only if the format can represent it |
| SampleConvert.ReadThenWrite | channel.c:566-625 | converting back and there keeps exactly the bits of the format and clears the others |
| SampleConvert.WriteThenReadAll | channel.c:566-625 | over all repeated samples, there and back gives the bytes back if and only if each number is representable |
| ScanLayout.GetSampleSize | device.c:452-492 | the loop gives the size of the specified layout, and refuses exactly masks of another length |
| ScanLayout.PlacesFit | device.c:452-492 | every enabled channel has a place aligned to its length inside the scan |
| ScanLayout.PlacesApart | device.c:452-492 | channels of different index do not overlap |
| ScanLayout.PlacesAreLeast | device.c:452-492 | no other way to place the channels in order, each aligned to its length, gives any of them a lower place |
| ScanLayout.ScanSizeIsLeast | device.c:452-492 | the size is the least multiple of the largest enabled length that holds the channels, however they are placed |
| ScanLayout.SameIndexSamePlace | device.c:452-492 | enabled channels of one index share a place |
| ScanLayout.EveryScanAligned | device.c:452-492 | with lengths that are powers of two, every channel of every scan is aligned |
| ScanLayout.BufferFirst | buffer.c:994-1030 | the loop gives the start of the counted channels before this one, or the end of the buffer if it is disabled |
| ScanLayout.FirstIsPlace | buffer.c:994-1030 | that start is the channel's place when no enabled index before it was skipped |
| ScanLayout.FirstIsPlaceExactly | buffer.c:994-1030 | for channels of one length, it is so if and only if none was |
| ScanLayout.FirstSkipsAnIndexHere | buffer.c:994-1030 | three channels for which two that lie apart get the same start |
| ScanLayout.FoundApart | buffer.c:994-1030 | when no index is skipped, the starts found for channels of different index do not overlap either |
| ScanData.ReadRaw | channel.c:627-640 | one channel's samples are copied from scan after scan until the space or the scans end, and nothing behind them changes |
| ScanData.WriteRaw | channel.c:658-671 | a channel's samples are written into scan after scan, and nothing else in the buffer changes |
| ScanData.ReadsBack | channel.c:627-671 | what was written to a channel is read back |
| ScanData.OthersRead | channel.c:627-671 | writing a channel does not change what is read from any channel of another index |
| ChannelOrder.ReorderChannels | context.c:310-339 | the channels are rearranged by index and shift, those that compare equal keep their order, and each is numbered by its place |
| ScanOrder.ReorderedIsOrdered | context.c:310-339 | channels as the reordering leaves them are in the order on which the layout of a scan relies |
| ChannelOrder.SwapRemovesOne | context.c:310-339 | each swap removes exactly one inversion, which is why the loop ends |
| ChannelOrder.SortedOnce | context.c:310-339 | there is only one such arrangement |
| AttributeBlocks.ReadAll | local.c:589-628 | entries are packed one after another as far as the space goes; the result exceeds the buffer, or the loop writes behind it, exactly for the answers that do so with the wrapped length |
| AttributeBlocks.HighestFirst | local.c:618 | the length or code in front of a value is sent highest byte first, a negative one as its two's complement |
| AttributeBlocks.SafeBuffers | local.c:589-628 | no answers of any number of attributes make packing write behind a buffer if and only if its length is a multiple of four or less than four |
| AttributeBlocks.ServerBufferOverruns | iiod/ops.c:4141-4177 | in the server's 65535 bytes, one value that fills them makes the result one more than they are, and a second attribute is written behind them |
| AttributeBlocks.ReadEach | device.c:839-932 | of any bytes, the values of all whole entries are handed to the callback in order, a shortage of entries or a last one cut off gives -EPROTO, and a failing callback ends it with its error |
| AttributeBlocks.PackedEntriesAreWhole | device.c:839-932 | in a packed block the whole entries are exactly those that were packed |
| AttributeBlocks.WriteEach | device.c:934-1021 | what the callback gives is packed one after another in the megabyte, up to its first error; the loop goes on behind the megabyte exactly for the answers that use it up before the last attribute |
| AttributeBlocks.PastExactlyWhenFull | device.c:934-1021 | a callback makes it write behind the megabyte if and only if its first answers, none an error, fill it to the last byte and another attribute follows |
| AttributeBlocks.SafeCounts | device.c:934-1021 | no callback can make it do so if and only if there is at most one attribute |
| AttributeBlocks.Analyze | local.c:652-678 | exactly the blocks of that many entries are accepted, and the code reads behind the end exactly for the inputs that make it do so |
| AttributeBlocks.SafeLengths | local.c:652-678 | no block of a length is read behind its end if and only if the length is a multiple of four or less than four |
| AttributeBlocks.FiveBytesReadBehind | iiod/ops.c:4179-4218 | five bytes a client may send are read behind their end |
| AttributeBlocks.WriteAll | local.c:680-725 | a block is written attribute by attribute, each with its value, or refused before any is |
| AttributeBlocks.PackedIsBlock | device.c:934-1021 | what one side packs is a block on the other, of exactly the values packed |
| AttributeBlocks.Transfer | device.c:839-932 | for every packing that stays inside the buffer, every value read arrives once, in order and under its attribute |
| BlockLeases.LeaseTable.Claim | local.c:554-587 | a release is accepted for exactly the tokens on lease and sizes in range, and takes the lease away; otherwise nothing changes |
| BlockLeases.ReleasedOnce | local.c:508-587 | over every interleaving of threads, a block is handed back at most as often as it was leased and at most one lease is open, and the table never disagrees with the kernel |
| BlockLeases.ClaimsExclude | local.c:554-587 | over every interleaving, a release is accepted if and only if the block is on lease and no release of it is under way |
| BlockLeases.TokensAreChecked | local.c:554-587 | over every interleaving and for any token, a release is accepted if and only if it names a leased block and a size in range, and is -EINVAL otherwise |
| EntryLifetime.FreedOnce | iiod/ops.c:1994-2016 | over every interleaving, references equal their holders, the entry is freed once, when the last holder goes, and no step touches it afterwards |
| EntryLifetime.TornDownInOrder | iiod/ops.c:3020-3115 | over every interleaving of acquiring, queueing and returning blocks with the rest, giving back what the slots name when all producers have exited leaves none on lease, so a buffer is destroyed only without leases and producers, and CLOSE of an exclusive entry is answered after that |
| EntryLifetime.BuffersDestroyed | iiod/ops.c:3020-3115 | over every interleaving, an entry never has two buffers, and none is left when it is closed or freed |
| EntryLifetime.MaskIsCurrent | iiod/ops.c:2586-2705 | over every interleaving, while the worker serves with nothing to reopen, the buffer was opened for the channels of exactly the clients on the list, and each was told |

## Left out

Assumptions about what the model cannot see:

- The host is little-endian; `int` has 32 bits and `long` 64; `size_t` has 32 bits where a length wraps around.
- Releasing and enqueueing a DMA block succeed, allocations succeed, and the backend offers a cancel operation. Which block the kernel hands out, and what it holds, is chosen by the environment.
- A metadata provider commits nothing when it answers -ESTALE, and otherwise counts missing samples from the end of the frame it described last.
- The RAM ring that extends a direct segment has no target of its own.
- Buffers hold whole scans; one mask serves device and buffer; the sample size looked up after a refill is not an error.
- The server is not in verbose mode. The bytes of a mask are what both ends agree on.
- Bits combined with `|` are disjoint, and are added.

Behaviour that is not modelled:

- Other transports of samples: writing buffers, server-side demultiplexing, `iio_buffer_foreach_sample`, burst mode, the ring without a direct segment, the scan, hop and GLRT sessions and the other metadata providers.
- Statistics, timing and argument checks: high-water marks, wrap and flush counts, timestamps, NULL arguments.
- The limit on frames discarded while a capture starts up, and the timed wait when a burst ends.
- The older local interface that dequeues one buffer at a time.
- Attribute names, XML, context creation and discovery.
- Threads, sockets and the kernel themselves: a thread is a sequence of steps, a socket is a sequence of bytes.
- AttributeBlocks.Analyze: does not model blocks of nearly 2 GiB, where the padded length leaves the range of an int.
- AttributeBlocks.ReadAll: what is written behind the buffer is not modelled, because nothing is known about that memory; the same for AttributeBlocks.WriteEach.
- DirectSegment.Segment.Play: whether a frame fits the RAM ring or the client's request is not part of an abstract move's event, because the run does not know these sizes; a thread pool that stops the producer at the top of its loop is not an event.
- EntryLifetime.TornDownInOrder: that a producer exits with nothing in its hand is a condition of its step; the direct-async producer is proved to meet it (DirectSegment.Segment.Teardown), other producers are not modelled.
- MetadataClient.BatchingIsInvisible: with a backend that fails, a batch meets the failure earlier than single reads would; what holds then is MetadataClient.RunIsSafe.
- ScanLayout.BufferFirst: does not model the count of repeats that `iio_buffer_first` leaves out for a channel with more than one; lengths here are those of a whole sample.
