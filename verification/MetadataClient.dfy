/**
 The client side of metadata capture (buffer.c): refills that may be batched, finite direct
 segments read from the wire as they are owed, failure that nothing undoes, and a cancel that may
 come from another thread at any moment.
 */
module MetadataClient {
  import opened Errno
  import opened FrameReply

  type Mask = seq<bv32>

  const IIO_BUFFER_METADATA_BATCH_MAX := 64
  const IIO_BUFFER_METADATA_DIRECT_MAX := 8192
  const IIO_BUFFER_METADATA_BATCH_BYTES_MAX := 64 * 1024 * 1024
  const SIZEOF_SIZE_T := 8

  /** What one read of the backend brings: a byte count or an error, the frame if there is one,
      and the mask. `cancelled`: another thread cancelled the buffer during the call. */
  datatype Reply = Reply(read: int, frame: Frame, mask: Mask, cancelled: bool)

  /** `cached`: frames of the current batch not yet handed out. `directFrames`: size of the armed
      segment, 0 for none; `pending` of them are still to be read. `cancels` counts the calls of
      the backend's cancel. */
  datatype Client = Client(length: nat, mask: Mask, batchSize: nat, failed: bool, cached: seq<Frame>,
                           directFrames: nat, pending: nat, directCapacity: nat, directMask: Mask, cancels: nat)

  datatype Result = Got(frame: Frame) | Error(code: int)

  // ---------------------------------------------------------------------------------------
  // Failing

  /** `iio_buffer_cancel`, and what `fail_metadata_batch` does first: only the first failure
      reaches the backend. */
  function Cancel(c: Client): Client {
    c.(failed := true, cancels := c.cancels + (if c.failed then 0 else 1))
  }

  function Fail(c: Client): Client {
    Cancel(c).(cached := [])
  }

  function Interrupted(c: Client, cancelled: bool): Client {
    if cancelled then Cancel(c) else c
  }

  // ---------------------------------------------------------------------------------------
  // Refilling

  predicate Good(r: Reply, length: nat, capacity: nat, mask: Mask) {
    r.read == length && Fits(r.frame, length, capacity) && 0 < length && r.mask == mask
  }

  function Code(r: Reply): int {
    if r.read < 0 then r.read else -EIO
  }

  /** A frame from the armed segment. */
  function RefillDirect(c: Client, capacity: nat, r: Reply): (Client, Result) {
    if c.pending == 0 then (c, Error(-ENODATA))
    else if capacity != c.directCapacity || c.mask != c.directMask then (Fail(c), Error(-EINVAL))
    else
      var c' := Interrupted(c, r.cancelled).(mask := r.mask);
      if !Good(r, c.length, capacity, c.directMask) then
        if c.pending == c.directFrames && (Code(r) == -EBUSY || Code(r) == -ENODATA) then
          (c'.(directFrames := 0, pending := 0, directCapacity := 0, directMask := []), Error(Code(r)))
        else (Fail(c'), Error(Code(r)))
      else if c'.failed then (c'.(pending := c.pending - 1), Error(-EBADF))
      else (c'.(pending := c.pending - 1), Got(r.frame))
  }

  /** A frame already in the cache; `late`: cancelled while it is copied out. */
  function RefillCached(c: Client, capacity: nat, late: bool): (Client, Result)
    requires c.cached != []
  {
    if capacity < |c.cached[0].metadata| then (c, Error(-ENOSPC))
    else if late then (Cancel(c), Error(-EBADF))
    else (c.(cached := c.cached[1..]), Got(c.cached[0]))
  }

  function RefillSingle(c: Client, r: Reply): (Client, Result) {
    var c' := Interrupted(c, r.cancelled).(mask := r.mask);
    if r.read < 0 then (c', Error(r.read))
    else if c'.failed then (c', Error(-EBADF))
    else (c', Got(r.frame))
  }

  /** The size checks of a batch, in the source's order; no intermediate value exceeds the limit. */
  predicate BatchFits(frames: nat, length: nat, capacity: nat)
    requires 0 < frames
  {
    var arrays := frames * SIZEOF_SIZE_T * 2;
    && arrays <= IIO_BUFFER_METADATA_BATCH_BYTES_MAX
    && length <= (IIO_BUFFER_METADATA_BATCH_BYTES_MAX - arrays) / frames
    && length * frames <= IIO_BUFFER_METADATA_BATCH_BYTES_MAX - arrays
    && capacity <= (IIO_BUFFER_METADATA_BATCH_BYTES_MAX - arrays - length * frames) / frames
  }

  /** Reading a batch of `frames`, `done` of them already in the cache. */
  function Fill(c: Client, frames: nat, capacity: nat, mask: Mask, replies: seq<Reply>): (r: (Client, int))
    requires frames <= |replies|
    ensures r.0.batchSize == c.batchSize && r.0.directFrames == c.directFrames && r.0.length == c.length
    ensures if r.1 == 0 then |r.0.cached| == |c.cached| + frames else r.0.cached == [] && r.1 < 0
    decreases frames
  {
    if frames == 0 then (c, 0)
    else
      var r := replies[0];
      var c' := Interrupted(c, r.cancelled).(mask := r.mask);
      if c'.failed then (c'.(cached := []), -EBADF)
      else if !Good(r, c.length, capacity, mask) then (Fail(c'), Code(r))
      else Fill(c'.(cached := c'.cached + [r.frame]), frames - 1, capacity, mask, replies[1..])
  }

  function RefillBatch(c: Client, capacity: nat, replies: seq<Reply>, late: bool): (Client, Result)
    requires 1 < c.batchSize <= |replies| && c.cached == []
  {
    if !BatchFits(c.batchSize, c.length, capacity) then (c, Error(-E2BIG))
    else
      var filled := Fill(c, c.batchSize, capacity, c.mask, replies);
      if filled.1 != 0 then (filled.0, Error(filled.1))
      else if filled.0.cached == [] then (filled.0, Error(-EIO))
      else RefillCached(filled.0, capacity, late)
  }

  /** `iio_buffer_refill_with_metadata`. */
  function Refill(c: Client, capacity: nat, replies: seq<Reply>, late: bool): (r: (Client, Result))
    requires 0 < c.batchSize <= |replies|
    ensures r.0.batchSize == c.batchSize
  {
    if c.failed then (c.(cached := []), Error(-EBADF))
    else if c.directFrames != 0 then RefillDirect(c, capacity, replies[0])
    else if c.cached != [] then RefillCached(c, capacity, late)
    else if c.batchSize == 1 then RefillSingle(c, replies[0])
    else RefillBatch(c, capacity, replies, late)
  }

  // ---------------------------------------------------------------------------------------
  // The other calls

  function SetBatchSize(c: Client, frames: nat, supported: bool): (r: (Client, int))
    ensures 0 < c.batchSize <= IIO_BUFFER_METADATA_BATCH_MAX ==> 0 < r.0.batchSize <= IIO_BUFFER_METADATA_BATCH_MAX
  {
    if frames == 0 then (c, -EINVAL)
    else if frames > IIO_BUFFER_METADATA_BATCH_MAX then (c, -E2BIG)
    else if c.failed then (c, -EBADF)
    else if c.cached != [] || c.directFrames != 0 then (c, -EBUSY)
    else if frames > 1 && !supported then (c, -ENOSYS)
    else (c.(batchSize := frames), 0)
  }

  /** `iio_buffer_set_metadata_read_prequeue_async`, with or without a policy. `peer` and
      `capability` are the verdicts on the peer's frame limit and on what it advertises, `sent`
      how writing the command went. */
  function Arm(c: Client, frames: nat, capacity: nat, peer: int, capability: int, sent: int): (Client, int) {
    if frames == 0 || capacity == 0 then (c, -EINVAL)
    else if frames > IIO_BUFFER_METADATA_DIRECT_MAX then (c, -E2BIG)
    else if c.failed then (c, -EBADF)
    else if c.pending != 0 || c.batchSize != 1 || c.cached != [] then (c, -EBUSY)
    else if peer < 0 then (c, peer)
    else if capability < 0 then (c.(directFrames := 0, directMask := []), capability)
    else
      var armed := c.(directFrames := frames, pending := frames, directCapacity := capacity, directMask := c.mask);
      if sent < 0 then (Fail(armed), sent) else (armed, 0)
  }

  /** Draining records and submitting feedback; cancelling the session looks at no cache. */
  function Control(c: Client, looksAtCache: bool, supported: bool): int {
    if c.pending != 0 || c.failed || (looksAtCache && c.cached != []) then -EBUSY
    else if !supported then -ENOSYS
    else 0
  }

  // ---------------------------------------------------------------------------------------
  // Runs

  /** `owed`: frame replies the peer has been asked for and not yet read. `received`: the frames
      the backend delivered; `returned`: those handed to the caller. `controls`: how many replies
      were owed at each control command written. */
  datatype World = World(c: Client, owed: nat, received: seq<Frame>, returned: seq<Frame>, controls: seq<nat>)

  datatype Op =
    | SetBatch(frames: nat, supported: bool)
    | ArmSegment(frames: nat, capacity: nat, peer: int, capability: int, sent: int)
    | RefillOne(capacity: nat, replies: seq<Reply>, late: bool)
    | CancelBuffer
    | ControlCommand(looksAtCache: bool, supported: bool)

  /** The frames of a batch that arrive before anything goes wrong. */
  function Arriving(c: Client, frames: nat, capacity: nat, mask: Mask, replies: seq<Reply>): seq<Frame>
    requires frames <= |replies|
    decreases frames
  {
    if frames == 0 || c.failed || replies[0].cancelled || !Good(replies[0], c.length, capacity, mask) then []
    else [replies[0].frame] + Arriving(c, frames - 1, capacity, mask, replies[1..])
  }

  /** What the backend delivers during one refill. */
  function Arrived(c: Client, capacity: nat, replies: seq<Reply>): seq<Frame>
    requires 0 < c.batchSize <= |replies|
  {
    var r := replies[0];
    if c.failed then []
    else if c.directFrames != 0 then
      if c.pending != 0 && capacity == c.directCapacity && c.mask == c.directMask &&
         Good(r, c.length, capacity, c.directMask) then [r.frame] else []
    else if c.cached != [] then []
    else if c.batchSize == 1 then (if r.read >= 0 then [r.frame] else [])
    else if BatchFits(c.batchSize, c.length, capacity) then Arriving(c, c.batchSize, capacity, c.mask, replies)
    else []
  }

  /** READBUFMA ends a reply with one error line, so an error leaves nothing owed. */
  function OwedAfter(w: World, capacity: nat, r: Reply): nat {
    if !w.c.failed && w.c.directFrames != 0 && w.c.pending != 0 && capacity == w.c.directCapacity &&
       w.c.mask == w.c.directMask
    then (if r.read < 0 || w.owed == 0 then 0 else w.owed - 1)
    else w.owed
  }

  function Next(w: World, op: Op): World
    requires 0 < w.c.batchSize
  {
    match op
    case SetBatch(frames, supported) => w.(c := SetBatchSize(w.c, frames, supported).0)
    case ArmSegment(frames, capacity, peer, capability, sent) =>
      var (c, ret) := Arm(w.c, frames, capacity, peer, capability, sent);
      w.(c := c, owed := if ret == 0 then frames else w.owed)
    case RefillOne(capacity, replies, late) =>
      if |replies| < w.c.batchSize then w
      else
        var (c, result) := Refill(w.c, capacity, replies, late);
        w.(c := c, owed := OwedAfter(w, capacity, replies[0]),
           received := w.received + Arrived(w.c, capacity, replies),
           returned := if result.Got? then w.returned + [result.frame] else w.returned)
    case CancelBuffer => w.(c := Cancel(w.c))
    case ControlCommand(looksAtCache, supported) =>
      if Control(w.c, looksAtCache, supported) == 0 then w.(controls := w.controls + [w.owed]) else w
  }

  // ---------------------------------------------------------------------------------------
  // What every step keeps

  ghost predicate Shaped(c: Client) {
    && 0 < c.batchSize <= IIO_BUFFER_METADATA_BATCH_MAX
    && (c.directFrames != 0 ==> c.batchSize == 1 && (!c.failed ==> c.cached == []))
    && (c.directFrames == 0 ==> c.pending == 0) && c.pending <= c.directFrames
    && c.cancels == (if c.failed then 1 else 0)
  }

  ghost predicate Inv(w: World) {
    && Shaped(w.c)
    && (!w.c.failed ==> w.c.pending == w.owed && w.returned + w.c.cached == w.received)
    && w.returned <= w.received
    && (forall o :: o in w.controls ==> o == 0)
  }

  function Init(length: nat, mask: Mask): World {
    World(Client(length, mask, 1, false, [], 0, 0, 0, [], 0), 0, [], [], [])
  }

  /** Filling appends exactly the frames that arrive, or fails. */
  lemma {:induction false} FillArrives(c: Client, frames: nat, capacity: nat, mask: Mask, replies: seq<Reply>)
    requires frames <= |replies| && !c.failed && Shaped(c) && c.directFrames == 0
    ensures var (c', ret) := Fill(c, frames, capacity, mask, replies);
            var arriving := Arriving(c, frames, capacity, mask, replies);
            && Shaped(c') && (c'.failed <==> ret != 0) && ret <= 0
            && c'.directFrames == c.directFrames && c'.batchSize == c.batchSize && c'.pending == c.pending
            && c'.length == c.length
            && (ret == 0 ==> c'.cached == c.cached + arriving && |arriving| == frames)
            && (ret == 0 ==> forall f :: f in arriving ==> |f.metadata| <= capacity)
    decreases frames
  {
    if frames != 0 {
      var r := replies[0];
      if !r.cancelled && Good(r, c.length, capacity, mask) {
        var c' := c.(mask := r.mask, cached := c.cached + [r.frame]);
        FillArrives(c', frames - 1, capacity, mask, replies[1..]);
        ArrivingSame(c, c', frames - 1, capacity, mask, replies[1..]);
      }
    }
  }

  lemma {:induction false} ArrivingSame(c: Client, c': Client, frames: nat, capacity: nat, mask: Mask,
                                            replies: seq<Reply>)
    requires frames <= |replies| && c.failed == c'.failed && c.length == c'.length
    ensures Arriving(c, frames, capacity, mask, replies) == Arriving(c', frames, capacity, mask, replies)
    decreases frames
  {
    if frames != 0 {
      ArrivingSame(c, c', frames - 1, capacity, mask, replies[1..]);
    }
  }

  lemma DirectStep(w: World, capacity: nat, replies: seq<Reply>, late: bool)
    requires Inv(w) && w.c.batchSize <= |replies| && !w.c.failed && w.c.directFrames != 0
    ensures Inv(Next(w, RefillOne(capacity, replies, late)))
  {
  }

  lemma CachedStep(w: World, capacity: nat, replies: seq<Reply>, late: bool)
    requires Inv(w) && w.c.batchSize <= |replies| && !w.c.failed && w.c.directFrames == 0
    requires w.c.cached != [] || w.c.batchSize == 1
    ensures Inv(Next(w, RefillOne(capacity, replies, late)))
  {
    if w.c.cached != [] {
      assert w.returned + w.c.cached == w.returned + [w.c.cached[0]] + w.c.cached[1..];
    }
  }

  lemma BatchStep(w: World, capacity: nat, replies: seq<Reply>, late: bool)
    requires Inv(w) && w.c.batchSize <= |replies| && !w.c.failed && w.c.directFrames == 0
    requires w.c.cached == [] && w.c.batchSize != 1
    ensures Inv(Next(w, RefillOne(capacity, replies, late)))
  {
    if BatchFits(w.c.batchSize, w.c.length, capacity) {
      FillArrives(w.c, w.c.batchSize, capacity, w.c.mask, replies);
      var filled := Fill(w.c, w.c.batchSize, capacity, w.c.mask, replies).0;
      if filled.cached != [] {
        assert w.returned + filled.cached == w.returned + [filled.cached[0]] + filled.cached[1..];
      }
    }
  }

  lemma RefillStep(w: World, capacity: nat, replies: seq<Reply>, late: bool)
    requires Inv(w)
    ensures Inv(Next(w, RefillOne(capacity, replies, late)))
  {
    if w.c.batchSize <= |replies| && !w.c.failed {
      if w.c.directFrames != 0 {
        DirectStep(w, capacity, replies, late);
      } else if w.c.cached != [] || w.c.batchSize == 1 {
        CachedStep(w, capacity, replies, late);
      } else {
        BatchStep(w, capacity, replies, late);
      }
    }
  }

  lemma NextInv(w: World, op: Op)
    requires Inv(w)
    ensures Inv(Next(w, op))
  {
    match op
    case RefillOne(capacity, replies, late) => RefillStep(w, capacity, replies, late);
    case _ =>
  }

  function Run(w: World, ops: seq<Op>): World
    requires Inv(w)
    decreases |ops|
  {
    if ops == [] then w
    else
      NextInv(w, ops[0]);
      Run(Next(w, ops[0]), ops[1..])
  }

  lemma {:induction false} RunInv(w: World, ops: seq<Op>)
    requires Inv(w)
    ensures Inv(Run(w, ops))
    decreases |ops|
  {
    if ops != [] {
      NextInv(w, ops[0]);
      RunInv(Next(w, ops[0]), ops[1..]);
    }
  }

  /** Whatever is called, whatever the backend answers and whenever another thread cancels: the
      frames handed out are the first ones the backend delivered, in order; until a failure the
      client's pending count is the number of replies owed on the wire, and no control command is
      written while any is owed; the backend is cancelled at most once, and only by a failure. */
  lemma RunIsSafe(length: nat, mask: Mask, ops: seq<Op>)
    ensures var w := Run(Init(length, mask), ops);
            && w.returned <= w.received
            && (!w.c.failed ==> w.c.pending == w.owed && w.returned + w.c.cached == w.received)
            && (forall o :: o in w.controls ==> o == 0)
            && w.c.cancels == (if w.c.failed then 1 else 0)
  {
    RunInv(Init(length, mask), ops);
  }

  /** In every state a run reaches: which of the other calls are accepted. `owed` counts the replies not
      yet read and `received` and `returned` the frames, so each says what the caller may rely on. */
  lemma AcceptedExactly(length: nat, mask: Mask, ops: seq<Op>, frames: nat, capacity: nat, peer: int, capability: int,
                        sent: int, looksAtCache: bool, supported: bool)
    ensures var w := Run(Init(length, mask), ops);
            && (Arm(w.c, frames, capacity, peer, capability, sent).1 == 0 <==>
                  && 0 < frames <= IIO_BUFFER_METADATA_DIRECT_MAX && 0 < capacity && !w.c.failed
                  && w.owed == 0 && w.returned == w.received && w.c.batchSize == 1
                  && peer >= 0 && capability >= 0 && sent >= 0)
            && (SetBatchSize(w.c, frames, supported).1 == 0 <==>
                  && 0 < frames <= IIO_BUFFER_METADATA_BATCH_MAX && !w.c.failed && w.c.directFrames == 0
                  && w.returned == w.received && (frames == 1 || supported))
            && (Control(w.c, looksAtCache, supported) == 0 <==>
                  && !w.c.failed && w.owed == 0 && supported && (looksAtCache ==> w.returned == w.received))
  {
    var w := Run(Init(length, mask), ops);
    RunInv(Init(length, mask), ops);
    if !w.c.failed {
      assert |w.returned + w.c.cached| == |w.returned| + |w.c.cached|;
      assert w.c.cached == [] <==> w.returned == w.received;
    }
  }

  /** A segment that the backend refuses before its first frame, because it is busy or has no data, is
      given up and nothing else: the client is as it was before, nothing is owed, nothing was cancelled,
      and a new segment can be armed at once. */
  lemma RefusedSegmentRearms(length: nat, mask: Mask, ops: seq<Op>, frames: nat, capacity: nat, r: Reply,
                             others: seq<Reply>, late: bool, again: nat, space: nat)
    requires (r.read == -EBUSY || r.read == -ENODATA) && !r.cancelled
    requires 0 < again <= IIO_BUFFER_METADATA_DIRECT_MAX && 0 < space
    ensures var w := Run(Init(length, mask), ops);
            Arm(w.c, frames, capacity, 0, 0, 0).1 == 0 ==>
              var armed := Next(w, ArmSegment(frames, capacity, 0, 0, 0));
              var n := Next(armed, RefillOne(capacity, [r] + others, late));
              && armed.c.pending == armed.owed == frames
              && !n.c.failed && n.c.cancels == w.c.cancels && n.c.pending == n.owed == 0
              && n.returned == w.returned && n.received == w.received
              && Refill(armed.c, capacity, [r] + others, late).1 == Error(r.read)
              && Arm(n.c, again, space, 0, 0, 0).1 == 0
  {
    var w := Run(Init(length, mask), ops);
    RunInv(Init(length, mask), ops);
    if Arm(w.c, frames, capacity, 0, 0, 0).1 == 0 {
      var armed := Next(w, ArmSegment(frames, capacity, 0, 0, 0));
      NextInv(w, ArmSegment(frames, capacity, 0, 0, 0));
      NextInv(armed, RefillOne(capacity, [r] + others, late));
      assert ([r] + others)[0] == r;
    }
  }

  /** What a read of an armed segment does, if no one cancels: a frame of the right sizes and mask is
      handed out and is the next one; anything else is an error, and fails the buffer exactly when a
      frame was read before it or it is neither of those two errors. */
  lemma SegmentFailsExactly(w: World, capacity: nat, replies: seq<Reply>, late: bool)
    requires Inv(w) && !w.c.failed && 0 < w.c.pending && w.c.batchSize <= |replies| && !replies[0].cancelled
    requires capacity == w.c.directCapacity && w.c.mask == w.c.directMask
    ensures var r := replies[0];
            var good := r.read == w.c.length > 0 && |r.frame.iq| == w.c.length && r.frame.metadata != [] &&
                        |r.frame.metadata| <= capacity && r.mask == w.c.mask;
            var n := Next(w, RefillOne(capacity, replies, late));
            if good then
              && Refill(w.c, capacity, replies, late).1 == Got(r.frame) && !n.c.failed
              && n.returned == w.returned + [r.frame] && n.c.pending == w.c.pending - 1
            else
              && Refill(w.c, capacity, replies, late).1 == Error(if r.read < 0 then r.read else -EIO)
              && n.returned == w.returned
              && (n.c.failed <==> w.c.pending < w.c.directFrames || (r.read != -EBUSY && r.read != -ENODATA))
              && (n.c.failed ==> n.c.cancels == w.c.cancels + 1)
  {
  }

  /** Whether a refill goes to the backend, and for how many frames. */
  function Reads(c: Client, capacity: nat): nat
    requires 0 < c.batchSize
  {
    if c.failed || c.cached != [] then 0
    else if c.directFrames != 0 then
      (if c.pending != 0 && capacity == c.directCapacity && c.mask == c.directMask then 1 else 0)
    else if c.batchSize == 1 || BatchFits(c.batchSize, c.length, capacity) then c.batchSize
    else 0
  }

  lemma {:induction false} FillSeesCancel(c: Client, frames: nat, capacity: nat, mask: Mask, replies: seq<Reply>,
                                          k: nat)
    requires k < frames <= |replies| && replies[k].cancelled
    ensures Fill(c, frames, capacity, mask, replies).1 != 0
    decreases frames
  {
    var r := replies[0];
    var c' := Interrupted(c, r.cancelled).(mask := r.mask);
    if k > 0 && !c'.failed && Good(r, c.length, capacity, mask) {
      FillSeesCancel(c'.(cached := c'.cached + [r.frame]), frames - 1, capacity, mask, replies[1..], k - 1);
    }
  }

  /** A cancel by another thread while a reply is read, or before a frame is taken from the cache, is
      never missed: no frame is handed out, and the buffer has failed. */
  lemma CancelIsSeen(w: World, capacity: nat, replies: seq<Reply>, late: bool)
    requires Inv(w) && !w.c.failed && w.c.batchSize <= |replies|
    requires (exists k :: 0 <= k < Reads(w.c, capacity) && replies[k].cancelled) ||
             (late && w.c.cached != [] && |w.c.cached[0].metadata| <= capacity)
    ensures var n := Next(w, RefillOne(capacity, replies, late));
            && n.c.failed && n.c.cancels == 1 && n.returned == w.returned
            && (w.c.cached != [] ==> Refill(w.c, capacity, replies, late).1 == Error(-EBADF))
            && (w.c.batchSize == 1 && w.c.cached == [] && Good(replies[0], w.c.length, capacity, w.c.mask) ==>
                  Refill(w.c, capacity, replies, late).1 == Error(-EBADF) &&
                  (w.c.pending != 0 ==> n.c.pending == w.c.pending - 1))
  {
    NextInv(w, RefillOne(capacity, replies, late));
    if w.c.cached == [] && w.c.batchSize != 1 {
      var k :| 0 <= k < Reads(w.c, capacity) && replies[k].cancelled;
      FillSeesCancel(w.c, w.c.batchSize, capacity, w.c.mask, replies, k);
      FillArrives(w.c, w.c.batchSize, capacity, w.c.mask, replies);
    }
  }

  lemma {:induction false} FillStopsAt(c: Client, frames: nat, capacity: nat, mask: Mask, replies: seq<Reply>, k: nat)
    requires k < frames <= |replies| && !c.failed
    requires forall j :: 0 <= j < k ==> !replies[j].cancelled && Good(replies[j], c.length, capacity, mask)
    requires replies[k].cancelled || !Good(replies[k], c.length, capacity, mask)
    ensures var (c', ret) := Fill(c, frames, capacity, mask, replies);
            c'.failed && c'.cached == [] && ret == if replies[k].cancelled then -EBADF else Code(replies[k])
    decreases frames
  {
    if k > 0 {
      var c' := c.(mask := replies[0].mask, cached := c.cached + [replies[0].frame]);
      FillStopsAt(c', frames - 1, capacity, mask, replies[1..], k - 1);
    }
  }

  /** The first reply of a batch that is not as it should be fails the buffer, and its code is returned;
      the frames of the batch that arrived before it are lost. */
  lemma BatchStopsAt(w: World, capacity: nat, replies: seq<Reply>, late: bool, k: nat)
    requires Inv(w) && !w.c.failed && w.c.cached == [] && 1 < w.c.batchSize <= |replies|
    requires k < Reads(w.c, capacity)
    requires forall j :: 0 <= j < k ==> !replies[j].cancelled && Good(replies[j], w.c.length, capacity, w.c.mask)
    requires replies[k].cancelled || !Good(replies[k], w.c.length, capacity, w.c.mask)
    ensures var (n, result) := Refill(w.c, capacity, replies, late);
            && n.failed && n.cached == []
            && result == Error(if replies[k].cancelled then -EBADF
                               else if replies[k].read < 0 then replies[k].read else -EIO)
  {
    FillStopsAt(w.c, w.c.batchSize, capacity, w.c.mask, replies, k);
    FillArrives(w.c, w.c.batchSize, capacity, w.c.mask, replies);
  }

  /** A batch that arrives whole is kept even when a cancel stops its first frame from being returned. */
  lemma LateCancelOfBatch(w: World, capacity: nat, replies: seq<Reply>)
    requires Inv(w) && !w.c.failed && 1 < w.c.batchSize <= |replies| && w.c.cached == []
    requires Reads(w.c, capacity) != 0 && Fill(w.c, w.c.batchSize, capacity, w.c.mask, replies).1 == 0
    ensures var n := Next(w, RefillOne(capacity, replies, true));
            && n.c.failed && n.returned == w.returned && |n.received| == |w.received| + w.c.batchSize
            && Refill(w.c, capacity, replies, true).1 == Error(-EBADF)
  {
    FillArrives(w.c, w.c.batchSize, capacity, w.c.mask, replies);
  }

  /** The refills that fail without reading anything. Only a caller whose buffers are of other sizes
      than the segment was armed with loses the segment by it. */
  lemma RefillsRefused(w: World, capacity: nat, replies: seq<Reply>, late: bool)
    requires Inv(w) && w.c.batchSize <= |replies| && Reads(w.c, capacity) == 0
    ensures var (n, result) := Refill(w.c, capacity, replies, late);
            && (w.c.failed ==> result == Error(-EBADF) && n == w.c.(cached := []))
            && (!w.c.failed && w.c.cached != [] && capacity < |w.c.cached[0].metadata| ==>
                  result == Error(-ENOSPC) && n == w.c)
            && (!w.c.failed && w.c.cached == [] && w.c.directFrames == 0 ==> result == Error(-E2BIG) && n == w.c)
            && (!w.c.failed && w.c.directFrames != 0 && w.c.pending == 0 ==> result == Error(-ENODATA) && n == w.c)
            && (!w.c.failed && w.c.pending != 0 ==>
                  result == Error(-EINVAL) && n.failed && n.cancels == w.c.cancels + 1)
  {
  }

  /** A single read that fails leaves the buffer as it is. */
  lemma SingleReadFails(w: World, capacity: nat, replies: seq<Reply>, late: bool)
    requires Inv(w) && !w.c.failed && w.c.batchSize == 1 <= |replies| && w.c.cached == [] && w.c.directFrames == 0
    requires replies[0].read < 0 && !replies[0].cancelled
    ensures var (n, result) := Refill(w.c, capacity, replies, late);
            result == Error(replies[0].read) && n == w.c.(mask := replies[0].mask)
  {
  }

  /** The codes of the calls that are refused, in every state a run reaches. A refused call changes
      nothing, except that a segment the peer cannot serve takes the last one with it, and one that
      cannot be sent fails the buffer. */
  lemma RefusalCodes(length: nat, mask: Mask, ops: seq<Op>, frames: nat, capacity: nat, peer: int, capability: int,
                     sent: int, supported: bool)
    requires peer <= 0 && capability <= 0 && sent <= 0
    ensures var w := Run(Init(length, mask), ops);
            var (b, batch) := SetBatchSize(w.c, frames, supported);
            && (batch != 0 ==> b == w.c)
            && (batch == -EINVAL <==> frames == 0) && (batch == -E2BIG <==> frames > 64)
            && (batch == -EBADF <==> 0 < frames <= 64 && w.c.failed)
            && (batch == -EBUSY <==>
                  0 < frames <= 64 && !w.c.failed && (w.returned != w.received || w.c.directFrames != 0))
            && batch in {0, -EINVAL, -E2BIG, -EBADF, -EBUSY, -ENOSYS}
    ensures var w := Run(Init(length, mask), ops);
            var (a, armed) := Arm(w.c, frames, capacity, peer, capability, sent);
            var sane := 0 < frames <= 8192 && 0 < capacity;
            var busy := w.owed != 0 || w.returned != w.received || w.c.batchSize != 1;
            && (!sane ==> armed == if frames == 0 || capacity == 0 then -EINVAL else -E2BIG)
            && (sane && w.c.failed ==> armed == -EBADF) && (sane && !w.c.failed && busy ==> armed == -EBUSY)
            && (!sane || w.c.failed || busy || peer != 0 ==> a == w.c)
            && (sane && !w.c.failed && !busy ==>
                  && armed == (if peer != 0 then peer else if capability != 0 then capability else sent)
                  && (a.failed <==> peer == 0 && capability == 0 && sent != 0)
                  && (peer == 0 && capability != 0 ==> a.directFrames == 0 && a.pending == 0 && !a.failed))
  {
    var w := Run(Init(length, mask), ops);
    RunInv(Init(length, mask), ops);
    if !w.c.failed {
      assert |w.returned + w.c.cached| == |w.returned| + |w.c.cached|;
      assert w.c.cached == [] <==> w.returned == w.received;
    }
  }

  /** After a failure every refill returns -EBADF, and nothing brings the buffer back. */
  lemma {:induction false} FailureAbsorbs(w: World, ops: seq<Op>)
    requires Inv(w) && w.c.failed
    ensures Run(w, ops).c.failed && Run(w, ops).returned == w.returned && Run(w, ops).controls == w.controls
    ensures forall capacity: nat, replies: seq<Reply>, late: bool
              {:trigger Refill(Run(w, ops).c, capacity, replies, late)} ::
              0 < Run(w, ops).c.batchSize <= |replies| ==>
                Refill(Run(w, ops).c, capacity, replies, late).1 == Error(-EBADF)
    decreases |ops|
  {
    if ops != [] {
      NextInv(w, ops[0]);
      FailureAbsorbs(Next(w, ops[0]), ops[1..]);
    }
  }

  // ---------------------------------------------------------------------------------------
  // Batches

  lemma DivideBound(a: nat, n: nat, b: nat)
    requires 0 < n
    ensures a <= b / n <==> a * n <= b
  {
    var q := b / n;
    assert q * n <= b < (q + 1) * n;
    if a <= q {
      assert a * n <= q * n;
    } else {
      assert (q + 1) * n <= a * n;
    }
  }

  /** The three checks together say that everything fits 64 MiB. */
  lemma BatchFitsInAll(frames: nat, length: nat, capacity: nat)
    requires 0 < frames
    ensures BatchFits(frames, length, capacity) <==>
              16 * frames + length * frames + capacity * frames <= 0x400_0000
  {
    var limit, arrays := IIO_BUFFER_METADATA_BATCH_BYTES_MAX, frames * SIZEOF_SIZE_T * 2;
    if arrays <= limit {
      DivideBound(length, frames, limit - arrays);
      if length * frames <= limit - arrays {
        DivideBound(capacity, frames, limit - arrays - length * frames);
      }
    }
  }

  /** Refills with these capacities, one after the other. */
  function RefillEach(c: Client, capacities: seq<nat>, replies: seq<Reply>): Client
    requires 0 < c.batchSize <= |replies|
    decreases |capacities|
  {
    if capacities == [] then c
    else RefillEach(Refill(c, capacities[0], replies, false).0, capacities[1..], replies)
  }

  /** However often the caller offers too little space for the record, the next refill with enough
      returns the frame, and the rest of the batch stays behind it. */
  lemma {:induction false} ShortCapacityLosesNothing(c: Client, capacities: seq<nat>, capacity: nat,
                                                         replies: seq<Reply>)
    requires 0 < c.batchSize <= |replies| && !c.failed && c.directFrames == 0 && c.cached != []
    requires forall i :: 0 <= i < |capacities| ==> capacities[i] < |c.cached[0].metadata|
    requires |c.cached[0].metadata| <= capacity
    ensures RefillEach(c, capacities, replies).batchSize == c.batchSize
    ensures Refill(RefillEach(c, capacities, replies), capacity, replies, false) ==
            (c.(cached := c.cached[1..]), Got(c.cached[0]))
    decreases |capacities|
  {
    if capacities != [] {
      ShortCapacityLosesNothing(c, capacities[1..], capacity, replies);
    }
  }

  function Replies(frames: seq<Frame>, length: nat, mask: Mask): (rs: seq<Reply>)
    ensures |rs| == |frames|
  {
    if frames == [] then []
    else [Reply(length, frames[0], mask, false)] + Replies(frames[1..], length, mask)
  }

  /** A backend that never errs, from frame `at` of what it has on. */
  predicate Flawless(frames: seq<Frame>, length: nat, capacity: nat) {
    0 < length && forall f :: f in frames ==> Fits(f, length, capacity)
  }

  lemma {:induction false} FlawlessFill(c: Client, n: nat, capacity: nat, mask: Mask, frames: seq<Frame>)
    requires !c.failed && n <= |frames| && Flawless(frames, c.length, capacity) && c.mask == mask
    ensures Fill(c, n, capacity, mask, Replies(frames, c.length, mask)) == (c.(cached := c.cached + frames[..n]), 0)
    decreases n
  {
    var rs := Replies(frames, c.length, mask);
    if n == 0 {
      assert c.cached + frames[..0] == c.cached;
    } else {
      FlawlessFill(c.(cached := c.cached + [frames[0]]), n - 1, capacity, mask, frames[1..]);
      assert c.cached + [frames[0]] + frames[1..][..n - 1] == c.cached + frames[..n];
      assert rs[1..] == Replies(frames[1..], c.length, mask);
    }
  }

  /** A refill from a backend that has `frames` on, the first of them in the cache already. */
  function RefillFrom(c: Client, capacity: nat, frames: seq<Frame>): (r: (Client, Result))
    requires 0 < c.batchSize && |c.cached| + c.batchSize <= |frames|
    ensures r.0.batchSize == c.batchSize
  {
    Refill(c, capacity, Replies(frames[|c.cached|..], c.length, c.mask), false)
  }

  /** Between two refills the caller may ask for another batch size. */
  function Refills(c: Client, sizes: seq<nat>, capacity: nat, frames: seq<Frame>): (Client, seq<Frame>)
    requires 0 < c.batchSize <= IIO_BUFFER_METADATA_BATCH_MAX
    decreases |sizes|
  {
    if sizes == [] then (c, [])
    else
      var c1 := SetBatchSize(c, sizes[0], true).0;
      if |frames| < |c1.cached| + c1.batchSize then (c1, [])
      else
        var (c2, result) := RefillFrom(c1, capacity, frames);
        if result.Error? then (c2, [])
        else
          var (c3, later) := Refills(c2, sizes[1..], capacity, frames[1..]);
          (c3, [result.frame] + later)
  }

  predicate AllFit(length: nat, capacity: nat) {
    forall n {:trigger BatchFits(n, length, capacity)} ::
      1 < n <= IIO_BUFFER_METADATA_BATCH_MAX ==> BatchFits(n, length, capacity)
  }

  lemma FlawlessRefill(c: Client, capacity: nat, frames: seq<Frame>)
    requires 0 < c.batchSize <= IIO_BUFFER_METADATA_BATCH_MAX && !c.failed && c.directFrames == 0
    requires Flawless(frames, c.length, capacity) && AllFit(c.length, capacity)
    requires |c.cached| + c.batchSize <= |frames| && c.cached <= frames
    ensures var (c', result) := Refill(c, capacity, Replies(frames[|c.cached|..], c.length, c.mask), false);
            && result == Got(frames[0]) && c'.cached <= frames[1..]
            && c' == c.(cached := c'.cached)
  {
    if c.cached != [] {
      assert c.cached[0] == frames[0] && frames[0] in frames;
    } else {
      assert frames[0..] == frames;
      if c.batchSize == 1 {
        assert Replies(frames, c.length, c.mask)[0].frame == frames[0];
      } else {
        assert BatchFits(c.batchSize, c.length, capacity);
        FlawlessFill(c, c.batchSize, capacity, c.mask, frames);
        assert [] + frames[..c.batchSize] == frames[..c.batchSize];
        assert frames[0] in frames;
      }
    }
  }

  /** Batching is invisible: with any batch sizes, changed at any time, the refills of a backend
      that does not err return its frames one by one, from the first on, just as unbatched refills
      do. */
  lemma {:induction false} BatchingIsInvisible(c: Client, sizes: seq<nat>, capacity: nat, frames: seq<Frame>)
    requires 0 < c.batchSize <= IIO_BUFFER_METADATA_BATCH_MAX && !c.failed && c.directFrames == 0
    requires Flawless(frames, c.length, capacity) && AllFit(c.length, capacity)
    requires c.cached <= frames && |sizes| + 2 * IIO_BUFFER_METADATA_BATCH_MAX <= |frames|
    requires |c.cached| < IIO_BUFFER_METADATA_BATCH_MAX
    ensures Refills(c, sizes, capacity, frames).1 == frames[..|sizes|]
    decreases |sizes|
  {
    if sizes != [] {
      var c1 := SetBatchSize(c, sizes[0], true).0;
      FlawlessRefill(c1, capacity, frames);
      var c2 := Refill(c1, capacity, Replies(frames[|c1.cached|..], c1.length, c1.mask), false).0;
      RefillCacheBound(c1, capacity, Replies(frames[|c1.cached|..], c1.length, c1.mask));
      BatchingIsInvisible(c2, sizes[1..], capacity, frames[1..]);
      assert [frames[0]] + frames[1..][..|sizes| - 1] == frames[..|sizes|];
    }
  }

  lemma RefillCacheBound(c: Client, capacity: nat, replies: seq<Reply>)
    requires 0 < c.batchSize <= |replies| && c.batchSize <= IIO_BUFFER_METADATA_BATCH_MAX
    requires |c.cached| < IIO_BUFFER_METADATA_BATCH_MAX && c.directFrames == 0
    ensures |Refill(c, capacity, replies, false).0.cached| < IIO_BUFFER_METADATA_BATCH_MAX ||
            Refill(c, capacity, replies, false).1 == Error(-ENOSPC)
  {
  }
}
