/**
 The buffer object of buffer.c: the batch cache as flat byte arrays with one slot a frame, and the
 refill that fills it. Refill is proved to do to `View()` what MetadataClient says.
 */
module BatchBuffer {
  import opened Errno
  import opened Octets
  import opened FrameReply
  import opened MetadataClient
  import opened Slices
  import opened Strides

  /** The arrays of a batch, as sequences. */
  datatype Slots = Slots(frames: nat, length: nat, capacity: nat, iq: seq<byte>, metadata: seq<byte>,
                         iqBytes: seq<nat>, metadataBytes: seq<nat>)

  predicate Sized(s: Slots) {
    && |s.iq| == At(s.frames, s.length) && |s.metadata| == At(s.frames, s.capacity)
    && |s.iqBytes| == |s.metadataBytes| == s.frames
  }

  /** Slot `i` holds frame `f`. */
  predicate Holds(s: Slots, i: nat, f: Frame) {
    && i < s.frames && Sized(s)
    && s.iqBytes[i] == |f.iq| <= s.length && s.metadataBytes[i] == |f.metadata| <= s.capacity
    && At(i, s.length) + |f.iq| <= |s.iq| && At(i, s.capacity) + |f.metadata| <= |s.metadata|
    && s.iq[At(i, s.length)..At(i, s.length) + |f.iq|] == f.iq
    && s.metadata[At(i, s.capacity)..At(i, s.capacity) + |f.metadata|] == f.metadata
  }

  predicate Room(s: Slots, slot: nat, f: Frame) {
    && Sized(s) && slot < s.frames && |f.iq| <= s.length && |f.metadata| <= s.capacity
    && At(slot, s.length) + s.length <= |s.iq| && At(slot, s.capacity) + s.capacity <= |s.metadata|
  }

  function Stored(s: Slots, slot: nat, f: Frame): Slots
    requires Room(s, slot, f)
  {
    s.(iq := Over(s.iq, At(slot, s.length), f.iq), metadata := Over(s.metadata, At(slot, s.capacity), f.metadata),
       iqBytes := s.iqBytes[slot := |f.iq|], metadataBytes := s.metadataBytes[slot := |f.metadata|])
  }

  lemma SplicedElsewhere(was: seq<byte>, at: nat, src: seq<byte>, from: nat, upto: nat)
    requires at + |src| <= |was| && from <= upto <= at
    ensures Over(was, at, src)[from..upto] == was[from..upto]
  {
  }

  lemma StoreKeeps(s: Slots, slot: nat, f: Frame, i: nat, g: Frame)
    requires Room(s, slot, f) && i < slot && Holds(s, i, g)
    ensures Holds(Stored(s, slot, f), i, g)
  {
    SlotsApart(i, slot, s.length);
    SlotsApart(i, slot, s.capacity);
    SplicedElsewhere(s.iq, At(slot, s.length), f.iq, At(i, s.length), At(i, s.length) + |g.iq|);
    SplicedElsewhere(s.metadata, At(slot, s.capacity), f.metadata, At(i, s.capacity), At(i, s.capacity) + |g.metadata|);
  }

  lemma StoreHolds(s: Slots, slot: nat, f: Frame)
    requires Room(s, slot, f)
    ensures Holds(Stored(s, slot, f), slot, f)
  {
    var iq, metadata := Over(s.iq, At(slot, s.length), f.iq), Over(s.metadata, At(slot, s.capacity), f.metadata);
    assert iq[At(slot, s.length)..At(slot, s.length) + |f.iq|] == f.iq;
    assert metadata[At(slot, s.capacity)..At(slot, s.capacity) + |f.metadata|] == f.metadata;
  }

  /** The arrays of one batch. */
  class FrameCache {
    const frames: nat
    const length: nat
    const capacity: nat
    const iq: array<byte>
    const metadata: array<byte>
    const iqBytes: array<nat>
    const metadataBytes: array<nat>
    ghost var contents: seq<Frame>

    ghost function Arrays(): Slots
      reads this, iq, metadata, iqBytes, metadataBytes
    {
      Slots(frames, length, capacity, iq[..], metadata[..], iqBytes[..], metadataBytes[..])
    }

    ghost predicate Valid()
      reads this, iq, metadata, iqBytes, metadataBytes
    {
      && iq != metadata && iqBytes != metadataBytes && Sized(Arrays()) && |contents| <= frames
      && forall i :: 0 <= i < |contents| ==> Holds(Arrays(), i, contents[i])
    }

    constructor (frames: nat, length: nat, capacity: nat)
      ensures Valid() && contents == [] && this.frames == frames
      ensures this.length == length && this.capacity == capacity
      ensures fresh(iq) && fresh(metadata) && fresh(iqBytes) && fresh(metadataBytes)
    {
      this.frames, this.length, this.capacity := frames, length, capacity;
      AtIsProduct(frames, length);
      AtIsProduct(frames, capacity);
      iq := new byte[frames * length];
      metadata := new byte[frames * capacity];
      iqBytes := new nat[frames];
      metadataBytes := new nat[frames];
      contents := [];
    }

    /** The next frame goes to its own slot and disturbs no other. */
    method Store(slot: nat, f: Frame)
      requires Valid() && slot == |contents| < frames && |f.iq| <= length && |f.metadata| <= capacity
      modifies this, iq, metadata, iqBytes, metadataBytes
      ensures Valid() && contents == old(contents) + [f]
    {
      SlotsApart(slot, frames, length);
      SlotsApart(slot, frames, capacity);
      ghost var was := Arrays();
      AtIsProduct(slot, length);
      AtIsProduct(slot, capacity);
      Copy(iq, slot * length, f.iq);
      Copy(metadata, slot * capacity, f.metadata);
      iqBytes[slot], metadataBytes[slot] := |f.iq|, |f.metadata|;
      assert Arrays() == Stored(was, slot, f);
      forall i | 0 <= i < slot ensures Holds(Arrays(), i, contents[i]) {
        StoreKeeps(was, slot, f, i, contents[i]);
      }
      StoreHolds(was, slot, f);
      contents := contents + [f];
    }

    /** What slot `i` holds. */
    method Load(i: nat) returns (f: Frame)
      requires Valid() && i < |contents|
      ensures f == contents[i]
    {
      assert Holds(Arrays(), i, contents[i]);
      AtIsProduct(i, length);
      AtIsProduct(i, capacity);
      f := Frame(iq[i * length..i * length + iqBytes[i]], metadata[i * capacity..i * capacity + metadataBytes[i]]);
    }
  }

  // ---------------------------------------------------------------------------------------
  // The buffer

  /** The metadata fields of `struct iio_buffer`. */
  datatype Core = Core(length: nat, mask: Mask, batchSize: nat, failed: bool, cachedFrames: nat, nextFrame: nat,
                       directFrames: nat, pending: nat, directCapacity: nat, directMask: Mask, cancels: nat)

  function AsClient(core: Core, cached: seq<Frame>): Client {
    Client(core.length, core.mask, core.batchSize, core.failed, cached, core.directFrames, core.pending,
           core.directCapacity, core.directMask, core.cancels)
  }

  /** The rest of a batch, from reply `frame` on. */
  function FillRest(c: Client, frames: nat, frame: nat, capacity: nat, mask: Mask, replies: seq<Reply>): (Client, int)
    requires frame <= frames <= |replies|
  {
    Fill(c, frames - frame, capacity, mask, replies[frame..])
  }

  lemma FillWhole(c: Client, frames: nat, capacity: nat, mask: Mask, replies: seq<Reply>)
    requires frames <= |replies|
    ensures FillRest(c, frames, 0, capacity, mask, replies) == Fill(c, frames, capacity, mask, replies)
    ensures FillRest(c, frames, frames, capacity, mask, replies) == (c, 0)
  {
    assert replies[0..] == replies;
  }

  lemma FillTurn(c: Client, frames: nat, frame: nat, capacity: nat, mask: Mask, replies: seq<Reply>)
    requires frame < frames <= |replies|
    ensures var r := replies[frame];
            var c' := Interrupted(c, r.cancelled).(mask := r.mask);
            FillRest(c, frames, frame, capacity, mask, replies) ==
            if c'.failed then (c'.(cached := []), -EBADF)
            else if !Good(r, c.length, capacity, mask) then (Fail(c'), Code(r))
            else FillRest(c'.(cached := c'.cached + [r.frame]), frames, frame + 1, capacity, mask, replies)
  {
    assert replies[frame..][0] == replies[frame] && replies[frame..][1..] == replies[frame + 1..];
  }

  class MetadataBuffer {
    var core: Core
    var cache: FrameCache?

    /** The frames of the batch not yet handed out. */
    ghost function Cached(): seq<Frame>
      reads this, cache
    {
      if cache != null && core.nextFrame < core.cachedFrames <= |cache.contents|
      then cache.contents[core.nextFrame..core.cachedFrames] else []
    }

    ghost predicate Valid()
      reads this, cache
      reads if cache == null then {} else {cache.iq, cache.metadata}
      reads if cache == null then {} else {cache.iqBytes, cache.metadataBytes}
    {
      && 0 < core.batchSize && core.nextFrame <= core.cachedFrames
      && (core.nextFrame < core.cachedFrames ==>
            cache != null && cache.Valid() && core.cachedFrames == |cache.contents|)
    }

    ghost function View(): Client
      reads this, cache
    {
      AsClient(core, Cached())
    }

    constructor (length: nat, mask: Mask)
      ensures Valid() && View() == Init(length, mask).c
    {
      core := Core(length, mask, 1, false, 0, 0, 0, 0, 0, [], 0);
      cache := null;
    }

    /** `iio_buffer_cancel`: the first to mark the buffer as failed cancels the backend. */
    method CancelBuffer()
      requires Valid()
      modifies `core
      ensures Valid() && View() == Cancel(old(View())) && core == old(core).(failed := true, cancels := core.cancels)
    {
      var first := !core.failed;
      core := core.(failed := true, cancels := core.cancels + (if first then 1 else 0));
    }

    method FreeCache()
      requires Valid()
      modifies this
      ensures Valid() && View() == old(View()).(cached := [])
      ensures core == old(core).(cachedFrames := 0, nextFrame := 0)
    {
      cache := null;
      core := core.(cachedFrames := 0, nextFrame := 0);
    }

    /** `fail_metadata_batch`. */
    method FailBatch()
      requires Valid()
      modifies this
      ensures Valid() && View() == Fail(old(View()))
    {
      CancelBuffer();
      FreeCache();
    }

    /** One call of the backend, during which another thread may cancel. */
    method Receive(r: Reply)
      requires Valid()
      modifies `core
      ensures Valid() && View() == Interrupted(old(View()), r.cancelled).(mask := r.mask)
      ensures core.cachedFrames == old(core.cachedFrames) && core.nextFrame == old(core.nextFrame)
    {
      if r.cancelled {
        CancelBuffer();
      }
      core := core.(mask := r.mask);
    }

    method ReadDirect(capacity: nat, r: Reply) returns (result: Result)
      requires Valid()
      modifies this
      ensures Valid() && (View(), result) == RefillDirect(old(View()), capacity, r)
    {
      if core.pending == 0 {
        return Error(-ENODATA);
      }
      if capacity != core.directCapacity || core.mask != core.directMask {
        FailBatch();
        return Error(-EINVAL);
      }
      Receive(r);
      if r.read <= 0 || r.read != core.length || !Fits(r.frame, core.length, capacity) || core.mask != core.directMask {
        var code := if r.read < 0 then r.read else -EIO;
        if core.pending == core.directFrames && (code == -EBUSY || code == -ENODATA) {
          core := core.(directFrames := 0, pending := 0, directCapacity := 0, directMask := []);
        } else {
          FailBatch();
        }
        return Error(code);
      }
      core := core.(pending := core.pending - 1);
      if core.failed {
        return Error(-EBADF);
      }
      result := Got(r.frame);
    }

    method ReadCached(capacity: nat, late: bool) returns (result: Result)
      requires Valid() && core.nextFrame < core.cachedFrames
      modifies this
      ensures Valid() && old(Cached()) != [] && (View(), result) == RefillCached(old(View()), capacity, late)
    {
      ghost var was := Cached();
      var frame := cache.Load(core.nextFrame);
      assert was[0] == frame && was[1..] == cache.contents[core.nextFrame + 1..core.cachedFrames];
      if capacity < |frame.metadata| {
        return Error(-ENOSPC);
      }
      if late {
        CancelBuffer();
        return Error(-EBADF);
      }
      core := core.(nextFrame := core.nextFrame + 1);
      if core.nextFrame == core.cachedFrames {
        FreeCache();
      }
      result := Got(frame);
    }

    /** A batch that failed: another thread's cancellation comes first. */
    method AbandonBatch(read: int) returns (ret: int)
      requires Valid()
      modifies this
      ensures Valid()
      ensures View() == if old(core.failed) then old(View()).(cached := []) else Fail(old(View()))
      ensures ret == if old(core.failed) then -EBADF else if read < 0 then read else -EIO
    {
      if core.failed {
        FreeCache();
        return -EBADF;
      }
      FailBatch();
      ret := if read < 0 then read else -EIO;
    }

    /** The fill loop: nothing is handed out unless the whole batch arrives. */
    method FillBatch(capacity: nat, replies: seq<Reply>) returns (ret: int)
      requires Valid() && core.nextFrame == core.cachedFrames && 1 < core.batchSize <= |replies| && !core.failed
      modifies this
      ensures Valid() && (View(), ret) == Fill(old(View()), old(core.batchSize), capacity, old(core.mask), replies)
      ensures ret == 0 ==> core.nextFrame < core.cachedFrames
    {
      hide Holds, Sized, Strides.At, FillRest;
      var frames, expected := core.batchSize, core.mask;
      var fresh' := new FrameCache(frames, core.length, capacity);
      ghost var start, cur := View(), View();
      var frame := 0;
      FillWhole(start, frames, capacity, expected, replies);
      cache := fresh';
      core := core.(cachedFrames := 0, nextFrame := 0);
      while frame < frames
        invariant 0 <= frame <= frames && fresh'.Valid() && |fresh'.contents| == frame && cache == fresh'
        invariant fresh'.length == core.length
        invariant core.cachedFrames == core.nextFrame == 0 && core.batchSize == frames && !core.failed
        invariant cur == AsClient(core, fresh'.contents)
        invariant Fill(start, frames, capacity, expected, replies) ==
                  FillRest(cur, frames, frame, capacity, expected, replies)
      {
        var r := replies[frame];
        FillTurn(cur, frames, frame, capacity, expected, replies);
        if r.cancelled {
          core := core.(failed := true, cancels := core.cancels + 1);
        }
        core := core.(mask := r.mask);
        if core.failed || r.read <= 0 || r.read != core.length || !Fits(r.frame, core.length, capacity) ||
            core.mask != expected {
          ret := AbandonBatch(r.read);
          return;
        }
        fresh'.Store(frame, r.frame);
        frame := frame + 1;
        cur := AsClient(core, fresh'.contents);
      }
      FillWhole(cur, frames, capacity, expected, replies);
      core := core.(cachedFrames := frames, nextFrame := 0);
      ret := 0;
      assert fresh'.contents[0..frames] == fresh'.contents;
    }

    /** `iio_buffer_refill_with_metadata`. */
    method RefillWithMetadata(capacity: nat, replies: seq<Reply>, late: bool) returns (result: Result)
      requires Valid() && core.batchSize <= |replies|
      modifies this
      ensures Valid() && (View(), result) == Refill(old(View()), capacity, replies, late)
    {
      if core.failed {
        FreeCache();
        return Error(-EBADF);
      }
      if core.directFrames != 0 {
        result := ReadDirect(capacity, replies[0]);
        return;
      }
      if core.cachedFrames != core.nextFrame {
        result := ReadCached(capacity, late);
        return;
      }
      if core.batchSize == 1 {
        Receive(replies[0]);
        if replies[0].read < 0 {
          return Error(replies[0].read);
        }
        if core.failed {
          return Error(-EBADF);
        }
        return Got(replies[0].frame);
      }
      if !BatchFits(core.batchSize, core.length, capacity) {
        return Error(-E2BIG);
      }
      var ret := FillBatch(capacity, replies);
      if ret != 0 {
        return Error(ret);
      }
      result := ReadCached(capacity, late);
    }

    /** `iio_buffer_set_metadata_batch_size`. */
    method SetBatch(frames: nat, supported: bool) returns (ret: int)
      requires Valid()
      modifies `core
      ensures Valid() && (View(), ret) == SetBatchSize(old(View()), frames, supported)
    {
      if frames == 0 {
        return -EINVAL;
      }
      if frames > IIO_BUFFER_METADATA_BATCH_MAX {
        return -E2BIG;
      }
      if core.failed {
        return -EBADF;
      }
      if core.cachedFrames != core.nextFrame || core.directFrames != 0 {
        return -EBUSY;
      }
      if frames > 1 && !supported {
        return -ENOSYS;
      }
      core := core.(batchSize := frames);
      return 0;
    }

    /** `iio_buffer_set_metadata_read_prequeue_async`. */
    method PrequeueAsync(frames: nat, capacity: nat, peer: int, capability: int, sent: int) returns (ret: int)
      requires Valid() && (core.directFrames == 0 ==> core.pending == 0)
      modifies this
      ensures Valid() && (View(), ret) == Arm(old(View()), frames, capacity, peer, capability, sent)
    {
      if frames == 0 || capacity == 0 {
        return -EINVAL;
      }
      if frames > IIO_BUFFER_METADATA_DIRECT_MAX {
        return -E2BIG;
      }
      if core.failed {
        return -EBADF;
      }
      if (core.directFrames != 0 && core.pending != 0) || core.batchSize != 1 ||
         core.cachedFrames != core.nextFrame {
        return -EBUSY;
      }
      if peer < 0 {
        return peer;
      }
      if capability < 0 {
        core := core.(directFrames := 0, directMask := []);
        return capability;
      }
      core := core.(directFrames := frames, pending := frames, directCapacity := capacity, directMask := core.mask);
      if sent < 0 {
        FailBatch();
        return sent;
      }
      return 0;
    }

    /** `iio_buffer_drain_metadata`, `iio_buffer_submit_metadata_feedback` and
        `iio_buffer_cancel_metadata_session`: 0 if the command may be written. */
    method MayControl(looksAtCache: bool, supported: bool) returns (ret: int)
      requires Valid()
      ensures ret == Control(View(), looksAtCache, supported)
    {
      if core.pending != 0 || core.failed || (looksAtCache && core.nextFrame < core.cachedFrames) {
        return -EBUSY;
      }
      return if supported then 0 else -ENOSYS;
    }
  }
}
