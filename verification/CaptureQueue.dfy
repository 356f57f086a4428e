/**
 The direct-async queue itself: two circular arrays over leased DMA blocks and a RAM ring.

 `Valid()` holds the coupling of the two rings: the ring-backed frames of the queue, read from
 head to tail, occupy exactly the slots the RAM ring holds, oldest first, and the RAM ring has
 its consumer slot reserved if and only if the frame in transport is ring-backed. Every method
 is proved to do to `View()` what DirectModel says, so the -EIO checks of the source, which
 compare the two rings, are never taken.
 */
module CaptureQueue {
  import opened Errno
  import opened RingModel
  import opened DdrRing
  import opened DirectModel
  import opened Options
  import opened DirectWindow
  import opened DirectSnapshot
  import opened DirectLeases
  import DirectRuns
  import Circular

  /** The checks `direct_async_drop_pending` makes before it drops anything: every waiting
      ring-backed frame sits in the next slot of the RAM ring. */
  method CheckWaiting(frames: array<QueueFrame>, ghost win: seq<QueueFrame>, head: nat, keep: nat, count: nat,
                      extension: bool, due: nat, slotCount: nat)
    returns (ok: bool, ringDropped: nat)
    requires head < frames.Length && keep <= count <= frames.Length
    requires win == Circular.Window(frames[..], head, count)
    requires InStep(win, keep, extension, due, slotCount)
    ensures ok && ringDropped == |RingSlots(win)| - |RingSlots(win[..keep])|
  {
    hide Circular.Window;
    ok, ringDropped := true, 0;
    var position, expected, i := (head + keep) % frames.Length, due, 0;
    Circular.PlaceIsModulo(head, keep, frames.Length);
    while i < count - keep
      invariant 0 <= i <= count - keep
      invariant position == Circular.Place(head, keep + i, frames.Length)
      invariant ringDropped == |RingSlots(win[..keep + i])| - |RingSlots(win[..keep])|
      invariant InStep(win, keep + i, extension, expected, slotCount)
    {
      Circular.WindowAt(frames[..], head, count, keep + i);
      assert win[..keep + i + 1][..keep + i] == win[..keep + i];
      if frames[position].ringBacked {
        if !extension || frames[position].ringSlot != expected {
          ok := false;
          return;
        }
        ringDropped := ringDropped + 1;
        expected := Succ(expected, slotCount);
      } else if frames[position].block.None? {
        ok := false;
        return;
      }
      Circular.PlaceIsModulo(position, 1, frames.Length);
      position := (position + 1) % frames.Length;
      i := i + 1;
    }
    assert win[..count] == win;
  }

  method FreeFrame(frames: array<QueueFrame>, position: nat, leases: map<nat, Iq>)
    returns (left: map<nat, Iq>, dma: bool)
    requires position < frames.Length && (!frames[position].ringBacked ==> frames[position].block.Some?)
    modifies frames
    ensures frames[..] == old(frames[..])[position := EmptyFrame] && dma == !old(frames[position]).ringBacked
    ensures left == if dma then leases - {old(frames[position]).block.value} else leases
  {
    var f := frames[position];
    left, dma := leases, !f.ringBacked;
    if dma {
      left := leases - {f.block.value};
    }
    frames[position] := EmptyFrame;
  }

  /** The second loop: every waiting frame gives its block back and is cleared. */
  method FreeWaiting(frames: array<QueueFrame>, ghost win: seq<QueueFrame>, head: nat, keep: nat, count: nat,
                     leases: map<nat, Iq>)
    returns (left: map<nat, Iq>, released: nat)
    requires head < frames.Length && keep <= count <= frames.Length
    requires win == Circular.Window(frames[..], head, count)
    requires forall i :: keep <= i < count && !win[i].ringBacked ==> win[i].block.Some?
    modifies frames
    ensures frames[..] == Erased(old(frames[..]), head, keep, count)
    ensures left == Unleased(leases, win, keep, count)
    ensures released == DmaFrames(win) - DmaFrames(win[..keep])
  {
    hide Circular.Window;
    ghost var was := frames[..];
    left, released := leases, 0;
    var position, i := (head + keep) % frames.Length, 0;
    Circular.PlaceIsModulo(head, keep, frames.Length);
    while i < count - keep
      invariant 0 <= i <= count - keep
      invariant position == Circular.Place(head, keep + i, frames.Length)
      invariant frames[..] == Erased(was, head, keep, keep + i)
      invariant left == Unleased(leases, win, keep, keep + i)
      invariant released == DmaFrames(win[..keep + i]) - DmaFrames(win[..keep])
    {
      FreeOneMore(was, win, head, keep, count, keep + i);
      var dma: bool;
      left, dma := FreeFrame(frames, position, left);
      released := if dma then released + 1 else released;
      Circular.PlaceIsModulo(position, 1, frames.Length);
      position := (position + 1) % frames.Length;
      i := i + 1;
    }
    assert win[..count] == win;
  }

  /** The next waiting frame is still in its slot when its turn comes. */
  lemma FreeOneMore(was: seq<QueueFrame>, win: seq<QueueFrame>, head: nat, keep: nat, count: nat, k: nat)
    requires head < |was| && keep <= k < count <= |was| && win == Circular.Window(was, head, count)
    ensures Erased(was, head, keep, k)[Circular.Place(head, k, |was|)] == win[k]
    ensures DmaFrames(win[..k + 1]) == DmaFrames(win[..k]) + (if win[k].ringBacked then 0 else 1)
  {
    Circular.WindowAt(was, head, count, k);
    ErasedElsewhere(was, head, keep, k, k);
    DmaFramesStep(win, k);
  }

  /** Each slot that names a block gives it back; what no slot names stays on lease. */
  method GiveAllBack(frames: array<QueueFrame>, leases: map<nat, Iq>, ghost stray: multiset<nat>)
    returns (left: map<nat, Iq>)
    requires multiset(leases.Keys) == stray + Held(frames[..], false)
    modifies frames
    ensures multiset(left.Keys) == stray
    ensures forall i :: 0 <= i < frames.Length ==> frames[i].block.None?
  {
    hide Held, Own;
    left := leases;
    for i := 0 to frames.Length
      invariant multiset(left.Keys) == stray + Held(frames[..], false)
      invariant forall k :: 0 <= k < i ==> frames[k].block.None?
    {
      if frames[i].block.Some? {
        GiveBack(frames[..], left, stray, i);
        ghost var was := frames[..];
        left := left - {frames[i].block.value};
        frames[i] := frames[i].(block := None);
        assert frames[..] == was[i := was[i].(block := None)];
      }
    }
    NoneHeld(frames[..]);
  }

  const IIOD_MAX_BUFFER_METADATA_BYTES := 64 * 1024

  /** `direct_async_prepare`: which arguments are refused, and what the accepted ones plan. */
  method Prepare(requested: bool, dmaCapacity: nat, ramCapacity: nat, metadataCapacity: nat, target: nat,
                 dropBacklog: bool, extension: bool, sizeMax: nat)
    returns (ret: int, cfg: Config)
    requires (!extension ==> ramCapacity == 0) && dmaCapacity <= sizeMax
    ensures ret == -EINVAL <==>
              dmaCapacity < 2 || (ramCapacity != 0 && dmaCapacity < 3) || metadataCapacity == 0 || target == 0 ||
              metadataCapacity > 0x1_0000
    ensures ret == -EBUSY <==> ret != -EINVAL && requested
    ensures ret == 0 ==>
              DirectRuns.PlanOk(cfg) && cfg == Plan(dmaCapacity, ramCapacity, target, dropBacklog, extension) &&
              cfg.capacity * metadataCapacity <= sizeMax
    ensures ret == 0 ==>
              cfg.dmaCapacity == dmaCapacity && cfg.target == target && cfg.ringSlots == ramCapacity &&
              cfg.dropBacklog == dropBacklog && cfg.extension == extension
    ensures ret == 0 ==>
              cfg.capacity + cfg.headroom == if target <= dmaCapacity then dmaCapacity
                                             else if target <= dmaCapacity + ramCapacity then target
                                             else dmaCapacity + ramCapacity
    ensures ret == 0 ==>
              cfg.headroom == if ramCapacity == 0 || target <= dmaCapacity then 0
                              else if dmaCapacity > 4 then 3 else dmaCapacity - 2
    ensures ret in {0, -EINVAL, -EBUSY, -EOVERFLOW}
    ensures ret == -EOVERFLOW <==>
              ret != -EINVAL && ret != -EBUSY &&
              (dmaCapacity + DirectModel.UsefulRam(dmaCapacity, ramCapacity, target) > sizeMax ||
               Plan(dmaCapacity, ramCapacity, target, dropBacklog, extension).capacity * metadataCapacity > sizeMax)
  {
    cfg := Config(0, 0, 0, 0, false, false, 0);
    if dmaCapacity < 2 || (ramCapacity != 0 && dmaCapacity < 3) || metadataCapacity == 0 || target == 0 ||
       metadataCapacity > IIOD_MAX_BUFFER_METADATA_BYTES {
      return -EINVAL, cfg;
    }
    if requested {
      return -EBUSY, cfg;
    }
    var usefulRam := if target > dmaCapacity then target - dmaCapacity else 0;
    if usefulRam > ramCapacity {
      usefulRam := ramCapacity;
    }
    if dmaCapacity > sizeMax - usefulRam {
      return -EOVERFLOW, cfg;
    }
    var headroom := if usefulRam != 0 then (if dmaCapacity > 4 then 3 else dmaCapacity - 2) else 0;
    var capacity := dmaCapacity + usefulRam - headroom;
    if capacity * metadataCapacity > sizeMax {
      return -EOVERFLOW, cfg;
    }
    cfg := Config(capacity, dmaCapacity, headroom, target, dropBacklog, extension, ramCapacity);
    DirectRuns.PlanIsOk(dmaCapacity, ramCapacity, target, dropBacklog, extension);
    return 0, cfg;
  }

  class DirectQueue {
    const frames: array<QueueFrame>
    const metadata: array<Meta>
    const ring: RingCore
    const ringIq: array<Iq>
    const frameIqBytes: nat
    var q: Fields
    var leases: map<nat, Iq>

    ghost function Snapshot(): Snap
      reads this, frames, metadata, ringIq, ring
    {
      Snap(q, frames[..], metadata[..], Memory(leases, ringIq[..]), ring.View())
    }

    ghost predicate Valid()
      reads this, frames, metadata, ringIq, ring, ring.slots
    {
      DirectSnapshot.Sound(Snapshot()) && (q.cfg.extension ==> ring.Valid())
    }

    ghost function View(): State
      reads this, frames, metadata, ringIq, ring
      requires DirectSnapshot.Shaped(Snapshot())
    {
      DirectSnapshot.View(Snapshot())
    }

    /** `direct_async_prepare` and `direct_async_start_producer`, once the arguments are accepted. */
    constructor (dmaCapacity: nat, ramCapacity: nat, target: nat, dropBacklog: bool, extension: bool,
                 ring: RingCore, ringIq: array<Iq>, frameIqBytes: nat, noMeta: Meta)
      requires 2 <= dmaCapacity && (ramCapacity != 0 ==> 3 <= dmaCapacity) && 0 < target
      requires !extension ==> ramCapacity == 0
      requires extension ==>
        ring.Valid() && ring.View() == BeginExtension(Initial(ring.slots.Length, 0)).0 &&
        ringIq.Length == ring.slots.Length == ramCapacity && 0 < ramCapacity
      ensures Valid() && DirectRuns.QueueInv(View())
      ensures View() == Fresh(Plan(dmaCapacity, ramCapacity, target, dropBacklog, extension))
      ensures this.ring == ring && this.ringIq == ringIq && this.frameIqBytes == frameIqBytes && leases == map[]
      ensures Stray(Snapshot()) == multiset{} && Vacant(Snapshot())
      ensures fresh(frames) && fresh(metadata)
    {
      var cfg := Plan(dmaCapacity, ramCapacity, target, dropBacklog, extension);
      DirectRuns.PlanIsOk(dmaCapacity, ramCapacity, target, dropBacklog, extension);
      frames := new QueueFrame[cfg.capacity](_ => EmptyFrame);
      metadata := new Meta[cfg.capacity](_ => noMeta);
      this.ring, this.ringIq, this.frameIqBytes := ring, ringIq, frameIqBytes;
      q := Fields(cfg, 0, 0, 0, 0, Tally(0, 0, 0, 0, 0), None, false, false, false, 0);
      leases := map[];
      if extension {
        InitialInv(ring.slots.Length, 0);
        LifecycleInv(Initial(ring.slots.Length, 0));
      }
    }

    // -------------------------------------------------------------------------------------
    // Spilling

    /** The newest slot that holds a DMA block and is not the head. */
    method FindNewestDma() returns (found: bool, slot: nat)
      requires Valid() && DirectRuns.QueueInv(View()) && MustSpill(View()) && q.count < q.cfg.capacity
      ensures found && slot == Circular.Place(q.head, q.count - 1, frames.Length)
    {
      NewestSpills(Snapshot());
      slot, found := q.tail, false;
      var offset := 1;
      while offset <= q.count && !found
        invariant 1 <= offset <= q.count + 1
        invariant found ==> slot == Circular.Place(q.head, q.count - 1, frames.Length)
        invariant !found ==> offset == 1
      {
        slot := (q.tail + q.cfg.capacity - offset) % q.cfg.capacity;
        StepBack(q.head, q.count, frames.Length);
        found := slot != q.head && frames[slot].block.Some? && !frames[slot].ringBacked;
        offset := offset + 1;
      }
    }

    /** The samples of a DMA frame are copied to a RAM ring slot, its block is released, and the
        frame is marked as ring-backed. */
    method CopyToRing(slot: nat, ringSlot: nat)
      requires slot < frames.Length && ringSlot < ringIq.Length && 0 < q.dmaCount
      requires FrameOk(frames[slot], Memory(leases, ringIq[..]), true) && !frames[slot].ringBacked
      modifies this, frames, ringIq
      ensures q == old(q).(dmaCount := old(q.dmaCount) - 1)
      ensures leases == old(leases) - {old(frames[slot].block.value)}
      ensures ringIq[..] == old(ringIq[..][ringSlot := DirectWindow.Samples(frames[slot], Memory(leases, ringIq[..]))])
      ensures frames[..] == old(frames[..])[slot := InRing(old(frames[slot]), ringSlot)]
    {
      var f := frames[slot];
      ringIq[ringSlot] := leases[f.block.value][f.iqOffset..f.iqOffset + f.iqBytes];
      leases := leases - {f.block.value};
      frames[slot] := f.(block := None, iqOffset := 0, ringSlot := ringSlot, ringBacked := true);
      q := q.(dmaCount := q.dmaCount - 1);
    }

    /** The frame in `slot`, the newest, moves from its DMA block to the next RAM ring slot. */
    method MoveToRing(slot: nat) returns (ret: int)
      requires Valid() && q.cfg.extension && 1 < q.count
      requires slot == Circular.Place(q.head, q.count - 1, frames.Length) && !frames[slot].ringBacked
      requires |ring.View().queue| < ring.slots.Length
      modifies this, frames, ringIq, ring, ring.slots
      ensures ring.Valid()
      ensures ret == if old(ring.core.state) != Running then -ESHUTDOWN
                     else if old(frames[slot].iqBytes) != frameIqBytes then -EIO else 0
      ensures ret != 0 ==> Snapshot() == old(Snapshot())
      ensures ret == 0 ==> Snapshot() == Spilled(old(Snapshot()))
    {
      hide DirectSnapshot.Sound, ReserveForProducer, Commit, Abort, Win;
      ghost var s := Snapshot();
      ShapeOf(s);
      MoveFacts(s);
      var f := frames[slot];
      var reserved, ringSlot := ring.ReserveProducer();
      if reserved != 0 {
        return reserved;
      }
      if f.block.None? || f.iqBytes == 0 || f.iqBytes != frameIqBytes {
        var _ := ring.AbortProducer();
        return -EIO;
      }
      CopyToRing(slot, ringSlot);
      ret := ring.CommitProducer();
    }

    method TrySpill() returns (ret: int)
      requires Valid() && DirectRuns.QueueInv(View()) && q.count < q.cfg.capacity
      modifies this, frames, ringIq, ring, ring.slots
      ensures (Snapshot(), ret) == SpillTried(old(Snapshot()), frameIqBytes)
      ensures q.cfg.extension ==> ring.Valid()
    {
      hide DirectSnapshot.Sound, DirectSnapshot.View, MustSpill, Win, Spilled, DirectRuns.QueueInv;
      ghost var s := Snapshot();
      ShapeOf(s);
      SpillsWhenShort(s);
      if !q.cfg.extension || q.cfg.headroom == 0 || q.dmaCount + q.cfg.headroom < q.cfg.dmaCapacity {
        return 0;
      }
      NewestSpills(s);
      var found, slot := FindNewestDma();
      if !found {
        return if q.dmaCount < q.cfg.dmaCapacity then 0 else -EIO;
      }
      ret := MoveToRing(slot);
    }

    /** `direct_async_spill_newest_dma`. The -EIO return that guards the RAM ring against holding
        a frame of the wrong size is taken exactly when the newest frame is not of that size. */
    method SpillNewestDma() returns (ret: int)
      requires Valid() && DirectRuns.QueueInv(View()) && q.count < q.cfg.capacity
      modifies this, frames, ringIq, ring, ring.slots
      ensures Valid()
      ensures ret == if !MustSpill(old(View())) then 0
                     else if old(View().ring) != Running then -ESHUTDOWN
                     else if old(Win(Snapshot())[q.count - 1].iqBytes) != frameIqBytes then -EIO
                     else 0
      ensures View() == if ret == 0 then Spill(old(View())) else old(View())
      ensures Conserves(old(Snapshot()), Snapshot(), multiset{})
    {
      hide Conserves;
      ConservesSpillTried(Snapshot(), frameIqBytes);
      SpillTriedSound(Snapshot(), frameIqBytes);
      ret := TrySpill();
    }

    // -------------------------------------------------------------------------------------
    // Dropping the backlog

    /** Every check that comes before anything is dropped; all of them pass. */
    method CheckPending(keep: nat) returns (ok: bool, ringDropped: nat)
      requires Valid() && keep == DirectSnapshot.Kept(Snapshot())
      ensures ok && ringDropped == |RingSlots(Win(Snapshot()))| - |RingSlots(Win(Snapshot())[..keep])|
    {
      hide DirectSnapshot.Sound;
      ghost var s := Snapshot();
      PendingFacts(s);
      ok, ringDropped := true, 0;
      if q.count < keep {
        ok := false;
        return;
      }
      var activeRing := keep == 1 && frames[q.head].ringBacked;
      if q.cfg.extension && ring.core.consumerReserved != activeRing {
        ok := false;
        return;
      }
      var due := if !q.cfg.extension then 0
                 else if activeRing then Succ(ring.core.consumerPosition, ring.slots.Length)
                 else ring.core.consumerPosition;
      WaitingInStep(s, ring.core.consumerPosition, keep);
      ok, ringDropped := CheckWaiting(frames, Win(s), q.head, keep, q.count, q.cfg.extension, due,
                                      ring.slots.Length);
    }

    /** Every waiting frame is cleared and its block released. */
    method FreePending(ghost s: Snap, keep: nat)
      requires DirectSnapshot.Shaped(s) && keep == DirectSnapshot.Kept(s) <= s.q.count
      requires DmaFrames(Win(s)[..keep]) <= DmaFrames(Win(s)) == s.q.dmaCount
      requires forall i :: keep <= i < s.q.count && !Win(s)[i].ringBacked ==> Win(s)[i].block.Some?
      requires q == s.q && frames[..] == s.frames && leases == s.mem.leases
      modifies this, frames
      ensures q == Cut(s).q && frames[..] == Cut(s).frames && leases == Cut(s).mem.leases
    {
      hide WindowOk, Coupled, RingSlots, DmaFrames;
      var left, released := FreeWaiting(frames, Win(s), q.head, keep, q.count, leases);
      Circular.PlaceIsModulo(q.head, keep, frames.Length);
      leases := left;
      q := q.(count := keep, tail := (q.head + keep) % q.cfg.capacity, dmaCount := q.dmaCount - released,
              tally := q.tally.(dropped := q.tally.dropped + (q.count - keep)));
    }

    /** `direct_async_drop_pending`: it fails only if the RAM ring has stopped with frames in it. */
    method DropPending() returns (ret: int)
      requires Valid()
      modifies this, frames, ring, ring.slots
      ensures q.cfg.extension ==> ring.Valid()
      ensures ret == if DropBlocked(old(Snapshot())) then -EBUSY else 0
      ensures Snapshot() == if ret == 0 then Cut(old(Snapshot())) else old(Snapshot())
    {
      ghost var s := Snapshot();
      var keep := if q.active then 1 else 0;
      var ok, ringDropped := CheckPending(keep);
      if !ok {
        return -EIO;
      }
      CutRingDrops(s, ringDropped);
      WaitingHoldBlocks(s, keep);
      ret := DiscardFromRing(ringDropped);
      if ret == 0 {
        FreePending(s, keep);
      }
    }

    /** The RAM ring discards as many frames as the queue counted. */
    method DiscardFromRing(waiting: nat) returns (ret: int)
      requires waiting != 0 ==> ring.Valid()
      requires waiting != 0 && DiscardPending(ring.View()).1 == 0 ==>
                 |ring.View().queue| - |DiscardPending(ring.View()).0.queue| == waiting
      modifies ring, ring.slots
      ensures old(ring.Valid()) ==> ring.Valid()
      ensures (ring.View(), ret) == if waiting == 0 then (old(ring.View()), 0) else DiscardPending(old(ring.View()))
    {
      if waiting == 0 {
        return 0;
      }
      var coreDropped;
      ret, coreDropped := ring.DiscardWaiting();
      if ret == 0 && coreDropped != waiting {
        return -EIO;
      }
    }

    // -------------------------------------------------------------------------------------
    // The producer

    /** `iio_buffer_block_acquire`: the kernel hands over a filled block. */
    method AcquireBlock(block: nat, raw: Iq)
      requires Valid() && block !in leases
      modifies `leases
      ensures Valid() && View() == old(View()) && InHand(Snapshot(), block) && leases == old(leases)[block := raw]
      ensures Gains(old(Snapshot()), Snapshot(), block)
    {
      hide Gains;
      GainsAcquired(Snapshot(), block, raw);
      AcquiredSound(Snapshot(), block, raw);
      leases := leases[block := raw];
    }

    /** The provider describes the block in hand, in the metadata slot at the tail: never the
        slot of a queued frame. */
    method DescribeFrame(m: Meta)
      requires Valid() && q.count < q.cfg.capacity
      modifies metadata
      ensures Valid() && View() == old(View()) && Snapshot() == Described(old(Snapshot()), m)
      ensures Conserves(old(Snapshot()), Snapshot(), multiset{})
    {
      hide Conserves;
      ConservesNothing(Snapshot(), Described(Snapshot(), m));
      DescribedSound(Snapshot(), m);
      metadata[q.tail] := m;
    }

    method ReleaseInHand(block: nat)
      requires Valid() && InHand(Snapshot(), block)
      modifies `leases
      ensures Valid() && View() == old(View()) && leases == old(leases) - {block}
      ensures Snapshot() == HandReturned(old(Snapshot()), block)
      ensures Conserves(old(Snapshot()), Snapshot(), multiset{block})
    {
      hide Conserves;
      ConservesHandReturned(Snapshot(), block);
      HandReturnedSound(Snapshot(), block);
      leases := leases - {block};
    }

    /** The backlog is dropped with a stale block, unless the segment was cancelled. */
    method DropStale() returns (ret: int)
      requires Valid()
      modifies this, frames, ring, ring.slots
      ensures (Snapshot(), ret) == Staled(old(Snapshot()))
      ensures q.cfg.extension ==> ring.Valid()
    {
      hide DropBlocked, WindowOk, Coupled;
      if q.cancelled {
        return 0;
      }
      ret := DropPending();
      if ret == 0 {
        q := q.(tally := StaleTally(q.tally));
        if q.tally.streak > q.cfg.dmaCapacity + IIOD_DIRECT_STALE_RETRY_MARGIN {
          ret := -ESTALE;
        }
      }
    }

    /** A block whose metadata is stale goes back to the kernel, after the backlog. */
    method RetireStale(block: nat) returns (ret: int)
      requires Valid() && InHand(Snapshot(), block)
      modifies this, frames, ring, ring.slots
      ensures Valid() && block !in leases
      ensures (View(), ret) == if old(q.cancelled) then (old(View()), 0)
                               else if DropBlocked(old(Snapshot())) then (old(View()), -EBUSY)
                               else Retire(old(View()))
      ensures Conserves(old(Snapshot()), Snapshot(), multiset{block})
    {
      hide Conserves;
      StaledSound(Snapshot(), block);
      ConservesStaled(Snapshot());
      ConservesHandReturned(Staled(Snapshot()).0, block);
      ConservesTwice(Snapshot(), Staled(Snapshot()).0, HandReturned(Staled(Snapshot()).0, block), multiset{block});
      ret := DropStale();
      ReleaseInHand(block);
    }

    /** If samples were lost, the backlog goes, the record moves to the new tail, and its loss is
        counted from the end of the frame the client sees before it. */
    method AccountLoss() returns (ret: int)
      requires Valid()
      modifies this, frames, metadata, ring, ring.slots
      ensures (Snapshot(), ret) == Accounted(old(Snapshot()))
      ensures q.cfg.extension ==> ring.Valid()
    {
      CutKeepsBase(Snapshot());
      PendingFacts(Snapshot());
      hide DirectSnapshot.Sound, WindowOk, Coupled;
      var slot := q.tail;
      ret := DropPending();
      if ret == 0 {
        ret := MoveRecord(slot);
      }
    }

    method Settle() returns (ret: int)
      requires Valid()
      modifies this, frames, metadata, ring, ring.slots
      ensures (Snapshot(), ret) == Settled(old(Snapshot()))
      ensures q.cfg.extension ==> ring.Valid()
    {
      CountedSound(Snapshot(), q.tally.(streak := 0));
      q := q.(tally := q.tally.(streak := 0));
      ret := 0;
      if q.cfg.dropBacklog && metadata[q.tail].missing != 0 {
        ret := AccountLoss();
      }
    }

    method MoveRecord(slot: nat) returns (ret: int)
      requires DirectSnapshot.Shaped(Snapshot()) && slot < metadata.Length
      modifies metadata
      ensures var record := Rebased(old(metadata[slot]), RebaseOnto(old(Snapshot())));
              metadata[..] == old(metadata[..])[q.tail := record.0] && ret == record.1
    {
      if slot != q.tail {
        metadata[q.tail] := metadata[slot];
      }
      ret := 0;
      var base := if q.active then Some(frames[q.head].frameEnd) else q.lastEnd;
      if base.Some? {
        var record := Rebase(metadata[q.tail], base.value);
        metadata[q.tail] := record.0;
        ret := record.1;
      }
    }

    method Enqueue(block: nat, metadataBytes: nat, offset: nat, bytes: nat)
      requires DirectSnapshot.Shaped(Snapshot()) && q.count < q.cfg.capacity
      modifies `q, frames
      ensures Snapshot() == Pushed(old(Snapshot()), NewFrame(old(Snapshot()), block, metadataBytes, offset, bytes),
                                   metadata[old(q.tail)])
    {
      ghost var s := Snapshot();
      var frameEnd := if q.cfg.dropBacklog then metadata[q.tail].end else 0;
      frames[q.tail] := QueueFrame(Some(block), frameEnd, metadataBytes, offset, bytes, 0, false);
      Circular.PlaceIsModulo(q.tail, 1, frames.Length);
      q := q.(dmaCount := q.dmaCount + 1, tail := (q.tail + 1) % q.cfg.capacity, count := q.count + 1,
              tally := q.tally.(produced := q.tally.produced + 1));
      assert metadata[..] == s.metas[s.q.tail := metadata[s.q.tail]];
    }

    method File(ret: int, block: nat, metadataBytes: nat, offset: nat, bytes: nat)
      requires DirectSnapshot.Shaped(Snapshot()) && q.count < q.cfg.capacity
      modifies this, frames
      ensures Snapshot() == Filed(old(Snapshot()), ret, block, metadataBytes, offset, bytes)
      ensures q.cfg == old(q.cfg)
    {
      if ret != 0 {
        leases := leases - {block};
      } else {
        Enqueue(block, metadataBytes, offset, bytes);
      }
    }

    method Deposit(block: nat, metadataBytes: nat, offset: nat, bytes: nat) returns (ret: int)
      requires Valid() && q.count < q.cfg.capacity
      requires DirectSnapshot.Shaped(Settled(Snapshot()).0)
      requires Settled(Snapshot()).0.q.count < Settled(Snapshot()).0.q.cfg.capacity
      modifies this, frames, metadata, ring, ring.slots
      ensures ret == Settled(old(Snapshot())).1
      ensures Snapshot() == Filed(Settled(old(Snapshot())).0, ret, block, metadataBytes, offset, bytes)
      ensures q.cfg.extension ==> ring.Valid()
    {
      hide Filed;
      ret := Settle();
      File(ret, block, metadataBytes, offset, bytes);
    }

    /** The producer's last critical section. */
    method PublishFrame(block: nat, metadataBytes: nat, offset: nat, bytes: nat) returns (ret: int)
      requires Valid() && q.count < q.cfg.capacity && InHand(Snapshot(), block)
      requires 0 < bytes && offset + bytes <= |leases[block]|
      modifies this, frames, metadata, ring, ring.slots
      ensures Valid() && (old(q.cancelled) || ret != 0 ==> block !in leases)
      ensures old(q.cancelled) ==> View() == old(View())
      ensures !old(q.cancelled) && PublishBlocked(old(Snapshot())) ==>
                ret == -EBUSY && View() == old(View()).(tally := old(q.tally).(streak := 0))
      ensures !old(q.cancelled) && !PublishBlocked(old(Snapshot())) ==>
                (View(), ret) == Publish(old(View()), block, old(leases[block])[offset..offset + bytes],
                                         old(metadata[q.tail]))
      ensures !old(q.cancelled) && ret == 0 ==>
                0 < q.count && Win(Snapshot())[q.count - 1].metadataBytes == metadataBytes
      ensures Conserves(old(Snapshot()), Snapshot(), multiset{block})
    {
      hide PublishBlocked, Filed, Settled, Conserves;
      ConservesPublished(Snapshot(), block, metadataBytes, offset, bytes);
      if q.cancelled {
        ReleaseInHand(block);
        return 0;
      }
      PublishedSound(Snapshot(), block, metadataBytes, offset, bytes);
      FiledRecord(Settled(Snapshot()).0, block, metadataBytes, offset, bytes);
      ret := Deposit(block, metadataBytes, offset, bytes);
    }

    // -------------------------------------------------------------------------------------
    // The sender

    /** The segment is over: the error is kept, and a RAM ring that still has work fails. */
    method EndSegment(why: int, code: int)
      requires q.cfg.extension ==> ring.Valid()
      modifies `q, ring, ring.slots
      ensures Snapshot() == Ended(old(Snapshot()), why, code) && (q.cfg.extension ==> ring.Valid())
    {
      q := q.(error := code, cancelled := true);
      if q.cfg.extension {
        var terminal := ring.Terminal();
        if !terminal {
          var _ := ring.FailRing(why, code);
        }
      }
    }

    /** The RAM ring hands out the head's slot, or refuses because it no longer drains. */
    method ReserveHead() returns (ret: int)
      requires Valid() && !q.active && 0 < q.count && frames[q.head].ringBacked
      requires frames[q.head] == Win(Snapshot())[0]
      modifies ring, ring.slots
      ensures ring.Valid() && (ring.View(), ret) == ReserveForConsumer(old(ring.View()))
    {
      HeadIsOldest(Snapshot());
      var ringSlot;
      ret, ringSlot := ring.ReserveConsumer();
      if ret == 0 && ringSlot != frames[q.head].ringSlot {
        ret := -EIO;
      }
    }

    /** Taking the head for transport. */
    method OpenHead(nb: nat, metadataCapacity: nat) returns (ret: int)
      requires Valid() && !q.active
      modifies `q, ring, ring.slots
      ensures (Snapshot(), ret) == Opened(old(Snapshot()), nb, metadataCapacity)
      ensures q.cfg.extension ==> ring.Valid()
    {
      if q.count == 0 {
        return if q.error != 0 then q.error else -ENODATA;
      }
      HeadSlot(Snapshot());
      var frame := frames[q.head];
      if frame.ringBacked == frame.block.Some? || nb != frame.iqBytes || metadataCapacity < frame.metadataBytes {
        EndSegment(REASON_INTERNAL_ERROR, -ENOSPC);
        return -ENOSPC;
      }
      ret := 0;
      if frame.ringBacked {
        ret := ReserveHead();
        if ret != 0 {
          RefusedKeepsRing(old(ring.View()));
          EndSegment(REASON_INTERNAL_ERROR, ret);
          return;
        }
      }
      q := q.(active := true);
    }

    /** `send_direct_async_data` up to the transport: a refusal ends the segment. */
    method BeginSend(nb: nat, metadataCapacity: nat) returns (ret: int)
      requires Valid() && !q.active
      modifies `q, ring, ring.slots
      ensures Valid()
      ensures old(q.count) == 0 ==> View() == old(View()) && ret == if q.error != 0 then q.error else -ENODATA
      ensures old(q.count) != 0 ==>
        (View(), ret) == StartSend(old(View()), Fits(old(Win(Snapshot())[0]), nb, metadataCapacity))
      ensures old(q.count) != 0 ==>
        (ret == -ENOSPC <==> |old(View().entries[0].iq)| != nb ||
                             metadataCapacity < old(Win(Snapshot())[0].metadataBytes))
      ensures HandKept(old(Snapshot()), Snapshot())
      ensures Conserves(old(Snapshot()), Snapshot(), multiset{})
    {
      hide Conserves;
      ConservesOpened(Snapshot(), nb, metadataCapacity);
      OpenedSound(Snapshot(), nb, metadataCapacity);
      OpenedKeepsHand(Snapshot(), nb, metadataCapacity);
      if 0 < q.count {
        HeadFits(Snapshot(), nb, metadataCapacity);
      }
      ret := OpenHead(nb, metadataCapacity);
    }

    method GiveHeadBack()
      requires Valid() && q.active && !q.returned && !frames[q.head].ringBacked
      modifies `q, `leases
      ensures Snapshot() == Gone(old(Snapshot()))
    {
      SlotOf(Snapshot(), 0);
      leases := leases - {frames[q.head].block.value};
      q := q.(returned := true);
    }

    /** The sender gives a DMA head back, outside the lock. */
    method ReturnHead()
      requires Valid() && q.active && !q.returned && !frames[q.head].ringBacked
      modifies `q, `leases
      ensures Valid() && View() == DirectModel.ReturnHead(old(View()))
      ensures HandKept(old(Snapshot()), Snapshot())
      ensures Conserves(old(Snapshot()), Snapshot(), multiset{})
    {
      hide Conserves;
      HeadSlot(Snapshot());
      ConservesGone(Snapshot());
      GoneSound(Snapshot());
      GoneKeepsHand(Snapshot());
      GiveHeadBack();
    }

    /** The head's slot is cleared and the queue moves on. */
    method Advance(ret: int)
      requires DirectSnapshot.Shaped(Snapshot()) && 0 < q.count
      requires frames[q.head] == Win(Snapshot())[0] && (!frames[q.head].ringBacked ==> 0 < q.dmaCount)
      requires q.cfg.extension ==> ring.Valid()
      modifies `q, frames
      ensures q.cfg.extension ==> ring.Valid()
      ensures q.cfg == old(q.cfg)
      ensures q == Settling(old(Snapshot()), ret).q && frames[..] == Settling(old(Snapshot()), ret).frames
    {
      var frame := frames[q.head];
      frames[q.head] := EmptyFrame;
      Circular.PlaceIsModulo(q.head, 1, frames.Length);
      q := q.(active := false, returned := false,
              dmaCount := if frame.ringBacked then q.dmaCount else q.dmaCount - 1,
              head := (q.head + 1) % q.cfg.capacity, count := q.count - 1,
              tally := q.tally.(consumed := q.tally.consumed + 1),
              lastEnd := if ret >= 0 && q.cfg.dropBacklog then Some(frame.frameEnd) else q.lastEnd);
    }

    static lemma SettlingParts(s: Snap, r: Ring, ret: int)
      requires DirectSnapshot.Shaped(s) && 0 < s.q.count
      requires r == if Win(s)[0].ringBacked then Release(s.r).0 else s.r
      ensures DirectSnapshot.Shaped(s.(r := r))
      ensures var t := Settling(s.(r := r), ret);
              Settling(s, ret) == Snap(t.q, t.frames, s.metas, s.mem, r) && t.q.cfg == s.q.cfg
    {
    }

    method PopFrame(ret: int)
      requires Valid() && q.active && (frames[q.head].ringBacked || q.returned)
      modifies this, frames, ring, ring.slots
      ensures Snapshot() == Settling(old(Snapshot()), ret) && (q.cfg.extension ==> ring.Valid())
    {
      hide Settling;
      ghost var s := Snapshot();
      HeadSlot(s);
      if frames[q.head].ringBacked {
        var _ := ring.ReleaseConsumer();
      }
      SettlingParts(s, ring.View(), ret);
      assert Snapshot() == s.(r := ring.View());
      Advance(ret);
    }

    method ConcludeSend(ret: int) returns (result: int)
      requires q.cfg.extension ==> ring.Valid()
      modifies `q, ring, ring.slots
      ensures (Snapshot(), result) == Concluded(old(Snapshot()), ret) && (q.cfg.extension ==> ring.Valid())
    {
      result := ret;
      if ret < 0 {
        EndSegment(REASON_TRANSPORT_ERROR, ret);
      } else if q.cfg.extension && q.tally.consumed == q.cfg.target {
        var code := ring.CompleteExtensionRing();
        if code != 0 {
          q := q.(error := code, cancelled := true);
          result := code;
        }
      }
    }

    /** `send_direct_async_data` after the transport, `ret` saying how it went. */
    method EndSend(ret: int) returns (result: int)
      requires Valid() && q.active && (frames[q.head].ringBacked || q.returned)
      requires DirectRuns.QueueInv(View())
      modifies this, frames, ring, ring.slots
      ensures Valid() && (View(), result) == DirectModel.EndSend(old(View()), ret)
      ensures HandKept(old(Snapshot()), Snapshot())
      ensures Conserves(old(Snapshot()), Snapshot(), multiset{})
    {
      hide Conserves;
      HeadSlot(Snapshot());
      ConservesEnded(Snapshot(), ret);
      ClosedSound(Snapshot(), ret);
      ClosedKeepsHand(Snapshot(), ret);
      PopFrame(ret);
      result := ConcludeSend(ret);
    }

    // -------------------------------------------------------------------------------------
    // Leaving

    method CancelAndStopRing(why: int)
      requires q.cfg.extension ==> ring.Valid()
      modifies `q, ring, ring.slots
      ensures Snapshot() == Cancelling(old(Snapshot()), why) && (q.cfg.extension ==> ring.Valid())
    {
      q := q.(cancelled := true);
      if q.cfg.extension {
        var terminal := ring.Terminal();
        if !terminal {
          var _ := ring.CancelRing(why);
        }
      }
    }

    /** A client that disconnects cancels the segment. */
    method CancelSegment(why: int)
      requires Valid() && (why == REASON_CLIENT_CANCELLED || why == REASON_CLIENT_DISCONNECTED)
      modifies `q, ring, ring.slots
      ensures Valid() && View() == CancelAll(old(View()))
      ensures HandKept(old(Snapshot()), Snapshot())
      ensures Conserves(old(Snapshot()), Snapshot(), multiset{})
    {
      hide Cancelling, Conserves;
      ConservesCancelling(Snapshot(), why);
      CancellingSound(Snapshot(), why);
      CancellingKeepsHand(Snapshot(), why);
      CancelAndStopRing(why);
    }

    /** The producer's exit section. */
    method LeaveQueue(error: int)
      requires q.cfg.extension ==> ring.Valid()
      modifies `q, ring, ring.slots
      ensures Snapshot() == Exited(old(Snapshot()), error) && (q.cfg.extension ==> ring.Valid())
    {
      if error != 0 && !q.cancelled {
        q := q.(error := error);
        if q.cfg.extension {
          var terminal := ring.Terminal();
          if !terminal {
            var _ := ring.FailRing(FailureReason(error), if error < 0 then error else -EIO);
          }
        }
      }
    }

    method ProducerExit(error: int)
      requires Valid() && error <= 0
      modifies `q, ring, ring.slots
      ensures Valid() && View() == ProducerLeaves(old(View()), error)
      ensures HandKept(old(Snapshot()), Snapshot())
      ensures Conserves(old(Snapshot()), Snapshot(), multiset{})
    {
      hide Exited, Conserves;
      ConservesExited(Snapshot(), error);
      ExitedSound(Snapshot(), error);
      ExitedKeepsHand(Snapshot(), error);
      LeaveQueue(error);
    }

    /** `direct_async_release_storage`, when no frame is in transport: each slot that names a block
        gives it back, and each of these was on lease. Only strays are left. */
    method ReleaseStorage()
      requires Valid() && Vacant(Snapshot()) && !q.returned
      modifies `leases, frames
      ensures multiset(leases.Keys) == old(Stray(Snapshot()))
      ensures forall i :: 0 <= i < frames.Length ==> frames[i].block.None?
    {
      StrayMeans(Snapshot());
      SlotsHold(Snapshot());
      leases := GiveAllBack(frames, leases, Stray(Snapshot()));
    }
  }

  lemma RefusedKeepsRing(r: Ring)
    ensures ReserveForConsumer(r).1 != 0 ==> ReserveForConsumer(r).0 == r
  {
  }

  lemma HeadSlot(s: Snap)
    requires DirectSnapshot.Sound(s) && 0 < s.q.count
    ensures s.frames[s.q.head] == Win(s)[0]
    ensures Win(s)[0].ringBacked ==> s.q.cfg.extension
    ensures !Win(s)[0].ringBacked ==> 0 < s.q.dmaCount
    ensures !s.q.active ==> Win(s)[0].ringBacked == Win(s)[0].block.None?
  {
    SlotOf(s, 0);
    CountsAgree(s);
    if Win(s)[0].ringBacked {
      HeadIsOldest(s);
    } else {
      DmaFramesPop(Win(s));
    }
  }

  lemma AcquiredSound(s: Snap, block: nat, raw: Iq)
    requires DirectSnapshot.Sound(s) && block !in s.mem.leases
    ensures var s' := s.(mem := s.mem.(leases := s.mem.leases[block := raw]));
            DirectSnapshot.Sound(s') && DirectSnapshot.View(s') == DirectSnapshot.View(s) && InHand(s', block)
  {
    OkAcquire(Win(s), Records(s), s.mem, s.q.returned, block, raw);
  }

  /** From place `i` of the window on, ring-backed frames sit in consecutive slots from `due`. */
  ghost predicate InStep(win: seq<QueueFrame>, i: nat, extension: bool, due: nat, slotCount: nat)
    decreases |win| - i
  {
    i < |win| ==>
      if win[i].ringBacked then
        extension && win[i].ringSlot == due && InStep(win, i + 1, extension, Succ(due, slotCount), slotCount)
      else
        win[i].block.Some? && InStep(win, i + 1, extension, due, slotCount)
  }

  lemma {:induction false} InStepFrom(s: Snap, first: nat, i: nat)
    requires DirectSnapshot.Sound(s) && i <= s.q.count
    requires s.q.cfg.extension ==>
               first < s.r.slotCount && s.r.queue == SlotsFrom(first, |s.r.queue|, s.r.slotCount)
    ensures s.q.cfg.extension ==> |RingSlots(Win(s)[..i])| <= s.r.slotCount
    ensures InStep(Win(s), i, s.q.cfg.extension,
                   if s.q.cfg.extension then Circular.Place(first, |RingSlots(Win(s)[..i])|, s.r.slotCount) else 0,
                   s.r.slotCount)
    decreases s.q.count - i
  {
    RingSlotsPrefix(Win(s), i);
    if i < s.q.count {
      NextPending(s, i);
      SlotOf(s, i);
      InStepFrom(s, first, i + 1);
      if Win(s)[i].ringBacked {
        SlotsFromAt(first, |s.r.queue|, s.r.slotCount, |RingSlots(Win(s)[..i])|);
      }
    }
  }

  lemma WaitingInStep(s: Snap, first: nat, keep: nat)
    requires DirectSnapshot.Sound(s) && keep == DirectSnapshot.Kept(s)
    requires s.q.cfg.extension ==>
               first < s.r.slotCount && s.r.queue == SlotsFrom(first, |s.r.queue|, s.r.slotCount)
    ensures keep <= s.q.count
    ensures InStep(Win(s), keep, s.q.cfg.extension,
                   if !s.q.cfg.extension then 0
                   else if keep == 1 && Win(s)[0].ringBacked then Succ(first, s.r.slotCount) else first,
                   s.r.slotCount)
  {
    HeadSlots(Win(s), keep);
    InStepFrom(s, first, keep);
  }

  lemma WaitingHoldBlocks(s: Snap, keep: nat)
    requires DirectSnapshot.Sound(s) && keep == DirectSnapshot.Kept(s)
    ensures keep <= s.q.count && DmaFrames(Win(s)[..keep]) <= DmaFrames(Win(s)) == s.q.dmaCount
    ensures forall i :: keep <= i < s.q.count && !Win(s)[i].ringBacked ==> Win(s)[i].block.Some?
  {
    DmaFramesPrefix(Win(s), keep);
    forall i | keep <= i < s.q.count && !Win(s)[i].ringBacked ensures Win(s)[i].block.Some? {
      SlotOf(s, i);
    }
  }

  /** What the RAM ring does when told to discard the waiting frames. */
  lemma CutRingDrops(s: Snap, waiting: nat)
    requires DirectSnapshot.Sound(s) && DirectSnapshot.Kept(s) <= s.q.count
    requires waiting == |RingSlots(Win(s))| - |RingSlots(Win(s)[..DirectSnapshot.Kept(s)])|
    ensures waiting != 0 ==> s.q.cfg.extension
    ensures waiting != 0 && DiscardPending(s.r).1 == 0 ==>
              |s.r.queue| - |DiscardPending(s.r).0.queue| == waiting
    ensures Cut(s).r == if waiting == 0 then s.r else DiscardPending(s.r).0
    ensures waiting != 0 ==> DiscardPending(s.r).1 == if DropBlocked(s) then -EBUSY else 0
    ensures waiting == 0 ==> !DropBlocked(s)
    ensures DropBlocked(s) ==> DiscardPending(s.r).0 == s.r
  {
    if s.q.cfg.extension {
      CoupledCut(s.r, Win(s), s.q.active);
    }
  }

  /** One step back from the tail is the newest slot. */
  lemma StepBack(head: nat, count: nat, n: nat)
    requires head < n && 0 < count <= n
    ensures (Circular.Place(head, count, n) + n - 1) % n == Circular.Place(head, count - 1, n)
  {
    var tail := Circular.Place(head, count, n);
    if tail == 0 {
      Circular.PlaceIsModulo(n - 1, 0, n);
    } else {
      Circular.PlaceIsModulo(tail - 1, n, n);
    }
  }
}
