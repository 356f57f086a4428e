/**
 The RAM ring itself: a caller's array of slot states, walked by two wrapping positions.

 Every method is proved to do to `View()`, the FIFO of slot numbers, what `RingModel.Apply`
 says; in particular the source's -EIO returns, which guard the slot-state array against
 disagreement with the positions, are never taken.
 */
module DdrRing {
  import opened Errno
  import opened RingModel
  import opened Circular

  datatype SlotState = Free | Producer | Committed | Consumer

  /** `count` slots from `first` on, round a ring of `n`. */
  function SlotsFrom(first: nat, count: nat, n: nat): (s: seq<nat>)
    ensures |s| == count
    decreases count
  {
    if count == 0 then [] else [first] + SlotsFrom(Succ(first, n), count - 1, n)
  }

  lemma {:induction false} SlotsFromAt(first: nat, count: nat, n: nat, i: nat)
    requires first < n && i < count <= n
    ensures SlotsFrom(first, count, n)[i] == Place(first, i, n)
    decreases count
  {
    if i > 0 {
      SlotsFromAt(Succ(first, n), count - 1, n, i - 1);
    }
  }

  lemma {:induction false} SlotsGrow(first: nat, count: nat, n: nat)
    requires first < n && count < n
    ensures SlotsFrom(first, count + 1, n) == SlotsFrom(first, count, n) + [Place(first, count, n)]
    decreases count
  {
    if count > 0 {
      SlotsGrow(Succ(first, n), count - 1, n);
    }
  }

  /** What the slot `i` places from the consumer's must hold. */
  function Expected(i: nat, occupied: nat, producing: bool, consuming: bool): SlotState {
    if i < occupied then (if i == 0 && consuming then Consumer else Committed)
    else if i == occupied && producing then Producer
    else Free
  }

  /** The places from `i` on hold what they must. Recursive, so that only the lemmas below,
      and not every method, see through it. */
  ghost predicate PlacesHold(s: seq<SlotState>, first: nat, occupied: nat, producing: bool,
                             consuming: bool, i: nat)
    requires first < |s|
    decreases |s| - i
  {
    i >= |s| ||
    (s[Place(first, i, |s|)] == Expected(i, occupied, producing, consuming) &&
     PlacesHold(s, first, occupied, producing, consuming, i + 1))
  }

  ghost predicate Shaped(s: seq<SlotState>, first: nat, occupied: nat, producing: bool, consuming: bool) {
    && first < |s| && occupied <= |s|
    && (producing ==> occupied < |s|) && (consuming ==> 0 < occupied)
    && PlacesHold(s, first, occupied, producing, consuming, 0)
  }

  lemma {:induction false} PlaceHolds(s: seq<SlotState>, f: nat, o: nat, p: bool, c: bool, i: nat, at: nat)
    requires f < |s| && i <= at < |s| && PlacesHold(s, f, o, p, c, i)
    ensures s[Place(f, at, |s|)] == Expected(at, o, p, c)
    decreases |s| - i
  {
    if i < at {
      PlaceHolds(s, f, o, p, c, i + 1, at);
    }
  }

  lemma {:induction false} PlacesHoldAll(s: seq<SlotState>, f: nat, o: nat, p: bool, c: bool, i: nat)
    requires f < |s|
    requires forall k {:trigger Place(f, k, |s|)} :: i <= k < |s| ==> s[Place(f, k, |s|)] == Expected(k, o, p, c)
    ensures PlacesHold(s, f, o, p, c, i)
    decreases |s| - i
  {
    if i < |s| {
      PlacesHoldAll(s, f, o, p, c, i + 1);
    }
  }

  lemma SlotsAtEnds(s: seq<SlotState>, f: nat, o: nat, p: bool, c: bool)
    requires Shaped(s, f, o, p, c)
    ensures s[Place(f, o, |s|)] ==
              if o < |s| then (if p then Producer else Free) else if c then Consumer else Committed
    ensures 0 < o ==> s[f] == if c then Consumer else Committed
  {
    PlaceHolds(s, f, o, p, c, 0, 0);
    if o < |s| {
      PlaceHolds(s, f, o, p, c, 0, o);
    }
  }

  /** Rewriting the slot at place `at` moves the shape to new bounds, if all other places agree. */
  lemma Reshape(s: seq<SlotState>, f: nat, o: nat, p: bool, c: bool, at: nat, v: SlotState,
                f': nat, o': nat, p': bool, c': bool)
    requires Shaped(s, f, o, p, c) && at < |s|
    requires f' < |s| && o' <= |s| && (p' ==> o' < |s|) && (c' ==> 0 < o')
    requires f' == f || (f' == Succ(f, |s|) && at == 0)
    requires var shift := if f' == f then 0 else 1;
             forall k :: 0 <= k < |s| ==>
               Expected(k, o', p', c') ==
               (if k == (if shift == 0 || |s| == 1 then at else |s| - 1) then v
                else Expected(k + shift, o, p, c))
    ensures Shaped(s[Place(f, at, |s|) := v], f', o', p', c')
  {
    var t := s[Place(f, at, |s|) := v];
    forall k | 0 <= k < |s|
      ensures t[Place(f', k, |s|)] == Expected(k, o', p', c')
    {
      var was := if f' == f then k else if k + 1 < |s| then k + 1 else 0;
      PlaceHolds(s, f, o, p, c, 0, was);
      assert Place(f', k, |s|) == Place(f, was, |s|);
      assert was == at <==> k == if f' == f || |s| == 1 then at else |s| - 1;
    }
    PlacesHoldAll(t, f', o', p', c', 0);
  }

  lemma SetProducing(s: seq<SlotState>, f: nat, o: nat, c: bool)
    requires Shaped(s, f, o, false, c) && o < |s|
    ensures Shaped(s[Place(f, o, |s|) := Producer], f, o, true, c)
  {
    Reshape(s, f, o, false, c, o, Producer, f, o, true, c);
  }

  lemma SetCommitted(s: seq<SlotState>, f: nat, o: nat, c: bool)
    requires Shaped(s, f, o, true, c)
    ensures Shaped(s[Place(f, o, |s|) := Committed], f, o + 1, false, c)
  {
    Reshape(s, f, o, true, c, o, Committed, f, o + 1, false, c);
  }

  lemma SetAborted(s: seq<SlotState>, f: nat, o: nat, c: bool)
    requires Shaped(s, f, o, true, c)
    ensures Shaped(s[Place(f, o, |s|) := Free], f, o, false, c)
  {
    Reshape(s, f, o, true, c, o, Free, f, o, false, c);
  }

  lemma SetConsuming(s: seq<SlotState>, f: nat, o: nat, p: bool)
    requires Shaped(s, f, o, p, false) && 0 < o
    ensures Shaped(s[f := Consumer], f, o, p, true)
  {
    Reshape(s, f, o, p, false, 0, Consumer, f, o, p, true);
  }

  lemma SetReleased(s: seq<SlotState>, f: nat, o: nat, p: bool)
    requires Shaped(s, f, o, p, true)
    ensures Shaped(s[f := Free], Succ(f, |s|), o - 1, p, false)
  {
    Reshape(s, f, o, p, true, 0, Free, Succ(f, |s|), o - 1, p, false);
  }

  /** While discarding: places `keep` up to `upto` are free, the others as before. */
  ghost predicate PartlyFreed(s: seq<SlotState>, was: seq<SlotState>, f: nat, keep: nat, upto: nat) {
    && f < |s| == |was| && keep <= upto <= |s|
    && (forall i {:trigger Place(f, i, |s|)} :: 0 <= i < |s| ==>
          s[Place(f, i, |s|)] == if keep <= i < upto then Free else was[Place(f, i, |s|)])
  }

  lemma FreeOneMore(s: seq<SlotState>, was: seq<SlotState>, f: nat, keep: nat, upto: nat)
    requires PartlyFreed(s, was, f, keep, upto) && upto < |s|
    ensures PartlyFreed(s[Place(f, upto, |s|) := Free], was, f, keep, upto + 1)
  {
  }

  lemma FreedAll(s: seq<SlotState>, was: seq<SlotState>, f: nat, o: nat, keep: nat)
    requires Shaped(was, f, o, false, keep == 1) && keep <= 1
    requires PartlyFreed(s, was, f, keep, o)
    ensures Shaped(s, f, keep, false, keep == 1)
  {
    forall k | 0 <= k < |s| ensures s[Place(f, k, |s|)] == Expected(k, keep, false, keep == 1) {
      PlaceHolds(was, f, o, false, keep == 1, 0, k);
    }
    PlacesHoldAll(s, f, keep, false, keep == 1, 0);
  }

  lemma SlotsPrefix(first: nat, count: nat, keep: nat, n: nat)
    requires first < n && keep <= count <= n && keep <= 1
    ensures SlotsFrom(first, keep, n) == SlotsFrom(first, count, n)[..keep]
    ensures keep < count ==> SlotsFrom(first, count, n)[keep] == Place(first, keep, n)
  {
    if keep < count {
      SlotsFromAt(first, count, n, keep);
    }
  }

  method ClearSlots(buffer: array<SlotState>)
    requires 0 < buffer.Length
    modifies buffer
    ensures Shaped(buffer[..], 0, 0, false, false)
  {
    for i := 0 to buffer.Length
      invariant forall k :: 0 <= k < i ==> buffer[k] == Free
    {
      buffer[i] := Free;
    }
    PlacesHoldAll(buffer[..], 0, 0, false, false, 0);
  }

  /** The first loop of `iiod_ddr_ring_core_discard_pending`. */
  method AllCommitted(slots: array<SlotState>, ghost f: nat, o: nat, keep: nat, first: nat)
    returns (committed: bool)
    requires Shaped(slots[..], f, o, false, keep == 1) && keep <= 1 && keep <= o
    requires first == Place(f, keep, slots.Length)
    ensures committed
  {
    var position, i := first, 0;
    while i < o - keep
      invariant 0 <= i <= o - keep
      invariant position == Place(f, keep + i, slots.Length)
    {
      PlaceHolds(slots[..], f, o, false, keep == 1, 0, keep + i);
      if slots[position] != Committed {
        return false;
      }
      position := Succ(position, slots.Length);
      i := i + 1;
    }
    return true;
  }

  /** The second loop: every waiting slot becomes free. */
  method FreeAll(slots: array<SlotState>, ghost f: nat, o: nat, keep: nat, first: nat)
    requires Shaped(slots[..], f, o, false, keep == 1) && keep <= 1 && keep <= o
    requires first == Place(f, keep, slots.Length)
    modifies slots
    ensures Shaped(slots[..], f, keep, false, keep == 1)
  {
    ghost var was := slots[..];
    var position, i := first, 0;
    while i < o - keep
      invariant 0 <= i <= o - keep
      invariant position == Place(f, keep + i, slots.Length)
      invariant PartlyFreed(slots[..], was, f, keep, keep + i)
    {
      ghost var before := slots[..];
      slots[position] := Free;
      assert slots[..] == before[position := Free];
      FreeOneMore(before, was, f, keep, keep + i);
      position := Succ(position, slots.Length);
      i := i + 1;
    }
    FreedAll(slots[..], was, f, o, keep);
  }

  /** The scalar fields of `struct iiod_ddr_ring_core`. */
  datatype Core = Core(
    producerPosition: nat, consumerPosition: nat, occupied: nat,
    prefillFrames: nat, lowWaterFrames: nat, targetFrames: nat,
    producedFrames: nat, consumedFrames: nat,
    state: Phase, terminalReason: int, errorCode: int,
    producerReserved: bool, consumerReserved: bool, consumerStarted: bool)

  ghost function AsFifo(c: Core, slotCount: nat, discarded: nat): Ring {
    Ring(slotCount, c.targetFrames, c.prefillFrames, c.lowWaterFrames, c.producerPosition,
         SlotsFrom(c.consumerPosition, c.occupied, slotCount),
         c.producerReserved, c.consumerReserved, c.consumerStarted,
         c.producedFrames, c.consumedFrames, discarded, c.state, c.terminalReason, c.errorCode)
  }

  /** The slot states agree with the positions and reservations. */
  ghost predicate Coherent(c: Core, s: seq<SlotState>) {
    && Shaped(s, c.consumerPosition, c.occupied, c.producerReserved, c.consumerReserved)
    && c.producerPosition == Place(c.consumerPosition, c.occupied, |s|)
  }

  class RingCore {
    const slots: array<SlotState>
    var core: Core
    ghost var discarded: nat

    ghost predicate Valid()
      reads this, slots
    {
      Coherent(core, slots[..])
    }

    ghost function View(): Ring
      reads this
    {
      AsFifo(core, slots.Length, discarded)
    }

    constructor (buffer: array<SlotState>)
      ensures slots == buffer
    {
      slots := buffer;
      core := Core(0, 0, 0, 0, 0, 0, 0, 0, Reserved, REASON_NONE, 0, false, false, false);
    }

    /** `iiod_ddr_ring_core_init`. */
    method Init(target: nat) returns (ret: int)
      modifies this, slots
      ensures ret == if slots.Length == 0 then -EINVAL else 0
      ensures ret == 0 ==> Valid() && View() == Initial(slots.Length, target)
      ensures ret != 0 ==> unchanged(this)
    {
      if slots.Length == 0 {
        return -EINVAL;
      }
      ClearSlots(slots);
      var prefill := if target != 0 && target < slots.Length then target else slots.Length;
      var lowWater := if target != 0 && target <= slots.Length then 0 else slots.Length / 2;
      core := Core(0, 0, 0, prefill, lowWater, target, 0, 0, Reserved, REASON_NONE, 0,
                   false, false, false);
      discarded := 0;
      return 0;
    }

    method StartRing() returns (ret: int)
      requires Valid()
      modifies this
      ensures Valid()
      ensures (View(), ret) == Begin(old(View()))
    {
      if core.state != Reserved {
        return -EINVAL;
      }
      core := core.(state := Running);
      return 0;
    }

    method StartExtensionRing() returns (ret: int)
      requires Valid()
      modifies this
      ensures Valid()
      ensures (View(), ret) == BeginExtension(old(View()))
    {
      ret := StartRing();
      if ret != 0 {
        return;
      }
      core := core.(prefillFrames := 0, lowWaterFrames := 0, consumerStarted := true);
    }

    method ReserveProducer() returns (ret: int, slot: nat)
      requires Valid()
      modifies this, slots
      ensures Valid()
      ensures (View(), ret) == ReserveForProducer(old(View()))
      ensures ret == 0 ==> slot == old(View()).next
    {
      slot := 0;
      if core.state != Running {
        return -ESHUTDOWN, slot;
      }
      if core.producerReserved {
        return -EBUSY, slot;
      }
      if core.targetFrames != 0 && core.producedFrames >= core.targetFrames {
        return -ENODATA, slot;
      }
      SlotsAtEnds(slots[..], core.consumerPosition, core.occupied, core.producerReserved, core.consumerReserved);
      if slots[core.producerPosition] != Free {
        return -EAGAIN, slot;
      }
      SetProducing(slots[..], core.consumerPosition, core.occupied, core.consumerReserved);
      ghost var before := slots[..];
      slots[core.producerPosition] := Producer;
      assert slots[..] == before[core.producerPosition := Producer];
      slot := core.producerPosition;
      core := core.(producerReserved := true);
      return 0, slot;
    }

    method CommitProducer() returns (ret: int)
      requires Valid()
      modifies this, slots
      ensures Valid()
      ensures (View(), ret) == Commit(old(View()))
    {
      if !core.producerReserved {
        return -EINVAL;
      }
      var slot := core.producerPosition;
      SlotsAtEnds(slots[..], core.consumerPosition, core.occupied, core.producerReserved, core.consumerReserved);
      if slots[slot] != Producer {
        return -EIO;
      }
      SetCommitted(slots[..], core.consumerPosition, core.occupied, core.consumerReserved);
      SlotsGrow(core.consumerPosition, core.occupied, slots.Length);
      ghost var before := slots[..];
      slots[slot] := Committed;
      assert slots[..] == before[slot := Committed];
      var c := core.(producerReserved := false, occupied := core.occupied + 1,
                     producedFrames := core.producedFrames + 1,
                     producerPosition := Succ(slot, slots.Length));
      if c.targetFrames != 0 && c.producedFrames == c.targetFrames {
        c := c.(state := Draining);
      }
      core := c;
      return 0;
    }

    method AbortProducer() returns (ret: int)
      requires Valid()
      modifies this, slots
      ensures Valid()
      ensures (View(), ret) == Abort(old(View()))
    {
      if !core.producerReserved {
        return -EINVAL;
      }
      SlotsAtEnds(slots[..], core.consumerPosition, core.occupied, core.producerReserved, core.consumerReserved);
      if slots[core.producerPosition] != Producer {
        return -EIO;
      }
      SetAborted(slots[..], core.consumerPosition, core.occupied, core.consumerReserved);
      ghost var before := slots[..];
      slots[core.producerPosition] := Free;
      assert slots[..] == before[core.producerPosition := Free];
      core := core.(producerReserved := false);
      return 0;
    }

    method ReserveConsumer() returns (ret: int, slot: nat)
      requires Valid()
      modifies this, slots
      ensures Valid()
      ensures (View(), ret) == ReserveForConsumer(old(View()))
      ensures ret == 0 ==> old(View()).queue != [] && slot == old(View()).queue[0]
    {
      slot := 0;
      if !AllowsDrain(core.state) {
        return if core.state == Complete then -ENODATA else -ESHUTDOWN, slot;
      }
      if core.consumerReserved {
        return -EBUSY, slot;
      }
      if core.occupied == 0 {
        if core.state == Draining {
          return -ENODATA, slot;
        }
        if core.state == Failed {
          return if core.errorCode != 0 then core.errorCode else -EIO, slot;
        }
        return -EAGAIN, slot;
      }
      var c := core;
      if c.state == Running {
        if !c.consumerStarted {
          if c.occupied < c.prefillFrames {
            return -EAGAIN, slot;
          }
          c := c.(consumerStarted := true);
        } else if c.occupied <= c.lowWaterFrames {
          return -EAGAIN, slot;
        }
      }
      SlotsAtEnds(slots[..], c.consumerPosition, c.occupied, c.producerReserved, c.consumerReserved);
      core := c;
      if slots[c.consumerPosition] != Committed {
        return -EIO, slot;
      }
      SetConsuming(slots[..], c.consumerPosition, c.occupied, c.producerReserved);
      ghost var before := slots[..];
      slots[c.consumerPosition] := Consumer;
      assert slots[..] == before[c.consumerPosition := Consumer];
      core := c.(consumerReserved := true);
      slot := c.consumerPosition;
      return 0, slot;
    }

    method ReleaseConsumer() returns (ret: int)
      requires Valid()
      modifies this, slots
      ensures Valid()
      ensures (View(), ret) == Release(old(View()))
    {
      if !core.consumerReserved || core.occupied == 0 {
        return -EINVAL;
      }
      var slot := core.consumerPosition;
      SlotsAtEnds(slots[..], core.consumerPosition, core.occupied, core.producerReserved, core.consumerReserved);
      if slots[slot] != Consumer {
        return -EIO;
      }
      SetReleased(slots[..], core.consumerPosition, core.occupied, core.producerReserved);
      ghost var before := slots[..];
      slots[slot] := Free;
      assert slots[..] == before[slot := Free];
      var c := core.(consumerReserved := false, occupied := core.occupied - 1,
                     consumedFrames := core.consumedFrames + 1,
                     consumerPosition := Succ(slot, slots.Length));
      if c.state == Draining && c.occupied == 0 {
        c := c.(state := Complete, terminalReason := REASON_TARGET_COMPLETE);
      }
      core := c;
      return 0;
    }

    /** `iiod_ddr_ring_core_discard_pending`: checks the slots it is about to free, then frees them. */
    method DiscardWaiting() returns (ret: int, dropped: nat)
      requires Valid()
      modifies this, slots
      ensures Valid()
      ensures (View(), ret) == DiscardPending(old(View()))
      ensures ret == 0 ==> dropped == |old(View()).queue| - |View().queue|
    {
      dropped := 0;
      if core.state != Running || core.producerReserved {
        return -EBUSY, dropped;
      }
      var keep := if core.consumerReserved then 1 else 0;
      if core.occupied < keep {
        return -EIO, dropped;
      }
      var pending := core.occupied - keep;
      var position := if keep == 0 then core.consumerPosition else Succ(core.consumerPosition, slots.Length);
      var committed := AllCommitted(slots, core.consumerPosition, core.occupied, keep, position);
      if !committed {
        return -EIO, dropped;
      }
      FreeAll(slots, core.consumerPosition, core.occupied, keep, position);
      SlotsPrefix(core.consumerPosition, core.occupied, keep, slots.Length);
      core := core.(occupied := keep, producerPosition := position);
      dropped := pending;
      discarded := discarded + pending;
      return 0, dropped;
    }

    method FailRing(reason: int, code: int) returns (ret: int)
      requires Valid()
      modifies this, slots
      ensures Valid()
      ensures (View(), ret) == FailWith(old(View()), reason, code)
    {
      if reason < REASON_CONSUMER_STALL || reason > REASON_INTERNAL_ERROR || code >= 0 {
        return -EINVAL;
      }
      var terminal := Terminal();
      if terminal {
        return -ESHUTDOWN;
      }
      if core.producerReserved {
        var _ := AbortProducer();
      }
      core := core.(state := Failed, terminalReason := reason, errorCode := code);
      return 0;
    }

    method CancelRing(reason: int) returns (ret: int)
      requires Valid()
      modifies this, slots
      ensures Valid()
      ensures (View(), ret) == CancelFor(old(View()), reason)
    {
      if reason != REASON_CLIENT_CANCELLED && reason != REASON_CLIENT_DISCONNECTED {
        return -EINVAL;
      }
      var terminal := Terminal();
      if terminal {
        return -ESHUTDOWN;
      }
      if core.producerReserved {
        var _ := AbortProducer();
      }
      core := core.(state := Cancelled, terminalReason := reason, errorCode := -ECANCELED);
      return 0;
    }

    method CompleteExtensionRing() returns (ret: int)
      requires Valid()
      modifies this
      ensures Valid()
      ensures (View(), ret) == FinishExtension(old(View()))
    {
      if core.state != Running {
        return -EINVAL;
      }
      if core.occupied != 0 || core.producerReserved || core.consumerReserved {
        return -EBUSY;
      }
      core := core.(state := Complete, terminalReason := REASON_TARGET_COMPLETE, errorCode := 0);
      return 0;
    }

    method Terminal() returns (b: bool)
      requires Valid()
      ensures b == IsTerminal(View())
    {
      b := core.state == Complete || core.state == Cancelled ||
           (core.state == Failed && core.occupied == 0 && !core.consumerReserved);
    }

    /** `iiod_ddr_ring_core_consumer_ready`: would a reservation succeed, were none outstanding? */
    method ConsumerReady() returns (b: bool)
      requires Valid()
      ensures b <==> ReserveForConsumer(View().(consumerHeld := false)).1 == 0
    {
      if !AllowsDrain(core.state) || core.occupied == 0 {
        return false;
      }
      if core.state != Running {
        return true;
      }
      if !core.consumerStarted {
        return core.occupied >= core.prefillFrames;
      }
      return core.occupied > core.lowWaterFrames;
    }
  }
}
