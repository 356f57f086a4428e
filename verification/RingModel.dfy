/**
 The RAM ring of iiod/ddr-ring-core.c seen as a bounded FIFO of slot numbers.

 `Apply` says what one call does to the FIFO; DdrRing.dfy proves that the slot-state
 array of the source does exactly that. The lemmas here are about whole runs of calls.
 */
module RingModel {
  import opened Errno

  datatype Phase = Reserved | Running | Draining | Complete | Failed | Cancelled

  // Terminal reasons, numbered as in iiod/spf-ddr-ring-status.h:23-33.
  const REASON_NONE := 0
  const REASON_TARGET_COMPLETE := 1
  const REASON_CLIENT_CANCELLED := 2
  const REASON_CLIENT_DISCONNECTED := 3
  const REASON_CONSUMER_STALL := 4
  const REASON_DMA_ERROR := 5
  const REASON_COUNTER_GAP := 6
  const REASON_TRANSPORT_ERROR := 7
  const REASON_INTERNAL_ERROR := 8

  /** `queue` lists the committed slots, oldest first; its head stays in it while the consumer
      holds it. `next` is the slot the producer fills next. `discarded` is not a field of the
      source: it counts what `Discard` has thrown away. */
  datatype Ring = Ring(
    slotCount: nat, target: nat, prefill: nat, lowWater: nat,
    next: nat, queue: seq<nat>,
    producerHeld: bool, consumerHeld: bool, started: bool,
    produced: nat, consumed: nat, discarded: nat,
    phase: Phase, reason: int, error: int)

  datatype Call =
    | Start
    | StartExtension
    | ProducerReserve
    | ProducerCommit
    | ProducerAbort
    | ConsumerReserve
    | ConsumerRelease
    | Discard
    | Fail(why: int, code: int)
    | Cancel(why: int)
    | CompleteExtension

  function Succ(slot: nat, slotCount: nat): nat {
    if slot + 1 == slotCount then 0 else slot + 1
  }

  function Initial(slotCount: nat, target: nat): Ring {
    Ring(slotCount, target,
         if target != 0 && target < slotCount then target else slotCount,
         if target != 0 && target <= slotCount then 0 else slotCount / 2,
         0, [], false, false, false, 0, 0, 0, Reserved, REASON_NONE, 0)
  }

  predicate AllowsDrain(p: Phase) {
    p == Running || p == Draining || p == Failed
  }

  predicate IsTerminal(r: Ring) {
    r.phase == Complete || r.phase == Cancelled ||
    (r.phase == Failed && r.queue == [] && !r.consumerHeld)
  }

  /** The prefill and low-water gates. */
  predicate GateOpen(r: Ring) {
    r.phase != Running ||
    (if r.started then |r.queue| > r.lowWater else |r.queue| >= r.prefill)
  }

  function ReserveForProducer(r: Ring): (Ring, int) {
    if r.phase != Running then (r, -ESHUTDOWN)
    else if r.producerHeld then (r, -EBUSY)
    else if r.target != 0 && r.produced >= r.target then (r, -ENODATA)
    else if |r.queue| == r.slotCount then (r, -EAGAIN)
    else (r.(producerHeld := true), 0)
  }

  function Commit(r: Ring): (Ring, int) {
    if !r.producerHeld then (r, -EINVAL)
    else
      (r.(producerHeld := false, queue := r.queue + [r.next], next := Succ(r.next, r.slotCount),
          produced := r.produced + 1,
          phase := if r.target != 0 && r.produced + 1 == r.target then Draining else r.phase), 0)
  }

  function Abort(r: Ring): (Ring, int) {
    if !r.producerHeld then (r, -EINVAL) else (r.(producerHeld := false), 0)
  }

  function ReserveForConsumer(r: Ring): (Ring, int) {
    if !AllowsDrain(r.phase) then (r, if r.phase == Complete then -ENODATA else -ESHUTDOWN)
    else if r.consumerHeld then (r, -EBUSY)
    else if r.queue == [] then
      (r, match r.phase
          case Draining => -ENODATA
          case Failed => if r.error != 0 then r.error else -EIO
          case _ => -EAGAIN)
    else if !GateOpen(r) then (r, -EAGAIN)
    else (r.(consumerHeld := true, started := r.started || r.phase == Running), 0)
  }

  function Release(r: Ring): (Ring, int) {
    if !r.consumerHeld || r.queue == [] then (r, -EINVAL)
    else
      var done := r.phase == Draining && |r.queue| == 1;
      (r.(consumerHeld := false, queue := r.queue[1..], consumed := r.consumed + 1,
          phase := if done then Complete else r.phase,
          reason := if done then REASON_TARGET_COMPLETE else r.reason), 0)
  }

  function DiscardPending(r: Ring): (Ring, int) {
    if r.phase != Running || r.producerHeld then (r, -EBUSY)
    else
      var keep := if r.consumerHeld then 1 else 0;
      if |r.queue| <= keep then (r, 0)
      else (r.(queue := r.queue[..keep], next := r.queue[keep],
               discarded := r.discarded + (|r.queue| - keep)), 0)
  }

  function Terminate(r: Ring, phase: Phase, why: int, code: int): (Ring, int) {
    if IsTerminal(r) then (r, -ESHUTDOWN)
    else (r.(producerHeld := false, phase := phase, reason := why, error := code), 0)
  }

  function Begin(r: Ring): (Ring, int) {
    if r.phase != Reserved then (r, -EINVAL) else (r.(phase := Running), 0)
  }

  function BeginExtension(r: Ring): (Ring, int) {
    if r.phase != Reserved then (r, -EINVAL)
    else (r.(phase := Running, prefill := 0, lowWater := 0, started := true), 0)
  }

  function FailWith(r: Ring, why: int, code: int): (Ring, int) {
    if why < REASON_CONSUMER_STALL || why > REASON_INTERNAL_ERROR || code >= 0 then (r, -EINVAL)
    else Terminate(r, Failed, why, code)
  }

  function CancelFor(r: Ring, why: int): (Ring, int) {
    if why != REASON_CLIENT_CANCELLED && why != REASON_CLIENT_DISCONNECTED then (r, -EINVAL)
    else Terminate(r, Cancelled, why, -ECANCELED)
  }

  function FinishExtension(r: Ring): (Ring, int) {
    if r.phase != Running then (r, -EINVAL)
    else if r.queue != [] || r.producerHeld || r.consumerHeld then (r, -EBUSY)
    else (r.(phase := Complete, reason := REASON_TARGET_COMPLETE, error := 0), 0)
  }

  /** What one call does, and what it returns. */
  function Apply(r: Ring, c: Call): (Ring, int) {
    match c
    case Start => Begin(r)
    case StartExtension => BeginExtension(r)
    case ProducerReserve => ReserveForProducer(r)
    case ProducerCommit => Commit(r)
    case ProducerAbort => Abort(r)
    case ConsumerReserve => ReserveForConsumer(r)
    case ConsumerRelease => Release(r)
    case Discard => DiscardPending(r)
    case Fail(why, code) => FailWith(r, why, code)
    case Cancel(why) => CancelFor(r, why)
    case CompleteExtension => FinishExtension(r)
  }

  function Run(r: Ring, calls: seq<Call>): Ring
    decreases |calls|
  {
    if calls == [] then r else Run(Apply(r, calls[0]).0, calls[1..])
  }

  // ---------------------------------------------------------------------------------------
  // What every call keeps

  function Pred(slot: nat, slotCount: nat): nat {
    if slot == 0 then (if slotCount == 0 then 0 else slotCount - 1) else slot - 1
  }

  /** The queue holds consecutive slots, the last of them just before `next`. */
  ghost predicate LeadsTo(queue: seq<nat>, next: nat, slotCount: nat) {
    queue == [] ||
    (var last := |queue| - 1;
     queue[last] == Pred(next, slotCount) && LeadsTo(queue[..last], queue[last], slotCount))
  }

  lemma {:induction false} LeadsPop(queue: seq<nat>, next: nat, slotCount: nat)
    requires LeadsTo(queue, next, slotCount) && queue != []
    ensures LeadsTo(queue[1..], next, slotCount)
  {
    var last := |queue| - 1;
    if last > 0 {
      LeadsPop(queue[..last], queue[last], slotCount);
      assert queue[..last][1..] == queue[1..][..last - 1];
    }
  }

  lemma {:induction false} LeadsPrefix(queue: seq<nat>, next: nat, slotCount: nat, keep: nat)
    requires LeadsTo(queue, next, slotCount) && keep < |queue|
    ensures LeadsTo(queue[..keep], queue[keep], slotCount)
    ensures next < slotCount ==> queue[keep] < slotCount
  {
    var last := |queue| - 1;
    if keep < last {
      LeadsPrefix(queue[..last], queue[last], slotCount, keep);
      assert queue[..last][..keep] == queue[..keep];
    }
  }

  /** The slot `k` places before `next`, round the ring. */
  function SlotBefore(next: nat, k: nat, slotCount: nat): int {
    if k <= next then next - k else next + slotCount - k
  }

  lemma {:induction false} LeadsAt(queue: seq<nat>, next: nat, slotCount: nat, i: nat)
    requires LeadsTo(queue, next, slotCount) && i < |queue| <= slotCount && next < slotCount
    ensures queue[i] == SlotBefore(next, |queue| - i, slotCount)
  {
    var last := |queue| - 1;
    if i < last {
      LeadsAt(queue[..last], queue[last], slotCount, i);
    }
  }

  /** The queue is the window of consecutive slots that ends just before `next`. */
  ghost predicate Window(r: Ring) {
    && 0 < r.slotCount && r.next < r.slotCount && |r.queue| <= r.slotCount
    && LeadsTo(r.queue, r.next, r.slotCount)
  }

  ghost predicate Inv(r: Ring) {
    && Window(r)
    && (r.consumerHeld ==> r.queue != [])
    && (r.producerHeld ==> r.phase == Running && |r.queue| < r.slotCount)
    && (r.producerHeld && r.target != 0 ==> r.produced < r.target)
    && r.produced == r.consumed + |r.queue| + r.discarded
    && (r.target != 0 ==> r.produced <= r.target)
    && (r.target != 0 && (r.phase == Running || r.phase == Reserved) ==> r.produced < r.target)
    && (r.phase == Draining ==> r.target != 0 && r.produced == r.target && r.queue != [])
    && (r.phase == Complete ==> r.queue == [])
    && (r.phase == Reserved ==> r.queue == [] && r.produced == 0)
    && (r.phase == Failed ==> r.error < 0)
    && r.prefill <= r.slotCount && r.lowWater <= r.slotCount / 2
    && (r.target != 0 ==> r.prefill <= r.target)
  }

  /** The producer's slot is not in the queue. */
  lemma NextIsFree(r: Ring)
    requires Inv(r) && |r.queue| < r.slotCount
    ensures r.next !in r.queue && r.next < r.slotCount
  {
    forall i | 0 <= i < |r.queue| ensures r.queue[i] != r.next {
      LeadsAt(r.queue, r.next, r.slotCount, i);
    }
  }

  lemma InitialInv(slotCount: nat, target: nat)
    requires 0 < slotCount
    ensures Inv(Initial(slotCount, target))
  {
  }

  lemma CommitInv(r: Ring)
    requires Inv(r)
    ensures Inv(Commit(r).0)
  {
    assert (r.queue + [r.next])[..|r.queue|] == r.queue;
  }

  lemma ReleaseInv(r: Ring)
    requires Inv(r)
    ensures Inv(Release(r).0)
  {
    if r.queue != [] {
      LeadsPop(r.queue, r.next, r.slotCount);
    }
  }

  lemma DiscardInv(r: Ring)
    requires Inv(r)
    ensures Inv(DiscardPending(r).0)
  {
    var keep := if r.consumerHeld then 1 else 0;
    if keep < |r.queue| {
      LeadsPrefix(r.queue, r.next, r.slotCount, keep);
    }
  }

  lemma ReservationsInv(r: Ring)
    requires Inv(r)
    ensures Inv(ReserveForProducer(r).0) && Inv(Abort(r).0)
    ensures Inv(ReserveForConsumer(r).0)
  {
  }

  lemma LifecycleInv(r: Ring)
    requires Inv(r)
    ensures Inv(Begin(r).0) && Inv(BeginExtension(r).0) && Inv(FinishExtension(r).0)
  {
  }

  lemma TerminateInv(r: Ring, why: int, code: int)
    requires Inv(r)
    ensures Inv(FailWith(r, why, code).0) && Inv(CancelFor(r, why).0)
  {
  }

  lemma StepInv(r: Ring, c: Call)
    requires Inv(r)
    ensures Inv(Apply(r, c).0)
  {
    match c
    case ProducerCommit => CommitInv(r);
    case ConsumerRelease => ReleaseInv(r);
    case Discard => DiscardInv(r);
    case Fail(why, code) => TerminateInv(r, why, code);
    case Cancel(why) => TerminateInv(r, why, 0);
    case ProducerReserve => ReservationsInv(r);
    case ProducerAbort => ReservationsInv(r);
    case ConsumerReserve => ReservationsInv(r);
    case _ => LifecycleInv(r);
  }
}
