/** What iiod/ddr-ring-core.c guarantees over whole runs of calls, in any order. */
module RingRuns {
  import opened Errno
  import opened RingModel

  lemma {:induction false} RunInv(r: Ring, calls: seq<Call>)
    requires Inv(r)
    ensures Inv(Run(r, calls))
    decreases |calls|
  {
    if calls != [] {
      StepInv(r, calls[0]);
      RunInv(Apply(r, calls[0]).0, calls[1..]);
    }
  }

  // ---------------------------------------------------------------------------------------
  // First in, first out

  /** The frames in play: each commit is numbered by the count of commits before it.
      `waiting` are the numbers still queued, `out` those the consumer has released. */
  datatype Traffic = Traffic(waiting: seq<nat>, out: seq<nat>)

  function Move(r: Ring, t: Traffic, c: Call): Traffic
    requires |t.waiting| == |r.queue|
  {
    var after := Apply(r, c).0;
    match c
    case ProducerCommit =>
      if |after.queue| > |r.queue| then t.(waiting := t.waiting + [r.produced]) else t
    case ConsumerRelease =>
      if |after.queue| < |r.queue| then Traffic(t.waiting[1..], t.out + [t.waiting[0]]) else t
    case Discard => if |after.queue| < |r.queue| then t.(waiting := t.waiting[..|after.queue|]) else t
    case _ => t
  }

  lemma MoveLength(r: Ring, t: Traffic, c: Call)
    requires |t.waiting| == |r.queue|
    ensures |Move(r, t, c).waiting| == |Apply(r, c).0.queue|
  {
  }

  function Flow(r: Ring, t: Traffic, calls: seq<Call>): (f: Traffic)
    requires |t.waiting| == |r.queue|
    ensures |f.waiting| == |Run(r, calls).queue|
    decreases |calls|
  {
    if calls == [] then t
    else
      MoveLength(r, t, calls[0]);
      Flow(Apply(r, calls[0]).0, Move(r, t, calls[0]), calls[1..])
  }

  ghost predicate Ascending(s: seq<nat>) {
    forall i, j :: 0 <= i < j < |s| ==> s[i] < s[j]
  }

  /** Released numbers, then waiting numbers: ascending, all below `produced`, one per frame. */
  ghost predicate Ordered(r: Ring, t: Traffic) {
    && |t.waiting| == |r.queue| && |t.out| == r.consumed
    && Ascending(t.out + t.waiting)
    && (forall i :: 0 <= i < |t.out + t.waiting| ==> (t.out + t.waiting)[i] < r.produced)
  }

  lemma OrderedFrom(r: Ring, t: Traffic, was: seq<nat>)
    requires |t.waiting| == |r.queue| && |t.out| == r.consumed
    requires t.out + t.waiting <= was && Ascending(was)
    requires forall i :: 0 <= i < |was| ==> was[i] < r.produced
    ensures Ordered(r, t)
  {
    forall i | 0 <= i < |t.out + t.waiting| ensures (t.out + t.waiting)[i] == was[i] {
    }
  }

  lemma MoveOrdered(r: Ring, t: Traffic, c: Call)
    requires Inv(r) && Ordered(r, t)
    ensures Ordered(Apply(r, c).0, Move(r, t, c))
  {
    var after, moved, was := Apply(r, c).0, Move(r, t, c), t.out + t.waiting;
    MoveLength(r, t, c);
    if c == ProducerCommit && |after.queue| > |r.queue| {
      assert moved.out + moved.waiting == was + [r.produced];
      OrderedFrom(after, moved, was + [r.produced]);
    } else {
      assert moved.out + moved.waiting <= was;
      assert after.produced >= r.produced && |moved.out| == after.consumed;
      OrderedFrom(after, moved, was);
    }
  }

  lemma {:induction false} FlowOrdered(r: Ring, t: Traffic, calls: seq<Call>)
    requires Inv(r) && Ordered(r, t)
    ensures Ordered(Run(r, calls), Flow(r, t, calls))
    decreases |calls|
  {
    if calls != [] {
      StepInv(r, calls[0]);
      MoveOrdered(r, t, calls[0]);
      FlowOrdered(Apply(r, calls[0]).0, Move(r, t, calls[0]), calls[1..]);
    }
  }

  /** An ascending sequence of n numbers below n is 0, 1, ..., n-1. */
  lemma {:induction false} AscendingFull(s: seq<nat>)
    requires Ascending(s)
    requires forall i :: 0 <= i < |s| ==> s[i] < |s|
    ensures forall i :: 0 <= i < |s| ==> s[i] == i
  {
    if s != [] {
      var last := |s| - 1;
      forall i | 0 <= i < last ensures s[..last][i] < last {
        assert s[i] < s[last];
      }
      AscendingFull(s[..last]);
      forall i | 0 <= i < |s| ensures s[i] == i {
        if i < last {
          assert s[i] == s[..last][i];
        } else if last > 0 {
          assert s[last - 1] == s[..last][last - 1] == last - 1;
        }
      }
    }
  }

  /** The consumer gets frames in commit order; no frame is delivered twice; the frames that
      are neither delivered nor waiting are exactly as many as were discarded; and if none was
      discarded, what came out is the unbroken prefix 0, 1, 2, ... of what went in. */
  lemma FirstInFirstOut(slotCount: nat, target: nat, calls: seq<Call>)
    requires 0 < slotCount
    ensures var r := Run(Initial(slotCount, target), calls);
            var t := Flow(Initial(slotCount, target), Traffic([], []), calls);
            && Ascending(t.out + t.waiting)
            && |t.out| == r.consumed && |t.waiting| == |r.queue| <= slotCount
            && r.produced == r.consumed + |r.queue| + r.discarded
            && (forall i :: 0 <= i < |t.out + t.waiting| ==> (t.out + t.waiting)[i] < r.produced)
            && (r.discarded == 0 ==>
                  forall i :: 0 <= i < |t.out + t.waiting| ==> (t.out + t.waiting)[i] == i)
  {
    var r0, t0 := Initial(slotCount, target), Traffic([], []);
    InitialInv(slotCount, target);
    RunInv(r0, calls);
    RunSlotCount(r0, calls);
    FlowOrdered(r0, t0, calls);
    var r, t := Run(r0, calls), Flow(r0, t0, calls);
    if r.discarded == 0 {
      AscendingFull(t.out + t.waiting);
    }
  }

  lemma {:induction false} RunSlotCount(r: Ring, calls: seq<Call>)
    ensures Run(r, calls).slotCount == r.slotCount && Run(r, calls).target == r.target
    decreases |calls|
  {
    if calls != [] {
      RunSlotCount(Apply(r, calls[0]).0, calls[1..]);
    }
  }

  // ---------------------------------------------------------------------------------------
  // Ends

  /** Once a ring is terminal its state, reason and error code never change again. */
  lemma {:induction false} TerminalForever(r: Ring, calls: seq<Call>)
    requires Inv(r) && IsTerminal(r)
    ensures var end := Run(r, calls);
            IsTerminal(end) && end.phase == r.phase && end.reason == r.reason && end.error == r.error
    decreases |calls|
  {
    if calls != [] {
      StepInv(r, calls[0]);
      TerminalForever(Apply(r, calls[0]).0, calls[1..]);
    }
  }

  function Drain(frames: nat): seq<Call> {
    if frames == 0 then [] else [ConsumerReserve, ConsumerRelease] + Drain(frames - 1)
  }

  /** What the consumer still has to do, if it holds a frame or not. */
  function DrainAll(r: Ring): seq<Call> {
    if r.consumerHeld && r.queue != [] then [ConsumerRelease] + Drain(|r.queue| - 1) else Drain(|r.queue|)
  }

  /** A failed ring hands out every committed frame, and only then its error. */
  lemma FailedRingDrains(r: Ring)
    requires Inv(r) && r.phase == Failed
    ensures r.queue != [] && !r.consumerHeld ==> ReserveForConsumer(r).1 == 0
    ensures var end := Run(r, DrainAll(r));
            && Inv(end) && IsTerminal(end) && end.queue == []
            && end.consumed == r.consumed + |r.queue|
            && ReserveForConsumer(end) == (end, r.error)
  {
    if r.consumerHeld {
      var less := Apply(r, ConsumerRelease).0;
      StepInv(r, ConsumerRelease);
      FailedRingDrainsFree(less);
      assert DrainAll(r)[1..] == Drain(|less.queue|);
    } else {
      FailedRingDrainsFree(r);
    }
  }

  lemma {:induction false} FailedRingDrainsFree(r: Ring)
    requires Inv(r) && r.phase == Failed && !r.consumerHeld
    ensures r.queue != [] ==> ReserveForConsumer(r).1 == 0
    ensures var end := Run(r, Drain(|r.queue|));
            && Inv(end) && IsTerminal(end) && end.queue == []
            && end.consumed == r.consumed + |r.queue|
            && ReserveForConsumer(end) == (end, r.error)
    decreases |r.queue|
  {
    if r.queue != [] {
      var calls := Drain(|r.queue|);
      var held := Apply(r, ConsumerReserve).0;
      var less := Apply(held, ConsumerRelease).0;
      StepInv(r, ConsumerReserve);
      StepInv(held, ConsumerRelease);
      assert calls[1..][1..] == Drain(|r.queue| - 1);
      assert Run(r, calls) == Run(held, calls[1..]) == Run(less, Drain(|less.queue|));
      FailedRingDrainsFree(less);
    }
  }

  /** The calls that take a ring out of its initial phase. */
  predicate LeavesReserved(c: Call) {
    match c
    case Start => true
    case StartExtension => true
    case Fail(why, code) => REASON_CONSUMER_STALL <= why <= REASON_INTERNAL_ERROR && code < 0
    case Cancel(why) => why == REASON_CLIENT_CANCELLED || why == REASON_CLIENT_DISCONNECTED
    case _ => false
  }

  lemma {:induction false} ReservedUntilStarted(r: Ring, calls: seq<Call>)
    requires r.phase == Reserved ==> !r.producerHeld && !r.consumerHeld && r.queue == []
    ensures Run(r, calls).phase == Reserved <==>
            r.phase == Reserved && forall c :: c in calls ==> !LeavesReserved(c)
    decreases |calls|
  {
    if calls != [] {
      var next := Apply(r, calls[0]).0;
      assert next.phase == Reserved <==> r.phase == Reserved && !LeavesReserved(calls[0]);
      ReservedUntilStarted(next, calls[1..]);
      assert calls == [calls[0]] + calls[1..];
    }
  }

  /** A ring can be made the extension of a segment if and only if it was never started, failed or
      cancelled before: after a first segment it cannot serve a second one. */
  lemma ExtensionStartsOnce(slotCount: nat, target: nat, calls: seq<Call>)
    ensures var r := Run(Initial(slotCount, target), calls);
            BeginExtension(r).1 == if forall c :: c in calls ==> !LeavesReserved(c) then 0 else -EINVAL
  {
    ReservedUntilStarted(Initial(slotCount, target), calls);
  }

  /** A finite ring that completes has delivered or discarded exactly its target. Only
      `CompleteExtension`, meant for rings without a target, could end it early. */
  lemma {:induction false} CompleteMeetsTarget(r: Ring, calls: seq<Call>)
    requires Inv(r) && (r.phase == Complete ==> r.consumed + r.discarded == r.target)
    requires r.target != 0 && CompleteExtension !in calls
    ensures var end := Run(r, calls); end.phase == Complete ==> end.consumed + end.discarded == end.target
    decreases |calls|
  {
    if calls != [] {
      StepInv(r, calls[0]);
      StepMeetsTarget(r, calls[0]);
      hide Inv;
      CompleteMeetsTarget(Apply(r, calls[0]).0, calls[1..]);
    }
  }

  lemma StepMeetsTarget(r: Ring, c: Call)
    requires Inv(r) && (r.phase == Complete ==> r.consumed + r.discarded == r.target)
    requires r.target != 0 && c != CompleteExtension
    ensures var n := Apply(r, c).0;
            n.target == r.target && (n.phase == Complete ==> n.consumed + n.discarded == n.target)
  {
  }

  /** What the consumer learns of a failure: after the frames that were committed before it, the code
      and the reason it was given, whatever else is called. */
  lemma FailureIsReported(r: Ring, why: int, code: int, calls: seq<Call>)
    requires Inv(r) && FailWith(r, why, code).1 == 0
    ensures var f := FailWith(r, why, code).0;
            && f.queue == r.queue && f.phase == Failed && !f.producerHeld
            && (var end := Run(f, DrainAll(f));
                && end.queue == [] && ReserveForConsumer(end).1 == code
                && Run(end, calls).error == code && Run(end, calls).reason == why && Run(end, calls).phase == Failed)
  {
    var f := FailWith(r, why, code).0;
    TerminateInv(r, why, code);
    FailedRingDrains(f);
    RunInv(f, DrainAll(f));
    DrainKeeps(f, DrainAll(f));
    TerminalForever(Run(f, DrainAll(f)), calls);
  }

  predicate OnlyDrains(calls: seq<Call>) {
    forall c :: c in calls ==> c.ConsumerReserve? || c.ConsumerRelease?
  }

  lemma {:induction false} DrainOnlyDrains(frames: nat)
    ensures OnlyDrains(Drain(frames))
  {
    if frames > 0 {
      DrainOnlyDrains(frames - 1);
    }
  }

  lemma DrainKeeps(r: Ring, calls: seq<Call>)
    requires r.phase == Failed && calls == DrainAll(r)
    ensures Run(r, calls).phase == Failed && Run(r, calls).reason == r.reason && Run(r, calls).error == r.error
  {
    DrainOnlyDrains(|r.queue|);
    if r.queue != [] {
      DrainOnlyDrains(|r.queue| - 1);
    }
    DrainingKeeps(r, calls);
  }

  lemma {:induction false} DrainingKeeps(r: Ring, calls: seq<Call>)
    requires r.phase == Failed && OnlyDrains(calls)
    ensures Run(r, calls).phase == Failed && Run(r, calls).reason == r.reason && Run(r, calls).error == r.error
    decreases |calls|
  {
    if calls != [] {
      assert calls[0] in calls;
      DrainingKeeps(Apply(r, calls[0]).0, calls[1..]);
    }
  }

  /** After a cancel nothing is handed out any more, and the code is that of a cancel. */
  lemma CancelIsFinal(r: Ring, why: int, calls: seq<Call>)
    requires Inv(r) && CancelFor(r, why).1 == 0
    ensures var end := Run(CancelFor(r, why).0, calls);
            && end.phase == Cancelled && end.reason == why && end.error == -ECANCELED
            && ReserveForConsumer(end).1 == -ESHUTDOWN && ReserveForProducer(end).1 == -ESHUTDOWN
  {
    TerminateInv(r, why, 0);
    TerminalForever(CancelFor(r, why).0, calls);
  }

  // ---------------------------------------------------------------------------------------
  // What each caller is told, by the frames committed, consumed and discarded so far

  /** The state tells the reason and the error: none before an end, and each end its own. */
  ghost predicate Told(r: Ring) {
    match r.phase
    case Complete => r.reason == REASON_TARGET_COMPLETE && r.error == 0
    case Failed => REASON_CONSUMER_STALL <= r.reason <= REASON_INTERNAL_ERROR && r.error < 0
    case Cancelled =>
      (r.reason == REASON_CLIENT_CANCELLED || r.reason == REASON_CLIENT_DISCONNECTED) && r.error == -ECANCELED
    case _ => r.reason == REASON_NONE && r.error == 0
  }

  lemma StepTold(r: Ring, c: Call)
    requires Inv(r) && Told(r)
    ensures Told(Apply(r, c).0)
  {
  }

  lemma {:induction false} RunTold(r: Ring, calls: seq<Call>)
    requires Inv(r) && Told(r)
    ensures Told(Run(r, calls))
    decreases |calls|
  {
    hide Inv, Told, Apply;
    if calls != [] {
      StepInv(r, calls[0]);
      StepTold(r, calls[0]);
      RunTold(Apply(r, calls[0]).0, calls[1..]);
    }
  }

  /** Every ring there can be. */
  lemma Reached(slotCount: nat, target: nat, calls: seq<Call>)
    requires 0 < slotCount
    ensures var r := Run(Initial(slotCount, target), calls);
            Inv(r) && Told(r) && r.slotCount == slotCount && r.target == target
  {
    var r0 := Initial(slotCount, target);
    InitialInv(slotCount, target);
    RunInv(r0, calls);
    RunTold(r0, calls);
    RunSlotCount(r0, calls);
  }

  /** An aborted reservation leaves no trace. */
  lemma ReservationUndone(slotCount: nat, target: nat, calls: seq<Call>)
    requires 0 < slotCount
    ensures var r := Run(Initial(slotCount, target), calls);
            var (held, ret) := Apply(r, ProducerReserve);
            && (ret == 0 ==> held != r && Apply(held, ProducerAbort) == (r, 0))
            && (!r.producerHeld ==> Apply(r, ProducerAbort) == (r, -EINVAL))
  {
  }

  /** The producer is admitted exactly on a running ring with a free slot, and never told that there
      is no more to do: the ring drains from the last commit on. */
  lemma ProducerIsTold(slotCount: nat, target: nat, calls: seq<Call>)
    requires 0 < slotCount
    ensures var r := Run(Initial(slotCount, target), calls);
            var ret := Apply(r, ProducerReserve).1;
            var waiting := r.produced - r.consumed - r.discarded;
            && (ret == 0 <==> r.phase == Running && !r.producerHeld && waiting < slotCount)
            && (ret == -EAGAIN <==> r.phase == Running && !r.producerHeld && waiting == slotCount)
            && (ret == -EBUSY <==> r.phase == Running && r.producerHeld)
            && (ret == -ESHUTDOWN <==> r.phase != Running)
            && 0 <= waiting <= slotCount
  {
    Reached(slotCount, target, calls);
  }

  /** A complete ring has no more data; a failed one gives its error only when nothing waits any
      more; a draining ring always has a frame. */
  lemma ConsumerIsTold(slotCount: nat, target: nat, calls: seq<Call>)
    requires 0 < slotCount
    ensures var r := Run(Initial(slotCount, target), calls);
            var ret := Apply(r, ConsumerReserve).1;
            var waiting := r.produced - r.consumed - r.discarded;
            && (r.phase == Complete ==> ret == -ENODATA)
            && (r.phase == Reserved || r.phase == Cancelled ==> ret == -ESHUTDOWN)
            && (r.phase == Failed && waiting == 0 ==> ret == r.error)
            && ((r.phase == Failed && 0 < waiting) || r.phase == Draining ==>
                  0 < waiting && ret == if r.consumerHeld then -EBUSY else 0)
            && (r.phase == Running ==> ret == if r.consumerHeld then -EBUSY else if ret == 0 then 0 else -EAGAIN)
  {
    Reached(slotCount, target, calls);
  }

  /** A discard is refused, and changes nothing, exactly when the ring does not run or the producer is
      at work; otherwise it leaves only the frame in the consumer's hand. */
  lemma DiscardIsTold(slotCount: nat, target: nat, calls: seq<Call>)
    requires 0 < slotCount
    ensures var r := Run(Initial(slotCount, target), calls);
            var (left, ret) := Apply(r, Discard);
            && ret == (if r.phase == Running && !r.producerHeld then 0 else -EBUSY)
            && (ret != 0 ==> left == r)
            && (ret == 0 ==> left.queue <= r.queue && |left.queue| == (if r.consumerHeld then 1 else 0) &&
                             left.discarded == r.discarded + |r.queue| - |left.queue|)
  {
    Reached(slotCount, target, calls);
  }

  /** A ring can be failed or cancelled until it is complete, cancelled, or failed with nothing left. */
  lemma StopIsTold(slotCount: nat, target: nat, calls: seq<Call>, why: int, code: int)
    requires 0 < slotCount
    ensures var r := Run(Initial(slotCount, target), calls);
            var over := r.phase == Complete || r.phase == Cancelled ||
                        (r.phase == Failed && r.produced == r.consumed + r.discarded);
            && Apply(r, Fail(why, code)).1 ==
                 (if !(REASON_CONSUMER_STALL <= why <= REASON_INTERNAL_ERROR && code < 0) then -EINVAL
                  else if over then -ESHUTDOWN else 0)
            && Apply(r, Cancel(why)).1 ==
                 (if !(why == REASON_CLIENT_CANCELLED || why == REASON_CLIENT_DISCONNECTED) then -EINVAL
                  else if over then -ESHUTDOWN else 0)
  {
    Reached(slotCount, target, calls);
  }

  // ---------------------------------------------------------------------------------------
  // When the consumer may begin, and go on

  /** Some reservation of the consumer has succeeded. */
  predicate Handed(r: Ring, calls: seq<Call>)
    decreases |calls|
  {
    calls != [] &&
    ((calls[0].ConsumerReserve? && Apply(r, calls[0]).1 == 0) || Handed(Apply(r, calls[0]).0, calls[1..]))
  }

  /** What a started ring of `slotCount` slots keeps: before the first frame is handed out, whether
      any was, and the two numbers that its gates compare with. */
  ghost predicate Gated(r: Ring, slotCount: nat, target: nat, handed: bool) {
    && r.slotCount == slotCount && r.target == target
    && r.prefill == (if 0 < target < slotCount then target else slotCount)
    && r.lowWater == (if 0 < target <= slotCount then 0 else slotCount / 2)
    && r.phase != Reserved
    && (r.phase == Running ==> r.started == handed)
    && (!handed ==> r.consumed == 0 && !r.consumerHeld)
  }

  lemma StepGated(r: Ring, c: Call, slotCount: nat, target: nat, handed: bool)
    requires Inv(r) && Gated(r, slotCount, target, handed)
    ensures Gated(Apply(r, c).0, slotCount, target, handed || (c.ConsumerReserve? && Apply(r, c).1 == 0))
  {
  }

  lemma {:induction false} RunGated(r: Ring, calls: seq<Call>, slotCount: nat, target: nat, handed: bool)
    requires Inv(r) && Gated(r, slotCount, target, handed)
    ensures Gated(Run(r, calls), slotCount, target, handed || Handed(r, calls))
    decreases |calls|
  {
    if calls != [] {
      StepInv(r, calls[0]);
      StepGated(r, calls[0], slotCount, target, handed);
      RunGated(Apply(r, calls[0]).0, calls[1..], slotCount, target,
               handed || (calls[0].ConsumerReserve? && Apply(r, calls[0]).1 == 0));
    }
  }

  /** Exactly when a running ring hands out a frame: the first one when all its slots are filled, or its
      target if that is less; later ones when more than half its slots are filled, or any if the slots
      hold the whole target. */
  lemma ConsumerGate(slotCount: nat, target: nat, calls: seq<Call>)
    requires 0 < slotCount
    ensures var r := Run(Initial(slotCount, target), [Start] + calls);
            r.phase == Running && !r.consumerHeld ==>
              (ReserveForConsumer(r).1 == 0 <==>
                 if !Handed(Initial(slotCount, target), [Start] + calls) then
                   |r.queue| >= if 0 < target < slotCount then target else slotCount
                 else |r.queue| > if 0 < target <= slotCount then 0 else slotCount / 2)
  {
    StartedRun(slotCount, target, calls);
  }

  lemma StartedRun(slotCount: nat, target: nat, calls: seq<Call>)
    requires 0 < slotCount
    ensures var r := Run(Initial(slotCount, target), [Start] + calls);
            Inv(r) && Gated(r, slotCount, target, Handed(Initial(slotCount, target), [Start] + calls))
  {
    var r0 := Initial(slotCount, target);
    InitialInv(slotCount, target);
    StepInv(r0, Start);
    assert ([Start] + calls)[1..] == calls;
    RunGated(Apply(r0, Start).0, calls, slotCount, target, false);
    RunInv(Apply(r0, Start).0, calls);
  }

  /** Unless the ring fails, no frame is handed out before that many were committed. */
  lemma NothingBeforePrefill(slotCount: nat, target: nat, calls: seq<Call>)
    requires 0 < slotCount && forall c :: c in calls ==> !c.Fail?
    ensures var r := Run(Initial(slotCount, target), [Start] + calls);
            r.produced < (if 0 < target < slotCount then target else slotCount) ==>
              r.consumed == 0 && !r.consumerHeld
  {
    var r0 := Initial(slotCount, target);
    InitialInv(slotCount, target);
    StepInv(r0, Start);
    assert ([Start] + calls)[1..] == calls;
    FilledFirst(Apply(r0, Start).0, calls, if 0 < target < slotCount then target else slotCount);
  }

  lemma {:induction false} FilledFirst(r: Ring, calls: seq<Call>, need: nat)
    requires Inv(r) && r.prefill == need && r.phase != Failed && (forall c :: c in calls ==> !c.Fail?)
    requires r.produced < need ==> r.consumed == 0 && !r.consumerHeld && !r.started && r.phase != Draining
    requires r.phase != Reserved && (r.target == 0 || need <= r.target)
    ensures var e := Run(r, calls);
            e.produced < need ==> e.consumed == 0 && !e.consumerHeld
    decreases |calls|
  {
    if calls != [] {
      assert calls[0] in calls;
      StepInv(r, calls[0]);
      StepFilled(r, calls[0], need);
      FilledFirst(Apply(r, calls[0]).0, calls[1..], need);
    }
  }

  lemma StepFilled(r: Ring, c: Call, need: nat)
    requires Inv(r) && r.prefill == need && r.phase != Failed && !c.Fail?
    requires r.produced < need ==> r.consumed == 0 && !r.consumerHeld && !r.started && r.phase != Draining
    requires r.phase != Reserved && (r.target == 0 || need <= r.target)
    ensures var n := Apply(r, c).0;
            && n.prefill == need && n.target == r.target && n.phase != Failed && n.phase != Reserved
            && (n.produced < need ==> n.consumed == 0 && !n.consumerHeld && !n.started && n.phase != Draining)
  {
  }

  // ---------------------------------------------------------------------------------------
  // Progress and the low-water mark

  /** While RUNNING with nothing reserved, the producer or the consumer can go on. */
  lemma SomeoneCanGoOn(r: Ring)
    requires Inv(r) && r.phase == Running && !r.producerHeld && !r.consumerHeld
    ensures ReserveForProducer(r).1 == 0 || ReserveForConsumer(r).1 == 0
  {
  }

  ghost predicate Floor(r: Ring) {
    && (r.phase == Running && r.started ==> r.lowWater <= |r.queue|)
    && (r.phase == Running && r.consumerHeld ==> r.started && r.lowWater < |r.queue|)
    && (r.phase == Reserved ==> !r.started)
    && (r.lowWater < r.prefill || r.lowWater == 0)
  }

  lemma StepFloor(r: Ring, c: Call)
    requires Inv(r) && Floor(r)
    requires c != Discard || r.lowWater == 0
    ensures Floor(Apply(r, c).0)
    ensures r.lowWater == 0 ==> Apply(r, c).0.lowWater == 0
  {
  }

  /** Once the consumer has started, a ring still RUNNING never holds fewer than `lowWater`
      frames, as long as nothing is discarded or there is no low-water mark to keep. */
  lemma {:induction false} LowWaterKept(r: Ring, calls: seq<Call>)
    requires Inv(r) && Floor(r)
    requires Discard !in calls || r.lowWater == 0
    ensures Floor(Run(r, calls))
    decreases |calls|
  {
    if calls != [] {
      StepInv(r, calls[0]);
      StepFloor(r, calls[0]);
      LowWaterKept(Apply(r, calls[0]).0, calls[1..]);
    }
  }

  /** A fresh ring keeps the floor from the start. */
  lemma LowWaterKeptFromStart(slotCount: nat, target: nat, calls: seq<Call>)
    requires 0 < slotCount
    requires Discard !in calls || StartExtension == calls[0]
    ensures var r := Run(Initial(slotCount, target), calls);
            r.phase == Running && r.started ==> r.lowWater <= |r.queue|
  {
    var r0 := Initial(slotCount, target);
    InitialInv(slotCount, target);
    if Discard in calls {
      StepInv(r0, calls[0]);
      LowWaterKept(Apply(r0, calls[0]).0, calls[1..]);
    } else {
      LowWaterKept(r0, calls);
    }
  }

  /** A discard leaves the frame the consumer holds, if any: so it keeps the mark exactly when that is
      enough. From then on the mark can no longer be guaranteed, unless it is zero: the consumer may
      hand back the frame it holds. */
  lemma DiscardAgainstMark(r: Ring)
    requires Inv(r) && r.phase == Running && !r.producerHeld
    ensures var d := DiscardPending(r).0;
            && (r.lowWater <= |d.queue| <==> r.lowWater <= (if r.consumerHeld then 1 else 0))
            && (Floor(r) && r.started ==> (Floor(d) <==> r.lowWater == 0))
  {
  }

  function Fill(frames: nat): seq<Call> {
    if frames == 0 then [] else [ProducerReserve, ProducerCommit] + Fill(frames - 1)
  }

  lemma {:induction false} FillFills(r: Ring, frames: nat)
    requires r.phase == Running && !r.producerHeld && r.target == 0 && |r.queue| + frames <= r.slotCount
    ensures var f := Run(r, Fill(frames));
            |f.queue| == |r.queue| + frames && f == r.(queue := f.queue, next := f.next, produced := f.produced)
    decreases frames
  {
    if frames > 0 {
      var held := Apply(r, ProducerReserve).0;
      var more := Apply(held, ProducerCommit).0;
      assert Fill(frames)[1..][1..] == Fill(frames - 1);
      assert Run(r, Fill(frames)) == Run(held, Fill(frames)[1..]) == Run(more, Fill(frames - 1));
      FillFills(more, frames - 1);
    }
  }

  lemma {:induction false} RunOn(r: Ring, calls: seq<Call>, more: seq<Call>)
    ensures Run(r, calls + more) == Run(Run(r, calls), more)
    decreases |calls|
  {
    if calls == [] {
      assert calls + more == more;
    } else {
      assert (calls + more)[1..] == calls[1..] + more;
      RunOn(Apply(r, calls[0]).0, calls[1..], more);
    }
  }

  /** Any ring of at least four slots and no target can be discarded below its mark: filled, with its
      oldest frame in the consumer's hand. */
  lemma DiscardBreaksMark(slotCount: nat)
    requires 4 <= slotCount
    ensures var r := Run(Initial(slotCount, 0), [Start] + Fill(slotCount) + [ConsumerReserve, Discard]);
            r.phase == Running && r.started && |r.queue| == 1 < r.lowWater
  {
    var r0 := Initial(slotCount, 0);
    var r1 := Apply(r0, Start).0;
    FillFills(r1, slotCount);
    var r2 := Run(r1, Fill(slotCount));
    var last := [ConsumerReserve, Discard];
    RunOn(r0, [Start] + Fill(slotCount), last);
    RunOn(r0, [Start], Fill(slotCount));
    assert [Start][1..] == [] && last[1..] == [Discard] && last[1..][1..] == [];
    assert Run(r0, [Start]) == r1;
    assert Run(r2, last) == Apply(Apply(r2, ConsumerReserve).0, Discard).0;
  }
}
