/**
 A snapshot of the direct-async queue in memory, its coupling invariant, and what each update
 of the arrays does to the queue of frames it stands for.
 */
module DirectSnapshot {
  import opened Errno
  import opened RingModel
  import opened DirectModel
  import opened Options
  import opened DirectWindow
  import DirectRuns
  import Circular

  /** The scalar fields of `struct iiod_direct_async`; `returned` is where the sender stands
      between giving a DMA head back and taking the lock again. */
  datatype Fields = Fields(cfg: Config, head: nat, tail: nat, count: nat, dmaCount: nat, tally: Tally,
                           lastEnd: Option<nat>, active: bool, returned: bool, cancelled: bool, error: int)

  datatype Snap = Snap(q: Fields, frames: seq<QueueFrame>, metas: seq<Meta>, mem: Memory, r: Ring)

  predicate Shaped(s: Snap) {
    && |s.frames| == |s.metas| == s.q.cfg.capacity
    && s.q.head < |s.frames| && s.q.count <= |s.frames|
    && s.q.tail == Circular.Place(s.q.head, s.q.count, |s.frames|)
  }

  function Win(s: Snap): (w: seq<QueueFrame>)
    requires Shaped(s)
    ensures |w| == s.q.count
  {
    Circular.Window(s.frames, s.q.head, s.q.count)
  }

  function Records(s: Snap): (m: seq<Meta>)
    requires Shaped(s)
    ensures |m| == s.q.count
  {
    Circular.Window(s.metas, s.q.head, s.q.count)
  }

  /** A leased block that belongs to no queued frame: the one the producer is filling. */
  ghost predicate InHand(s: Snap, b: nat)
    requires Shaped(s)
  {
    b in s.mem.leases && Unused(b, Win(s), s.q.returned)
  }

  /** From `s` to `s'`, whatever the producer has in hand stays in its hand, untouched, and so does
      the metadata slot it fills. */
  ghost predicate HandKept(s: Snap, s': Snap)
    requires Shaped(s) && Shaped(s')
  {
    s'.q.tail == s.q.tail && s'.metas == s.metas &&
    forall b :: InHand(s, b) ==> InHand(s', b) && s'.mem.leases[b] == s.mem.leases[b]
  }

  /** The coupling of the queue with the RAM ring. */
  ghost predicate Coupled(r: Ring, win: seq<QueueFrame>, active: bool) {
    && Inv(r) && r.target == 0 && r.started && r.lowWater == 0 && !r.producerHeld
    && r.phase != Reserved
    && r.queue == RingSlots(win)
    && (r.consumerHeld <==> active && win != [] && win[0].ringBacked)
  }

  ghost predicate Sound(s: Snap) {
    && Shaped(s)
    && (s.q.active ==> 0 < s.q.count)
    && (s.q.returned ==> s.q.active && !Win(s)[0].ringBacked)
    && s.q.dmaCount == DmaFrames(Win(s))
    && WindowOk(Win(s), s.mem, s.q.returned)
    && (if s.q.cfg.extension then
          Coupled(s.r, Win(s), s.q.active) && |s.mem.ring| == s.r.slotCount == s.q.cfg.ringSlots
        else RingSlots(Win(s)) == [])
  }

  lemma ShapeOf(s: Snap)
    requires Sound(s)
    ensures Shaped(s) && s.q.tail < |s.metas| && (s.q.active ==> 0 < s.q.count)
  {
  }

  /** Without a RAM ring, the segment has a ring that runs for ever. */
  function RingPhase(cfg: Config, r: Ring): Phase {
    if cfg.extension then r.phase else Running
  }

  function View(s: Snap): State
    requires Shaped(s)
  {
    State(s.q.cfg, Entries(Win(s), Records(s), s.mem, s.q.returned), s.q.active, s.q.tally,
          s.q.lastEnd, s.q.cancelled, s.q.error, RingPhase(s.q.cfg, s.r))
  }

  /** The entry of the queue and the slot behind it. */
  lemma SlotOf(s: Snap, i: nat)
    requires Sound(s) && i < s.q.count
    ensures var slot := Circular.Place(s.q.head, i, |s.frames|);
            && s.frames[slot] == Win(s)[i] && s.metas[slot] == Records(s)[i]
            && FrameOk(Win(s)[i], s.mem, Live(i, s.q.returned))
            && View(s).entries[i] == EntryOf(Win(s)[i], Records(s)[i], s.mem, s.q.returned && i == 0)
  {
    Circular.WindowAt(s.frames, s.q.head, s.q.count, i);
    Circular.WindowAt(s.metas, s.q.head, s.q.count, i);
    FrameOkAt(Win(s), s.mem, s.q.returned, i);
    EntryAt(Win(s), Records(s), s.mem, s.q.returned, i);
  }

  lemma CountsAgree(s: Snap)
    requires Sound(s)
    ensures s.q.dmaCount == DmaCount(View(s).entries) == s.q.count - |RingSlots(Win(s))|
  {
    DmaFramesCount(Win(s), Records(s), s.mem, s.q.returned);
  }

  // ---------------------------------------------------------------------------------------
  // Spilling the newest frame

  /** The snapshot after the newest frame has moved to RAM ring slot `r.next`. */
  function Spilled(s: Snap): Snap
    requires Shaped(s) && 0 < s.q.count && s.r.next < |s.mem.ring|
  {
    var slot := Circular.Place(s.q.head, s.q.count - 1, |s.frames|);
    var f := s.frames[slot];
    s.(frames := s.frames[slot := InRing(f, s.r.next)],
       mem := Memory(if f.block.Some? then s.mem.leases - {f.block.value} else s.mem.leases,
                     s.mem.ring[s.r.next := Samples(f, s.mem)]),
       r := Commit(ReserveForProducer(s.r).0).0,
       q := if s.q.dmaCount > 0 then s.q.(dmaCount := s.q.dmaCount - 1) else s.q)
  }

  /** When the kernel would be left with too few blocks. */
  lemma SpillsWhenShort(s: Snap)
    requires Sound(s)
    ensures MustSpill(View(s)) <==>
              s.q.cfg.extension && s.q.cfg.headroom != 0 && s.q.dmaCount + s.q.cfg.headroom >= s.q.cfg.dmaCapacity
  {
    CountsAgree(s);
  }

  /** A spill only ever happens with a DMA block newest, behind another frame, and with a free
      slot in the RAM ring. */
  lemma NewestSpills(s: Snap)
    requires Sound(s) && DirectRuns.QueueInv(View(s)) && MustSpill(View(s)) && s.q.count < s.q.cfg.capacity
    ensures var slot := Circular.Place(s.q.head, s.q.count - 1, |s.frames|);
            && 1 < s.q.count && slot != s.q.head
            && s.frames[slot] == Win(s)[s.q.count - 1]
            && !s.frames[slot].ringBacked && s.frames[slot].block.Some?
            && |s.r.queue| < s.r.slotCount
    ensures s.q.cfg.extension && |View(s).entries| == s.q.count
  {
    DirectRuns.SpillAlwaysFits(View(s));
    SlotOf(s, s.q.count - 1);
    CountsAgree(s);
  }

  lemma CoupledSpill(r: Ring, win: seq<QueueFrame>, win': seq<QueueFrame>, active: bool)
    requires Coupled(r, win, active) && r.phase == Running && |r.queue| < r.slotCount
    requires RingSlots(win') == RingSlots(win) + [r.next] && win != [] && win' != [] && win'[0] == win[0]
    ensures Coupled(Commit(ReserveForProducer(r).0).0, win', active)
    ensures ReserveForProducer(r).1 == 0 && Commit(ReserveForProducer(r).0).1 == 0
    ensures Commit(ReserveForProducer(r).0).0.phase == Running
  {
    ReservationsInv(r);
    CommitInv(ReserveForProducer(r).0);
  }

  lemma SpilledWindow(s: Snap)
    requires Sound(s) && 1 < s.q.count && !Win(s)[s.q.count - 1].ringBacked
    requires Coupled(s.r, Win(s), s.q.active) && |s.mem.ring| == s.r.slotCount && |s.r.queue| < s.r.slotCount
    ensures s.r.next < |s.mem.ring| && Shaped(Spilled(s))
    ensures Win(Spilled(s)) == Win(s)[s.q.count - 1 := InRing(Win(s)[s.q.count - 1], s.r.next)]
    ensures Records(Spilled(s)) == Records(s)
    ensures FrameOk(Win(s)[s.q.count - 1], s.mem, true) && s.q.dmaCount > 0
  {
    var last := s.q.count - 1;
    NextIsFree(s.r);
    SlotOf(s, last);
    Circular.WindowUpdate(s.frames, s.q.head, s.q.count, last, InRing(Win(s)[last], s.r.next));
  }

  /** What moving the newest frame to the RAM ring relies on. */
  lemma MoveFacts(s: Snap)
    requires Sound(s) && s.q.cfg.extension && 1 < s.q.count && |s.r.queue| < s.r.slotCount
    requires !s.frames[Circular.Place(s.q.head, s.q.count - 1, |s.frames|)].ringBacked
    ensures var f := s.frames[Circular.Place(s.q.head, s.q.count - 1, |s.frames|)];
            Shaped(s) && FrameOk(f, s.mem, true) && f == Win(s)[s.q.count - 1] && 0 < f.iqBytes
    ensures 0 < s.q.dmaCount && s.r.next < s.r.slotCount == |s.mem.ring|
    ensures ReserveForProducer(s.r).1 == if s.r.phase != Running then -ESHUTDOWN else 0
    ensures s.r.phase == Running ==> Abort(ReserveForProducer(s.r).0).0 == s.r
    ensures s.r.phase != Running ==> ReserveForProducer(s.r).0 == s.r
    ensures s.r.phase == Running ==> Commit(ReserveForProducer(s.r).0).1 == 0
    ensures s.r.phase == Running ==> ReserveForProducer(s.r).0.next == s.r.next
  {
    SlotOf(s, s.q.count - 1);
    SpilledWindow(s);
  }

  lemma SpilledSound(s: Snap)
    requires Sound(s) && s.q.cfg.extension && 1 < s.q.count && !Win(s)[s.q.count - 1].ringBacked
    requires s.r.phase == Running && |s.r.queue| < s.r.slotCount
    ensures s.r.next < |s.mem.ring| && Sound(Spilled(s))
    ensures var last := s.q.count - 1;
            var es := View(s).entries;
            View(Spilled(s)) == View(s).(entries := es[last := es[last].(store := Ram)])
  {
    hide WindowOk;
    SpilledWindow(s);
    NextIsFree(s.r);
    SpillWindow(Win(s), Records(s), s.mem, s.q.returned, s.r.next);
    CoupledSpill(s.r, Win(s), Win(Spilled(s)), s.q.active);
  }

  /** All of `direct_async_spill_newest_dma`. */
  ghost function SpillTried(s: Snap, frameIqBytes: nat): (Snap, int)
    requires Sound(s) && DirectRuns.QueueInv(View(s)) && s.q.count < s.q.cfg.capacity
  {
    if !MustSpill(View(s)) then (s, 0)
    else
      NewestSpills(s);
      NextIsFree(s.r);
      if s.r.phase != Running then (s, -ESHUTDOWN)
      else if Win(s)[s.q.count - 1].iqBytes != frameIqBytes then (s, -EIO)
      else (Spilled(s), 0)
  }

  lemma SpillTriedSound(s: Snap, frameIqBytes: nat)
    requires Sound(s) && DirectRuns.QueueInv(View(s)) && s.q.count < s.q.cfg.capacity
    ensures var t := SpillTried(s, frameIqBytes);
            Sound(t.0) && View(t.0) == if t.1 == 0 then Spill(View(s)) else View(s)
  {
    hide Sound, View, Spilled, MustSpill, Win, DirectRuns.QueueInv;
    ShapeOf(s);
    if MustSpill(View(s)) {
      NewestSpills(s);
      if SpillTried(s, frameIqBytes).1 == 0 {
        SpilledSound(s);
      }
    }
  }

  // ---------------------------------------------------------------------------------------
  // Dropping the backlog

  function Kept(s: Snap): nat {
    if s.q.active then 1 else 0
  }

  /** The slots of places `from` to `upto` of the window, cleared. */
  function Erased(frames: seq<QueueFrame>, head: nat, from: nat, upto: nat): (r: seq<QueueFrame>)
    requires head < |frames| && upto <= |frames|
    ensures |r| == |frames|
    decreases upto
  {
    if upto <= from then frames
    else Erased(frames, head, from, upto - 1)[Circular.Place(head, upto - 1, |frames|) := EmptyFrame]
  }

  lemma {:induction false} ErasedElsewhere(frames: seq<QueueFrame>, head: nat, from: nat, upto: nat, i: nat)
    requires head < |frames| && upto <= |frames| && i < |frames| && (i < from || upto <= i)
    ensures Erased(frames, head, from, upto)[Circular.Place(head, i, |frames|)]
            == frames[Circular.Place(head, i, |frames|)]
    decreases upto
  {
    if upto > from {
      ErasedElsewhere(frames, head, from, upto - 1, i);
    }
  }

  function Cut(s: Snap): Snap
    requires Shaped(s) && Kept(s) <= s.q.count
  {
    var keep := Kept(s);
    s.(frames := Erased(s.frames, s.q.head, keep, s.q.count),
       mem := s.mem.(leases := Unleased(s.mem.leases, Win(s), keep, s.q.count)),
       r := if |RingSlots(Win(s))| > |RingSlots(Win(s)[..keep])| then DiscardPending(s.r).0 else s.r,
       q := s.q.(count := keep, tail := Circular.Place(s.q.head, keep, |s.frames|),
                 dmaCount := DmaFrames(Win(s)[..keep]),
                 tally := s.q.tally.(dropped := s.q.tally.dropped + s.q.count - keep)))
  }

  /** Dropping can fail only if frames in the RAM ring must go and the ring has stopped. */
  predicate DropBlocked(s: Snap)
    requires Shaped(s) && Kept(s) <= s.q.count
  {
    |RingSlots(Win(s))| > |RingSlots(Win(s)[..Kept(s)])| && s.r.phase != Running
  }

  /** What the checks before a drop compare. */
  lemma PendingFacts(s: Snap)
    requires Sound(s)
    ensures Shaped(s) && Kept(s) <= s.q.count && (Kept(s) == 1 ==> s.frames[s.q.head] == Win(s)[0])
    ensures s.q.cfg.extension ==> (s.r.consumerHeld <==> Kept(s) == 1 && Win(s)[0].ringBacked)
  {
    if Kept(s) == 1 {
      SlotOf(s, 0);
    }
  }

  lemma HeadSlots(win: seq<QueueFrame>, keep: nat)
    requires keep <= 1 && keep <= |win|
    ensures RingSlots(win[..keep]) == if keep == 1 && win[0].ringBacked then [win[0].ringSlot] else []
    ensures RingSlots(win[..keep]) <= RingSlots(win)
  {
    RingSlotsPrefix(win, keep);
    if keep == 1 {
      assert win[..1] == [win[0]];
      assert [win[0]][..0] == [];
    }
  }

  /** What the RAM ring must discard: its whole queue but a head in transport. */
  lemma CoupledCut(r: Ring, win: seq<QueueFrame>, active: bool)
    requires Coupled(r, win, active) && (active ==> win != [])
    ensures var keep := if active then 1 else 0;
            var discards := |RingSlots(win)| > |RingSlots(win[..keep])|;
            && (discards && r.phase == Running ==>
                  DiscardPending(r).1 == 0 && Coupled(DiscardPending(r).0, win[..keep], active) &&
                  |r.queue| - |DiscardPending(r).0.queue| == |RingSlots(win)| - |RingSlots(win[..keep])|)
            && (!discards ==> Coupled(r, win[..keep], active))
  {
    var keep := if active then 1 else 0;
    HeadSlots(win, keep);
    DiscardInv(r);
    if |RingSlots(win)| == |RingSlots(win[..keep])| {
      assert RingSlots(win) == RingSlots(win[..keep]);
    }
  }

  /** The next waiting frame, if ring-backed, is in the RAM ring's next waiting slot. */
  lemma NextPending(s: Snap, i: nat)
    requires Sound(s) && i < s.q.count
    ensures var k := |RingSlots(Win(s)[..i])|;
            && |RingSlots(Win(s)[..i + 1])| == k + (if Win(s)[i].ringBacked then 1 else 0)
            && |RingSlots(Win(s)[..i + 1])| <= |RingSlots(Win(s))|
            && (Win(s)[i].ringBacked ==>
                  s.q.cfg.extension && k < |s.r.queue| && s.r.queue[k] == Win(s)[i].ringSlot)
  {
    RingSlotsPrefix(Win(s), i);
    RingSlotsPrefix(Win(s), i + 1);
    assert Win(s)[..i + 1][..i] == Win(s)[..i];
    if RingSlots(Win(s)) == [] {
      NoRingFrames(Win(s), i);
    }
  }

  lemma {:induction false} DmaFramesPrefix(win: seq<QueueFrame>, n: nat)
    requires n <= |win|
    ensures DmaFrames(win[..n]) <= DmaFrames(win)
  {
    if n == |win| {
      assert win[..n] == win;
    } else {
      DmaFramesPrefix(win[..|win| - 1], n);
      assert win[..|win| - 1][..n] == win[..n];
    }
  }

  lemma DmaFramesStep(win: seq<QueueFrame>, i: nat)
    requires i < |win|
    ensures DmaFrames(win[..i + 1]) == DmaFrames(win[..i]) + (if win[i].ringBacked then 0 else 1)
    ensures DmaFrames(win[..i + 1]) <= DmaFrames(win)
  {
    assert win[..i + 1][..i] == win[..i];
    DmaFramesPrefix(win, i + 1);
  }

  lemma CutWindow(s: Snap)
    requires Sound(s)
    ensures Shaped(Cut(s)) && Win(Cut(s)) == Win(s)[..Kept(s)] && Records(Cut(s)) == Records(s)[..Kept(s)]
  {
    var keep := Kept(s);
    Circular.WindowPrefix(s.frames, s.q.head, s.q.count, keep);
    Circular.WindowPrefix(s.metas, s.q.head, s.q.count, keep);
    if keep == 1 {
      ErasedElsewhere(s.frames, s.q.head, 1, s.q.count, 0);
      assert Circular.Window(Cut(s).frames, s.q.head, 1) == Circular.Window(s.frames, s.q.head, 1) by {
        Circular.WindowSame(Cut(s).frames, s.frames, s.q.head, 1);
      }
    }
  }

  lemma CutEntries(s: Snap)
    requires Sound(s)
    ensures Entries(Win(s)[..Kept(s)], Records(s)[..Kept(s)], Cut(s).mem, s.q.returned)
            == View(s).entries[..Kept(s)]
    ensures WindowOk(Win(s)[..Kept(s)], Cut(s).mem, s.q.returned)
  {
    if s.q.active {
      HeadKeepsSamples(Win(s), Records(s), s.mem, s.q.returned);
    }
  }

  lemma CutRing(s: Snap)
    requires Sound(s) && !DropBlocked(s)
    ensures Cut(s).r.phase == s.r.phase && Cut(s).r.slotCount == s.r.slotCount
    ensures if s.q.cfg.extension then Coupled(Cut(s).r, Win(s)[..Kept(s)], s.q.active)
            else RingSlots(Win(s)[..Kept(s)]) == []
  {
    if s.q.cfg.extension {
      CoupledCut(s.r, Win(s), s.q.active);
    } else {
      HeadSlots(Win(s), Kept(s));
    }
  }

  lemma CutStaysSound(s: Snap)
    requires Sound(s) && !DropBlocked(s)
    ensures Sound(Cut(s))
  {
    CutWindow(s);
    CutEntries(s);
    CutRing(s);
  }

  lemma CutView(s: Snap)
    requires Sound(s) && !DropBlocked(s)
    ensures Shaped(Cut(s)) && View(Cut(s)) == Drop(View(s))
  {
    hide Coupled, Sound, Entries, Win, Records;
    CutViewEntries(s);
    CutRing(s);
  }

  lemma CutViewEntries(s: Snap)
    requires Sound(s)
    ensures Shaped(Cut(s)) && View(Cut(s)).entries == View(s).entries[..Kept(s)]
  {
    hide Coupled, WindowOk;
    CutWindow(s);
    CutEntries(s);
  }

  lemma CutSound(s: Snap)
    requires Sound(s) && !DropBlocked(s)
    ensures Sound(Cut(s)) && View(Cut(s)) == Drop(View(s))
  {
    CutStaysSound(s);
    CutView(s);
  }

  lemma CutKeepsHand(s: Snap, b: nat)
    requires Sound(s) && !DropBlocked(s) && InHand(s, b)
    ensures Shaped(Cut(s)) && InHand(Cut(s), b) && Cut(s).mem.leases[b] == s.mem.leases[b]
  {
    CutWindow(s);
    UnusedStaysLeased(Win(s), s.mem, s.q.returned, Kept(s), b);
  }

  // ---------------------------------------------------------------------------------------
  // The producer's block, and its record in the slot at the tail

  function HandReturned(s: Snap, b: nat): Snap {
    s.(mem := s.mem.(leases := s.mem.leases - {b}))
  }

  lemma HandReturnedSound(s: Snap, b: nat)
    requires Sound(s) && InHand(s, b)
    ensures Sound(HandReturned(s, b)) && View(HandReturned(s, b)) == View(s)
  {
    OkRelease(Win(s), Records(s), s.mem, s.q.returned, b);
  }

  /** Writing a record into the slot at the tail touches no queued frame. */
  function Described(s: Snap, m: Meta): Snap
    requires Shaped(s)
  {
    s.(metas := s.metas[s.q.tail := m])
  }

  lemma DescribedSound(s: Snap, m: Meta)
    requires Sound(s) && s.q.count < s.q.cfg.capacity
    ensures Sound(Described(s, m)) && View(Described(s, m)) == View(s)
    ensures Win(Described(s, m)) == Win(s)
  {
    Circular.WindowPush(s.metas, s.q.head, s.q.count, m);
  }

  function Counted(s: Snap, t: Tally): Snap {
    s.(q := s.q.(tally := t))
  }

  lemma CountedSound(s: Snap, t: Tally)
    requires Sound(s)
    ensures Sound(Counted(s, t)) && View(Counted(s, t)) == View(s).(tally := t)
  {
    assert Win(Counted(s, t)) == Win(s) && Records(Counted(s, t)) == Records(s);
  }

  function StaleTally(t: Tally): Tally {
    t.(dropped := t.dropped + 1, stale := t.stale + 1, streak := t.streak + 1)
  }

  /** The backlog is dropped with a stale block, unless the segment was cancelled. */
  function Staled(s: Snap): (Snap, int)
    requires Shaped(s) && Kept(s) <= s.q.count
  {
    if s.q.cancelled then (s, 0)
    else if DropBlocked(s) then (s, -EBUSY)
    else
      (Counted(Cut(s), StaleTally(Cut(s).q.tally)),
       if s.q.tally.streak + 1 > s.q.cfg.dmaCapacity + IIOD_DIRECT_STALE_RETRY_MARGIN then -ESTALE else 0)
  }

  lemma StaledSound(s: Snap, b: nat)
    requires Sound(s) && InHand(s, b)
    ensures Sound(Staled(s).0) && InHand(Staled(s).0, b)
    ensures (View(Staled(s).0), Staled(s).1) ==
              if s.q.cancelled then (View(s), 0)
              else if DropBlocked(s) then (View(s), -EBUSY)
              else DirectModel.Retire(View(s))
  {
    if !s.q.cancelled && !DropBlocked(s) {
      RetiredSound(s, b);
    }
  }

  lemma RetiredSound(s: Snap, b: nat)
    requires Sound(s) && InHand(s, b) && !DropBlocked(s)
    ensures Shaped(Cut(s))
    ensures var c := Counted(Cut(s), StaleTally(Cut(s).q.tally));
            Sound(c) && InHand(c, b) && View(c) == DirectModel.Retire(View(s)).0
  {
    CutSound(s);
    CutKeepsHand(s, b);
    CountedSound(Cut(s), StaleTally(Cut(s).q.tally));
    CountedKeepsHand(Cut(s), StaleTally(Cut(s).q.tally), b);
    var d := Drop(View(s));
    assert DirectModel.Retire(View(s)).0 == d.(tally := StaleTally(d.tally));
  }

  lemma CountedKeepsHand(s: Snap, t: Tally, b: nat)
    requires Shaped(s) && InHand(s, b)
    ensures InHand(Counted(s, t), b)
  {
    assert Win(Counted(s, t)) == Win(s);
  }

  // ---------------------------------------------------------------------------------------
  // Queueing a frame

  function Pushed(s: Snap, f: QueueFrame, m: Meta): Snap
    requires Shaped(s) && s.q.count < s.q.cfg.capacity
  {
    s.(frames := s.frames[s.q.tail := f], metas := s.metas[s.q.tail := m],
       q := s.q.(count := s.q.count + 1, dmaCount := s.q.dmaCount + 1,
                 tail := Circular.Place(s.q.head, s.q.count + 1, |s.frames|),
                 tally := s.q.tally.(produced := s.q.tally.produced + 1)))
  }

  lemma CoupledPush(r: Ring, win: seq<QueueFrame>, active: bool, f: QueueFrame)
    requires Coupled(r, win, active) && !f.ringBacked && (active ==> win != [])
    ensures Coupled(r, win + [f], active)
  {
    RingSlotsPush(win, f);
  }

  lemma PushedWindow(s: Snap, f: QueueFrame, m: Meta)
    requires Shaped(s) && s.q.count < s.q.cfg.capacity
    ensures Shaped(Pushed(s, f, m))
    ensures Win(Pushed(s, f, m)) == Win(s) + [f] && Records(Pushed(s, f, m)) == Records(s) + [m]
  {
    Circular.WindowPush(s.frames, s.q.head, s.q.count, f);
    Circular.WindowPush(s.metas, s.q.head, s.q.count, m);
  }

  lemma EntriesPush(win: seq<QueueFrame>, metas: seq<Meta>, mem: Memory, returned: bool, f: QueueFrame, m: Meta)
    requires |win| == |metas| && (win == [] ==> !returned)
    ensures Entries(win + [f], metas + [m], mem, returned)
            == Entries(win, metas, mem, returned) + [EntryOf(f, m, mem, false)]
    ensures DmaFrames(win + [f]) == DmaFrames(win) + (if f.ringBacked then 0 else 1)
  {
    assert (win + [f])[..|win|] == win && (metas + [m])[..|win|] == metas;
  }

  lemma PushedSound(s: Snap, f: QueueFrame, m: Meta)
    requires Sound(s) && s.q.count < s.q.cfg.capacity
    requires FrameOk(f, s.mem, true) && !f.ringBacked && Unused(f.block.value, Win(s), s.q.returned)
    ensures Sound(Pushed(s, f, m))
    ensures View(Pushed(s, f, m)) ==
              Push(View(s), Entry(Samples(f, s.mem), m, f.frameEnd, Dma(f.block.value)))
  {
    PushedWindow(s, f, m);
    EntriesPush(Win(s), Records(s), s.mem, s.q.returned, f, m);
    OkPush(Win(s), s.mem, s.q.returned, f);
    if s.q.cfg.extension {
      CoupledPush(s.r, Win(s), s.q.active, f);
    } else {
      RingSlotsPush(Win(s), f);
    }
  }

  // ---------------------------------------------------------------------------------------
  // Publishing the frame in hand, whose record is in the slot at the tail

  function RebaseOnto(s: Snap): Option<nat>
    requires Shaped(s)
  {
    if s.q.active then Some(s.frames[s.q.head].frameEnd) else s.q.lastEnd
  }

  function Rebased(m: Meta, base: Option<nat>): (Meta, int) {
    if base.Some? then Rebase(m, base.value) else (m, 0)
  }

  /** Samples were lost: the backlog goes, the record follows the tail, and counts the loss from
      the frame the client will see before it. */
  function Accounted(s: Snap): (Snap, int)
    requires Shaped(s) && Kept(s) <= s.q.count
  {
    if DropBlocked(s) then (s, -EBUSY)
    else
      var record := Rebased(s.metas[s.q.tail], RebaseOnto(s));
      (Cut(s).(metas := s.metas[Cut(s).q.tail := record.0]), record.1)
  }

  lemma CutKeepsBase(s: Snap)
    requires Sound(s)
    ensures Shaped(Cut(s)) && RebaseOnto(Cut(s)) == RebaseOnto(s)
  {
    CutWindow(s);
    if s.q.active {
      ErasedElsewhere(s.frames, s.q.head, 1, s.q.count, 0);
    }
  }

  lemma AccountedSound(s: Snap, b: nat)
    requires Sound(s) && !DropBlocked(s) && s.q.count < s.q.cfg.capacity && InHand(s, b)
    ensures var d := Accounted(s).0;
            && Sound(d) && View(d) == Drop(View(s)) && InHand(d, b) && d.mem.leases[b] == s.mem.leases[b]
            && d.q.count < d.q.cfg.capacity && d.q.cfg == s.q.cfg
            && (d.metas[d.q.tail], Accounted(s).1) == Rebased(s.metas[s.q.tail], Base(View(s)))
  {
    CutSound(s);
    CutKeepsHand(s, b);
    if s.q.active {
      SlotOf(s, 0);
    }
    assert RebaseOnto(s) == Base(View(s));
    DescribedSound(Cut(s), Rebased(s.metas[s.q.tail], RebaseOnto(s)).0);
  }

  function NewFrame(s: Snap, b: nat, metadataBytes: nat, offset: nat, bytes: nat): QueueFrame
    requires Shaped(s)
  {
    QueueFrame(Some(b), if s.q.cfg.dropBacklog then s.metas[s.q.tail].end else 0, metadataBytes,
               offset, bytes, 0, false)
  }

  function Unstreaked(s: Snap): Snap {
    Counted(s, s.q.tally.(streak := 0))
  }

  predicate LossyRecord(s: Snap)
    requires Shaped(s)
  {
    s.q.cfg.dropBacklog && s.metas[s.q.tail].missing != 0
  }

  /** The queue when the frame is about to be stored. */
  function Settled(s: Snap): (Snap, int)
    requires Shaped(s) && Kept(s) <= s.q.count
  {
    if LossyRecord(s) then Accounted(Unstreaked(s)) else (Unstreaked(s), 0)
  }

  predicate PublishBlocked(s: Snap)
    requires Shaped(s) && Kept(s) <= s.q.count
  {
    LossyRecord(s) && DropBlocked(s)
  }

  lemma SettledSound(s: Snap, b: nat)
    requires Sound(s) && s.q.count < s.q.cfg.capacity && InHand(s, b)
    ensures var d := Settled(s).0;
            && Sound(d) && InHand(d, b) && d.mem.leases[b] == s.mem.leases[b]
            && d.q.count < d.q.cfg.capacity && d.q.cfg == s.q.cfg
            && (PublishBlocked(s) ==> View(d) == View(s).(tally := s.q.tally.(streak := 0)) && Settled(s).1 == -EBUSY)
            && (!PublishBlocked(s) ==>
                  View(d) == Survivors(View(s), s.metas[s.q.tail]) &&
                  (d.metas[d.q.tail], Settled(s).1) == Account(View(s), s.metas[s.q.tail]))
  {
    UnstreakedSound(s, b);
    if LossyRecord(s) && !DropBlocked(s) {
      LossSettles(s, b);
    }
  }

  lemma LossSettles(s: Snap, b: nat)
    requires Shaped(s) && s.q.tail < |s.metas| && Kept(s) <= s.q.count
    requires Sound(s) && s.q.count < s.q.cfg.capacity && InHand(s, b)
    requires LossyRecord(s) && !DropBlocked(s)
    ensures var d := Settled(s).0;
            && Sound(d) && InHand(d, b) && d.mem.leases[b] == s.mem.leases[b]
            && d.q.count < d.q.cfg.capacity && d.q.cfg == s.q.cfg
            && View(d) == Survivors(View(s), s.metas[s.q.tail])
            && (d.metas[d.q.tail], Settled(s).1) == Account(View(s), s.metas[s.q.tail])
  {
    UnstreakedSound(s, b);
    AccountedSound(Unstreaked(s), b);
  }

  lemma UnstreakedSound(s: Snap, b: nat)
    requires Sound(s) && InHand(s, b)
    ensures var u := Unstreaked(s);
            && Sound(u) && InHand(u, b) && View(u) == View(s).(tally := s.q.tally.(streak := 0))
            && DropBlocked(u) == DropBlocked(s) && LossyRecord(u) == LossyRecord(s)
  {
    CountedSound(s, s.q.tally.(streak := 0));
  }

  /** The frame is queued, or on an error its block goes back. */
  function Filed(d: Snap, ret: int, b: nat, metadataBytes: nat, offset: nat, bytes: nat): Snap
    requires Shaped(d) && d.q.count < d.q.cfg.capacity
  {
    if ret != 0 then HandReturned(d, b)
    else Pushed(d, NewFrame(d, b, metadataBytes, offset, bytes), d.metas[d.q.tail])
  }

  lemma FiledSound(d: Snap, ret: int, b: nat, metadataBytes: nat, offset: nat, bytes: nat)
    requires Sound(d) && d.q.count < d.q.cfg.capacity && InHand(d, b)
    requires 0 < bytes && offset + bytes <= |d.mem.leases[b]|
    ensures var p := Filed(d, ret, b, metadataBytes, offset, bytes);
            var m := d.metas[d.q.tail];
            && Sound(p) && (ret != 0 ==> b !in p.mem.leases)
            && View(p) == if ret != 0 then View(d)
                          else Push(View(d), Entry(d.mem.leases[b][offset..offset + bytes], m,
                                                   if d.q.cfg.dropBacklog then m.end else 0, Dma(b)))
  {
    if ret != 0 {
      HandReturnedSound(d, b);
    } else {
      PushedSound(d, NewFrame(d, b, metadataBytes, offset, bytes), d.metas[d.q.tail]);
    }
  }

  lemma FiledRecord(d: Snap, b: nat, metadataBytes: nat, offset: nat, bytes: nat)
    requires Shaped(d) && d.q.count < d.q.cfg.capacity
    ensures var p := Filed(d, 0, b, metadataBytes, offset, bytes);
            Shaped(p) && 0 < p.q.count && Win(p)[p.q.count - 1].metadataBytes == metadataBytes
  {
    PushedWindow(d, NewFrame(d, b, metadataBytes, offset, bytes), d.metas[d.q.tail]);
  }

  /** `Publish` is settling the queue, then filing the frame. */
  lemma PublishInTwo(v: State, b: nat, iq: Iq, m: Meta)
    requires v.active ==> v.entries != []
    ensures var (meta, ret) := Account(v, m);
            meta.end == m.end &&
            Publish(v, b, iq, m) ==
              if ret != 0 then (Survivors(v, m), ret)
              else (Push(Survivors(v, m), Entry(iq, meta, if v.cfg.dropBacklog then meta.end else 0, Dma(b))), 0)
  {
  }

  lemma PublishedSound(s: Snap, b: nat, metadataBytes: nat, offset: nat, bytes: nat)
    requires Sound(s) && s.q.count < s.q.cfg.capacity && InHand(s, b)
    requires 0 < bytes && offset + bytes <= |s.mem.leases[b]|
    ensures Shaped(Settled(s).0) && Settled(s).0.q.count < Settled(s).0.q.cfg.capacity
    ensures var p := Filed(Settled(s).0, Settled(s).1, b, metadataBytes, offset, bytes);
            && Sound(p) && p.q.cfg == s.q.cfg && (Settled(s).1 != 0 ==> b !in p.mem.leases)
            && (View(p), Settled(s).1) ==
                 if PublishBlocked(s) then (View(s).(tally := s.q.tally.(streak := 0)), -EBUSY)
                 else Publish(View(s), b, s.mem.leases[b][offset..offset + bytes], s.metas[s.q.tail])
  {
    SettledSound(s, b);
    PublishInTwo(View(s), b, s.mem.leases[b][offset..offset + bytes], s.metas[s.q.tail]);
    FiledSound(Settled(s).0, Settled(s).1, b, metadataBytes, offset, bytes);
  }

  // ---------------------------------------------------------------------------------------
  // The sender

  function Begun(s: Snap): Snap
    requires Shaped(s) && 0 < s.q.count
  {
    s.(q := s.q.(active := true), r := if Win(s)[0].ringBacked then ReserveForConsumer(s.r).0 else s.r)
  }

  lemma {:induction false} NoRingFrames(win: seq<QueueFrame>, i: nat)
    requires RingSlots(win) == [] && i < |win|
    ensures !win[i].ringBacked
  {
    RingSlotsPrefix(win, i);
  }

  /** A ring-backed head is what the RAM ring hands to its consumer. */
  lemma HeadIsOldest(s: Snap)
    requires Sound(s) && 0 < s.q.count && Win(s)[0].ringBacked
    ensures s.q.cfg.extension && s.r.queue != [] && s.r.queue[0] == Win(s)[0].ringSlot
    ensures !s.q.active && AllowsDrain(s.r.phase) ==> ReserveForConsumer(s.r).1 == 0
  {
    if !s.q.cfg.extension {
      NoRingFrames(Win(s), 0);
    }
    RingSlotsPop(Win(s));
  }

  lemma BegunSound(s: Snap)
    requires Sound(s) && 0 < s.q.count && !s.q.active
    requires Win(s)[0].ringBacked ==> AllowsDrain(s.r.phase)
    ensures Sound(Begun(s)) && View(Begun(s)) == BeginSend(View(s))
  {
    if Win(s)[0].ringBacked {
      HeadIsOldest(s);
      ReservationsInv(s.r);
    }
  }

  function Gone(s: Snap): Snap
    requires Shaped(s) && 0 < s.q.count
  {
    var b := Win(s)[0].block;
    s.(q := s.q.(returned := true),
       mem := s.mem.(leases := if b.Some? then s.mem.leases - {b.value} else s.mem.leases))
  }

  lemma GoneSound(s: Snap)
    requires Sound(s) && s.q.active && !s.q.returned && !Win(s)[0].ringBacked
    ensures Sound(Gone(s)) && View(Gone(s)) == ReturnHead(View(s))
  {
    HeadReturned(Win(s), Records(s), s.mem);
  }

  lemma GoneKeepsHand(s: Snap)
    requires Sound(s) && s.q.active && !s.q.returned && !Win(s)[0].ringBacked
    ensures Shaped(Gone(s)) && HandKept(s, Gone(s))
  {
    assert Win(Gone(s)) == Win(s);
    forall b | InHand(s, b) ensures InHand(Gone(s), b) && Gone(s).mem.leases[b] == s.mem.leases[b] {
      ReturnKeepsUnused(Win(s), s.mem, b);
    }
  }

  function Popped(s: Snap): Snap
    requires Shaped(s) && 0 < s.q.count
  {
    s.(frames := s.frames[s.q.head := EmptyFrame],
       r := if Win(s)[0].ringBacked then Release(s.r).0 else s.r,
       q := s.q.(active := false, returned := false, count := s.q.count - 1,
                 head := Circular.Place(s.q.head, 1, |s.frames|),
                 dmaCount := if !Win(s)[0].ringBacked && s.q.dmaCount > 0 then s.q.dmaCount - 1 else s.q.dmaCount,
                 tally := s.q.tally.(consumed := s.q.tally.consumed + 1)))
  }

  lemma CoupledPop(r: Ring, win: seq<QueueFrame>)
    requires Coupled(r, win, true) && win != []
    ensures win[0].ringBacked ==> Release(r).1 == 0 && Coupled(Release(r).0, win[1..], false)
    ensures win[0].ringBacked ==> Release(r).0.phase == r.phase
    ensures !win[0].ringBacked ==> Coupled(r, win[1..], false)
  {
    RingSlotsPop(win);
    ReleaseInv(r);
  }

  lemma {:induction false} DmaFramesPop(win: seq<QueueFrame>)
    requires win != []
    ensures DmaFrames(win) == (if win[0].ringBacked then 0 else 1) + DmaFrames(win[1..])
  {
    var n := |win| - 1;
    if n > 0 {
      DmaFramesPop(win[..n]);
      assert win[..n][1..] == win[1..][..n - 1];
    }
  }

  lemma PoppedWindow(s: Snap)
    requires Sound(s) && 0 < s.q.count
    ensures Shaped(Popped(s)) && Win(Popped(s)) == Win(s)[1..] && Records(Popped(s)) == Records(s)[1..]
  {
    var next := Circular.Place(s.q.head, 1, |s.frames|);
    Circular.WindowPop(s.frames, s.q.head, s.q.count);
    Circular.WindowPop(s.metas, s.q.head, s.q.count);
    Circular.WindowSame(s.frames, Popped(s).frames, next, s.q.count - 1);
  }

  lemma PoppedSound(s: Snap)
    requires Sound(s) && s.q.active && (Win(s)[0].ringBacked || s.q.returned)
    ensures Sound(Popped(s))
    ensures View(Popped(s)) ==
              View(s).(entries := View(s).entries[1..], active := false,
                       tally := s.q.tally.(consumed := s.q.tally.consumed + 1))
  {
    PoppedWindow(s);
    DmaFramesPop(Win(s));
    OkPop(Win(s), s.mem, s.q.returned);
    EntriesPop(Win(s), Records(s), s.mem, s.q.returned);
    if s.q.cfg.extension {
      CoupledPop(s.r, Win(s));
    } else {
      RingSlotsPop(Win(s));
    }
  }

  // ---------------------------------------------------------------------------------------
  // Ending the segment

  /** The segment is over with error `code`; a RAM ring that still has work fails with it. */
  function Ended(s: Snap, why: int, code: int): Snap {
    s.(q := s.q.(error := code, cancelled := true),
       r := if s.q.cfg.extension && !IsTerminal(s.r) then FailWith(s.r, why, code).0 else s.r)
  }

  /** Changing only how the segment ended, and the RAM ring with it. */
  lemma EndingSound(s: Snap, q: Fields, r: Ring)
    requires Sound(s)
    requires q == s.q.(error := q.error, cancelled := q.cancelled, lastEnd := q.lastEnd)
    requires s.q.cfg.extension ==> Coupled(r, Win(s), s.q.active) && r.slotCount == s.r.slotCount
    ensures Sound(s.(q := q, r := r))
    ensures View(s.(q := q, r := r)) ==
              View(s).(error := q.error, cancelled := q.cancelled, lastEnd := q.lastEnd, ring := RingPhase(s.q.cfg, r))
  {
    assert Win(s.(q := q, r := r)) == Win(s) && Records(s.(q := q, r := r)) == Records(s);
  }

  lemma FailedCoupled(r: Ring, win: seq<QueueFrame>, active: bool, why: int, code: int)
    requires Coupled(r, win, active) && REASON_CONSUMER_STALL <= why <= REASON_INTERNAL_ERROR && code < 0
    ensures var r' := if IsTerminal(r) then r else FailWith(r, why, code).0;
            Coupled(r', win, active) && r'.slotCount == r.slotCount &&
            r'.phase == if r.phase == Running then Failed else r.phase
  {
    TerminateInv(r, why, code);
  }

  lemma EndedSound(s: Snap, why: int, code: int)
    requires Sound(s) && REASON_CONSUMER_STALL <= why <= REASON_INTERNAL_ERROR && code < 0
    ensures Sound(Ended(s, why, code))
    ensures View(Ended(s, why, code)) ==
              View(s).(error := code, cancelled := true, ring := Failing(View(s).ring, s.q.cfg))
  {
    if s.q.cfg.extension {
      FailedCoupled(s.r, Win(s), s.q.active, why, code);
    }
    EndingSound(s, Ended(s, why, code).q, Ended(s, why, code).r);
  }

  function Cancelling(s: Snap, why: int): Snap {
    s.(q := s.q.(cancelled := true),
       r := if s.q.cfg.extension && !IsTerminal(s.r) then CancelFor(s.r, why).0 else s.r)
  }

  lemma RingOverMeans(s: Snap)
    requires Sound(s) && s.q.cfg.extension
    ensures IsTerminal(s.r) <==> RingOver(View(s))
  {
    CountsAgree(s);
  }

  lemma CancellingSound(s: Snap, why: int)
    requires Sound(s) && (why == REASON_CLIENT_CANCELLED || why == REASON_CLIENT_DISCONNECTED)
    ensures Sound(Cancelling(s, why)) && View(Cancelling(s, why)) == CancelAll(View(s))
  {
    if s.q.cfg.extension {
      RingOverMeans(s);
      TerminateInv(s.r, why, 0);
    }
    EndingSound(s, Cancelling(s, why).q, Cancelling(s, why).r);
  }

  /** `ring_failure_reason`. */
  function FailureReason(error: int): int {
    if error == -EOVERFLOW then REASON_COUNTER_GAP
    else if error == -ETIMEDOUT then REASON_CONSUMER_STALL
    else if error == -ECANCELED || error == -EPIPE then REASON_CLIENT_DISCONNECTED
    else REASON_DMA_ERROR
  }

  function ExitedRing(r: Ring, error: int): Ring {
    if IsTerminal(r) then r else FailWith(r, FailureReason(error), if error < 0 then error else -EIO).0
  }

  function Exited(s: Snap, error: int): Snap {
    if error == 0 || s.q.cancelled then s
    else s.(q := s.q.(error := error), r := if s.q.cfg.extension then ExitedRing(s.r, error) else s.r)
  }

  lemma ExitedCoupled(r: Ring, win: seq<QueueFrame>, active: bool, error: int)
    requires Coupled(r, win, active) && error < 0
    ensures Coupled(ExitedRing(r, error), win, active) && ExitedRing(r, error).slotCount == r.slotCount
    ensures ExitedRing(r, error).phase ==
              if r.phase == Running && error != -ECANCELED && error != -EPIPE then Failed else r.phase
  {
    if FailureReason(error) != REASON_CLIENT_DISCONNECTED {
      FailedCoupled(r, win, active, FailureReason(error), error);
    }
  }

  lemma ExitedSound(s: Snap, error: int)
    requires Sound(s) && error <= 0
    ensures Sound(Exited(s, error)) && View(Exited(s, error)) == ProducerLeaves(View(s), error)
  {
    if error < 0 && !s.q.cancelled {
      if s.q.cfg.extension {
        ExitedCoupled(s.r, Win(s), s.q.active, error);
      }
      EndingSound(s, Exited(s, error).q, Exited(s, error).r);
    }
  }

  /** What a running ring is told when its segment ends early: why, and with which error. */
  lemma RingLearnsWhy(s: Snap, error: int, code: int, why: int)
    requires s.q.cfg.extension && !s.q.cancelled && s.r.phase == Running && error < 0 && code < 0
    requires why == REASON_INTERNAL_ERROR || why == REASON_TRANSPORT_ERROR
    ensures var r := Exited(s, error).r;
            if error == -ECANCELED || error == -EPIPE then r == s.r
            else
              && r.phase == Failed && r.error == error
              && r.reason == (if error == -EOVERFLOW then REASON_COUNTER_GAP
                              else if error == -ETIMEDOUT then REASON_CONSUMER_STALL else REASON_DMA_ERROR)
    ensures var r := Ended(s, why, code).r; r.phase == Failed && r.error == code && r.reason == why
    ensures Cancelling(s, REASON_CLIENT_CANCELLED).r.reason == REASON_CLIENT_CANCELLED
    ensures Cancelling(s, REASON_CLIENT_DISCONNECTED).r.reason == REASON_CLIENT_DISCONNECTED
  {
  }

  /** `send_direct_async_data` up to the transport of the head. */
  function Opened(s: Snap, nb: nat, metadataCapacity: nat): (Snap, int)
    requires Shaped(s)
  {
    if s.q.count == 0 then (s, if s.q.error != 0 then s.q.error else -ENODATA)
    else if !Fits(Win(s)[0], nb, metadataCapacity) then (Ended(s, REASON_INTERNAL_ERROR, -ENOSPC), -ENOSPC)
    else if Win(s)[0].ringBacked && ReserveForConsumer(s.r).1 != 0 then
      var code := ReserveForConsumer(s.r).1;
      (Ended(s, REASON_INTERNAL_ERROR, code), code)
    else (Begun(s), 0)
  }

  predicate Fits(f: QueueFrame, nb: nat, metadataCapacity: nat) {
    nb == f.iqBytes && f.metadataBytes <= metadataCapacity
  }

  /** The head fits if the client asked for exactly as many bytes as it has samples, and has room for
      its record. */
  lemma HeadFits(s: Snap, nb: nat, metadataCapacity: nat)
    requires Sound(s) && 0 < s.q.count && !s.q.active
    ensures Fits(Win(s)[0], nb, metadataCapacity) <==>
              |View(s).entries[0].iq| == nb && Win(s)[0].metadataBytes <= metadataCapacity
  {
    SlotOf(s, 0);
  }

  lemma OpenedSound(s: Snap, nb: nat, metadataCapacity: nat)
    requires Sound(s) && !s.q.active
    ensures Sound(Opened(s, nb, metadataCapacity).0)
    ensures s.q.count == 0 ==> View(Opened(s, nb, metadataCapacity).0) == View(s)
    ensures 0 < s.q.count ==>
              (View(Opened(s, nb, metadataCapacity).0), Opened(s, nb, metadataCapacity).1) ==
              StartSend(View(s), Fits(Win(s)[0], nb, metadataCapacity))
  {
    if 0 < s.q.count {
      SlotOf(s, 0);
      if !Fits(Win(s)[0], nb, metadataCapacity) {
        EndedSound(s, REASON_INTERNAL_ERROR, -ENOSPC);
      } else if Win(s)[0].ringBacked && !AllowsDrain(s.r.phase) {
        HeadIsOldest(s);
        EndedSound(s, REASON_INTERNAL_ERROR, -ESHUTDOWN);
      } else {
        if Win(s)[0].ringBacked {
          HeadIsOldest(s);
        }
        BegunSound(s);
      }
    }
  }

  /** `send_direct_async_data` after the transport, `ret` being how it went. */
  function Settling(s: Snap, ret: int): Snap
    requires Shaped(s) && 0 < s.q.count
  {
    var popped := Popped(s);
    if ret >= 0 && s.q.cfg.dropBacklog then popped.(q := popped.q.(lastEnd := Some(Win(s)[0].frameEnd)))
    else popped
  }

  function Concluded(p: Snap, ret: int): (Snap, int) {
    if ret < 0 then (Ended(p, REASON_TRANSPORT_ERROR, ret), ret)
    else if p.q.cfg.extension && p.q.tally.consumed == p.q.cfg.target then
      var (r, code) := FinishExtension(p.r);
      if code != 0 then (p.(q := p.q.(error := code, cancelled := true)), code) else (p.(r := r), ret)
    else (p, ret)
  }

  lemma HeadFrameEnd(s: Snap)
    requires Sound(s) && 0 < s.q.count
    ensures View(s).entries[0].frameEnd == Win(s)[0].frameEnd
  {
    SlotOf(s, 0);
  }

  lemma PoppedSame(s: Snap)
    requires Sound(s) && s.q.active && (Win(s)[0].ringBacked || s.q.returned)
    ensures var p := Popped(s);
            && p.q.cfg == s.q.cfg && p.q.lastEnd == s.q.lastEnd && p.r.slotCount == s.r.slotCount
            && Sound(p)
            && (p.q.cfg.extension ==> Coupled(p.r, Win(p), p.q.active))
  {
    PoppedSound(s);
  }

  lemma SettlingSound(s: Snap, ret: int)
    requires Sound(s) && s.q.active && (Win(s)[0].ringBacked || s.q.returned)
    ensures Sound(Settling(s, ret))
    ensures View(Settling(s, ret)) == PopHead(View(s), ret)
  {
    var p, q := Popped(s), Settling(s, ret).q;
    PoppedSame(s);
    EndingSound(p, q, p.r);
    assert Settling(s, ret) == p.(q := q, r := p.r);
    assert View(p) == PopHead(View(s), -1) by {
      PoppedSound(s);
    }
    assert View(s).entries[0].frameEnd == Win(s)[0].frameEnd by {
      HeadFrameEnd(s);
    }
  }

  lemma ConcludedSound(p: Snap, ret: int)
    requires Sound(p) && (p.q.tally.consumed == p.q.cfg.target ==> p.q.count == 0)
    ensures Sound(Concluded(p, ret).0)
    ensures (View(Concluded(p, ret).0), Concluded(p, ret).1) == Conclude(View(p), ret)
  {
    if ret < 0 {
      EndedSound(p, REASON_TRANSPORT_ERROR, ret);
    } else if p.q.cfg.extension && p.q.tally.consumed == p.q.cfg.target {
      LastFrameEmptiesRing(p);
      LifecycleInv(p.r);
      EndingSound(p, Concluded(p, ret).0.q, Concluded(p, ret).0.r);
    }
  }

  lemma ClosedSound(s: Snap, ret: int)
    requires Sound(s) && s.q.active && (Win(s)[0].ringBacked || s.q.returned)
    requires DirectRuns.QueueInv(View(s))
    ensures Sound(Settling(s, ret)) && Sound(Concluded(Settling(s, ret), ret).0)
    ensures (View(Concluded(Settling(s, ret), ret).0), Concluded(Settling(s, ret), ret).1) == EndSend(View(s), ret)
  {
    SettlingSound(s, ret);
    ConcludedSound(Settling(s, ret), ret);
  }

  /** When the last frame has gone, `complete_extension` finds the RAM ring empty. */
  lemma LastFrameEmptiesRing(p: Snap)
    requires Sound(p) && p.q.cfg.extension && p.q.count == 0
    ensures p.r.queue == [] && !p.r.consumerHeld && !p.r.producerHeld
  {
    assert Win(p) == [];
  }

  /** Opening or closing a send leaves the producer's block alone. */
  lemma OpenedKeepsHand(s: Snap, nb: nat, metadataCapacity: nat)
    requires Sound(s) && !s.q.active
    ensures Shaped(Opened(s, nb, metadataCapacity).0) && HandKept(s, Opened(s, nb, metadataCapacity).0)
  {
    assert Win(Opened(s, nb, metadataCapacity).0) == Win(s);
  }

  lemma ConcludedSame(p: Snap, ret: int)
    requires Shaped(p)
    ensures var c := Concluded(p, ret).0;
            Shaped(c) && Win(c) == Win(p) && c.mem == p.mem && c.q.returned == p.q.returned &&
            c.q.tail == p.q.tail && c.metas == p.metas
  {
  }

  lemma ClosedKeepsHand(s: Snap, ret: int)
    requires Sound(s) && s.q.active && (Win(s)[0].ringBacked || s.q.returned)
    ensures Shaped(Settling(s, ret)) && Shaped(Concluded(Settling(s, ret), ret).0)
    ensures HandKept(s, Concluded(Settling(s, ret), ret).0)
  {
    PoppedWindow(s);
    assert Win(Settling(s, ret)) == Win(s)[1..];
    ConcludedSame(Settling(s, ret), ret);
    forall b | InHand(s, b) ensures Unused(b, Win(s)[1..], false) {
      UnusedPop(b, Win(s), s.q.returned);
    }
  }

  /** So does the end of the segment, from either side. */
  lemma CancellingKeepsHand(s: Snap, why: int)
    requires Shaped(s)
    ensures Shaped(Cancelling(s, why)) && HandKept(s, Cancelling(s, why))
  {
    assert Win(Cancelling(s, why)) == Win(s);
  }

  lemma ExitedKeepsHand(s: Snap, error: int)
    requires Shaped(s)
    ensures Shaped(Exited(s, error)) && HandKept(s, Exited(s, error))
  {
    assert Win(Exited(s, error)) == Win(s);
  }
}
