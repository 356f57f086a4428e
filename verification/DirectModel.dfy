/**
 The direct-async capture queue of iiod/ops.c as a plain queue of frames.

 Each function here is one critical section under `ring_lock`, or one step taken between two
 of them. CaptureQueue.dfy proves that the circular buffers of the source do exactly this.
 */
module DirectModel {
  import opened Errno
  import opened Options
  import opened RingModel

  type Iq = seq<bv8>

  /** What a frame's metadata record says: the samples [first, end), and how many samples
      right before `first` were lost. */
  datatype Meta = Meta(first: nat, end: nat, missing: nat)

  /** Where the samples of a queued frame are: a leased DMA block, a RAM ring slot, or (the
      head only) a block the sender has already given back. */
  datatype Store = Dma(block: nat) | Ram | Returned

  datatype Entry = Entry(iq: Iq, meta: Meta, frameEnd: nat, store: Store)

  datatype Config = Config(capacity: nat, dmaCapacity: nat, headroom: nat, target: nat,
                           dropBacklog: bool, extension: bool, ringSlots: nat)

  datatype Tally = Tally(produced: nat, consumed: nat, dropped: nat, stale: nat, streak: nat)

  /** `lastEnd`: where the last delivered frame of this segment ended. */
  datatype State = State(
    cfg: Config, entries: seq<Entry>, active: bool, tally: Tally,
    lastEnd: Option<nat>, cancelled: bool, error: int, ring: Phase)

  const IIOD_DIRECT_STALE_RETRY_MARGIN := 8

  // ---------------------------------------------------------------------------------------
  // Counting DMA blocks

  predicate HoldsBlock(e: Entry) {
    !e.store.Ram?
  }

  /** `dma_count`: entries not yet in the RAM ring. */
  function DmaCount(es: seq<Entry>): (n: nat)
    ensures n <= |es|
  {
    if es == [] then 0
    else DmaCount(es[..|es| - 1]) + (if HoldsBlock(es[|es| - 1]) then 1 else 0)
  }

  lemma {:induction false} DmaCountPop(es: seq<Entry>)
    requires es != []
    ensures DmaCount(es) == (if HoldsBlock(es[0]) then 1 else 0) + DmaCount(es[1..])
  {
    if |es| == 1 {
      assert es[..0] == [] == es[1..];
    } else {
      DmaCountPop(es[..|es| - 1]);
      assert es[..|es| - 1][1..] == es[1..][..|es| - 2];
    }
  }

  lemma DmaCountPush(es: seq<Entry>, e: Entry)
    ensures DmaCount(es + [e]) == DmaCount(es) + (if HoldsBlock(e) then 1 else 0)
  {
    assert (es + [e])[..|es|] == es;
  }

  // ---------------------------------------------------------------------------------------
  // The steps

  /** `direct_async_prepare`: how many queue slots, and how many blocks to keep in the kernel. */
  function Headroom(dmaCapacity: nat, usefulRam: nat): nat
    requires 2 <= dmaCapacity
  {
    if usefulRam == 0 then 0 else if dmaCapacity > 4 then 3 else dmaCapacity - 2
  }

  function UsefulRam(dmaCapacity: nat, ramCapacity: nat, target: nat): nat {
    var wanted := if target > dmaCapacity then target - dmaCapacity else 0;
    if wanted > ramCapacity then ramCapacity else wanted
  }

  function Plan(dmaCapacity: nat, ramCapacity: nat, target: nat, dropBacklog: bool, extension: bool): Config
    requires 2 <= dmaCapacity
  {
    var ram := UsefulRam(dmaCapacity, ramCapacity, target);
    var headroom := Headroom(dmaCapacity, ram);
    Config(dmaCapacity + ram - headroom, dmaCapacity, headroom, target, dropBacklog, extension, ramCapacity)
  }

  function Fresh(cfg: Config): State {
    State(cfg, [], false, Tally(0, 0, 0, 0, 0), None, false, 0, Running)
  }

  predicate MustSpill(s: State) {
    s.cfg.extension && s.cfg.headroom != 0 &&
    DmaCount(s.entries) + s.cfg.headroom >= s.cfg.dmaCapacity
  }

  /** `direct_async_spill_newest_dma`: the newest entry moves from its DMA block to the RAM ring. */
  function Spill(s: State): State
    requires MustSpill(s) ==> s.entries != []
  {
    if !MustSpill(s) then s
    else
      var newest := |s.entries| - 1;
      s.(entries := s.entries[newest := s.entries[newest].(store := Ram)])
  }

  function Kept(s: State): nat {
    if s.active then 1 else 0
  }

  /** `direct_async_drop_pending`: everything but a head in transport goes. */
  function Drop(s: State): State
    requires s.active ==> s.entries != []
  {
    s.(entries := s.entries[..Kept(s)],
        tally := s.tally.(dropped := s.tally.dropped + |s.entries| - Kept(s)))
  }

  /** A block whose metadata is stale is retired, and the backlog with it. */
  function Retire(s: State): (State, int)
    requires s.active ==> s.entries != []
  {
    var d := Drop(s);
    (d.(tally := d.tally.(dropped := d.tally.dropped + 1, stale := s.tally.stale + 1,
                         streak := s.tally.streak + 1)),
     if s.tally.streak + 1 > s.cfg.dmaCapacity + IIOD_DIRECT_STALE_RETRY_MARGIN then -ESTALE else 0)
  }

  /** The end of the last frame the client has or will certainly get, as the producer sees it. */
  function Base(s: State): Option<nat>
    requires s.active ==> s.entries != []
  {
    if s.active then Some(s.entries[0].frameEnd) else s.lastEnd
  }

  /** `spf_counter_frame_rebase`: count the loss from `base` instead. */
  function Rebase(m: Meta, base: nat): (Meta, int) {
    if m.first < base then (m, -ERANGE) else (m.(missing := m.first - base), 0)
  }

  predicate Lossy(s: State, m: Meta) {
    s.cfg.dropBacklog && m.missing != 0
  }

  /** What is left of the queue when a frame with this record arrives. */
  function Survivors(s: State, m: Meta): State
    requires s.active ==> s.entries != []
  {
    var c := s.(tally := s.tally.(streak := 0));
    if Lossy(s, m) then Drop(c) else c
  }

  function Account(s: State, m: Meta): (Meta, int)
    requires s.active ==> s.entries != []
  {
    if Lossy(s, m) && Base(s).Some? then Rebase(m, Base(s).value) else (m, 0)
  }

  function Push(s: State, e: Entry): State {
    s.(entries := s.entries + [e], tally := s.tally.(produced := s.tally.produced + 1))
  }

  /** The producer's last critical section: drop the backlog if samples were lost, rebase the
      record onto what survives, and queue the frame. */
  function Publish(s: State, block: nat, iq: Iq, m: Meta): (State, int)
    requires s.active ==> s.entries != []
  {
    var (meta, ret) := Account(s, m);
    if ret != 0 then (Survivors(s, m), ret)
    else (Push(Survivors(s, m), Entry(iq, meta, if s.cfg.dropBacklog then m.end else 0, Dma(block))), 0)
  }

  function BeginSend(s: State): State {
    s.(active := true)
  }

  /** The sender gives a DMA head back to the kernel, outside the lock. */
  function ReturnHead(s: State): State
    requires s.entries != []
  {
    if s.entries[0].store.Dma? then s.(entries := s.entries[0 := s.entries[0].(iq := [], store := Returned)])
    else s
  }

  function PopHead(s: State, ret: int): State
    requires s.entries != []
  {
    s.(entries := s.entries[1..], active := false,
       tally := s.tally.(consumed := s.tally.consumed + 1),
       lastEnd := if ret >= 0 && s.cfg.dropBacklog then Some(s.entries[0].frameEnd) else s.lastEnd)
  }

  /** `complete_extension` succeeds exactly on a ring still running. */
  function Conclude(s: State, ret: int): (State, int) {
    if ret < 0 then (s.(error := ret, cancelled := true, ring := Failing(s.ring, s.cfg)), ret)
    else if s.cfg.extension && s.tally.consumed == s.cfg.target then
      if s.ring == Running then (s.(ring := Complete), ret)
      else (s.(error := -EINVAL, cancelled := true), -EINVAL)
    else (s, ret)
  }

  function EndSend(s: State, ret: int): (State, int)
    requires s.entries != []
  {
    Conclude(PopHead(s, ret), ret)
  }

  function Failing(p: Phase, cfg: Config): Phase {
    if cfg.extension && p == Running then Failed else p
  }

  /** The client asked for the wrong size: nothing is sent, and the segment is over. */
  function Refuse(s: State): State {
    s.(error := -ENOSPC, cancelled := true, ring := Failing(s.ring, s.cfg))
  }

  /** The sender takes the head, if the client's sizes fit and the ring still drains. */
  function StartSend(s: State, fits: bool): (State, int)
    requires s.entries != []
  {
    if !fits then (Refuse(s), -ENOSPC)
    else if s.entries[0].store.Ram? && !AllowsDrain(s.ring) then
      (s.(error := -ESHUTDOWN, cancelled := true), -ESHUTDOWN)
    else (BeginSend(s), 0)
  }

  predicate RingOver(s: State) {
    s.ring == Complete || s.ring == Cancelled ||
    (s.ring == Failed && DmaCount(s.entries) == |s.entries|)
  }

  function CancelAll(s: State): State {
    s.(cancelled := true, ring := if s.cfg.extension && !RingOver(s) then Cancelled else s.ring)
  }

  /** The producer thread leaves, with an error unless it was cancelled first. Errors that
      `ring_failure_reason` reads as a disconnect do not fail the ring. */
  function ProducerLeaves(s: State, error: int): State {
    if error == 0 || s.cancelled then s
    else s.(error := error,
            ring := if error == -ECANCELED || error == -EPIPE then s.ring else Failing(s.ring, s.cfg))
  }
}
