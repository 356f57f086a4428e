/**
 One queue slot of the direct-async queue, and how a window of slots stands for the frames of
 DirectModel: which samples each slot denotes, which RAM ring slots and DMA blocks it uses.
 */
module DirectWindow {
  import opened DirectModel
  import opened Options

  /** `struct iiod_direct_async_frame`. */
  datatype QueueFrame = QueueFrame(block: Option<nat>, frameEnd: nat, metadataBytes: nat,
                                   iqOffset: nat, iqBytes: nat, ringSlot: nat, ringBacked: bool)

  const EmptyFrame := QueueFrame(None, 0, 0, 0, 0, 0, false)

  /** The memory frames point into: leased DMA blocks by number, and the RAM ring's slots. */
  datatype Memory = Memory(leases: map<nat, Iq>, ring: seq<Iq>)

  function Slice(data: Iq, offset: nat, bytes: nat): Iq {
    if offset + bytes <= |data| then data[offset..offset + bytes] else []
  }

  function Samples(f: QueueFrame, mem: Memory): Iq {
    if f.ringBacked then (if f.ringSlot < |mem.ring| then mem.ring[f.ringSlot] else [])
    else if f.block.Some? && f.block.value in mem.leases then
      Slice(mem.leases[f.block.value], f.iqOffset, f.iqBytes)
    else []
  }

  function EntryOf(f: QueueFrame, m: Meta, mem: Memory, returned: bool): Entry {
    if f.ringBacked then Entry(Samples(f, mem), m, f.frameEnd, Ram)
    else if returned || f.block.None? then Entry([], m, f.frameEnd, Returned)
    else Entry(Samples(f, mem), m, f.frameEnd, Dma(f.block.value))
  }

  /** `returned`: the head's block has already gone back to the kernel. */
  function Entries(win: seq<QueueFrame>, metas: seq<Meta>, mem: Memory, returned: bool): (es: seq<Entry>)
    requires |win| == |metas|
    ensures |es| == |win|
  {
    if win == [] then []
    else
      var n := |win| - 1;
      Entries(win[..n], metas[..n], mem, returned) + [EntryOf(win[n], metas[n], mem, returned && n == 0)]
  }

  lemma {:induction false} EntryAt(win: seq<QueueFrame>, metas: seq<Meta>, mem: Memory, returned: bool, i: nat)
    requires |win| == |metas| && i < |win|
    ensures Entries(win, metas, mem, returned)[i] == EntryOf(win[i], metas[i], mem, returned && i == 0)
  {
    var n := |win| - 1;
    if i < n {
      EntryAt(win[..n], metas[..n], mem, returned, i);
    }
  }

  lemma EntriesPrefix(win: seq<QueueFrame>, metas: seq<Meta>, mem: Memory, returned: bool, n: nat)
    requires |win| == |metas| && n <= |win|
    ensures Entries(win[..n], metas[..n], mem, returned) == Entries(win, metas, mem, returned)[..n]
  {
    forall i | 0 <= i < n
      ensures Entries(win[..n], metas[..n], mem, returned)[i] == Entries(win, metas, mem, returned)[i]
    {
      EntryAt(win[..n], metas[..n], mem, returned, i);
      EntryAt(win, metas, mem, returned, i);
    }
  }

  /** Changing memory that no frame of the window points to changes no entry. */
  lemma EntriesSame(win: seq<QueueFrame>, metas: seq<Meta>, mem: Memory, mem': Memory, returned: bool)
    requires |win| == |metas|
    requires forall i :: 0 <= i < |win| && !(i == 0 && returned && !win[0].ringBacked) ==>
               Samples(win[i], mem) == Samples(win[i], mem')
    ensures Entries(win, metas, mem, returned) == Entries(win, metas, mem', returned)
  {
    forall i | 0 <= i < |win|
      ensures Entries(win, metas, mem, returned)[i] == Entries(win, metas, mem', returned)[i]
    {
      EntryAt(win, metas, mem, returned, i);
      EntryAt(win, metas, mem', returned, i);
    }
  }

  lemma EntriesPop(win: seq<QueueFrame>, metas: seq<Meta>, mem: Memory, returned: bool)
    requires |win| == |metas| && win != []
    ensures Entries(win[1..], metas[1..], mem, false) == Entries(win, metas, mem, returned)[1..]
  {
    forall i | 0 <= i < |win| - 1
      ensures Entries(win[1..], metas[1..], mem, false)[i] == Entries(win, metas, mem, returned)[1..][i]
    {
      EntryAt(win[1..], metas[1..], mem, false, i);
      EntryAt(win, metas, mem, returned, i + 1);
    }
  }

  // ---------------------------------------------------------------------------------------
  // Ring slots and DMA blocks in queue order

  /** The RAM ring slots used, in queue order. */
  function RingSlots(win: seq<QueueFrame>): (s: seq<nat>)
    ensures |s| <= |win|
  {
    if win == [] then []
    else
      var n := |win| - 1;
      RingSlots(win[..n]) + (if win[n].ringBacked then [win[n].ringSlot] else [])
  }

  lemma {:induction false} RingSlotsPop(win: seq<QueueFrame>)
    requires win != []
    ensures RingSlots(win) == (if win[0].ringBacked then [win[0].ringSlot] else []) + RingSlots(win[1..])
  {
    var n := |win| - 1;
    if n > 0 {
      RingSlotsPop(win[..n]);
      assert win[..n][1..] == win[1..][..n - 1];
    }
  }

  lemma {:induction false} RingSlotsPrefix(win: seq<QueueFrame>, n: nat)
    requires n <= |win|
    ensures RingSlots(win[..n]) <= RingSlots(win)
    ensures n < |win| && win[n].ringBacked ==>
              |RingSlots(win[..n])| < |RingSlots(win)| &&
              RingSlots(win)[|RingSlots(win[..n])|] == win[n].ringSlot
    decreases |win|
  {
    if n == |win| {
      assert win[..n] == win;
    } else {
      var last := |win| - 1;
      RingSlotsPrefix(win[..last], n);
      assert win[..last][..n] == win[..n];
    }
  }

  lemma RingSlotsPush(win: seq<QueueFrame>, f: QueueFrame)
    ensures RingSlots(win + [f]) == RingSlots(win) + (if f.ringBacked then [f.ringSlot] else [])
  {
    assert (win + [f])[..|win|] == win;
  }

  function DmaFrames(win: seq<QueueFrame>): nat {
    if win == [] then 0
    else DmaFrames(win[..|win| - 1]) + (if win[|win| - 1].ringBacked then 0 else 1)
  }

  lemma {:induction false} DmaFramesCount(win: seq<QueueFrame>, metas: seq<Meta>, mem: Memory, returned: bool)
    requires |win| == |metas|
    ensures DmaFrames(win) == DmaCount(Entries(win, metas, mem, returned)) == |win| - |RingSlots(win)|
  {
    if win != [] {
      var n := |win| - 1;
      DmaFramesCount(win[..n], metas[..n], mem, returned);
      EntriesPrefix(win, metas, mem, returned, n);
    }
  }

  // ---------------------------------------------------------------------------------------
  // Which memory a window relies on

  predicate FrameOk(f: QueueFrame, mem: Memory, live: bool) {
    && 0 < f.iqBytes
    && (if f.ringBacked then f.block.None? && f.ringSlot < |mem.ring| && |mem.ring[f.ringSlot]| == f.iqBytes
        else f.block.Some? &&
             (live ==> f.block.value in mem.leases &&
                       f.iqOffset + f.iqBytes <= |mem.leases[f.block.value]|))
  }

  predicate Live(i: nat, returned: bool) {
    !(i == 0 && returned)
  }

  /** Block `b` belongs to no frame of the window that still holds its block. Recursive, like
      the predicate below, so that only the lemmas here see through it. */
  ghost predicate Unused(b: nat, win: seq<QueueFrame>, returned: bool) {
    win == [] ||
    (var n := |win| - 1;
     Unused(b, win[..n], returned) &&
     (Live(n, returned) && !win[n].ringBacked ==> win[n].block != Some(b)))
  }

  /** Every frame has its memory, and no two frames share a leased block. */
  ghost predicate WindowOk(win: seq<QueueFrame>, mem: Memory, returned: bool) {
    win == [] ||
    (var n := |win| - 1;
     && WindowOk(win[..n], mem, returned)
     && FrameOk(win[n], mem, Live(n, returned))
     && (win[n].block.Some? && !win[n].ringBacked ==> Unused(win[n].block.value, win[..n], returned)))
  }

  lemma {:induction false} UnusedAt(b: nat, win: seq<QueueFrame>, returned: bool, i: nat)
    requires Unused(b, win, returned) && i < |win| && Live(i, returned) && !win[i].ringBacked
    ensures win[i].block != Some(b)
  {
    var n := |win| - 1;
    if i < n {
      UnusedAt(b, win[..n], returned, i);
    }
  }

  lemma {:induction false} UnusedFrom(b: nat, win: seq<QueueFrame>, returned: bool)
    requires forall i :: 0 <= i < |win| && Live(i, returned) && !win[i].ringBacked ==> win[i].block != Some(b)
    ensures Unused(b, win, returned)
  {
    if win != [] {
      var n := |win| - 1;
      assert forall i :: 0 <= i < n ==> win[..n][i] == win[i];
      UnusedFrom(b, win[..n], returned);
    }
  }

  lemma {:induction false} FrameOkAt(win: seq<QueueFrame>, mem: Memory, returned: bool, i: nat)
    requires WindowOk(win, mem, returned) && i < |win|
    ensures FrameOk(win[i], mem, Live(i, returned))
  {
    var n := |win| - 1;
    if i < n {
      FrameOkAt(win[..n], mem, returned, i);
    }
  }

  lemma {:induction false} BlocksDiffer(win: seq<QueueFrame>, mem: Memory, returned: bool, i: nat, j: nat)
    requires WindowOk(win, mem, returned) && i < j < |win|
    requires Live(i, returned) && !win[i].ringBacked && !win[j].ringBacked
    ensures win[i].block != win[j].block
  {
    var n := |win| - 1;
    if j < n {
      BlocksDiffer(win[..n], mem, returned, i, j);
    } else {
      FrameOkAt(win, mem, returned, j);
      UnusedAt(win[n].block.value, win[..n], returned, i);
    }
  }

  lemma {:induction false} WindowOkPrefix(win: seq<QueueFrame>, mem: Memory, returned: bool, n: nat)
    requires WindowOk(win, mem, returned) && n <= |win|
    ensures WindowOk(win[..n], mem, returned)
  {
    if n == |win| {
      assert win[..n] == win;
    } else {
      var last := |win| - 1;
      WindowOkPrefix(win[..last], mem, returned, n);
      assert win[..last][..n] == win[..n];
    }
  }

  lemma OkPush(win: seq<QueueFrame>, mem: Memory, returned: bool, f: QueueFrame)
    requires WindowOk(win, mem, returned) && FrameOk(f, mem, true) && !f.ringBacked
    requires Unused(f.block.value, win, returned) && (win == [] ==> !returned)
    ensures WindowOk(win + [f], mem, returned)
  {
    assert (win + [f])[..|win|] == win;
  }

  lemma {:induction false} UnusedPop(b: nat, win: seq<QueueFrame>, returned: bool)
    requires Unused(b, win, returned) && win != []
    ensures Unused(b, win[1..], false)
  {
    forall i | 0 <= i < |win| - 1 && !win[1..][i].ringBacked ensures win[1..][i].block != Some(b) {
      UnusedAt(b, win, returned, i + 1);
    }
    UnusedFrom(b, win[1..], false);
  }

  lemma {:induction false} OkPop(win: seq<QueueFrame>, mem: Memory, returned: bool)
    requires WindowOk(win, mem, returned) && win != []
    ensures WindowOk(win[1..], mem, false)
  {
    var n := |win| - 1;
    if n > 0 {
      OkPop(win[..n], mem, returned);
      assert win[..n][1..] == win[1..][..n - 1];
      if win[n].block.Some? && !win[n].ringBacked {
        UnusedPop(win[n].block.value, win[..n], returned);
      }
    }
  }

  lemma {:induction false} UnusedWeaken(b: nat, win: seq<QueueFrame>, returned: bool)
    requires Unused(b, win, returned)
    ensures Unused(b, win, true)
  {
    if win != [] {
      UnusedWeaken(b, win[..|win| - 1], returned);
    }
  }

  lemma {:induction false} UnusedPrefix(b: nat, win: seq<QueueFrame>, returned: bool, n: nat)
    requires Unused(b, win, returned) && n <= |win|
    ensures Unused(b, win[..n], returned)
  {
    if n == |win| {
      assert win[..n] == win;
    } else {
      UnusedPrefix(b, win[..|win| - 1], returned, n);
      assert win[..|win| - 1][..n] == win[..n];
    }
  }

  /** The window stays sound in other memory that still serves every frame. */
  lemma {:induction false} OkMemory(win: seq<QueueFrame>, mem: Memory, returned: bool, mem': Memory, returned': bool)
    requires WindowOk(win, mem, returned) && (returned ==> returned')
    requires forall i :: 0 <= i < |win| ==> FrameOk(win[i], mem', Live(i, returned'))
    ensures WindowOk(win, mem', returned')
  {
    if win != [] {
      var n := |win| - 1;
      assert forall i :: 0 <= i < n ==> win[..n][i] == win[i];
      OkMemory(win[..n], mem, returned, mem', returned');
      assert FrameOk(win[n], mem', Live(n, returned'));
      if !win[n].ringBacked && win[n].block.Some? && returned' {
        UnusedWeaken(win[n].block.value, win[..n], returned);
      }
    }
  }

  /** Giving back a block no live frame uses. */
  lemma OkRelease(win: seq<QueueFrame>, metas: seq<Meta>, mem: Memory, returned: bool, b: nat)
    requires |win| == |metas| && WindowOk(win, mem, returned) && Unused(b, win, returned)
    ensures var mem' := mem.(leases := mem.leases - {b});
            WindowOk(win, mem', returned) &&
            Entries(win, metas, mem', returned) == Entries(win, metas, mem, returned)
  {
    var mem' := mem.(leases := mem.leases - {b});
    forall i | 0 <= i < |win|
      ensures FrameOk(win[i], mem', Live(i, returned))
      ensures Live(i, returned) || win[i].ringBacked ==> Samples(win[i], mem) == Samples(win[i], mem')
    {
      FrameOkAt(win, mem, returned, i);
      if Live(i, returned) && !win[i].ringBacked {
        UnusedAt(b, win, returned, i);
      }
    }
    OkMemory(win, mem, returned, mem', returned);
    EntriesSame(win, metas, mem, mem', returned);
  }

  /** A block the kernel hands out is in no frame. */
  lemma OkAcquire(win: seq<QueueFrame>, metas: seq<Meta>, mem: Memory, returned: bool, b: nat, raw: Iq)
    requires |win| == |metas| && WindowOk(win, mem, returned) && b !in mem.leases
    ensures var mem' := mem.(leases := mem.leases[b := raw]);
            WindowOk(win, mem', returned) && Unused(b, win, returned) &&
            Entries(win, metas, mem', returned) == Entries(win, metas, mem, returned)
  {
    var mem' := mem.(leases := mem.leases[b := raw]);
    forall i | 0 <= i < |win|
      ensures FrameOk(win[i], mem', Live(i, returned))
      ensures Live(i, returned) || win[i].ringBacked ==> Samples(win[i], mem) == Samples(win[i], mem')
      ensures Live(i, returned) && !win[i].ringBacked ==> win[i].block != Some(b)
    {
      FrameOkAt(win, mem, returned, i);
    }
    UnusedFrom(b, win, returned);
    OkMemory(win, mem, returned, mem', returned);
    EntriesSame(win, metas, mem, mem', returned);
  }

  /** The memory after the newest frame has moved to RAM ring slot `slot`. */
  function SpilledMemory(win: seq<QueueFrame>, mem: Memory, slot: nat): Memory
    requires win != [] && win[|win| - 1].block.Some? && slot < |mem.ring|
  {
    var f := win[|win| - 1];
    Memory(mem.leases - {f.block.value}, mem.ring[slot := Samples(f, mem)])
  }

  function InRing(f: QueueFrame, slot: nat): QueueFrame {
    f.(block := None, iqOffset := 0, ringSlot := slot, ringBacked := true)
  }

  /** The newest frame moves to RAM ring slot `slot`, which no other frame uses. */
  lemma SpillWindow(win: seq<QueueFrame>, metas: seq<Meta>, mem: Memory, returned: bool, slot: nat)
    requires |win| == |metas| && WindowOk(win, mem, returned) && 1 < |win|
    requires !win[|win| - 1].ringBacked && slot < |mem.ring| && slot !in RingSlots(win)
    ensures var last := |win| - 1;
            && win[last].block.Some?
            && var win', mem' := win[last := InRing(win[last], slot)], SpilledMemory(win, mem, slot);
               var es := Entries(win, metas, mem, returned);
            && WindowOk(win', mem', returned)
            && RingSlots(win') == RingSlots(win) + [slot]
            && DmaFrames(win) == DmaFrames(win') + 1
            && Entries(win', metas, mem', returned) == es[last := es[last].(store := Ram)]
            && es[last].store.Dma?
            && win'[0] == win[0]
  {
    var last := |win| - 1;
    FrameOkAt(win, mem, returned, last);
    assert win[last := InRing(win[last], slot)][..last] == win[..last];
    SpillOk(win, mem, returned, slot);
    SpillEntries(win, metas, mem, returned, slot);
  }

  lemma SpillEntries(win: seq<QueueFrame>, metas: seq<Meta>, mem: Memory, returned: bool, slot: nat)
    requires |win| == |metas| && WindowOk(win, mem, returned) && 1 < |win|
    requires !win[|win| - 1].ringBacked && slot < |mem.ring| && slot !in RingSlots(win)
    ensures var last := |win| - 1;
            && win[last].block.Some?
            && var win', mem' := win[last := InRing(win[last], slot)], SpilledMemory(win, mem, slot);
               var es := Entries(win, metas, mem, returned);
            && Entries(win', metas, mem', returned) == es[last := es[last].(store := Ram)]
            && es[last].store.Dma?
  {
    var last := |win| - 1;
    FrameOkAt(win, mem, returned, last);
    var win', mem' := win[last := InRing(win[last], slot)], SpilledMemory(win, mem, slot);
    var es := Entries(win, metas, mem, returned);
    forall i | 0 <= i < |win|
      ensures Entries(win', metas, mem', returned)[i] == es[last := es[last].(store := Ram)][i]
    {
      EntryAt(win', metas, mem', returned, i);
      EntryAt(win, metas, mem, returned, i);
      if i < last {
        SpillKeeps(win, mem, returned, slot, i);
      }
    }
    EntryAt(win, metas, mem, returned, last);
  }

  lemma SpillOk(win: seq<QueueFrame>, mem: Memory, returned: bool, slot: nat)
    requires WindowOk(win, mem, returned) && 1 < |win|
    requires !win[|win| - 1].ringBacked && slot < |mem.ring| && slot !in RingSlots(win)
    ensures win[|win| - 1].block.Some?
    ensures WindowOk(win[|win| - 1 := InRing(win[|win| - 1], slot)], SpilledMemory(win, mem, slot), returned)
  {
    var last := |win| - 1;
    FrameOkAt(win, mem, returned, last);
    forall i | 0 <= i < last
      ensures FrameOk(win[..last][i], SpilledMemory(win, mem, slot), Live(i, returned))
    {
      SpillKeeps(win, mem, returned, slot, i);
    }
    OkMemory(win[..last], mem, returned, SpilledMemory(win, mem, slot), returned);
    assert win[last := InRing(win[last], slot)][..last] == win[..last];
  }

  lemma SpillKeeps(win: seq<QueueFrame>, mem: Memory, returned: bool, slot: nat, i: nat)
    requires WindowOk(win, mem, returned) && i < |win| - 1
    requires !win[|win| - 1].ringBacked && slot < |mem.ring| && slot !in RingSlots(win)
    ensures win[|win| - 1].block.Some?
    ensures FrameOk(win[i], SpilledMemory(win, mem, slot), Live(i, returned))
    ensures Live(i, returned) || win[i].ringBacked ==>
              Samples(win[i], SpilledMemory(win, mem, slot)) == Samples(win[i], mem)
  {
    hide WindowOk;
    FrameOkAt(win, mem, returned, |win| - 1);
    FrameOkAt(win, mem, returned, i);
    if win[i].ringBacked {
      RingSlotsPrefix(win, i);
    } else if Live(i, returned) {
      BlocksDiffer(win, mem, returned, i, |win| - 1);
    }
  }

  // ---------------------------------------------------------------------------------------
  // Giving blocks back

  /** The leases left when frames `from` to `upto` of the window have given their blocks back. */
  function Unleased(leases: map<nat, Iq>, win: seq<QueueFrame>, from: nat, upto: nat): map<nat, Iq>
    requires upto <= |win|
    decreases upto
  {
    if upto <= from then leases
    else
      var f := win[upto - 1];
      var before := Unleased(leases, win, from, upto - 1);
      if f.ringBacked || f.block.None? then before else before - {f.block.value}
  }

  /** A block no dropped frame holds stays leased, with its samples. */
  lemma {:induction false} UnleasedKeeps(leases: map<nat, Iq>, win: seq<QueueFrame>, from: nat, upto: nat, b: nat)
    requires upto <= |win| && b in leases
    requires forall i :: from <= i < upto && !win[i].ringBacked ==> win[i].block != Some(b)
    ensures b in Unleased(leases, win, from, upto) && Unleased(leases, win, from, upto)[b] == leases[b]
    decreases upto
  {
    if upto > from {
      UnleasedKeeps(leases, win, from, upto - 1, b);
    }
  }

  lemma UnusedStaysLeased(win: seq<QueueFrame>, mem: Memory, returned: bool, from: nat, b: nat)
    requires Unused(b, win, returned) && b in mem.leases && (returned ==> 0 < from) && from <= |win|
    ensures var left := Unleased(mem.leases, win, from, |win|);
            b in left && left[b] == mem.leases[b] && Unused(b, win[..from], returned)
  {
    UnusedPrefix(b, win, returned, from);
    forall i | from <= i < |win| && !win[i].ringBacked ensures win[i].block != Some(b) {
      UnusedAt(b, win, returned, i);
    }
    UnleasedKeeps(mem.leases, win, from, |win|, b);
  }

  /** A head in transport keeps its samples while everything behind it is given back. */
  lemma HeadKeepsSamples(win: seq<QueueFrame>, metas: seq<Meta>, mem: Memory, returned: bool)
    requires WindowOk(win, mem, returned) && win != [] && |win| == |metas|
    ensures var mem' := mem.(leases := Unleased(mem.leases, win, 1, |win|));
            && WindowOk(win[..1], mem', returned)
            && Entries(win[..1], metas[..1], mem', returned) == Entries(win, metas, mem, returned)[..1]
  {
    hide Unleased;
    var mem' := mem.(leases := Unleased(mem.leases, win, 1, |win|));
    FrameOkAt(win, mem, returned, 0);
    if !win[0].ringBacked && Live(0, returned) {
      forall i | 1 <= i < |win| && !win[i].ringBacked ensures win[i].block != win[0].block {
        BlocksDiffer(win, mem, returned, 0, i);
      }
      UnleasedKeeps(mem.leases, win, 1, |win|, win[0].block.value);
    }
    WindowOkPrefix(win, mem, returned, 1);
    EntriesPrefix(win, metas, mem, returned, 1);
    OkMemory(win[..1], mem, returned, mem', returned);
    EntriesSame(win[..1], metas[..1], mem, mem', returned);
  }

  /** The head's block goes back while the head is still in the queue. */
  lemma HeadReturned(win: seq<QueueFrame>, metas: seq<Meta>, mem: Memory)
    requires WindowOk(win, mem, false) && win != [] && !win[0].ringBacked && |win| == |metas|
    ensures win[0].block.Some?
    ensures var mem' := mem.(leases := mem.leases - {win[0].block.value});
            var es := Entries(win, metas, mem, false);
            && WindowOk(win, mem', true)
            && es[0].store.Dma?
            && Entries(win, metas, mem', true) == es[0 := es[0].(iq := [], store := Returned)]
  {
    FrameOkAt(win, mem, false, 0);
    var mem' := mem.(leases := mem.leases - {win[0].block.value});
    forall i | 0 < i < |win|
      ensures FrameOk(win[i], mem', true) && Samples(win[i], mem') == Samples(win[i], mem)
    {
      FrameOkAt(win, mem, false, i);
      if !win[i].ringBacked {
        BlocksDiffer(win, mem, false, 0, i);
      }
    }
    OkMemory(win, mem, false, mem', true);
    var es := Entries(win, metas, mem, false);
    forall i | 0 <= i < |win|
      ensures Entries(win, metas, mem', true)[i] == es[0 := EntryOf(win[0], metas[0], mem', true)][i]
    {
      EntryAt(win, metas, mem', true, i);
      EntryAt(win, metas, mem, false, i);
    }
    EntryAt(win, metas, mem, false, 0);
  }

  lemma ReturnKeepsUnused(win: seq<QueueFrame>, mem: Memory, b: nat)
    requires WindowOk(win, mem, false) && win != [] && !win[0].ringBacked && Unused(b, win, false)
    ensures win[0].block != Some(b) && Unused(b, win, true)
  {
    UnusedAt(b, win, false, 0);
    UnusedWeaken(b, win, false);
  }
}
