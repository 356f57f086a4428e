/**
 Where the DMA blocks are: every block on lease is held by one slot of the queue or by the producer,
 and every slot that names a block holds it. Each update of the queue keeps the balance, so when the
 producer has left, giving back what the slots name gives back everything.
 */
module DirectLeases {
  import opened RingModel
  import opened DirectModel
  import opened DirectWindow
  import opened DirectSnapshot
  import opened Options
  import Circular
  import DirectRuns

  // ---------------------------------------------------------------------------------------
  // The blocks frames hold

  function Own(f: QueueFrame): multiset<nat> {
    if f.block.Some? then multiset{f.block.value} else multiset{}
  }

  /** The blocks that frames hold, each as often as it is held. */
  function Held(win: seq<QueueFrame>, returned: bool): multiset<nat> {
    if win == [] then multiset{}
    else
      var n := |win| - 1;
      Held(win[..n], returned) + (if Live(n, returned) then Own(win[n]) else multiset{})
  }

  lemma HeldPush(win: seq<QueueFrame>, returned: bool, f: QueueFrame)
    requires win == [] ==> !returned
    ensures Held(win + [f], returned) == Held(win, returned) + Own(f)
  {
    assert (win + [f])[..|win|] == win;
  }

  lemma {:induction false} HeldPop(win: seq<QueueFrame>, returned: bool)
    requires win != []
    ensures Held(win, returned) == (if returned then multiset{} else Own(win[0])) + Held(win[1..], false)
  {
    var n := |win| - 1;
    if n > 0 {
      HeldPop(win[..n], returned);
      HeldPopStep(win, returned);
    }
  }

  lemma HeldPopStep(win: seq<QueueFrame>, returned: bool)
    requires 1 < |win|
    requires var front := win[..|win| - 1];
             Held(front, returned) == (if returned then multiset{} else Own(win[0])) + Held(front[1..], false)
    ensures Held(win, returned) == (if returned then multiset{} else Own(win[0])) + Held(win[1..], false)
  {
    hide Held, Own;
    var n := |win| - 1;
    HeldPush(win[..n], returned, win[n]);
    assert win == win[..n] + [win[n]];
    HeldPush(win[..n][1..], false, win[n]);
    assert win[1..] == win[..n][1..] + [win[n]];
    Regroup(if returned then multiset{} else Own(win[0]), Held(win[..n][1..], false), Own(win[n]));
  }

  lemma Regroup(a: multiset<nat>, b: multiset<nat>, c: multiset<nat>)
    ensures a + b + c == a + (b + c)
  {
  }

  lemma AddToBoth(x: multiset<nat>, x': multiset<nat>, o: multiset<nat>, f: multiset<nat>, l: multiset<nat>)
    requires x' + o == x + f
    ensures (x' + l) + o == (x + l) + f
  {
    Regroup(x', l, o);
    Regroup(x, l, f);
    Regroup(x', o, l);
    Regroup(x, f, l);
    assert l + o == o + l && l + f == f + l;
  }

  lemma {:induction false} HeldUpdate(win: seq<QueueFrame>, returned: bool, i: nat, f: QueueFrame)
    requires i < |win| && Live(i, returned)
    ensures Held(win[i := f], returned) + Own(win[i]) == Held(win, returned) + Own(f)
  {
    var n := |win| - 1;
    if i < n {
      HeldUpdate(win[..n], returned, i, f);
      assert win[..n][i] == win[i];
      HeldUpdateStep(win, returned, i, f);
    } else {
      HeldUpdateLast(win, returned, i, f);
    }
  }

  lemma HeldUpdateLast(win: seq<QueueFrame>, returned: bool, i: nat, f: QueueFrame)
    requires i + 1 == |win| && Live(i, returned)
    ensures Held(win[i := f], returned) + Own(win[i]) == Held(win, returned) + Own(f)
  {
    hide Own;
    var front := win[..i];
    assert win[i := f][..i] == front;
    Exchange(Held(front, returned), Own(win[i]), Own(f));
  }

  lemma Exchange(a: multiset<nat>, b: multiset<nat>, c: multiset<nat>)
    ensures a + c + b == a + b + c
  {
  }

  lemma HeldUpdateStep(win: seq<QueueFrame>, returned: bool, i: nat, f: QueueFrame)
    requires i < |win| - 1
    requires var front := win[..|win| - 1];
             Held(front[i := f], returned) + Own(win[i]) == Held(front, returned) + Own(f)
    ensures Held(win[i := f], returned) + Own(win[i]) == Held(win, returned) + Own(f)
  {
    hide Held, Own;
    var front, last := win[..|win| - 1], win[|win| - 1];
    HeldPush(front, returned, last);
    assert win == front + [last];
    HeldPush(front[i := f], returned, last);
    assert win[i := f] == front[i := f] + [last];
    AddToBoth(Held(front, returned), Held(front[i := f], returned), Own(win[i]), Own(f), Own(last));
  }

  lemma OneByOne(a: seq<QueueFrame>, b: seq<QueueFrame>)
    requires b != []
    ensures b == b[..|b| - 1] + [b[|b| - 1]] && a + b == a + b[..|b| - 1] + [b[|b| - 1]]
  {
  }

  lemma {:induction false} HeldConcat(a: seq<QueueFrame>, b: seq<QueueFrame>)
    ensures Held(a + b, false) == Held(a, false) + Held(b, false)
    decreases |b|
  {
    if b == [] {
      assert a + b == a;
    } else {
      var front, last := b[..|b| - 1], b[|b| - 1];
      HeldConcat(a, front);
      HeldPush(a + front, false, last);
      HeldPush(front, false, last);
      OneByOne(a, b);
    }
  }

  lemma {:induction false} NoneHeld(win: seq<QueueFrame>)
    requires forall i :: 0 <= i < |win| ==> win[i].block.None?
    ensures Held(win, false) == multiset{}
  {
    if win != [] {
      NoneHeld(win[..|win| - 1]);
    }
  }

  /** A window that is sound holds blocks on lease only, each once. */
  lemma {:induction false} HeldLeased(win: seq<QueueFrame>, mem: Memory, returned: bool)
    requires WindowOk(win, mem, returned)
    ensures Held(win, returned) <= multiset(mem.leases.Keys)
    ensures forall b {:trigger Held(win, returned)[b]} :: Unused(b, win, returned) ==> Held(win, returned)[b] == 0
  {
    if win != [] {
      HeldLeased(win[..|win| - 1], mem, returned);
    }
  }

  lemma {:induction false} HeldCount(win: seq<QueueFrame>, mem: Memory, returned: bool)
    requires WindowOk(win, mem, returned) && (returned ==> win != [] && !win[0].ringBacked)
    ensures |Held(win, returned)| == DmaFrames(win) - (if returned then 1 else 0)
  {
    if win != [] {
      var n := |win| - 1;
      if n > 0 {
        HeldCount(win[..n], mem, returned);
      }
    }
  }

  /** Some frame of the queue is in block `b`. */
  predicate InQueue(es: seq<Entry>, b: nat) {
    exists i :: 0 <= i < |es| && es[i].store == Dma(b)
  }

  lemma {:induction false} HeldIsQueued(win: seq<QueueFrame>, metas: seq<Meta>, mem: Memory, returned: bool, b: nat)
    requires |win| == |metas| && WindowOk(win, mem, returned)
    ensures Held(win, returned)[b] > 0 <==> InQueue(Entries(win, metas, mem, returned), b)
  {
    if win != [] {
      var n := |win| - 1;
      HeldIsQueued(win[..n], metas[..n], mem, returned, b);
      QueuedLast(Entries(win, metas, mem, returned), b);
    }
  }

  lemma QueuedLast(es: seq<Entry>, b: nat)
    requires es != []
    ensures InQueue(es, b) <==> InQueue(es[..|es| - 1], b) || es[|es| - 1].store == Dma(b)
  {
    var n := |es| - 1;
    if i :| 0 <= i < n && es[..n][i].store == Dma(b) {
      assert es[i].store == Dma(b);
    }
    if i :| 0 <= i < |es| && es[i].store == Dma(b) {
      assert i < n ==> es[..n][i].store == Dma(b);
    }
  }

  // ---------------------------------------------------------------------------------------
  // The balance

  /** The blocks on lease that no frame of the queue holds. */
  function Stray(s: Snap): multiset<nat>
    requires Shaped(s)
  {
    multiset(s.mem.leases.Keys) - Held(Win(s), s.q.returned)
  }

  /** Slots outside the window name no block. */
  ghost predicate Vacant(s: Snap)
    requires Shaped(s)
  {
    forall i {:trigger Circular.Place(s.q.head, i, |s.frames|)} :: s.q.count <= i < |s.frames| ==>
      s.frames[Circular.Place(s.q.head, i, |s.frames|)].block.None?
  }

  /** From `s` to `s'` the balance is kept: of the blocks outside the queue just `out` are gone from
      there, into the queue or back to the kernel, and no other went back. */
  ghost predicate Conserves(s: Snap, s': Snap, out: multiset<nat>)
    requires Shaped(s) && Shaped(s')
  {
    Stray(s') == Stray(s) - out && (Vacant(s) ==> Vacant(s'))
  }

  lemma StrayMeans(s: Snap)
    requires Sound(s)
    ensures Stray(s) + Held(Win(s), s.q.returned) == multiset(s.mem.leases.Keys)
  {
    HeldLeased(Win(s), s.mem, s.q.returned);
  }

  lemma HandIsStray(s: Snap, b: nat)
    requires Sound(s) && InHand(s, b)
    ensures Stray(s)[b] == 1
  {
    HeldLeased(Win(s), s.mem, s.q.returned);
    assert Held(Win(s), s.q.returned)[b] == 0;
  }

  lemma ConservesNothing(s: Snap, s': Snap)
    requires Shaped(s) && Shaped(s') && s'.frames == s.frames && s'.mem.leases == s.mem.leases
    requires s'.q.head == s.q.head && s'.q.count == s.q.count && s'.q.returned == s.q.returned
    ensures Conserves(s, s', multiset{})
  {
  }

  lemma ConservesTwice(s: Snap, t: Snap, u: Snap, out: multiset<nat>)
    requires Shaped(s) && Shaped(t) && Shaped(u) && Conserves(s, t, multiset{}) && Conserves(t, u, out)
    ensures Conserves(s, u, out)
  {
  }

  /** One more block is on lease, outside the queue. */
  ghost predicate Gains(s: Snap, s': Snap, block: nat)
    requires Shaped(s) && Shaped(s')
  {
    Stray(s') == Stray(s) + multiset{block} && (Vacant(s) ==> Vacant(s'))
  }

  lemma GainsAcquired(s: Snap, block: nat, raw: Iq)
    requires Sound(s) && block !in s.mem.leases
    ensures Shaped(Acquired(s, block, raw)) && Gains(s, Acquired(s, block, raw), block)
  {
    HeldLeased(Win(s), s.mem, s.q.returned);
    var s' := Acquired(s, block, raw);
    hide Vacant, Sound, WindowOk, Held, Win;
    VacantSame(s, s');
    assert s'.mem.leases.Keys == s.mem.leases.Keys + {block};
    AddOne(s.mem.leases.Keys, Held(Win(s), s.q.returned), block);
  }

  lemma AddOne(all: set<nat>, held: multiset<nat>, b: nat)
    requires b !in all && held <= multiset(all)
    ensures multiset(all + {b}) - held == multiset(all) - held + multiset{b}
  {
    assert multiset(all + {b}) == multiset(all) + multiset{b};
  }

  function Acquired(s: Snap, block: nat, raw: Iq): Snap {
    s.(mem := s.mem.(leases := s.mem.leases[block := raw]))
  }

  lemma VacantSame(s: Snap, s': Snap)
    requires Shaped(s) && Shaped(s') && s'.frames == s.frames && s'.q.head == s.q.head && s'.q.count == s.q.count
    ensures Vacant(s') == Vacant(s)
  {
  }

  lemma ConservesHandReturned(s: Snap, b: nat)
    requires Sound(s) && InHand(s, b)
    ensures Shaped(HandReturned(s, b)) && Conserves(s, HandReturned(s, b), multiset{b})
  {
    HandIsStray(s, b);
    HeldLeased(Win(s), s.mem, s.q.returned);
    VacantSame(s, HandReturned(s, b));
    hide Vacant, Sound, WindowOk, Held, Win, InHand;
    assert HandReturned(s, b).mem.leases.Keys == s.mem.leases.Keys - {b};
    TakeOut(s.mem.leases.Keys, Held(Win(s), s.q.returned), b);
  }

  lemma TakeOut(all: set<nat>, held: multiset<nat>, b: nat)
    requires b in all
    ensures multiset(all - {b}) - held == multiset(all) - held - multiset{b}
  {
    TakeAway(all, b);
  }

  // ---------------------------------------------------------------------------------------
  // Spilling and dropping

  lemma TakeAway(all: set<nat>, b: nat)
    requires b in all
    ensures multiset(all - {b}) == multiset(all) - multiset{b}
  {
  }

  lemma TakeFromBoth(all: set<nat>, held: multiset<nat>, held': multiset<nat>, b: nat)
    requires held <= multiset(all) && b in all && held == held' + multiset{b}
    ensures multiset(all - {b}) - held' == multiset(all) - held
  {
    TakeAway(all, b);
  }

  lemma ConservesSpilled(s: Snap)
    requires Sound(s) && s.q.cfg.extension && 1 < s.q.count && !Win(s)[s.q.count - 1].ringBacked
    requires s.r.phase == Running && |s.r.queue| < s.r.slotCount
    ensures s.r.next < |s.mem.ring| && Shaped(Spilled(s)) && Conserves(s, Spilled(s), multiset{})
  {
    var last := s.q.count - 1;
    var f, t := Win(s)[last], Spilled(s);
    SpilledWindow(s);
    SlotOf(s, last);
    HeldUpdate(Win(s), s.q.returned, last, InRing(f, s.r.next));
    HeldLeased(Win(s), s.mem, s.q.returned);
    VacantSpilled(s);
    hide Vacant, Sound, WindowOk, Held, Win;
    assert t.mem.leases.Keys == s.mem.leases.Keys - {f.block.value};
    assert Own(f) == multiset{f.block.value} && Own(InRing(f, s.r.next)) == multiset{};
    TakeFromBoth(s.mem.leases.Keys, Held(Win(s), s.q.returned), Held(Win(t), t.q.returned), f.block.value);
  }

  lemma ConservesSpillTried(s: Snap, frameIqBytes: nat)
    requires Sound(s) && DirectRuns.QueueInv(View(s)) && s.q.count < s.q.cfg.capacity
    ensures Shaped(SpillTried(s, frameIqBytes).0) && Conserves(s, SpillTried(s, frameIqBytes).0, multiset{})
  {
    hide View, Spilled, MustSpill, DirectRuns.QueueInv, Vacant, Held, Conserves;
    ShapeOf(s);
    ConservesNothing(s, s);
    if MustSpill(View(s)) {
      NewestSpills(s);
      if SpillTried(s, frameIqBytes).1 == 0 {
        ConservesSpilled(s);
      }
    }
  }

  lemma VacantSpilled(s: Snap)
    requires Shaped(s) && 0 < s.q.count && s.r.next < |s.mem.ring|
    ensures Shaped(Spilled(s)) && (Vacant(s) ==> Vacant(Spilled(s)))
  {
  }

  /** What the dropped frames held has gone back, and nothing else. */
  lemma {:induction false} UnleasedBalance(leases: map<nat, Iq>, win: seq<QueueFrame>, ring: seq<Iq>, returned: bool,
                                           keep: nat, upto: nat)
    requires WindowOk(win, Memory(leases, ring), returned) && keep <= upto <= |win| && (returned ==> 0 < keep)
    ensures multiset(Unleased(leases, win, keep, upto).Keys) + Held(win[..upto], returned) ==
            multiset(leases.Keys) + Held(win[..keep], returned)
    decreases upto
  {
    hide WindowOk, Own;
    if keep < upto {
      var n := upto - 1;
      UnleasedBalance(leases, win, ring, returned, keep, n);
      UnleasedStep(leases, win, ring, returned, keep, n);
      HeldStep(win, returned, n);
      BothMove(multiset(Unleased(leases, win, keep, n).Keys), multiset(Unleased(leases, win, keep, upto).Keys),
               Held(win[..n], returned), Held(win[..upto], returned), Own(win[n]));
    }
  }

  lemma HeldStep(win: seq<QueueFrame>, returned: bool, n: nat)
    requires n < |win| && (returned ==> 0 < n)
    ensures Held(win[..n + 1], returned) == Held(win[..n], returned) + Own(win[n])
  {
    hide Held, Own;
    HeldPush(win[..n], returned, win[n]);
    assert win[..n] + [win[n]] == win[..n + 1];
  }

  lemma BothMove(a: multiset<nat>, a': multiset<nat>, h: multiset<nat>, h': multiset<nat>, o: multiset<nat>)
    requires a' + o == a && h' == h + o
    ensures a' + h' == a + h
  {
  }

  lemma SameDifference(a: multiset<nat>, h: multiset<nat>, a': multiset<nat>, h': multiset<nat>)
    requires a' + h == a + h' && h <= a
    ensures a' - h' == a - h
  {
    forall b ensures (a' - h')[b] == (a - h)[b] {
      assert (a' + h)[b] == (a + h')[b];
    }
  }

  lemma UnleasedStep(leases: map<nat, Iq>, win: seq<QueueFrame>, ring: seq<Iq>, returned: bool, keep: nat, n: nat)
    requires WindowOk(win, Memory(leases, ring), returned) && keep <= n < |win| && (returned ==> 0 < keep)
    ensures multiset(Unleased(leases, win, keep, n + 1).Keys) + Own(win[n]) ==
            multiset(Unleased(leases, win, keep, n).Keys)
  {
    var f, before := win[n], Unleased(leases, win, keep, n);
    FrameOkAt(win, Memory(leases, ring), returned, n);
    if !f.ringBacked && f.block.Some? {
      forall i | keep <= i < n && !win[i].ringBacked ensures win[i].block != f.block {
        BlocksDiffer(win, Memory(leases, ring), returned, i, n);
      }
      UnleasedKeeps(leases, win, keep, n, f.block.value);
      assert (before - {f.block.value}).Keys == before.Keys - {f.block.value};
      TakeAway(before.Keys, f.block.value);
    }
  }

  lemma {:induction false} ErasedPlace(frames: seq<QueueFrame>, head: nat, from: nat, upto: nat, i: nat)
    requires head < |frames| && from <= i < upto <= |frames|
    ensures Erased(frames, head, from, upto)[Circular.Place(head, i, |frames|)] == EmptyFrame
    decreases upto
  {
    if i < upto - 1 {
      ErasedPlace(frames, head, from, upto - 1, i);
    }
  }

  lemma VacantCut(s: Snap)
    requires Sound(s)
    ensures Shaped(Cut(s)) && (Vacant(s) ==> Vacant(Cut(s)))
  {
    CutWindow(s);
    if Vacant(s) {
      forall i {:trigger Circular.Place(s.q.head, i, |s.frames|)} | DirectSnapshot.Kept(s) <= i < |s.frames|
        ensures Cut(s).frames[Circular.Place(s.q.head, i, |s.frames|)].block.None?
      {
        if i < s.q.count {
          ErasedPlace(s.frames, s.q.head, DirectSnapshot.Kept(s), s.q.count, i);
        } else {
          ErasedElsewhere(s.frames, s.q.head, DirectSnapshot.Kept(s), s.q.count, i);
        }
      }
    }
  }

  lemma CutBalance(s: Snap)
    requires Sound(s)
    ensures Shaped(Cut(s)) && Cut(s).q.returned == s.q.returned
    ensures multiset(Cut(s).mem.leases.Keys) + Held(Win(s), s.q.returned) ==
            multiset(s.mem.leases.Keys) + Held(Win(Cut(s)), s.q.returned)
  {
    CutWindow(s);
    var win := Win(s);
    assert win[..|win|] == win;
    UnleasedBalance(s.mem.leases, win, s.mem.ring, s.q.returned, DirectSnapshot.Kept(s), |win|);
    hide Held, Unleased, Erased, WindowOk, Win, Sound;
  }

  lemma ConservesCut(s: Snap)
    requires Sound(s)
    ensures Shaped(Cut(s)) && Conserves(s, Cut(s), multiset{})
  {
    VacantCut(s);
    CutBalance(s);
    HeldLeased(Win(s), s.mem, s.q.returned);
    hide Vacant, Sound, WindowOk, Held, Cut, Win;
    SameDifference(multiset(s.mem.leases.Keys), Held(Win(s), s.q.returned),
                   multiset(Cut(s).mem.leases.Keys), Held(Win(Cut(s)), s.q.returned));
  }

  lemma ConservesStaled(s: Snap)
    requires Sound(s)
    ensures Shaped(Staled(s).0) && Conserves(s, Staled(s).0, multiset{})
  {
    hide Vacant, Held, Sound, DropBlocked;
    PendingFacts(s);
    ConservesCut(s);
    if !s.q.cancelled && !DropBlocked(s) {
      ConservesNothing(Cut(s), Staled(s).0);
      ConservesTwice(s, Cut(s), Staled(s).0, multiset{});
    } else {
      ConservesNothing(s, s);
    }
  }

  // ---------------------------------------------------------------------------------------
  // Queueing a frame

  lemma ConservesSettled(s: Snap)
    requires Sound(s)
    ensures Shaped(Settled(s).0) && Conserves(s, Settled(s).0, multiset{})
  {
    hide Vacant, Held, Sound, DropBlocked, LossyRecord, RebaseOnto, Cut;
    PendingFacts(s);
    CutWindowUnstreaked(s);
    ConservesNothing(s, Unstreaked(s));
    if LossyRecord(s) && !DropBlocked(Unstreaked(s)) {
      ConservesCut(Unstreaked(s));
      ConservesNothing(Cut(Unstreaked(s)), Settled(s).0);
      ConservesTwice(Unstreaked(s), Cut(Unstreaked(s)), Settled(s).0, multiset{});
      ConservesTwice(s, Unstreaked(s), Settled(s).0, multiset{});
    }
  }

  lemma CutWindowUnstreaked(s: Snap)
    requires Sound(s)
    ensures Sound(Unstreaked(s)) && Shaped(Cut(Unstreaked(s)))
    ensures Cut(Unstreaked(s)).metas == s.metas && Cut(Unstreaked(s)).q.tail < |s.metas|
  {
    CountedSound(s, s.q.tally.(streak := 0));
    CutWindow(Unstreaked(s));
  }

  lemma VacantPushed(s: Snap, f: QueueFrame, m: Meta)
    requires Shaped(s) && s.q.count < s.q.cfg.capacity
    ensures Shaped(Pushed(s, f, m)) && (Vacant(s) ==> Vacant(Pushed(s, f, m)))
  {
  }

  lemma ConservesPushed(s: Snap, f: QueueFrame, m: Meta)
    requires Sound(s) && s.q.count < s.q.cfg.capacity
    ensures Shaped(Pushed(s, f, m)) && Conserves(s, Pushed(s, f, m), Own(f))
  {
    PushedWindow(s, f, m);
    HeldPush(Win(s), s.q.returned, f);
    VacantPushed(s, f, m);
  }

  lemma ConservesFiled(d: Snap, ret: int, b: nat, metadataBytes: nat, offset: nat, bytes: nat)
    requires Sound(d) && d.q.count < d.q.cfg.capacity && InHand(d, b)
    ensures var p := Filed(d, ret, b, metadataBytes, offset, bytes);
            Shaped(p) && Conserves(d, p, multiset{b})
  {
    if ret != 0 {
      ConservesHandReturned(d, b);
    } else {
      ConservesPushed(d, NewFrame(d, b, metadataBytes, offset, bytes), d.metas[d.q.tail]);
    }
  }

  lemma ConservesPublished(s: Snap, b: nat, metadataBytes: nat, offset: nat, bytes: nat)
    requires Sound(s) && s.q.count < s.q.cfg.capacity && InHand(s, b)
    ensures Shaped(Settled(s).0) && Settled(s).0.q.count < Settled(s).0.q.cfg.capacity
    ensures var p := Filed(Settled(s).0, Settled(s).1, b, metadataBytes, offset, bytes);
            Shaped(p) && Conserves(s, p, multiset{b})
  {
    SettledSound(s, b);
    ConservesSettled(s);
    hide Conserves, Settled, Sound, Filed;
    ConservesFiled(Settled(s).0, Settled(s).1, b, metadataBytes, offset, bytes);
    ConservesTwice(s, Settled(s).0, Filed(Settled(s).0, Settled(s).1, b, metadataBytes, offset, bytes), multiset{b});
  }

  // ---------------------------------------------------------------------------------------
  // The sender, and the end of the segment

  lemma ConservesOpened(s: Snap, nb: nat, metadataCapacity: nat)
    requires Sound(s)
    ensures Shaped(Opened(s, nb, metadataCapacity).0) && Conserves(s, Opened(s, nb, metadataCapacity).0, multiset{})
  {
    OpeningMovesNothing(s, nb, metadataCapacity);
    hide Opened, Sound, Conserves;
    ShapeOf(s);
    ConservesNothing(s, Opened(s, nb, metadataCapacity).0);
  }

  lemma OpeningMovesNothing(s: Snap, nb: nat, metadataCapacity: nat)
    requires Shaped(s)
    ensures var t := Opened(s, nb, metadataCapacity).0;
            && t.frames == s.frames && t.metas == s.metas && t.mem == s.mem && t.q.cfg == s.q.cfg
            && t.q.head == s.q.head && t.q.tail == s.q.tail && t.q.count == s.q.count && t.q.returned == s.q.returned
  {
    hide FailWith, ReserveForConsumer, IsTerminal, Fits;
  }

  lemma ConservesGone(s: Snap)
    requires Sound(s) && s.q.active && !s.q.returned && !Win(s)[0].ringBacked
    ensures Shaped(Gone(s)) && Conserves(s, Gone(s), multiset{})
  {
    var f := Win(s)[0];
    SlotOf(s, 0);
    HeldPop(Win(s), false);
    HeldPop(Win(s), true);
    HeldLeased(Win(s), s.mem, false);
    VacantSame(s, Gone(s));
    assert Win(Gone(s)) == Win(s);
    hide Vacant, Sound, WindowOk, Held, Win;
    assert Gone(s).mem.leases.Keys == s.mem.leases.Keys - {f.block.value};
    assert Own(f) == multiset{f.block.value};
    TakeFromBoth(s.mem.leases.Keys, Held(Win(s), false), Held(Win(s), true), f.block.value);
  }

  lemma VacantPopped(s: Snap)
    requires Shaped(s) && 0 < s.q.count
    ensures Shaped(Popped(s)) && (Vacant(s) ==> Vacant(Popped(s)))
  {
    var n, next := |s.frames|, Circular.Place(s.q.head, 1, |s.frames|);
    if Vacant(s) {
      forall i {:trigger Circular.Place(next, i, n)} | s.q.count - 1 <= i < n
        ensures Popped(s).frames[Circular.Place(next, i, n)].block.None?
      {
        if i + 1 < n {
          assert Circular.Place(next, i, n) == Circular.Place(s.q.head, i + 1, n);
        }
      }
    }
  }

  lemma ConservesPopped(s: Snap)
    requires Sound(s) && s.q.active && (Win(s)[0].ringBacked || s.q.returned)
    ensures Shaped(Popped(s)) && Conserves(s, Popped(s), multiset{})
  {
    PoppedWindow(s);
    SlotOf(s, 0);
    HeldPop(Win(s), s.q.returned);
    VacantPopped(s);
  }

  lemma ConservesCancelling(s: Snap, why: int)
    requires Sound(s)
    ensures Shaped(Cancelling(s, why)) && Conserves(s, Cancelling(s, why), multiset{})
  {
    ConservesNothing(s, Cancelling(s, why));
  }

  lemma ConservesExited(s: Snap, error: int)
    requires Sound(s)
    ensures Shaped(Exited(s, error)) && Conserves(s, Exited(s, error), multiset{})
  {
    ConservesNothing(s, Exited(s, error));
  }

  lemma EndingMovesNothing(s: Snap, ret: int)
    requires Shaped(s) && 0 < s.q.count && Shaped(Popped(s))
    ensures var p, t := Popped(s), Concluded(Settling(s, ret), ret).0;
            && Shaped(t)
            && t.frames == p.frames && t.metas == p.metas && t.mem == p.mem && t.q.cfg == p.q.cfg
            && t.q.head == p.q.head && t.q.tail == p.q.tail && t.q.count == p.q.count && t.q.returned == p.q.returned
  {
    hide FailWith, FinishExtension, Release, IsTerminal;
  }

  lemma ConservesEnded(s: Snap, ret: int)
    requires Sound(s) && s.q.active && (Win(s)[0].ringBacked || s.q.returned)
    ensures Shaped(Concluded(Settling(s, ret), ret).0)
    ensures Conserves(s, Concluded(Settling(s, ret), ret).0, multiset{})
  {
    ConservesPopped(s);
    PoppedWindow(s);
    EndingMovesNothing(s, ret);
    assert Shaped(s);
    hide Conserves, Sound, Popped, Concluded, Settling, Win, Records, Shaped;
    ConservesNothing(Popped(s), Concluded(Settling(s, ret), ret).0);
    ConservesTwice(s, Popped(s), Concluded(Settling(s, ret), ret).0, multiset{});
  }

  // ---------------------------------------------------------------------------------------
  // All slots, whatever the head

  /** A slot gives back the block it names. */
  lemma GiveBack(frames: seq<QueueFrame>, leases: map<nat, Iq>, stray: multiset<nat>, i: nat)
    requires i < |frames| && frames[i].block.Some? && multiset(leases.Keys) == stray + Held(frames, false)
    ensures frames[i].block.value in leases
    ensures multiset((leases - {frames[i].block.value}).Keys) ==
            stray + Held(frames[i := frames[i].(block := None)], false)
  {
    var b, rest := frames[i].block.value, Held(frames[i := frames[i].(block := None)], false);
    HeldUpdate(frames, false, i, frames[i].(block := None));
    hide Held;
    assert rest + multiset{b} == Held(frames, false);
    assert multiset(leases.Keys)[b] > 0;
    TakeAway(leases.Keys, b);
    assert (leases - {b}).Keys == leases.Keys - {b};
    Regroup(stray, rest, multiset{b});
    TakeLast(stray + rest, b);
  }

  lemma TakeLast(a: multiset<nat>, b: nat)
    ensures a + multiset{b} - multiset{b} == a
  {
  }

  lemma {:induction false} VacantHoldNone(s: Snap, n: nat)
    requires Shaped(s) && Vacant(s) && s.q.count <= n <= |s.frames|
    ensures Held(Circular.Window(s.frames, s.q.head, n), false) == Held(Win(s), false)
    decreases n
  {
    if s.q.count < n {
      VacantHoldNone(s, n - 1);
      var last := Circular.Place(s.q.head, n - 1, |s.frames|);
      HeldPush(Circular.Window(s.frames, s.q.head, n - 1), false, s.frames[last]);
    }
  }

  /** All slots together hold what the window holds. */
  lemma SlotsHold(s: Snap)
    requires Shaped(s) && Vacant(s)
    ensures Held(s.frames, false) == Held(Win(s), false)
  {
    VacantHoldNone(s, |s.frames|);
    Circular.WholeWindow(s.frames, s.q.head);
    HeldTurned(s.frames, s.q.head);
  }

  lemma HeldTurned(frames: seq<QueueFrame>, n: nat)
    requires n <= |frames|
    ensures Held(frames[n..] + frames[..n], false) == Held(frames, false)
  {
    HeldConcat(frames[n..], frames[..n]);
    HeldConcat(frames[..n], frames[n..]);
    BackTogether(frames, n);
  }

  lemma BackTogether(frames: seq<QueueFrame>, n: nat)
    requires n <= |frames|
    ensures frames[..n] + frames[n..] == frames
  {
  }
}
