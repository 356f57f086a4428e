/**
 A whole segment on the queue in memory: the threads of DirectRuns, each step of theirs taken on the
 arrays by the methods of DirectQueue. Whatever the order of the steps, the queue stays valid and
 shows exactly the state of the abstract run; so what DirectRuns and DirectGaps prove of every run
 holds of the arrays, and the checks that could end a producer with -EBUSY or -ESHUTDOWN are
 never taken.
 */
module DirectSegment {
  import opened Errno
  import opened DdrRing
  import opened RingModel
  import opened DirectModel
  import opened Options
  import opened DirectWindow
  import opened DirectSnapshot
  import opened DirectLeases
  import opened CaptureQueue
  import opened DirectRuns

  /** Where the producer thread stands, and what it has in hand. */
  datatype Place =
    | Resting
    | Cleared
    | Holding(block: nat, metadataBytes: nat, offset: nat, bytes: nat)
    | HoldingStale(block: nat)
    | Gone

  /** What happens next: a thread takes a step, with what the kernel, the provider, the client and the
      transport answer. A capture names the block the kernel hands out and its contents. */
  datatype Event =
    | Admit
    | Capture(block: nat, raw: Iq, metadataBytes: nat, offset: nat, bytes: nat, first: nat, samples: nat)
    | CaptureStale(block: nat, raw: Iq, first: nat, samples: nat)
    | CaptureAgain(block: nat, raw: Iq, first: nat, samples: nat)
    | Fail(error: int)
    | Retire
    | Publish
    | Begin(nb: nat, metadataCapacity: nat)
    | Return
    | End(ret: int)
    | Cancel(disconnected: bool)

  /** What a segment's threads know besides the queue. */
  datatype Desk = Desk(place: Place, clock: nat, provider: Option<nat>, broken: bool)

  // ---------------------------------------------------------------------------------------
  // The queue in memory and the abstract run

  /** What the producer has in hand, in memory and in the abstract run. */
  ghost predicate PlaceFits(p: Place, s: Snap, pc: Pc)
    requires DirectSnapshot.Shaped(s)
  {
    match p
    case Resting => pc.Idle?
    case Cleared => pc.Admitted?
    case Holding(b, _, o, n) =>
      InHand(s, b) && 0 < n && o + n <= |s.mem.leases[b]| && s.q.tail < |s.metas| &&
      pc == DirectRuns.Captured(b, s.mem.leases[b][o..o + n], s.metas[s.q.tail])
    case HoldingStale(b) => InHand(s, b) && pc.StaleBlock?
    case Gone => pc.Left?
  }

  ghost predicate Agree(s: Snap, d: Desk, w: World) {
    && DirectSnapshot.Shaped(s) && DirectSnapshot.View(s) == w.q && PlaceFits(d.place, s, w.pc)
    && DirectRuns.Sound(w) && Healthy(w)
    && d.clock == w.clock && d.provider == w.provider && d.broken == w.broken
  }

  /** The block the producer has in hand. */
  function Hand(p: Place): multiset<nat> {
    match p
    case Holding(b, _, _, _) => multiset{b}
    case HoldingStale(b) => multiset{b}
    case _ => multiset{}
  }

  /** Every block on lease is in the queue or in the producer's hand, and slots outside the queue name
      none. */
  ghost predicate Tidy(s: Snap, p: Place)
    requires DirectSnapshot.Shaped(s)
  {
    Stray(s) == Hand(p) && Vacant(s)
  }

  predicate EmptyHanded(p: Place) {
    !p.Holding? && !p.HoldingStale?
  }

  lemma StaysTidy(s: Snap, t: Snap, p: Place)
    requires DirectSnapshot.Shaped(s) && DirectSnapshot.Shaped(t) && Tidy(s, p) && Conserves(s, t, multiset{})
    ensures Tidy(t, p)
  {
  }

  lemma HandsOver(s: Snap, t: Snap, p: Place, p': Place)
    requires DirectSnapshot.Shaped(s) && DirectSnapshot.Shaped(t) && Tidy(s, p) && !EmptyHanded(p) && EmptyHanded(p')
    requires Conserves(s, t, multiset{p.block})
    ensures Tidy(t, p')
  {
  }

  lemma TakesInHand(s: Snap, t: Snap, p: Place, p': Place)
    requires DirectSnapshot.Shaped(s) && DirectSnapshot.Shaped(t) && Tidy(s, p) && EmptyHanded(p) && !EmptyHanded(p')
    requires Gains(s, t, p'.block)
    ensures Tidy(t, p')
  {
  }

  lemma SameHand(s: Snap, p: Place, p': Place)
    requires DirectSnapshot.Shaped(s) && Tidy(s, p)
    requires if EmptyHanded(p) then EmptyHanded(p') else !EmptyHanded(p') && p'.block == p.block
    ensures Tidy(s, p')
  {
  }

  /** What is on lease: a block for each frame in DMA memory, but the one in transport that has gone
      back, and the block in hand. So the kernel keeps its headroom, and one more block for the next
      capture. */
  lemma LeasesCounted(s: Snap, d: Desk, w: World)
    requires DirectSnapshot.Sound(s) && Agree(s, d, w) && Tidy(s, d.place)
    ensures |s.mem.leases| == DmaCount(w.q.entries) - (if s.q.returned then 1 else 0) + |Hand(d.place)|
    ensures |s.mem.leases| + w.q.cfg.headroom <= w.q.cfg.dmaCapacity
    ensures d.place.Cleared? ==> |s.mem.leases| + w.q.cfg.headroom < w.q.cfg.dmaCapacity
  {
    StrayMeans(s);
    HeldCount(Win(s), s.mem, s.q.returned);
    CountsAgree(s);
    hide Win, DirectSnapshot.Sound, WindowOk, Held, Stray;
    assert |s.mem.leases| == |multiset(s.mem.leases.Keys)|;
  }

  lemma LeasedIsHeld(s: Snap, d: Desk, w: World, b: nat)
    requires DirectSnapshot.Sound(s) && Agree(s, d, w) && Tidy(s, d.place)
    ensures b in s.mem.leases <==> b in Hand(d.place) || InQueue(w.q.entries, b)
  {
    StrayMeans(s);
    HeldIsQueued(Win(s), Records(s), s.mem, s.q.returned, b);
    hide Win, DirectSnapshot.Sound, WindowOk, Held, Stray;
    assert b in s.mem.leases <==> multiset(s.mem.leases.Keys)[b] > 0;
  }

  lemma Stays(w: World, m: Move)
    requires DirectRuns.Sound(w) && Healthy(w)
    ensures DirectRuns.Sound(DirectRuns.Next(w, m)) && Healthy(DirectRuns.Next(w, m))
  {
    NextSound(w, m);
    NextHealthy(w, m);
  }

  /** What the methods of the queue ask of the abstract run. */
  lemma AgreeGives(s: Snap, d: Desk, w: World)
    requires Agree(s, d, w)
    ensures QueueInv(View(s)) && (s.q.active ==> 0 < s.q.count) && s.q.count <= s.q.cfg.capacity
    ensures w.q.active ==> w.q.entries != []
    ensures !d.place.Resting? && !d.place.Gone? ==> s.q.count < s.q.cfg.capacity
    ensures d.place.Holding? ==>
              InHand(s, d.place.block) && 0 < d.place.bytes &&
              d.place.offset + d.place.bytes <= |s.mem.leases[d.place.block]|
    ensures d.place.HoldingStale? ==> InHand(s, d.place.block)
  {
  }

  /** A producer in flight never finds the RAM ring stopped, unless the segment was cancelled: the
      backlog can be dropped. */
  lemma DropNeverBlocked(s: Snap, d: Desk, w: World)
    requires DirectSnapshot.Sound(s) && Agree(s, d, w) && !s.q.cancelled
    requires !d.place.Resting? && !d.place.Gone?
    ensures !DropBlocked(s)
  {
    if s.q.cfg.extension {
      assert w.q.ring == Running;
    }
  }

  /** Nor does it when it has to spill. */
  lemma SpillFindsRingRunning(s: Snap, d: Desk, w: World)
    requires Agree(s, d, w) && d.place.Resting? && Wanted(View(s)) && MustSpill(View(s))
    ensures View(s).ring == Running
  {
  }

  lemma HeadStore(s: Snap)
    requires DirectSnapshot.Sound(s) && 0 < s.q.count
    ensures View(s).entries[0].store.Dma? <==> !Win(s)[0].ringBacked && !s.q.returned
    ensures s.frames[s.q.head] == Win(s)[0]
  {
    SlotOf(s, 0);
  }

  lemma {:induction false} RunOneMore(w: World, moves: seq<Move>, m: Move)
    requires DirectRuns.Sound(w)
    ensures DirectRuns.Sound(DirectRuns.Run(w, moves))
    ensures DirectRuns.Run(w, moves + [m]) == DirectRuns.Next(DirectRuns.Run(w, moves), m)
    decreases |moves|
  {
    RunSound(w, moves);
    NextSound(DirectRuns.Run(w, moves), m);
    if moves == [] {
      assert ([] + [m])[1..] == [];
    } else {
      NextSound(w, moves[0]);
      RunOneMore(DirectRuns.Next(w, moves[0]), moves[1..], m);
      assert (moves + [m])[1..] == moves[1..] + [m];
    }
  }

  // ---------------------------------------------------------------------------------------
  // The producer

  /** Waiting for a free slot, or not at the top of the loop: nothing happens. */
  predicate Waits(s: Snap, d: Desk) {
    !d.place.Resting? || (!s.q.cancelled && s.q.count == s.q.cfg.capacity)
  }

  predicate Finished(s: Snap) {
    s.q.cancelled || s.q.tally.consumed >= s.q.cfg.target || s.q.count >= s.q.cfg.target - s.q.tally.consumed
  }

  lemma AdmitIdles(s: Snap, d: Desk, w: World)
    requires Agree(s, d, w)
    ensures Waits(s, d) ==> Agree(s, d, DirectRuns.Next(w, DirectRuns.Admit(true)))
    ensures Waits(s, d) ==> DirectRuns.Next(w, DirectRuns.Admit(true)) == w
    ensures !Waits(s, d) && Finished(s) ==> Agree(s, d.(place := Gone), DirectRuns.Next(w, DirectRuns.Admit(true)))
    ensures !Waits(s, d) && !Finished(s) ==> d.place.Resting? && Wanted(View(s)) && s.q.count < s.q.cfg.capacity
  {
    Stays(w, DirectRuns.Admit(true));
  }

  lemma AdmitAgrees(s: Snap, t: Snap, d: Desk, w: World)
    requires Agree(s, d, w) && !Waits(s, d) && !Finished(s) && DirectSnapshot.Shaped(t) && View(t) == Spill(View(s))
    ensures Agree(t, d.(place := Cleared), DirectRuns.Next(w, DirectRuns.Admit(true)))
  {
    Stays(w, DirectRuns.Admit(true));
    SpillSound(w.q);
  }

  lemma AdmitFails(s: Snap, t: Snap, d: Desk, w: World)
    requires Agree(s, d, w) && !Waits(s, d) && !Finished(s) && MustSpill(View(s))
    requires DirectSnapshot.Shaped(t) && View(t) == ProducerLeaves(View(s), -EIO)
    ensures Agree(t, d.(place := Gone), DirectRuns.Next(w, DirectRuns.Admit(false)))
  {
    Stays(w, DirectRuns.Admit(false));
    SpillSound(w.q);
  }

  /** The block in hand, described at the tail. */
  lemma DescribedInHand(s: Snap, m: Meta, block: nat)
    requires DirectSnapshot.Sound(s) && s.q.count < s.q.cfg.capacity && InHand(s, block)
    ensures DirectSnapshot.Shaped(Described(s, m)) && InHand(Described(s, m), block)
    ensures s.q.tail < |s.metas| && Described(s, m).metas[s.q.tail] == m
  {
    DescribedSound(s, m);
  }

  function Record(d: Desk, first: nat, samples: nat): Meta {
    Meta(first, first + samples,
         if d.provider.Some? && d.provider.value <= first then first - d.provider.value else 0)
  }

  /** The hardware has gone on, and the producer is ready for what it took. */
  predicate Arrives(d: Desk, first: nat, samples: nat) {
    d.place.Cleared? && d.clock <= first && 0 < samples
  }

  lemma CaptureAgrees(s: Snap, t: Snap, d: Desk, w: World, p: Place, first: nat, samples: nat)
    requires Agree(s, d, w) && Arrives(d, first, samples) && p.Holding? && 0 < p.bytes
    requires DirectSnapshot.Shaped(t) && View(t) == View(s) && InHand(t, p.block)
    requires p.offset + p.bytes <= |t.mem.leases[p.block]|
    requires t.q.tail < |t.metas| && t.metas[t.q.tail] == Record(d, first, samples)
    ensures var m := CaptureFrame(p.block, t.mem.leases[p.block][p.offset..p.offset + p.bytes], first, samples);
            Agree(t, Desk(p, first + samples, Some(first + samples), d.broken), DirectRuns.Next(w, m))
  {
    hide DirectRuns.Sound, Healthy, DirectSnapshot.View;
    Stays(w, CaptureFrame(p.block, t.mem.leases[p.block][p.offset..p.offset + p.bytes], first, samples));
  }

  lemma StaleAgrees(s: Snap, t: Snap, d: Desk, w: World, block: nat, first: nat, samples: nat)
    requires Agree(s, d, w) && Arrives(d, first, samples) && DirectSnapshot.Shaped(t)
    requires if s.q.cfg.dropBacklog then View(t) == View(s) && InHand(t, block)
             else View(t) == ProducerLeaves(View(s), -ESTALE)
    ensures Agree(t, d.(place := if s.q.cfg.dropBacklog then HoldingStale(block) else Gone, clock := first + samples),
                  DirectRuns.Next(w, DirectRuns.CaptureStale(first, samples)))
  {
    hide DirectRuns.Sound, Healthy;
    Stays(w, DirectRuns.CaptureStale(first, samples));
  }

  lemma AgainAgrees(s: Snap, t: Snap, d: Desk, w: World, first: nat, samples: nat)
    requires Agree(s, d, w) && Arrives(d, first, samples) && DirectSnapshot.Shaped(t) && View(t) == View(s)
    ensures Agree(t, d.(place := Resting, clock := first + samples),
                  DirectRuns.Next(w, DirectRuns.CaptureAgain(first, samples)))
  {
    hide DirectRuns.Sound, Healthy, DirectSnapshot.View;
    Stays(w, DirectRuns.CaptureAgain(first, samples));
  }

  lemma FailAgrees(s: Snap, t: Snap, d: Desk, w: World, error: int)
    requires Agree(s, d, w) && !d.place.Resting? && !d.place.Gone? && error < 0
    requires DirectSnapshot.Shaped(t) && View(t) == ProducerLeaves(View(s), error)
    ensures Agree(t, d.(place := Gone), DirectRuns.Next(w, ProducerFails(error)))
  {
    hide DirectRuns.Sound, Healthy, DirectSnapshot.View;
    Stays(w, ProducerFails(error));
  }

  /** How both late sections of the producer end, after `outcome`: back to the top, or out. */
  predicate Ends(s: Snap, t: Snap, outcome: (State, int))
    requires DirectSnapshot.Shaped(t)
  {
    View(t) == if outcome.1 == 0 then outcome.0 else ProducerLeaves(outcome.0, outcome.1)
  }

  function After(ret: int): Place {
    if ret == 0 then Resting else Gone
  }

  lemma RetireAgrees(s: Snap, t: Snap, d: Desk, w: World)
    requires Agree(s, d, w) && d.place.HoldingStale? && DirectSnapshot.Shaped(t) && (s.q.active ==> 0 < s.q.count)
    requires if s.q.cancelled then View(t) == View(s) else Ends(s, t, DirectModel.Retire(View(s)))
    ensures Agree(t, d.(place := if s.q.cancelled then Resting else After(DirectModel.Retire(View(s)).1)),
                  DirectRuns.Next(w, DirectRuns.RetireStale))
  {
    hide DirectRuns.Sound, Healthy;
    Stays(w, DirectRuns.RetireStale);
  }

  function Frame(s: Snap, p: Place): Iq
    requires p.Holding? && p.block in s.mem.leases && p.offset + p.bytes <= |s.mem.leases[p.block]|
  {
    s.mem.leases[p.block][p.offset..p.offset + p.bytes]
  }

  lemma PublishAgrees(s: Snap, t: Snap, d: Desk, w: World)
    requires Agree(s, d, w) && d.place.Holding? && DirectSnapshot.Shaped(t) && (s.q.active ==> 0 < s.q.count)
    requires d.place.block in s.mem.leases && d.place.offset + d.place.bytes <= |s.mem.leases[d.place.block]|
    requires s.q.tail < |s.metas|
    requires if s.q.cancelled then View(t) == View(s)
             else Ends(s, t, DirectModel.Publish(View(s), d.place.block, Frame(s, d.place), s.metas[s.q.tail]))
    ensures Agree(t, d.(place := if s.q.cancelled then Gone
                                 else After(DirectModel.Publish(View(s), d.place.block, Frame(s, d.place),
                                                                s.metas[s.q.tail]).1)),
                  DirectRuns.Next(w, DirectRuns.PublishFrame))
  {
    hide DirectRuns.Sound, Healthy;
    Stays(w, DirectRuns.PublishFrame);
  }

  // ---------------------------------------------------------------------------------------
  // The sender, and the client that goes away

  predicate FromOutside(m: Move) {
    m.Begin? || m.Return? || m.End? || m.CancelSegment?
  }

  /** The sender's steps leave the producer where it is, with what it has in hand. */
  lemma SenderAgrees(s: Snap, t: Snap, d: Desk, w: World, m: Move)
    requires Agree(s, d, w) && FromOutside(m) && (w.q.active ==> w.q.entries != [])
    requires DirectSnapshot.Shaped(t) && HandKept(s, t) && View(t) == DirectRuns.Next(w, m).q
    ensures Agree(t, d.(broken := DirectRuns.Next(w, m).broken), DirectRuns.Next(w, m))
  {
    hide DirectRuns.Sound, Healthy, DirectSnapshot.View;
    Stays(w, m);
  }

  lemma BeginIs(s: Snap, d: Desk, w: World, fits: bool)
    requires Agree(s, d, w) && (w.q.active ==> w.q.entries != [])
    ensures DirectRuns.Next(w, DirectRuns.Begin(fits)) ==
            if !d.broken && !s.q.active && 0 < s.q.count then w.(q := StartSend(View(s), fits).0) else w
    ensures w.broken == d.broken
  {
  }

  lemma ReturnIs(s: Snap, d: Desk, w: World)
    requires DirectSnapshot.Sound(s) && Agree(s, d, w) && (w.q.active ==> w.q.entries != [])
    ensures DirectRuns.Next(w, DirectRuns.Return) ==
            if s.q.active && !s.q.returned && !s.frames[s.q.head].ringBacked then
              w.(q := DirectModel.ReturnHead(View(s)))
            else w
    ensures w.broken == d.broken
  {
    if s.q.active {
      HeadStore(s);
    }
  }

  lemma EndIs(s: Snap, d: Desk, w: World, ret: int)
    requires DirectSnapshot.Sound(s) && Agree(s, d, w) && (w.q.active ==> w.q.entries != [])
    ensures var n := DirectRuns.Next(w, DirectRuns.End(ret));
            if s.q.active && (s.frames[s.q.head].ringBacked || s.q.returned) then
              n.q == DirectModel.EndSend(View(s), ret).0 &&
              n.broken == (d.broken || DirectModel.EndSend(View(s), ret).1 < 0)
            else n == w
  {
    if s.q.active {
      HeadStore(s);
    }
  }

  lemma CancelIs(s: Snap, d: Desk, w: World)
    requires Agree(s, d, w) && (w.q.active ==> w.q.entries != [])
    ensures DirectRuns.Next(w, DirectRuns.CancelSegment).q == CancelAll(View(s))
    ensures DirectRuns.Next(w, DirectRuns.CancelSegment).broken == d.broken
  {
  }

  lemma SoundOf(s: Snap, d: Desk, w: World)
    requires Agree(s, d, w)
    ensures DirectRuns.Sound(w)
  {
  }

  /** The abstract move an event stands for. */
  predicate Stands(e: Event, m: Move) {
    match e
    case Admit => m.Admit?
    case Capture(block, raw, _, offset, bytes, first, samples) =>
      offset + bytes <= |raw| && m == CaptureFrame(block, raw[offset..offset + bytes], first, samples)
    case CaptureStale(_, _, first, samples) => m == DirectRuns.CaptureStale(first, samples)
    case CaptureAgain(_, _, first, samples) => m == DirectRuns.CaptureAgain(first, samples)
    case Fail(error) => m == ProducerFails(error)
    case Retire => m == DirectRuns.RetireStale
    case Publish => m == DirectRuns.PublishFrame
    case Begin(_, _) => m.Begin?
    case Return => m == DirectRuns.Return
    case End(ret) => m == DirectRuns.End(ret)
    case Cancel(_) => m == DirectRuns.CancelSegment
  }

  /** Whether an event can happen in a state of the abstract run: the thread is where it must be, the
      kernel hands out a block that is not queued, and the provider's answer lies inside it. */
  ghost predicate CanHappen(w: World, e: Event) {
    match e
    case Capture(block, raw, _, offset, bytes, first, samples) =>
      CanArrive(w, block, first, samples) && 0 < bytes && offset + bytes <= |raw|
    case CaptureStale(block, _, first, samples) => CanArrive(w, block, first, samples)
    case CaptureAgain(block, _, first, samples) => CanArrive(w, block, first, samples)
    case Fail(error) => DirectRuns.InFlight(w.pc) && error < 0
    case Retire => w.pc.StaleBlock?
    case Publish => w.pc.Captured?
    case _ => true
  }

  ghost predicate CanArrive(w: World, block: nat, first: nat, samples: nat) {
    w.pc.Admitted? && w.clock <= first && 0 < samples && !InQueue(w.q.entries, block)
  }

  /** The moves that events stand for, one after another: each event that can happen when its turn
      comes takes its move, and every other is passed over. */
  ghost predicate Plays(w: World, events: seq<Event>, moves: seq<Move>)
    requires DirectRuns.Sound(w)
    decreases |events|
  {
    if events == [] then moves == []
    else if !CanHappen(w, events[0]) then Plays(w, events[1..], moves)
    else
      && moves != [] && Stands(events[0], moves[0])
      && (NextSound(w, moves[0]); Plays(DirectRuns.Next(w, moves[0]), events[1..], moves[1..]))
  }

  lemma {:induction false} PlaysMore(w: World, events: seq<Event>, moves: seq<Move>, e: Event, m: Move)
    requires DirectRuns.Sound(w) && Plays(w, events, moves)
    requires CanHappen(DirectRuns.Run(w, moves), e) && Stands(e, m)
    ensures Plays(w, events + [e], moves + [m])
    decreases |events|
  {
    if events == [] {
      NextSound(w, m);
      assert ([e] + [])[1..] == [] && ([m] + [])[1..] == [] && [] + [e] == [e] && [] + [m] == [m];
    } else {
      assert (events + [e])[1..] == events[1..] + [e];
      if CanHappen(w, events[0]) {
        NextSound(w, moves[0]);
        PlaysMore(DirectRuns.Next(w, moves[0]), events[1..], moves[1..], e, m);
        assert (moves + [m])[1..] == moves[1..] + [m];
      } else {
        PlaysMore(w, events[1..], moves, e, m);
      }
    }
  }

  lemma {:induction false} PlaysNoMore(w: World, events: seq<Event>, moves: seq<Move>, e: Event)
    requires DirectRuns.Sound(w) && Plays(w, events, moves) && !CanHappen(DirectRuns.Run(w, moves), e)
    ensures Plays(w, events + [e], moves)
    decreases |events|
  {
    if events == [] {
      assert [] + [e] == [e] && [e][1..] == [];
    } else {
      assert (events + [e])[1..] == events[1..] + [e];
      if CanHappen(w, events[0]) {
        NextSound(w, moves[0]);
        PlaysNoMore(DirectRuns.Next(w, moves[0]), events[1..], moves[1..], e);
      } else {
        PlaysNoMore(w, events[1..], moves, e);
      }
    }
  }

  lemma OneMoreMove(w: World, events: seq<Event>, i: nat, moves: seq<Move>, m: Move)
    requires DirectRuns.Sound(w) && i < |events| && Plays(w, events[..i], moves)
    requires CanHappen(DirectRuns.Run(w, moves), events[i]) && Stands(events[i], m)
    ensures DirectRuns.Sound(DirectRuns.Run(w, moves))
    ensures DirectRuns.Run(w, moves + [m]) == DirectRuns.Next(DirectRuns.Run(w, moves), m)
    ensures Plays(w, events[..i + 1], moves + [m])
  {
    hide DirectRuns.Sound, DirectRuns.Next, CanHappen, Stands;
    RunOneMore(w, moves, m);
    PlaysMore(w, events[..i], moves, events[i], m);
    assert events[..i] + [events[i]] == events[..i + 1];
  }

  lemma NoMoreMove(w: World, events: seq<Event>, i: nat, moves: seq<Move>)
    requires DirectRuns.Sound(w) && i < |events| && Plays(w, events[..i], moves)
    requires !CanHappen(DirectRuns.Run(w, moves), events[i])
    ensures Plays(w, events[..i + 1], moves)
  {
    hide DirectRuns.Sound, DirectRuns.Next, CanHappen, Stands;
    PlaysNoMore(w, events[..i], moves, events[i]);
    assert events[..i] + [events[i]] == events[..i + 1];
  }

  /** The same, told from the queue in memory. */
  predicate PossibleAt(d: Desk, leases: map<nat, Iq>, e: Event) {
    match e
    case Capture(block, raw, _, offset, bytes, first, samples) =>
      Arrives(d, first, samples) && block !in leases && 0 < bytes && offset + bytes <= |raw|
    case CaptureStale(block, _, first, samples) => Arrives(d, first, samples) && block !in leases
    case CaptureAgain(block, _, first, samples) => Arrives(d, first, samples) && block !in leases
    case Fail(error) => !d.place.Resting? && !d.place.Gone? && error < 0
    case Retire => d.place.HoldingStale?
    case Publish => d.place.Holding?
    case _ => true
  }

  lemma PossibleCanHappen(s: Snap, d: Desk, w: World, e: Event)
    requires DirectSnapshot.Sound(s) && Agree(s, d, w) && Tidy(s, d.place)
    ensures PossibleAt(d, s.mem.leases, e) <==> CanHappen(w, e)
  {
    hide Tidy, InQueue, Healthy, DirectRuns.Sound, Win;
    match e {
      case Capture(block, _, _, _, _, _, _) => LeasedIsHeld(s, d, w, block);
      case CaptureStale(block, _, _, _) => LeasedIsHeld(s, d, w, block);
      case CaptureAgain(block, _, _, _) => LeasedIsHeld(s, d, w, block);
      case _ =>
    }
  }

  // ---------------------------------------------------------------------------------------
  // The segment

  class Segment {
    const dq: DirectQueue
    var desk: Desk
    /** The abstract run. */
    ghost var w: World

    ghost predicate Linked()
      reads this, dq, dq.frames, dq.metadata, dq.ringIq, dq.ring, dq.ring.slots
    {
      dq.Valid() && Agree(dq.Snapshot(), desk, w) && Tidy(dq.Snapshot(), desk.place)
    }

    constructor (dq: DirectQueue, clock: nat, provider: Option<nat>)
      requires dq.Valid() && QueueInv(dq.View()) && dq.View() == DirectModel.Fresh(dq.View().cfg)
      requires Stray(dq.Snapshot()) == multiset{} && Vacant(dq.Snapshot())
      ensures Linked() && this.dq == dq && w == DirectRuns.Start(dq.View().cfg, clock, provider)
    {
      this.dq, desk := dq, Desk(Resting, clock, provider, false);
      w := DirectRuns.Start(dq.View().cfg, clock, provider);
      StartSound(dq.View().cfg, clock, provider);
    }

    /** The producer's first section, and its way out when the newest frame cannot be spilled. */
    method Admit() returns (ghost took: Move)
      requires Linked()
      modifies this, dq, dq.frames, dq.ringIq, dq.ring, dq.ring.slots
      ensures Linked() && took.Admit? && w == DirectRuns.Next(old(w), took)
    {
      hide Agree, QueueInv, DirectSnapshot.Sound, DirectSnapshot.View, MustSpill, Spill, ProducerLeaves, Wanted,
        DirectRuns.Next, Win, Tidy, Conserves, Gains, HandKept, InHand, PlaceFits, DirectSnapshot.Shaped,
        RingCore.Valid, RingCore.View;
      ghost var s := dq.Snapshot();
      took := DirectRuns.Admit(true);
      ShapeOf(s);
      AgreeGives(s, desk, w);
      AdmitIdles(s, desk, w);
      if !desk.place.Resting? || (!dq.q.cancelled && dq.q.count == dq.q.cfg.capacity) {
        return;
      }
      if dq.q.cancelled || dq.q.tally.consumed >= dq.q.cfg.target ||
         dq.q.count >= dq.q.cfg.target - dq.q.tally.consumed {
        SameHand(s, desk.place, Gone);
        desk := desk.(place := Gone);
        w := DirectRuns.Next(w, took);
        return;
      }
      if MustSpill(View(s)) {
        SpillFindsRingRunning(s, desk, w);
      }
      var ret := dq.SpillNewestDma();
      ghost var mid := dq.Snapshot();
      ShapeOf(mid);
      StaysTidy(s, mid, desk.place);
      SameHand(mid, desk.place, Cleared);
      if ret != 0 {
        took := DirectRuns.Admit(false);
        dq.ProducerExit(ret);
        ShapeOf(dq.Snapshot());
        StaysTidy(mid, dq.Snapshot(), Cleared);
        SameHand(dq.Snapshot(), Cleared, Gone);
        AdmitFails(s, dq.Snapshot(), desk, w);
        desk := desk.(place := Gone);
      } else {
        ShapeOf(dq.Snapshot());
        AdmitAgrees(s, dq.Snapshot(), desk, w);
        desk := desk.(place := Cleared);
      }
      w := DirectRuns.Next(w, took);
    }

    /** A block is acquired, and the provider describes it. */
    method Capture(block: nat, raw: Iq, metadataBytes: nat, offset: nat, bytes: nat, first: nat, samples: nat)
        returns (ghost took: Move)
      requires Linked() && block !in dq.leases && Arrives(desk, first, samples)
      requires 0 < bytes && offset + bytes <= |raw|
      modifies this, dq`leases, dq.metadata
      ensures Linked() && took == CaptureFrame(block, raw[offset..offset + bytes], first, samples)
      ensures w == DirectRuns.Next(old(w), took)
    {
      hide Agree, QueueInv, DirectSnapshot.Sound, DirectSnapshot.View, MustSpill, Spill, ProducerLeaves, Wanted,
        DirectRuns.Next, Win, Tidy, Conserves, Gains, HandKept, InHand, PlaceFits, DirectSnapshot.Shaped,
        RingCore.Valid, RingCore.View;
      ghost var s := dq.Snapshot();
      took := CaptureFrame(block, raw[offset..offset + bytes], first, samples);
      ShapeOf(s);
      AgreeGives(s, desk, w);
      dq.AcquireBlock(block, raw);
      ghost var mid := dq.Snapshot();
      DescribedInHand(mid, Record(desk, first, samples), block);
      TakesInHand(s, mid, desk.place, Holding(block, metadataBytes, offset, bytes));
      dq.DescribeFrame(Record(desk, first, samples));
      var p := Holding(block, metadataBytes, offset, bytes);
      ShapeOf(dq.Snapshot());
      StaysTidy(mid, dq.Snapshot(), p);
      CaptureAgrees(s, dq.Snapshot(), desk, w, p, first, samples);
      desk := Desk(p, first + samples, Some(first + samples), desk.broken);
      w := DirectRuns.Next(w, took);
    }

    /** A block whose metadata is stale: kept for `Retire`, or the end of the producer. */
    method CaptureStale(block: nat, raw: Iq, first: nat, samples: nat) returns (ghost took: Move)
      requires Linked() && block !in dq.leases && Arrives(desk, first, samples)
      modifies this, dq, dq.ring, dq.ring.slots
      ensures Linked() && took == DirectRuns.CaptureStale(first, samples) && w == DirectRuns.Next(old(w), took)
    {
      hide Agree, QueueInv, DirectSnapshot.Sound, DirectSnapshot.View, MustSpill, Spill, ProducerLeaves, Wanted,
        DirectRuns.Next, Win, Tidy, Conserves, Gains, HandKept, InHand, PlaceFits, DirectSnapshot.Shaped,
        RingCore.Valid, RingCore.View;
      ghost var s := dq.Snapshot();
      took := DirectRuns.CaptureStale(first, samples);
      var keeps := dq.q.cfg.dropBacklog;
      ShapeOf(s);
      AgreeGives(s, desk, w);
      dq.AcquireBlock(block, raw);
      ghost var mid := dq.Snapshot();
      ShapeOf(mid);
      TakesInHand(s, mid, desk.place, HoldingStale(block));
      if !keeps {
        dq.ReleaseInHand(block);
        ghost var late := dq.Snapshot();
        ShapeOf(late);
        HandsOver(mid, late, HoldingStale(block), Gone);
        dq.ProducerExit(-ESTALE);
        ShapeOf(dq.Snapshot());
        StaysTidy(late, dq.Snapshot(), Gone);
      }
      ShapeOf(dq.Snapshot());
      StaleAgrees(s, dq.Snapshot(), desk, w, block, first, samples);
      desk := desk.(place := if keeps then HoldingStale(block) else Gone, clock := first + samples);
      w := DirectRuns.Next(w, took);
    }

    /** A block the provider cannot describe yet: it goes back at once. */
    method CaptureAgain(block: nat, raw: Iq, first: nat, samples: nat) returns (ghost took: Move)
      requires Linked() && block !in dq.leases && Arrives(desk, first, samples)
      modifies this, dq`leases
      ensures Linked() && took == DirectRuns.CaptureAgain(first, samples) && w == DirectRuns.Next(old(w), took)
    {
      hide Agree, QueueInv, DirectSnapshot.Sound, DirectSnapshot.View, MustSpill, Spill, ProducerLeaves, Wanted,
        DirectRuns.Next, Win, Tidy, Conserves, Gains, HandKept, InHand, PlaceFits, DirectSnapshot.Shaped,
        RingCore.Valid, RingCore.View;
      ghost var s := dq.Snapshot();
      took := DirectRuns.CaptureAgain(first, samples);
      ShapeOf(s);
      AgreeGives(s, desk, w);
      dq.AcquireBlock(block, raw);
      ghost var mid := dq.Snapshot();
      ShapeOf(mid);
      TakesInHand(s, mid, desk.place, HoldingStale(block));
      dq.ReleaseInHand(block);
      ShapeOf(dq.Snapshot());
      HandsOver(mid, dq.Snapshot(), HoldingStale(block), Resting);
      AgainAgrees(s, dq.Snapshot(), desk, w, first, samples);
      desk := desk.(place := Resting, clock := first + samples);
      w := DirectRuns.Next(w, took);
    }

    /** Any error between the sections: the block in hand, if any, goes back. */
    method Fail(error: int) returns (ghost took: Move)
      requires Linked() && !desk.place.Resting? && !desk.place.Gone? && error < 0
      modifies this, dq, dq.ring, dq.ring.slots
      ensures Linked() && took == ProducerFails(error) && w == DirectRuns.Next(old(w), took)
    {
      hide Agree, QueueInv, DirectSnapshot.Sound, DirectSnapshot.View, MustSpill, Spill, ProducerLeaves, Wanted,
        DirectRuns.Next, Win, Tidy, Conserves, Gains, HandKept, InHand, PlaceFits, DirectSnapshot.Shaped,
        RingCore.Valid, RingCore.View;
      ghost var s := dq.Snapshot();
      took := ProducerFails(error);
      ShapeOf(s);
      AgreeGives(s, desk, w);
      if !desk.place.Cleared? {
        dq.ReleaseInHand(desk.place.block);
        ShapeOf(dq.Snapshot());
        HandsOver(s, dq.Snapshot(), desk.place, Gone);
      } else {
        SameHand(s, desk.place, Gone);
      }
      ghost var mid := dq.Snapshot();
      dq.ProducerExit(error);
      ShapeOf(dq.Snapshot());
      StaysTidy(mid, dq.Snapshot(), Gone);
      FailAgrees(s, dq.Snapshot(), desk, w, error);
      desk := desk.(place := Gone);
      w := DirectRuns.Next(w, took);
    }

    /** The stale block goes back, and the backlog with it: never -EBUSY. */
    method Retire() returns (ghost took: Move)
      requires Linked() && desk.place.HoldingStale?
      modifies this, dq, dq.frames, dq.ring, dq.ring.slots
      ensures Linked() && took == DirectRuns.RetireStale && w == DirectRuns.Next(old(w), took)
    {
      hide Agree, QueueInv, DirectSnapshot.Sound, DirectSnapshot.View, MustSpill, Spill, ProducerLeaves, Wanted,
        DirectRuns.Next, Win, Tidy, Conserves, Gains, HandKept, InHand, PlaceFits, DirectSnapshot.Shaped,
        RingCore.Valid, RingCore.View;
      ghost var s := dq.Snapshot();
      took := DirectRuns.RetireStale;
      ShapeOf(s);
      AgreeGives(s, desk, w);
      var cancelled := dq.q.cancelled;
      if !cancelled {
        DropNeverBlocked(s, desk, w);
      }
      var ret := dq.RetireStale(desk.place.block);
      ghost var mid := dq.Snapshot();
      ShapeOf(mid);
      HandsOver(s, mid, desk.place, Resting);
      if ret != 0 {
        dq.ProducerExit(ret);
        ShapeOf(dq.Snapshot());
        StaysTidy(mid, dq.Snapshot(), Resting);
        SameHand(dq.Snapshot(), Resting, Gone);
      }
      ShapeOf(dq.Snapshot());
      RetireAgrees(s, dq.Snapshot(), desk, w);
      desk := desk.(place := if cancelled then Resting else After(ret));
      w := DirectRuns.Next(w, took);
    }

    /** The producer's last section: never -EBUSY. */
    method Publish() returns (ghost took: Move)
      requires Linked() && desk.place.Holding?
      modifies this, dq, dq.frames, dq.metadata, dq.ring, dq.ring.slots
      ensures Linked() && took == DirectRuns.PublishFrame && w == DirectRuns.Next(old(w), took)
    {
      hide Agree, QueueInv, DirectSnapshot.Sound, DirectSnapshot.View, MustSpill, Spill, ProducerLeaves, Wanted,
        DirectRuns.Next, Win, Tidy, Conserves, Gains, HandKept, InHand, PlaceFits, DirectSnapshot.Shaped,
        RingCore.Valid, RingCore.View;
      ghost var s := dq.Snapshot();
      took := DirectRuns.PublishFrame;
      ShapeOf(s);
      AgreeGives(s, desk, w);
      var cancelled, p := dq.q.cancelled, desk.place;
      if !cancelled {
        DropNeverBlocked(s, desk, w);
      }
      var ret := dq.PublishFrame(p.block, p.metadataBytes, p.offset, p.bytes);
      ghost var mid := dq.Snapshot();
      ShapeOf(mid);
      HandsOver(s, mid, p, Gone);
      SameHand(mid, Gone, Resting);
      if !cancelled && ret != 0 {
        dq.ProducerExit(ret);
        ShapeOf(dq.Snapshot());
        StaysTidy(mid, dq.Snapshot(), Gone);
      }
      ShapeOf(dq.Snapshot());
      PublishAgrees(s, dq.Snapshot(), desk, w);
      desk := desk.(place := if cancelled then Gone else After(ret));
      w := DirectRuns.Next(w, took);
    }

    /** The sender takes the head, if the client's sizes fit. */
    method Begin(nb: nat, metadataCapacity: nat) returns (ghost took: Move)
      requires Linked()
      modifies this, dq`q, dq.ring, dq.ring.slots
      ensures Linked() && took.Begin? && w == DirectRuns.Next(old(w), took)
    {
      hide Agree, QueueInv, DirectSnapshot.Sound, DirectSnapshot.View, MustSpill, Spill, ProducerLeaves, Wanted,
        DirectRuns.Next, Win, Tidy, Conserves, Gains, HandKept, InHand, PlaceFits, DirectSnapshot.Shaped,
        RingCore.Valid, RingCore.View;
      ghost var s := dq.Snapshot();
      ShapeOf(s);
      AgreeGives(s, desk, w);
      took := DirectRuns.Begin(0 < s.q.count && DirectSnapshot.Fits(Win(s)[0], nb, metadataCapacity));
      BeginIs(s, desk, w, took.fits);
      if desk.broken || dq.q.active || dq.q.count == 0 {
        return;
      }
      var ret := dq.BeginSend(nb, metadataCapacity);
      ShapeOf(dq.Snapshot());
      SenderAgrees(s, dq.Snapshot(), desk, w, took);
      StaysTidy(s, dq.Snapshot(), desk.place);
      w := DirectRuns.Next(w, took);
    }

    /** The sender gives a DMA head back to the kernel. */
    method Return() returns (ghost took: Move)
      requires Linked()
      modifies this, dq`q, dq`leases
      ensures Linked() && took == DirectRuns.Return && w == DirectRuns.Next(old(w), took)
    {
      hide Agree, QueueInv, DirectSnapshot.Sound, DirectSnapshot.View, MustSpill, Spill, ProducerLeaves, Wanted,
        DirectRuns.Next, Win, Tidy, Conserves, Gains, HandKept, InHand, PlaceFits, DirectSnapshot.Shaped,
        RingCore.Valid, RingCore.View;
      ghost var s := dq.Snapshot();
      ShapeOf(s);
      AgreeGives(s, desk, w);
      took := DirectRuns.Return;
      ReturnIs(s, desk, w);
      if !dq.q.active || dq.q.returned || dq.frames[dq.q.head].ringBacked {
        return;
      }
      dq.ReturnHead();
      ShapeOf(dq.Snapshot());
      SenderAgrees(s, dq.Snapshot(), desk, w, took);
      StaysTidy(s, dq.Snapshot(), desk.place);
      w := DirectRuns.Next(w, took);
    }

    /** The transport of the head is over. */
    method End(ret: int) returns (ghost took: Move)
      requires Linked()
      modifies this, dq, dq.frames, dq.ring, dq.ring.slots
      ensures Linked() && took == DirectRuns.End(ret) && w == DirectRuns.Next(old(w), took)
    {
      hide Agree, QueueInv, DirectSnapshot.Sound, DirectSnapshot.View, MustSpill, Spill, ProducerLeaves, Wanted,
        DirectRuns.Next, Win, Tidy, Conserves, Gains, HandKept, InHand, PlaceFits, DirectSnapshot.Shaped,
        RingCore.Valid, RingCore.View;
      ghost var s := dq.Snapshot();
      ShapeOf(s);
      AgreeGives(s, desk, w);
      took := DirectRuns.End(ret);
      EndIs(s, desk, w, ret);
      if !dq.q.active || !(dq.frames[dq.q.head].ringBacked || dq.q.returned) {
        return;
      }
      var result := dq.EndSend(ret);
      ShapeOf(dq.Snapshot());
      SenderAgrees(s, dq.Snapshot(), desk, w, took);
      StaysTidy(s, dq.Snapshot(), desk.place);
      desk := desk.(broken := desk.broken || result < 0);
      w := DirectRuns.Next(w, took);
    }

    /** The client cancels or disconnects. */
    method Cancel(disconnected: bool) returns (ghost took: Move)
      requires Linked()
      modifies this, dq`q, dq.ring, dq.ring.slots
      ensures Linked() && took == DirectRuns.CancelSegment && w == DirectRuns.Next(old(w), took)
    {
      hide Agree, QueueInv, DirectSnapshot.Sound, DirectSnapshot.View, MustSpill, Spill, ProducerLeaves, Wanted,
        DirectRuns.Next, Win, Tidy, Conserves, Gains, HandKept, InHand, PlaceFits, DirectSnapshot.Shaped,
        RingCore.Valid, RingCore.View;
      ghost var s := dq.Snapshot();
      ShapeOf(s);
      AgreeGives(s, desk, w);
      took := DirectRuns.CancelSegment;
      CancelIs(s, desk, w);
      dq.CancelSegment(if disconnected then REASON_CLIENT_DISCONNECTED else REASON_CLIENT_CANCELLED);
      ShapeOf(dq.Snapshot());
      SenderAgrees(s, dq.Snapshot(), desk, w, took);
      StaysTidy(s, dq.Snapshot(), desk.place);
      w := DirectRuns.Next(w, took);
    }

    /** Whether the event can happen now. */
    predicate Possible(e: Event)
      reads this, dq
    {
      PossibleAt(desk, dq.leases, e)
    }

    predicate FromProducer(e: Event) {
      !e.Begin? && !e.Return? && !e.End? && !e.Cancel?
    }

    method StepProducer(e: Event) returns (ghost took: Move)
      requires Linked() && Possible(e) && FromProducer(e)
      modifies this, dq, dq.frames, dq.metadata, dq.ringIq, dq.ring, dq.ring.slots
      ensures Linked() && Stands(e, took) && w == DirectRuns.Next(old(w), took)
    {
      hide Linked, Arrives, DirectRuns.Next;
      match e
      case Admit => took := Admit();
      case Capture(block, raw, metadataBytes, offset, bytes, first, samples) =>
        took := Capture(block, raw, metadataBytes, offset, bytes, first, samples);
      case CaptureStale(block, raw, first, samples) => took := CaptureStale(block, raw, first, samples);
      case CaptureAgain(block, raw, first, samples) => took := CaptureAgain(block, raw, first, samples);
      case Fail(error) => took := Fail(error);
      case Retire => took := Retire();
      case Publish => took := Publish();
    }

    method StepSender(e: Event) returns (ghost took: Move)
      requires Linked() && !FromProducer(e)
      modifies this, dq, dq.frames, dq.ring, dq.ring.slots
      ensures Linked() && Stands(e, took) && w == DirectRuns.Next(old(w), took)
    {
      hide Linked, DirectRuns.Next;
      match e
      case Begin(nb, metadataCapacity) => took := Begin(nb, metadataCapacity);
      case Return => took := Return();
      case End(ret) => took := End(ret);
      case Cancel(disconnected) => took := Cancel(disconnected);
    }

    method Step(e: Event) returns (ghost took: Move)
      requires Linked() && Possible(e)
      modifies this, dq, dq.frames, dq.metadata, dq.ringIq, dq.ring, dq.ring.slots
      ensures Linked() && Stands(e, took) && w == DirectRuns.Next(old(w), took)
    {
      hide Linked, Arrives, DirectRuns.Next;
      match e
      case Begin(_, _) => took := StepSender(e);
      case Return => took := StepSender(e);
      case End(_) => took := StepSender(e);
      case Cancel(_) => took := StepSender(e);
      case _ => took := StepProducer(e);
    }

    /** Any events in any order, those skipped that cannot happen when their turn comes. */
    method Play(events: seq<Event>) returns (ghost moves: seq<Move>)
      requires Linked()
      modifies this, dq, dq.frames, dq.metadata, dq.ringIq, dq.ring, dq.ring.slots
      ensures Linked() && DirectRuns.Sound(old(w))
      ensures Plays(old(w), events, moves) && w == DirectRuns.Run(old(w), moves)
      ensures dq.View() == DirectRuns.Run(old(w), moves).q
    {
      ghost var start := w;
      moves := [];
      SoundOf(dq.Snapshot(), desk, w);
      assert events[..0] == [];
      for i := 0 to |events|
        invariant Linked() && w == DirectRuns.Run(start, moves) && Plays(start, events[..i], moves)
      {
        hide Linked, Possible, CanHappen, Stands, DirectRuns.Sound, DirectRuns.Next;
        PossibleNow(events[i]);
        if Possible(events[i]) {
          ghost var took := Step(events[i]);
          OneMoreMove(start, events, i, moves, took);
          moves := moves + [took];
        } else {
          NoMoreMove(start, events, i, moves);
        }
      }
      assert events[..|events|] == events;
    }

    lemma PossibleNow(e: Event)
      requires Linked()
      ensures Possible(e) <==> CanHappen(w, e)
    {
      hide Agree, Tidy, CanHappen, PossibleAt;
      PossibleCanHappen(dq.Snapshot(), desk, w, e);
    }

    /** The kernel keeps its headroom at every moment, and one more block when a capture is due: what
        is on lease is what the queue holds in DMA memory and what is in the producer's hand. */
    lemma KernelKeepsHeadroom()
      requires Linked()
      ensures |dq.leases| + dq.q.cfg.headroom <= dq.q.cfg.dmaCapacity
      ensures desk.place.Cleared? ==> |dq.leases| + dq.q.cfg.headroom < dq.q.cfg.dmaCapacity
      ensures forall b :: b in dq.leases <==> b in Hand(desk.place) || InQueue(dq.View().entries, b)
    {
      hide Tidy, DirectSnapshot.Sound, InQueue, Win, Healthy, DirectRuns.Sound;
      LeasesCounted(dq.Snapshot(), desk, w);
      forall b: nat ensures b in dq.leases <==> b in Hand(desk.place) || InQueue(dq.View().entries, b) {
        LeasedIsHeld(dq.Snapshot(), desk, w, b);
      }
    }

    /** The end of the segment, when the producer has left and nothing is in transport: every block
        on lease is in a slot of the queue, so giving these back gives back all. */
    method Teardown()
      requires Linked() && (desk.place.Gone? || desk.place.Resting?) && !dq.q.active
      modifies dq`leases, dq.frames
      ensures dq.leases == map[]
    {
      dq.ReleaseStorage();
      assert |multiset(dq.leases.Keys)| == |dq.leases.Keys|;
    }
  }

  ghost function RunOf(cfg: Config, clock: nat, provider: Option<nat>, moves: seq<Move>): World
    requires PlanOk(cfg)
  {
    StartSound(cfg, clock, provider);
    DirectRuns.Run(DirectRuns.Start(cfg, clock, provider), moves)
  }

  /** A segment from its first step on: `direct_async_prepare` and what follows, in any order. */
  method WholeSegment(dmaCapacity: nat, ramCapacity: nat, target: nat, dropBacklog: bool, extension: bool,
                      ring: RingCore, ringIq: array<Iq>, frameIqBytes: nat, noMeta: Meta,
                      clock: nat, provider: Option<nat>, events: seq<Event>)
      returns (segment: Segment, ghost moves: seq<Move>)
    requires 2 <= dmaCapacity && (ramCapacity != 0 ==> 3 <= dmaCapacity) && 0 < target
    requires !extension ==> ramCapacity == 0
    requires extension ==>
      ring.Valid() && ring.View() == BeginExtension(Initial(ring.slots.Length, 0)).0 &&
      ringIq.Length == ring.slots.Length == ramCapacity && 0 < ramCapacity
    modifies ring, ring.slots, ringIq
    ensures segment.Linked()
    ensures PlanOk(Plan(dmaCapacity, ramCapacity, target, dropBacklog, extension))
    ensures segment.w == RunOf(Plan(dmaCapacity, ramCapacity, target, dropBacklog, extension), clock, provider, moves)
    ensures var cfg := Plan(dmaCapacity, ramCapacity, target, dropBacklog, extension);
            var start := DirectRuns.Start(cfg, clock, provider);
            DirectRuns.Sound(start) && Plays(start, events, moves)
  {
    hide Agree;
    PlanIsOk(dmaCapacity, ramCapacity, target, dropBacklog, extension);
    var dq := new DirectQueue(dmaCapacity, ramCapacity, target, dropBacklog, extension, ring, ringIq, frameIqBytes,
                              noMeta);
    segment := new Segment(dq, clock, provider);
    moves := segment.Play(events);
  }
}
