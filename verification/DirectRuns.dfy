/**
 Whole runs of the direct-async queue: producer, sender, capture hardware and cancelling
 client interleaved in any order.
 */
module DirectRuns {
  import opened Errno
  import opened RingModel
  import opened DirectModel
  import opened Options

  /** Where the producer thread stands. */
  datatype Pc =
    | Idle
    | Admitted
    | Captured(block: nat, iq: Iq, meta: Meta)
    | StaleBlock
    | Left

  /** `clock`: the sample counter the hardware has reached. `provider`: the end of the last frame
      the metadata provider described. `origin`: that same value when the segment began. `sent`:
      the records of the frames delivered so far. `broken`: a send failed; nothing follows it. */
  datatype World = World(q: State, pc: Pc, clock: nat, provider: Option<nat>, origin: Option<nat>,
                         sent: seq<Meta>, broken: bool)

  datatype Move =
    | Admit(spills: bool) // whether the newest frame is of the size of a RAM ring slot
    | CaptureFrame(block: nat, iq: Iq, first: nat, samples: nat)
    | CaptureStale(first: nat, samples: nat)
    | CaptureAgain(first: nat, samples: nat)
    | ProducerFails(error: int)
    | RetireStale
    | PublishFrame
    | Begin(fits: bool)
    | Return
    | End(ret: int)
    | CancelSegment

  predicate InFlight(pc: Pc) {
    pc.Admitted? || pc.Captured? || pc.StaleBlock?
  }

  function Wanted(s: State): bool {
    !s.cancelled && s.tally.consumed < s.cfg.target && |s.entries| < s.cfg.target - s.tally.consumed
  }

  /** A frame that does not fit the RAM ring ends the producer with -EIO. */
  function AdmitStep(w: World, spills: bool): World {
    if !w.pc.Idle? || (!w.q.cancelled && |w.q.entries| == w.q.cfg.capacity) then w
    else if !Wanted(w.q) then w.(pc := Left)
    else if MustSpill(w.q) && w.q.entries == [] then w
    else if MustSpill(w.q) && !spills then w.(q := ProducerLeaves(w.q, -EIO), pc := Left)
    else w.(q := Spill(w.q), pc := Admitted)
  }

  function CaptureStep(w: World, block: nat, iq: Iq, first: nat, samples: nat): World {
    if !w.pc.Admitted? || first < w.clock || samples == 0 then w
    else
      var missing := if w.provider.Some? && w.provider.value <= first then first - w.provider.value else 0;
      w.(pc := Captured(block, iq, Meta(first, first + samples, missing)),
         clock := first + samples, provider := Some(first + samples))
  }

  function SkipStep(w: World, first: nat, samples: nat, pc: Pc): World {
    if !w.pc.Admitted? || first < w.clock || samples == 0 then w
    else if pc.StaleBlock? && !w.q.cfg.dropBacklog then
      w.(clock := first + samples, q := ProducerLeaves(w.q, -ESTALE), pc := Left)
    else w.(clock := first + samples, pc := pc)
  }

  /** How both producer sections end: back to the loop, or out with an error. */
  function Continue(w: World, outcome: (State, int)): World {
    if outcome.1 == 0 then w.(q := outcome.0, pc := Idle)
    else w.(q := ProducerLeaves(outcome.0, outcome.1), pc := Left)
  }

  function RetireStep(w: World): World
    requires w.q.active ==> w.q.entries != []
  {
    if !w.pc.StaleBlock? then w
    else if w.q.cancelled then w.(pc := Idle)
    else Continue(w, Retire(w.q))
  }

  function PublishStep(w: World): World
    requires w.q.active ==> w.q.entries != []
  {
    if !w.pc.Captured? then w
    else if w.q.cancelled then w.(pc := Left)
    else Continue(w, Publish(w.q, w.pc.block, w.pc.iq, w.pc.meta))
  }

  function EndStep(w: World, ret: int): World {
    if !w.q.active || w.q.entries == [] || w.q.entries[0].store.Dma? then w
    else
      var (q, result) := EndSend(w.q, ret);
      w.(q := q, broken := w.broken || result < 0,
         sent := if ret >= 0 then w.sent + [w.q.entries[0].meta] else w.sent)
  }

  function FailStep(w: World, error: int): World {
    if InFlight(w.pc) && error < 0 then w.(q := ProducerLeaves(w.q, error), pc := Left) else w
  }

  function BeginStep(w: World, fits: bool): World {
    if !w.broken && !w.q.active && w.q.entries != [] then w.(q := StartSend(w.q, fits).0) else w
  }

  function ReturnStep(w: World): World
    requires w.q.active ==> w.q.entries != []
  {
    if w.q.active then w.(q := ReturnHead(w.q)) else w
  }

  /** One step of one thread; a step that is not possible now changes nothing. */
  function Next(w: World, m: Move): World
    requires w.q.active ==> w.q.entries != []
  {
    match m
    case Admit(spills) => AdmitStep(w, spills)
    case CaptureFrame(block, iq, first, samples) => CaptureStep(w, block, iq, first, samples)
    case CaptureStale(first, samples) => SkipStep(w, first, samples, StaleBlock)
    case CaptureAgain(first, samples) => SkipStep(w, first, samples, Idle)
    case ProducerFails(error) => FailStep(w, error)
    case RetireStale => RetireStep(w)
    case PublishFrame => PublishStep(w)
    case Begin(fits) => BeginStep(w, fits)
    case Return => ReturnStep(w)
    case End(ret) => EndStep(w, ret)
    case CancelSegment => w.(q := CancelAll(w.q))
  }

  function Start(cfg: Config, clock: nat, provider: Option<nat>): World {
    World(DirectModel.Fresh(cfg), Idle, clock, provider, provider, [], false)
  }

  // ---------------------------------------------------------------------------------------
  // What every step keeps: counters, DMA headroom

  predicate PlanOk(cfg: Config) {
    && 2 <= cfg.dmaCapacity && 0 < cfg.target
    && (cfg.headroom == 0 ==> cfg.capacity == cfg.dmaCapacity)
    && (cfg.headroom != 0 ==>
          cfg.extension && cfg.headroom + 2 <= cfg.dmaCapacity &&
          cfg.dmaCapacity - cfg.headroom < cfg.capacity <= cfg.dmaCapacity - cfg.headroom + cfg.ringSlots)
  }

  /** `direct_async_prepare` sizes the queue so that the RAM part always fits the ring. */
  lemma PlanIsOk(dmaCapacity: nat, ramCapacity: nat, target: nat, dropBacklog: bool, extension: bool)
    requires 2 <= dmaCapacity && (ramCapacity != 0 ==> 3 <= dmaCapacity) && 0 < target
    requires !extension ==> ramCapacity == 0
    ensures PlanOk(Plan(dmaCapacity, ramCapacity, target, dropBacklog, extension))
  {
  }

  ghost predicate QueueInv(s: State) {
    && PlanOk(s.cfg)
    && |s.entries| <= s.cfg.capacity
    && (s.active ==> s.entries != [])
    && (forall i :: 0 <= i < |s.entries| && s.entries[i].store.Returned? ==> i == 0 && s.active)
    && (s.cfg.headroom == 0 ==> DmaCount(s.entries) == |s.entries|)
    && (s.cfg.headroom != 0 ==>
          DmaCount(s.entries) + s.cfg.headroom <= s.cfg.dmaCapacity &&
          (DmaCount(s.entries) + s.cfg.headroom == s.cfg.dmaCapacity ==>
             HoldsBlock(s.entries[|s.entries| - 1])))
    && s.tally.consumed + |s.entries| <= s.cfg.target
    && s.tally.produced + s.tally.stale == s.tally.consumed + |s.entries| + s.tally.dropped
  }

  ghost predicate Room(w: World) {
    InFlight(w.pc) ==>
      && w.q.tally.consumed + |w.q.entries| < w.q.cfg.target
      && |w.q.entries| < w.q.cfg.capacity
      && DmaCount(w.q.entries) + w.q.cfg.headroom < w.q.cfg.dmaCapacity
  }

  ghost predicate Sound(w: World) {
    QueueInv(w.q) && Room(w)
  }

  /** How long the queue is to be: blocks and RAM slots together hold the segment, or all of them are
      used if they cannot; and some blocks are left to the kernel only if RAM slots are used. */
  lemma PlanSize(dmaCapacity: nat, ramCapacity: nat, target: nat, dropBacklog: bool, extension: bool)
    requires 2 <= dmaCapacity && (ramCapacity != 0 ==> 3 <= dmaCapacity)
    ensures var cfg := Plan(dmaCapacity, ramCapacity, target, dropBacklog, extension);
            && (cfg.headroom == 0 <==> ramCapacity == 0 || target <= dmaCapacity)
            && (cfg.headroom != 0 ==> cfg.headroom == if dmaCapacity > 4 then 3 else dmaCapacity - 2)
            && dmaCapacity <= cfg.capacity + cfg.headroom <= dmaCapacity + ramCapacity
            && (target <= dmaCapacity + ramCapacity ==>
                  cfg.capacity + cfg.headroom == if target <= dmaCapacity then dmaCapacity else target)
            && (dmaCapacity + ramCapacity < target ==> cfg.capacity + cfg.headroom == dmaCapacity + ramCapacity)
  {
  }

  lemma {:induction false} DmaCountPrefix(es: seq<Entry>, keep: nat)
    requires keep <= |es|
    ensures DmaCount(es[..keep]) <= DmaCount(es)
    ensures DmaCount(es) - DmaCount(es[..keep]) <= |es| - keep
    decreases |es|
  {
    if keep == |es| {
      assert es[..keep] == es;
    } else {
      DmaCountPrefix(es[..|es| - 1], keep);
      assert es[..|es| - 1][..keep] == es[..keep];
    }
  }

  lemma {:induction false} DmaCountStore(es: seq<Entry>, i: nat, e: Entry)
    requires i < |es|
    ensures DmaCount(es[i := e]) == DmaCount(es) - (if HoldsBlock(es[i]) then 1 else 0)
                                                 + (if HoldsBlock(e) then 1 else 0)
    decreases |es|
  {
    var last := |es| - 1;
    if i == last {
      assert es[i := e][..last] == es[..last];
    } else {
      DmaCountStore(es[..last], i, e);
      assert es[i := e][..last] == es[..last][i := e];
    }
  }

  lemma DropSound(s: State)
    requires QueueInv(s)
    ensures QueueInv(Drop(s)) && DmaCount(Drop(s).entries) <= DmaCount(s.entries)
    ensures |Drop(s).entries| == Kept(s)
  {
    DmaCountPrefix(s.entries, Kept(s));
    if s.active {
      assert s.entries[..1] == [s.entries[0]];
    }
  }

  lemma SpillSound(s: State)
    requires QueueInv(s)
    ensures MustSpill(s) ==>
              |s.entries| > 1 && HoldsBlock(s.entries[|s.entries| - 1]) &&
              s.entries[|s.entries| - 1].store.Dma?
    ensures QueueInv(Spill(s)) && |Spill(s).entries| == |s.entries|
    ensures |s.entries| < s.cfg.capacity ==>
              DmaCount(Spill(s).entries) + s.cfg.headroom < s.cfg.dmaCapacity
  {
    if MustSpill(s) {
      var newest := |s.entries| - 1;
      DmaCountStore(s.entries, newest, s.entries[newest].(store := Ram));
    }
  }

  lemma PushSound(s: State, e: Entry)
    requires QueueInv(s) && e.store.Dma?
    requires |s.entries| < s.cfg.capacity && s.tally.consumed + |s.entries| < s.cfg.target
    requires DmaCount(s.entries) + s.cfg.headroom < s.cfg.dmaCapacity
    ensures QueueInv(Push(s, e))
  {
    DmaCountPush(s.entries, e);
  }

  lemma SurvivorsSound(s: State, m: Meta)
    requires QueueInv(s)
    ensures QueueInv(Survivors(s, m)) && |Survivors(s, m).entries| <= |s.entries|
    ensures Survivors(s, m).cfg == s.cfg && Survivors(s, m).tally.consumed == s.tally.consumed
    ensures DmaCount(Survivors(s, m).entries) <= DmaCount(s.entries)
  {
    DropSound(s.(tally := s.tally.(streak := 0)));
  }

  lemma PublishSound(s: State, block: nat, iq: Iq, m: Meta)
    requires QueueInv(s)
    requires |s.entries| < s.cfg.capacity && s.tally.consumed + |s.entries| < s.cfg.target
    requires DmaCount(s.entries) + s.cfg.headroom < s.cfg.dmaCapacity
    ensures QueueInv(Publish(s, block, iq, m).0)
  {
    hide QueueInv;
    SurvivorsSound(s, m);
    PushSound(Survivors(s, m),
              Entry(iq, Account(s, m).0, if s.cfg.dropBacklog then m.end else 0, Dma(block)));
  }

  lemma RetireSound(s: State)
    requires QueueInv(s)
    ensures QueueInv(Retire(s).0)
  {
    DropSound(s);
  }

  lemma AdmitSound(w: World, spills: bool)
    requires Sound(w)
    ensures Sound(AdmitStep(w, spills))
  {
    SpillSound(w.q);
    LeavesSound(w.q, -EIO);
  }

  lemma PopHeadSound(s: State, ret: int)
    requires QueueInv(s) && s.active && !s.entries[0].store.Dma?
    ensures QueueInv(PopHead(s, ret)) && DmaCount(PopHead(s, ret).entries) <= DmaCount(s.entries)
  {
    DmaCountPop(s.entries);
  }

  lemma EndSendSound(s: State, ret: int)
    requires QueueInv(s) && s.active && !s.entries[0].store.Dma?
    ensures var q := EndSend(s, ret).0;
            && QueueInv(q) && q.cfg == s.cfg && |q.entries| < |s.entries| && DmaCount(q.entries) <= DmaCount(s.entries)
            && q.tally.consumed + |q.entries| == s.tally.consumed + |s.entries|
  {
    PopHeadSound(s, ret);
  }

  lemma EndSound(w: World, ret: int)
    requires Sound(w)
    ensures Sound(EndStep(w, ret))
  {
    hide EndSend, QueueInv;
    if w.q.active && w.q.entries != [] && !w.q.entries[0].store.Dma? {
      EndSendSound(w.q, ret);
    }
  }

  lemma ReturnSound(w: World)
    requires Sound(w) && w.q.active
    ensures Sound(w.(q := ReturnHead(w.q)))
  {
    if w.q.entries[0].store.Dma? {
      DmaCountStore(w.q.entries, 0, w.q.entries[0].(iq := [], store := Returned));
    }
  }

  lemma LeavesSound(s: State, error: int)
    requires QueueInv(s)
    ensures QueueInv(ProducerLeaves(s, error))
  {
  }

  lemma ContinueSound(w: World, outcome: (State, int))
    requires QueueInv(outcome.0)
    ensures Sound(Continue(w, outcome))
  {
    LeavesSound(outcome.0, outcome.1);
  }

  lemma RetireStepSound(w: World)
    requires Sound(w)
    ensures Sound(RetireStep(w))
  {
    if w.pc.StaleBlock? && !w.q.cancelled {
      RetireSound(w.q);
      ContinueSound(w, Retire(w.q));
    }
  }

  lemma PublishStepSound(w: World)
    requires Sound(w)
    ensures Sound(PublishStep(w))
  {
    if w.pc.Captured? && !w.q.cancelled {
      PublishSound(w.q, w.pc.block, w.pc.iq, w.pc.meta);
      ContinueSound(w, Publish(w.q, w.pc.block, w.pc.iq, w.pc.meta));
    }
  }

  lemma CaptureStepSound(w: World, block: nat, iq: Iq, first: nat, samples: nat)
    requires Sound(w)
    ensures Sound(CaptureStep(w, block, iq, first, samples))
  {
  }

  lemma SkipStepSound(w: World, first: nat, samples: nat, pc: Pc)
    requires Sound(w) && !pc.Admitted? && !pc.Captured?
    ensures Sound(SkipStep(w, first, samples, pc))
  {
    LeavesSound(w.q, -ESTALE);
  }

  lemma FailStepSound(w: World, error: int)
    requires Sound(w)
    ensures Sound(FailStep(w, error))
  {
    LeavesSound(w.q, error);
  }

  lemma BeginStepSound(w: World, fits: bool)
    requires Sound(w)
    ensures Sound(BeginStep(w, fits))
  {
  }

  lemma CancelStepSound(w: World)
    requires Sound(w)
    ensures Sound(w.(q := CancelAll(w.q)))
  {
  }

  lemma SenderStepsSound(w: World, fits: bool)
    requires Sound(w)
    ensures Sound(BeginStep(w, fits)) && Sound(ReturnStep(w)) && Sound(w.(q := CancelAll(w.q)))
  {
    BeginStepSound(w, fits);
    CancelStepSound(w);
    if w.q.active {
      ReturnSound(w);
    }
  }

  lemma NextSound(w: World, m: Move)
    requires Sound(w)
    ensures Sound(Next(w, m))
  {
    match m
    case Admit(spills) => AdmitSound(w, spills);
    case CaptureFrame(block, iq, first, samples) => CaptureStepSound(w, block, iq, first, samples);
    case CaptureStale(first, samples) => SkipStepSound(w, first, samples, StaleBlock);
    case CaptureAgain(first, samples) => SkipStepSound(w, first, samples, Idle);
    case ProducerFails(error) => FailStepSound(w, error);
    case RetireStale => RetireStepSound(w);
    case PublishFrame => PublishStepSound(w);
    case End(ret) => EndSound(w, ret);
    case Begin(fits) => SenderStepsSound(w, fits);
    case _ => SenderStepsSound(w, true);
  }

  function Run(w: World, moves: seq<Move>): World
    requires Sound(w)
    decreases |moves|
  {
    if moves == [] then w
    else
      NextSound(w, moves[0]);
      Run(Next(w, moves[0]), moves[1..])
  }

  lemma {:induction false} RunSound(w: World, moves: seq<Move>)
    requires Sound(w)
    ensures Sound(Run(w, moves)) && Run(w, moves).q.cfg == w.q.cfg
    decreases |moves|
  {
    if moves != [] {
      NextSound(w, moves[0]);
      NextConfig(w, moves[0]);
      RunSound(Next(w, moves[0]), moves[1..]);
    }
  }

  lemma NextConfig(w: World, m: Move)
    requires Sound(w)
    ensures Next(w, m).q.cfg == w.q.cfg
  {
  }

  lemma StartSound(cfg: Config, clock: nat, provider: Option<nat>)
    requires PlanOk(cfg)
    ensures Sound(Start(cfg, clock, provider))
  {
  }

  // ---------------------------------------------------------------------------------------
  // DMA headroom

  /** Whenever the producer goes to acquire a block, at most `dmaCapacity - headroom - 1` frames of the
      queue are in DMA memory. (DirectSegment counts the blocks on lease.) */
  lemma HeadroomKept(cfg: Config, clock: nat, provider: Option<nat>, moves: seq<Move>)
    requires PlanOk(cfg)
    ensures var w := Run(Start(cfg, clock, provider), moves);
            w.pc.Admitted? ==> DmaCount(w.q.entries) <= cfg.dmaCapacity - cfg.headroom - 1
  {
    StartSound(cfg, clock, provider);
    RunSound(Start(cfg, clock, provider), moves);
  }

  /** A spill takes the newest frame, which is a leased block and never the head, and always
      finds a free slot in the RAM ring. */
  lemma SpillAlwaysFits(s: State)
    requires QueueInv(s) && |s.entries| < s.cfg.capacity && MustSpill(s)
    ensures |s.entries| > 1 && s.entries[|s.entries| - 1].store.Dma?
    ensures |s.entries| - DmaCount(s.entries) < s.cfg.ringSlots
  {
    SpillSound(s);
  }

  // ---------------------------------------------------------------------------------------
  // Stale blocks in a row

  /** How many blocks were retired since a frame was last published: `row` of them before `moves`. */
  function InARow(w: World, moves: seq<Move>, row: nat): nat
    requires Sound(w)
    decreases |moves|
  {
    if moves == [] then row
    else
      NextSound(w, moves[0]);
      InARow(Next(w, moves[0]), moves[1..],
             if moves[0].RetireStale? && w.pc.StaleBlock? && !w.q.cancelled then row + 1
             else if moves[0].PublishFrame? && w.pc.Captured? && !w.q.cancelled then 0
             else row)
  }

  lemma {:induction false} StreakIsRow(w: World, moves: seq<Move>)
    requires Sound(w)
    ensures Run(w, moves).q.tally.streak == InARow(w, moves, w.q.tally.streak)
    decreases |moves|
  {
    if moves != [] {
      NextSound(w, moves[0]);
      NextStreak(w, moves[0]);
      StreakIsRow(Next(w, moves[0]), moves[1..]);
    }
  }

  lemma NextStreak(w: World, m: Move)
    requires Sound(w)
    ensures Next(w, m).q.tally.streak ==
              if m.RetireStale? && w.pc.StaleBlock? && !w.q.cancelled then w.q.tally.streak + 1
              else if m.PublishFrame? && w.pc.Captured? && !w.q.cancelled then 0
              else w.q.tally.streak
  {
  }

  /** In every run, a stale block takes the whole backlog with it except a frame in transport, and the
      producer gives up with -ESTALE exactly at the ninth stale block in a row after as many as there
      are blocks. */
  lemma StaleBlocksGiveUp(cfg: Config, clock: nat, provider: Option<nat>, moves: seq<Move>)
    requires PlanOk(cfg)
    ensures var w := Run(Start(cfg, clock, provider), moves);
            Sound(w) &&
            (w.pc.StaleBlock? && !w.q.cancelled ==>
               var next := Next(w, RetireStale);
               && next.q.entries == (if w.q.active then w.q.entries[..1] else [])
               && next.q.tally.dropped == w.q.tally.dropped + |w.q.entries| - |next.q.entries| + 1
               && (next.pc.Left? <==> InARow(Start(cfg, clock, provider), moves, 0) >= cfg.dmaCapacity + 8)
               && (next.pc.Left? ==> next.q.error == -ESTALE && (cfg.extension ==> next.q.ring != Running))
               && (!next.pc.Left? ==> next.pc.Idle? && next.q.error == w.q.error))
  {
    StartSound(cfg, clock, provider);
    RunSound(Start(cfg, clock, provider), moves);
    StreakIsRow(Start(cfg, clock, provider), moves);
    DropKeepsHead(Run(Start(cfg, clock, provider), moves).q);
  }

  lemma DropKeepsHead(s: State)
    requires QueueInv(s)
    ensures Drop(s).entries == if s.active then s.entries[..1] else []
  {
  }

  // ---------------------------------------------------------------------------------------
  // The backlog

  /** Behind the next frame to be sent, nothing is missing. */
  ghost predicate Seamless(w: World) {
    w.q.cfg.dropBacklog ==>
      forall i :: Kept(w.q) < i < |w.q.entries| ==> w.q.entries[i].meta.missing == 0
  }

  lemma PublishSeamless(w: World)
    requires Sound(w) && Seamless(w)
    ensures Seamless(PublishStep(w))
  {
  }

  lemma NextSeamless(w: World, m: Move)
    requires Sound(w) && Seamless(w)
    ensures Seamless(Next(w, m))
  {
    hide Publish, Retire;
    if m.PublishFrame? {
      PublishSeamless(w);
    } else if m.RetireStale? && w.pc.StaleBlock? {
      RetireSeamless(w.q);
    }
  }

  lemma RetireSeamless(s: State)
    requires QueueInv(s)
    ensures |Retire(s).0.entries| <= Kept(s) && Retire(s).0.active == s.active
  {
  }

  lemma {:induction false} RunSeamless(w: World, moves: seq<Move>)
    requires Sound(w) && Seamless(w)
    ensures Seamless(Run(w, moves))
    decreases |moves|
  {
    hide Seamless, Next;
    if moves != [] {
      NextSound(w, moves[0]);
      NextSeamless(w, moves[0]);
      RunSeamless(Next(w, moves[0]), moves[1..]);
    }
  }

  /** Under the drop policy, the frames that wait behind the next one to be sent follow it without a
      gap, in every run. */
  lemma BacklogIsSeamless(cfg: Config, clock: nat, provider: Option<nat>, moves: seq<Move>, i: nat)
    requires PlanOk(cfg) && cfg.dropBacklog
    ensures var q := Run(Start(cfg, clock, provider), moves).q;
            i < |q.entries| && i > (if q.active then 1 else 0) ==> q.entries[i].meta.missing == 0
  {
    StartSound(cfg, clock, provider);
    RunSound(Start(cfg, clock, provider), moves);
    RunSeamless(Start(cfg, clock, provider), moves);
  }

  // ---------------------------------------------------------------------------------------
  // Counting the segment

  /** The ring runs for as long as nobody cancelled and nothing failed, and completes with the
      segment. A producer that left with an error left before the target was met. */
  ghost predicate Healthy(w: World) {
    && (!w.q.cancelled && w.q.error == 0 && w.q.cfg.extension ==>
          w.q.ring == if w.q.tally.consumed == w.q.cfg.target then Complete else Running)
    && (w.q.error != 0 && !w.q.cancelled ==>
          w.pc.Left? && w.q.tally.consumed + |w.q.entries| < w.q.cfg.target)
    && (!w.broken ==> w.q.tally.consumed == |w.sent|)
    && (w.broken ==> w.q.cancelled)
    && |w.sent| <= w.q.tally.consumed
  }

  lemma ProducerHealthy(w: World, m: Move)
    requires Sound(w) && Healthy(w) && !m.Begin? && !m.Return? && !m.End? && !m.CancelSegment?
    ensures Healthy(Next(w, m))
  {
  }

  lemma SenderHealthy(w: World, m: Move)
    requires Sound(w) && Healthy(w) && (m.Begin? || m.Return? || m.End? || m.CancelSegment?)
    ensures Healthy(Next(w, m))
  {
  }

  lemma NextHealthy(w: World, m: Move)
    requires Sound(w) && Healthy(w)
    ensures Healthy(Next(w, m))
  {
    hide Next, Healthy;
    if m.Begin? || m.Return? || m.End? || m.CancelSegment? {
      SenderHealthy(w, m);
    } else {
      ProducerHealthy(w, m);
    }
  }

  lemma {:induction false} RunHealthy(w: World, moves: seq<Move>)
    requires Sound(w) && Healthy(w)
    ensures Healthy(Run(w, moves))
    decreases |moves|
  {
    if moves != [] {
      NextSound(w, moves[0]);
      NextHealthy(w, moves[0]);
      RunHealthy(Next(w, moves[0]), moves[1..]);
    }
  }

  /** No run queues or delivers more than the target, and every frame the provider described,
      or retired as stale, is delivered, waiting or counted as dropped. A segment whose last
      frame has gone out is empty; unless it was cancelled, its ring is complete and its sender
      delivered exactly `target` frames. */
  lemma SegmentAccounting(cfg: Config, clock: nat, provider: Option<nat>, moves: seq<Move>)
    requires PlanOk(cfg)
    ensures var w := Run(Start(cfg, clock, provider), moves);
            var t := w.q.tally;
            && t.consumed + |w.q.entries| <= cfg.target
            && t.produced + t.stale == t.consumed + |w.q.entries| + t.dropped
            && |w.sent| <= t.consumed
            && (t.consumed == cfg.target ==>
                  w.q.entries == [] && !InFlight(w.pc) &&
                  (!w.q.cancelled ==>
                     |w.sent| == cfg.target && w.q.error == 0 &&
                     (cfg.extension ==> w.q.ring == Complete)))
  {
    StartSound(cfg, clock, provider);
    RunSound(Start(cfg, clock, provider), moves);
    RunHealthy(Start(cfg, clock, provider), moves);
  }

  /** `complete_extension` fails on the last frame only if the segment was cancelled. */
  lemma LastFrameCompletes(w: World, ret: int)
    requires Sound(w) && Healthy(w) && w.q.active && !w.q.entries[0].store.Dma? && ret >= 0
    requires w.q.tally.consumed + 1 == w.q.cfg.target && w.q.cfg.extension && w.q.ring != Complete
    ensures EndSend(w.q, ret).1 < 0 <==> w.q.ring != Running
    ensures w.q.ring != Running ==> w.q.cancelled
  {
  }

  // ---------------------------------------------------------------------------------------
  // How a segment ends

  /** A cancelled segment never leaves its ring running, and a ring fails only with an error. The ring
      of an extension has no target of its own, so it never drains. */
  ghost predicate Stopped(s: State) {
    && s.ring != Draining && s.ring != Reserved
    && (s.cancelled && s.cfg.extension ==> s.ring != Running)
    && (s.ring == Failed ==> s.error != 0)
  }

  lemma ProducerStops(w: World, m: Move)
    requires Sound(w) && Stopped(w.q) && !m.Begin? && !m.Return? && !m.End? && !m.CancelSegment?
    ensures Stopped(Next(w, m).q)
  {
  }

  lemma SenderStops(w: World, m: Move)
    requires Sound(w) && Stopped(w.q) && (m.Begin? || m.Return? || m.End? || m.CancelSegment?)
    ensures Stopped(Next(w, m).q)
  {
  }

  lemma {:induction false} RunStopped(w: World, moves: seq<Move>)
    requires Sound(w) && Stopped(w.q)
    ensures Stopped(Run(w, moves).q)
    decreases |moves|
  {
    hide Stopped, Next;
    if moves != [] {
      var m := moves[0];
      NextSound(w, m);
      if m.Begin? || m.Return? || m.End? || m.CancelSegment? {
        SenderStops(w, m);
      } else {
        ProducerStops(w, m);
      }
      RunStopped(Next(w, m), moves[1..]);
    }
  }

  lemma EndedRingTellsWhy(cfg: Config, clock: nat, provider: Option<nat>, moves: seq<Move>)
    requires PlanOk(cfg)
    ensures var q := Run(Start(cfg, clock, provider), moves).q;
            && (q.cancelled && cfg.extension ==> q.ring != Running)
            && (q.ring == Failed ==> q.error != 0)
  {
    StartSound(cfg, clock, provider);
    RunSound(Start(cfg, clock, provider), moves);
    RunStopped(Start(cfg, clock, provider), moves);
  }

  ghost predicate Shut(w: World, produced: nat) {
    w.q.cancelled && w.q.tally.produced == produced
  }

  lemma NextShut(w: World, m: Move, produced: nat)
    requires Sound(w) && Shut(w, produced)
    ensures Shut(Next(w, m), produced)
    ensures !m.Begin? && !m.End? ==> Next(w, m).q.error == w.q.error
  {
  }

  lemma {:induction false} RunShut(w: World, moves: seq<Move>, produced: nat)
    requires Sound(w) && Shut(w, produced)
    ensures Shut(Run(w, moves), produced)
    decreases |moves|
  {
    hide Shut, Next;
    if moves != [] {
      NextSound(w, moves[0]);
      NextShut(w, moves[0], produced);
      RunShut(Next(w, moves[0]), moves[1..], produced);
    }
  }

  predicate BySender(m: Move) {
    m.Begin? || m.End?
  }

  lemma {:induction false} RunKeepsError(w: World, moves: seq<Move>)
    requires Sound(w) && w.q.cancelled && forall m :: m in moves ==> !BySender(m)
    ensures Run(w, moves).q.error == w.q.error
    decreases |moves|
  {
    hide Next;
    if moves != [] {
      assert moves[0] in moves;
      NextSound(w, moves[0]);
      NextShut(w, moves[0], w.q.tally.produced);
      RunKeepsError(Next(w, moves[0]), moves[1..]);
    }
  }

  /** From a cancel on, no frame is queued, and the producer's errors are not recorded: only a failing
      send still changes the error. */
  lemma CancelStops(w: World, before: seq<Move>, moves: seq<Move>)
    requires Sound(w)
    ensures Sound(Run(w, before))
    ensures var c := Next(Run(w, before), CancelSegment);
            && Sound(c) && c.q.cancelled && c.q.entries == Run(w, before).q.entries
            && Run(c, moves).q.tally.produced == c.q.tally.produced
            && ((forall m :: m in moves ==> !BySender(m)) ==> Run(c, moves).q.error == Run(w, before).q.error)
  {
    RunSound(w, before);
    var c := Next(Run(w, before), CancelSegment);
    NextSound(Run(w, before), CancelSegment);
    RunShut(c, moves, c.q.tally.produced);
    if forall m :: m in moves ==> !BySender(m) {
      RunKeepsError(c, moves);
    }
  }

  /** The sender takes the head exactly if the client's sizes fit and its samples are in a block, or in
      a ring that still drains. A frame it cannot take ends the segment, and stays. */
  lemma BeginExactly(w: World, fits: bool)
    requires Sound(w) && !w.broken && !w.q.active && w.q.entries != []
    ensures var n := Next(w, Begin(fits));
            && n.q.entries == w.q.entries && n.sent == w.sent && n.q.tally == w.q.tally
            && (n.q.active <==> fits && (w.q.entries[0].store.Dma? || w.q.ring == Running || w.q.ring == Draining ||
                                         w.q.ring == Failed))
            && (n.q.active ==> n == w.(q := n.q) && n.q.error == w.q.error && n.q.ring == w.q.ring)
            && (!n.q.active ==> n.q.cancelled && n.q.error == if fits then -ESHUTDOWN else -ENOSPC)
  {
  }

  /** How a send ends: the head is gone, and delivered unless the send failed. A failure is the error of
      the segment, and fails a running ring; the last frame of the target completes one. */
  lemma EndExactly(w: World, ret: int)
    requires Sound(w) && w.q.active && !w.q.entries[0].store.Dma?
    ensures var n := Next(w, End(ret));
            var last := w.q.cfg.extension && w.q.tally.consumed + 1 == w.q.cfg.target;
            && n.q.entries == w.q.entries[1..] && !n.q.active && n.q.tally.consumed == w.q.tally.consumed + 1
            && n.sent == (if ret < 0 then w.sent else w.sent + [w.q.entries[0].meta])
            && (ret < 0 ==>
                  && n.broken && n.q.cancelled && n.q.error == ret
                  && n.q.ring == if w.q.cfg.extension && w.q.ring == Running then Failed else w.q.ring)
            && (ret >= 0 && (!last || w.q.ring == Running) ==>
                  && n.broken == w.broken && n.q.cancelled == w.q.cancelled && n.q.error == w.q.error
                  && n.q.ring == if last then Complete else w.q.ring)
            && (ret >= 0 && last && w.q.ring != Running ==>
                  n.broken && n.q.cancelled && n.q.error == -EINVAL && n.q.ring == w.q.ring)
  {
  }

  /** After a cancel the ring is over: complete, cancelled, or failed with none of its frames left. A
      frame in a cancelled ring is never taken. */
  lemma CancelEndsRing(cfg: Config, clock: nat, provider: Option<nat>, moves: seq<Move>, fits: bool)
    requires PlanOk(cfg) && cfg.extension
    ensures var w := Run(Start(cfg, clock, provider), moves);
            Sound(w) &&
            var q := Next(w, CancelSegment).q;
            && (q.ring == Complete || q.ring == Cancelled ||
                (q.ring == Failed && forall i :: 0 <= i < |q.entries| ==> !q.entries[i].store.Ram?))
            && (w.q.ring == Running ==> q.ring == Cancelled)
            && (!w.broken && !w.q.active && w.q.entries != [] && w.q.entries[0].store.Ram? ==>
                  !Next(Next(w, CancelSegment), Begin(fits)).q.active)
  {
    StartSound(cfg, clock, provider);
    RunSound(Start(cfg, clock, provider), moves);
    var w := Run(Start(cfg, clock, provider), moves);
    CancelStepSound(w);
    RunStopped(Start(cfg, clock, provider), moves);
    if DmaCount(w.q.entries) == |w.q.entries| {
      AllInBlocks(w.q.entries);
    } else if w.q.entries != [] && w.q.entries[0].store.Ram? {
      assert !HoldsBlock(w.q.entries[0]);
    }
  }

  lemma {:induction false} AllInBlocks(es: seq<Entry>)
    requires DmaCount(es) == |es|
    ensures forall i :: 0 <= i < |es| ==> HoldsBlock(es[i])
  {
    if es != [] {
      AllInBlocks(es[..|es| - 1]);
      forall i | 0 <= i < |es| ensures HoldsBlock(es[i]) {
        if i < |es| - 1 {
          assert es[i] == es[..|es| - 1][i];
        }
      }
    }
  }

  /** With a free slot, the producer goes on until the frames sent and queued meet the target, or the
      segment is cancelled. */
  lemma ProducerGoesOn(w: World)
    requires Sound(w) && w.pc.Idle? && |w.q.entries| < w.q.cfg.capacity
    ensures var n := Next(w, Admit(true));
            && n.pc == (if w.q.cancelled || w.q.tally.consumed + |w.q.entries| == w.q.cfg.target then Left
                        else Admitted)
            && n.q.error == w.q.error && n.q.ring == w.q.ring && n.q.tally == w.q.tally
  {
    SpillSound(w.q);
  }

  /** A producer that fails leaves its error with a segment nobody cancelled; it fails a running ring
      unless the error says that the client is gone. */
  lemma ProducerFailsExactly(w: World, error: int)
    requires Sound(w) && Healthy(w) && InFlight(w.pc) && error < 0
    ensures var n := Next(w, ProducerFails(error));
            && n.pc.Left? && n.q.entries == w.q.entries && n.q.cancelled == w.q.cancelled
            && n.q.error == (if w.q.cancelled then w.q.error else error)
            && n.q.ring ==
                 if w.q.cancelled || !w.q.cfg.extension || error == -ECANCELED || error == -EPIPE then w.q.ring
                 else Failed
  {
  }
}
