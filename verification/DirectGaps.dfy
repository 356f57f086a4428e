/**
 Exact gaps: the records a client receives account for every sample it did not receive, however
 captures, overruns, stale blocks, drops and sends interleave.
 */
module DirectGaps {
  import opened DirectModel
  import opened Options
  import opened DirectRuns

  function Metas(es: seq<Entry>): (ms: seq<Meta>)
    ensures |ms| == |es|
  {
    if es == [] then [] else Metas(es[..|es| - 1]) + [es[|es| - 1].meta]
  }

  lemma {:induction false} MetasAt(es: seq<Entry>, i: nat)
    requires i < |es|
    ensures Metas(es)[i] == es[i].meta
  {
    if i < |es| - 1 {
      MetasAt(es[..|es| - 1], i);
    }
  }

  lemma MetasSame(es: seq<Entry>, fs: seq<Entry>)
    requires |es| <= |fs| && forall i :: 0 <= i < |es| ==> es[i].meta == fs[i].meta
    ensures Metas(es) == Metas(fs)[..|es|]
  {
    forall i | 0 <= i < |es| ensures Metas(es)[i] == Metas(fs)[i] {
      MetasAt(es, i);
      MetasAt(fs, i);
    }
  }

  /** Where a frame's record says the stream was last intact. */
  function Reach(m: Meta): int {
    m.first - m.missing
  }

  predicate WellFormed(m: Meta) {
    m.missing <= m.first < m.end
  }

  /** Every record reaches back exactly to the end of the frame before it. */
  ghost predicate Chain(ms: seq<Meta>) {
    && (forall i :: 0 <= i < |ms| ==> WellFormed(ms[i]))
    && (forall i, j :: 0 <= i && j == i + 1 < |ms| ==> Reach(ms[j]) == ms[i].end)
  }

  lemma ChainPush(ms: seq<Meta>, m: Meta)
    requires Chain(ms) && WellFormed(m) && (ms != [] ==> Reach(m) == ms[|ms| - 1].end)
    ensures Chain(ms + [m])
  {
  }

  /** The frames already sent, then those still queued. */
  function Line(w: World): seq<Meta> {
    w.sent + Metas(w.q.entries)
  }

  ghost predicate Provided(w: World) {
    match w.provider
    case None => Line(w) == [] && !w.pc.Captured?
    case Some(end) =>
      && end <= w.clock
      && (match w.pc
          case Captured(_, _, m) =>
            && WellFormed(m) && m.end == end == w.clock
            && (Line(w) != [] ==>
                  Line(w)[|Line(w)| - 1].end <= Reach(m) &&
                  (m.missing == 0 || !w.q.cfg.dropBacklog ==> Line(w)[|Line(w)| - 1].end == Reach(m)))
          case Left => true
          case StaleBlock => end < w.clock && w.q.cfg.dropBacklog &&
            (Line(w) != [] ==> Line(w)[|Line(w)| - 1].end <= end)
          case _ =>
            Line(w) != [] ==>
              Line(w)[|Line(w)| - 1].end <= end &&
              (end == w.clock || !w.q.cfg.dropBacklog ==> Line(w)[|Line(w)| - 1].end == end))
  }

  ghost predicate FrameEnds(w: World) {
    w.q.cfg.dropBacklog ==>
      && (forall i :: 0 <= i < |w.q.entries| ==> w.q.entries[i].frameEnd == w.q.entries[i].meta.end)
      && w.q.lastEnd == if w.sent == [] then None else Some(w.sent[|w.sent| - 1].end)
  }

  ghost predicate Exact(w: World) {
    && Chain(w.sent)
    && (w.broken ==> !w.q.active)
    && (!w.broken ==> Chain(Line(w)) && Provided(w) && FrameEnds(w))
  }

  // ---------------------------------------------------------------------------------------
  // Each step keeps it

  /** A step that leaves the line, the provider and the frame ends alone keeps `Exact`. */
  lemma Carry(w: World, w': World)
    requires Exact(w) && !w.broken ==> FrameEnds(w')
    requires Exact(w) && Line(w') == Line(w) && w'.sent == w.sent && w'.broken == w.broken
    requires w'.broken ==> !w'.q.active
    requires w'.provider == w.provider && w'.clock == w.clock && w'.q.cfg == w.q.cfg
    requires w'.pc == w.pc || w'.pc.Left? || (w.pc.Idle? && w'.pc.Admitted?)
    ensures Exact(w')
  {
  }

  lemma AdmitExact(w: World, spills: bool)
    requires Sound(w) && Exact(w)
    ensures Exact(AdmitStep(w, spills))
  {
    hide Chain, Provided, MustSpill, Wanted;
    if w.q.entries != [] {
      SpillKeepsRecords(w.q);
    }
    var w' := AdmitStep(w, spills);
    assert Line(w') == Line(w);
    Carry(w, w');
  }

  lemma SpillKeepsRecords(s: State)
    requires s.entries != []
    ensures |Spill(s).entries| == |s.entries| && Metas(Spill(s).entries) == Metas(s.entries)
    ensures forall i :: 0 <= i < |s.entries| ==>
              Spill(s).entries[i].meta == s.entries[i].meta && Spill(s).entries[i].frameEnd == s.entries[i].frameEnd
  {
    MetasSame(Spill(s).entries, s.entries);
  }

  lemma CaptureExact(w: World, block: nat, iq: Iq, first: nat, samples: nat)
    requires Sound(w) && Exact(w)
    ensures Exact(CaptureStep(w, block, iq, first, samples))
  {
    assert Line(CaptureStep(w, block, iq, first, samples)) == Line(w);
  }

  lemma SkipExact(w: World, first: nat, samples: nat, pc: Pc)
    requires Sound(w) && Exact(w) && !pc.Admitted? && !pc.Captured?
    ensures Exact(SkipStep(w, first, samples, pc))
  {
    assert Line(SkipStep(w, first, samples, pc)) == Line(w);
  }

  lemma {:induction false} ChainAscends(ms: seq<Meta>, i: nat)
    requires Chain(ms) && i < |ms|
    ensures ms[i].end <= ms[|ms| - 1].end
    decreases |ms| - i
  {
    if i + 1 < |ms| {
      ChainAscends(ms, i + 1);
      assert Reach(ms[i + 1]) == ms[i].end;
    }
  }

  lemma ChainPrefix(ms: seq<Meta>, n: nat)
    requires Chain(ms) && n <= |ms|
    ensures Chain(ms[..n])
  {
  }

  /** Dropping the backlog cuts the line back to the head in transport, or to what was sent. */
  lemma DropLine(w: World)
    requires Sound(w)
    ensures var d := w.(q := Drop(w.q)); Line(d) == Line(w)[..|w.sent| + Kept(w.q)]
  {
    MetasSame(w.q.entries[..Kept(w.q)], w.q.entries);
  }

  /** Cutting the line back after a stale block. */
  lemma CutExact(w: World, w': World, n: nat)
    requires Exact(w) && !w.broken && w.pc.StaleBlock? && (w'.pc.Idle? || w'.pc.Left?)
    requires |w.sent| <= n <= |Line(w)| && Line(w') == Line(w)[..n] && w'.sent == w.sent && !w'.broken
    requires w'.provider == w.provider && w'.clock == w.clock && w'.q.cfg == w.q.cfg
    requires FrameEnds(w')
    ensures Exact(w')
  {
    ChainPrefix(Line(w), n);
    if n > 0 {
      ChainAscends(Line(w), n - 1);
    }
  }

  lemma RetireExact(w: World)
    requires Sound(w) && Exact(w)
    ensures Exact(RetireStep(w))
  {
    if w.pc.StaleBlock? && !w.q.cancelled {
      hide RetireStep, Line, FrameEnds, Provided, Chain;
      RetireCuts(w);
      if !w.broken {
        CutExact(w, RetireStep(w), |w.sent| + Kept(w.q));
      }
    } else if w.pc.StaleBlock? && !w.broken {
      assert Line(RetireStep(w)) == Line(w);
    }
  }

  lemma RetireCuts(w: World)
    requires Sound(w) && w.pc.StaleBlock? && !w.q.cancelled
    ensures Line(RetireStep(w)) == Line(w)[..|w.sent| + Kept(w.q)]
    ensures FrameEnds(w) ==> FrameEnds(RetireStep(w))
    ensures var r := RetireStep(w);
            && (r.pc.Idle? || r.pc.Left?) && r.sent == w.sent && r.broken == w.broken && r.q.active == w.q.active
            && r.provider == w.provider && r.clock == w.clock && r.q.cfg == w.q.cfg
            && |w.sent| + Kept(w.q) <= |Line(w)|
  {
    DropLine(w);
    assert RetireStep(w).q.entries == w.q.entries[..Kept(w.q)];
    assert Line(RetireStep(w)) == Line(w.(q := Drop(w.q)));
  }

  /** After dropping what must go, the record of the new frame reaches back exactly to the end
      of the line; in particular rebasing it never fails. */
  lemma AccountExact(w: World)
    requires Sound(w) && Exact(w) && !w.broken && w.pc.Captured?
    ensures var d := w.(q := Survivors(w.q, w.pc.meta));
            var (m, ret) := Account(w.q, w.pc.meta);
            && ret == 0 && m.end == w.pc.meta.end && WellFormed(m)
            && Chain(Line(d)) && (Line(d) != [] ==> Reach(m) == Line(d)[|Line(d)| - 1].end)
            && d.q.lastEnd == w.q.lastEnd && d.q.entries <= w.q.entries
  {
    var d := w.(q := Survivors(w.q, w.pc.meta));
    if Lossy(w.q, w.pc.meta) {
      SurvivingLine(w, d);
    } else {
      assert d.q.entries == w.q.entries;
    }
  }

  /** What is left after a drop ends where the producer will rebase to. */
  lemma SurvivingLine(w: World, d: World)
    requires Sound(w) && Exact(w) && !w.broken && w.q.cfg.dropBacklog
    requires d.q.entries == w.q.entries[..Kept(w.q)] && d.sent == w.sent
    ensures Chain(Line(d)) && |Line(d)| <= |Line(w)|
    ensures Line(d) != [] ==>
              Base(w.q) == Some(Line(d)[|Line(d)| - 1].end) &&
              Line(d)[|Line(d)| - 1].end <= Line(w)[|Line(w)| - 1].end
    ensures Line(d) == [] ==> Base(w.q) == None
  {
    var n := |w.sent| + Kept(w.q);
    DropLine(w);
    assert Line(d) == Line(w)[..n];
    ChainPrefix(Line(w), n);
    if w.q.active {
      MetasAt(w.q.entries, 0);
    }
    if n > 0 {
      ChainAscends(Line(w), n - 1);
    }
  }

  lemma PushExact(d: World, e: Entry)
    requires !d.broken && Chain(d.sent) && Chain(Line(d)) && FrameEnds(d)
    requires WellFormed(e.meta) && (Line(d) != [] ==> Reach(e.meta) == Line(d)[|Line(d)| - 1].end)
    requires d.q.cfg.dropBacklog ==> e.frameEnd == e.meta.end
    requires d.provider == Some(e.meta.end) && e.meta.end <= d.clock
    ensures Exact(d.(q := Push(d.q, e), pc := Idle))
  {
    var w' := d.(q := Push(d.q, e), pc := Idle);
    assert w'.q.entries[..|d.q.entries|] == d.q.entries;
    assert Line(w') == Line(d) + [e.meta];
    ChainPush(Line(d), e.meta);
  }

  lemma PublishExact(w: World)
    requires Sound(w) && Exact(w)
    ensures Exact(PublishStep(w))
  {
    if w.pc.Captured? && !w.q.cancelled && !w.broken {
      AccountExact(w);
      var d := w.(q := Survivors(w.q, w.pc.meta));
      var e := Entry(w.pc.iq, Account(w.q, w.pc.meta).0,
                     if w.q.cfg.dropBacklog then w.pc.meta.end else 0, Dma(w.pc.block));
      PushExact(d, e);
      assert PublishStep(w) == d.(q := Push(d.q, e), pc := Idle);
    } else if w.pc.Captured? && w.q.cancelled {
      Carry(w, w.(pc := Left));
    }
  }

  lemma EndExact(w: World, ret: int)
    requires Sound(w) && Exact(w)
    ensures Exact(EndStep(w, ret))
  {
    var w' := EndStep(w, ret);
    if w.q.active && !w.q.entries[0].store.Dma? {
      if ret >= 0 {
        assert Line(w') == Line(w) && w'.sent == Line(w)[..|w.sent| + 1] by {
          MetasTail(w.q.entries);
        }
        ChainPrefix(Line(w), |w.sent| + 1);
        PoppedFrameEnds(w, ret);
      }
    } else {
      assert w' == w;
    }
  }

  lemma PoppedFrameEnds(w: World, ret: int)
    requires Sound(w) && FrameEnds(w) && w.q.active && !w.q.entries[0].store.Dma? && ret >= 0
    ensures FrameEnds(EndStep(w, ret))
  {
  }

  lemma MetasTail(es: seq<Entry>)
    requires es != []
    ensures Metas(es) == [es[0].meta] + Metas(es[1..])
  {
    forall i | 0 <= i < |es| ensures Metas(es)[i] == ([es[0].meta] + Metas(es[1..]))[i] {
      MetasAt(es, i);
      if i > 0 {
        MetasAt(es[1..], i - 1);
      }
    }
  }

  lemma SenderExact(w: World, fits: bool)
    requires Sound(w) && Exact(w)
    ensures Exact(BeginStep(w, fits)) && Exact(ReturnStep(w))
  {
    Carry(w, BeginStep(w, fits));
    ReturnExact(w);
  }

  lemma ReturnExact(w: World)
    requires Sound(w) && Exact(w)
    ensures Exact(ReturnStep(w))
  {
    MetasSame(ReturnStep(w).q.entries, w.q.entries);
    Carry(w, ReturnStep(w));
  }

  lemma LeavingExact(w: World, error: int)
    requires Sound(w) && Exact(w)
    ensures Exact(FailStep(w, error)) && Exact(w.(q := CancelAll(w.q)))
  {
    Carry(w, FailStep(w, error));
    Carry(w, w.(q := CancelAll(w.q)));
  }

  lemma NextExact(w: World, m: Move)
    requires Sound(w) && Exact(w)
    ensures Exact(Next(w, m))
  {
    match m
    case Admit(spills) => AdmitExact(w, spills);
    case CaptureFrame(block, iq, first, samples) => CaptureExact(w, block, iq, first, samples);
    case CaptureStale(first, samples) => SkipExact(w, first, samples, StaleBlock);
    case CaptureAgain(first, samples) => SkipExact(w, first, samples, Idle);
    case ProducerFails(error) => LeavingExact(w, error);
    case RetireStale => RetireExact(w);
    case PublishFrame => PublishExact(w);
    case End(ret) => EndExact(w, ret);
    case CancelSegment => LeavingExact(w, 0);
    case Begin(fits) => SenderExact(w, fits);
    case _ => SenderExact(w, true);
  }

  lemma {:induction false} RunExact(w: World, moves: seq<Move>)
    requires Sound(w) && Exact(w)
    ensures Exact(Run(w, moves))
    decreases |moves|
  {
    if moves != [] {
      NextSound(w, moves[0]);
      NextExact(w, moves[0]);
      RunExact(Next(w, moves[0]), moves[1..]);
    }
  }

  // ---------------------------------------------------------------------------------------
  // The main results

  function Samples(ms: seq<Meta>): int {
    if ms == [] then 0 else ms[0].end - ms[0].first + Samples(ms[1..])
  }

  function Missing(ms: seq<Meta>): int {
    if ms == [] then 0 else ms[0].missing + Missing(ms[1..])
  }

  /** A chain leaves no sample out: those delivered and those declared missing fill the span. */
  lemma {:induction false} ChainCoversSpan(ms: seq<Meta>)
    requires Chain(ms) && ms != []
    ensures Samples(ms) + Missing(ms) == ms[|ms| - 1].end - Reach(ms[0])
  {
    if |ms| > 1 {
      assert Chain(ms[1..]);
      ChainCoversSpan(ms[1..]);
      assert Reach(ms[1]) == ms[0].end;
    }
  }

  /** Exact gaps, for every interleaving and under both overrun policies: consecutive delivered
      frames satisfy first - missing == end of the one before, so that delivered and missing
      samples together are all the samples the hardware took in between. */
  lemma ExactGaps(cfg: Config, clock: nat, provider: Option<nat>, moves: seq<Move>)
    requires PlanOk(cfg) && (provider.Some? ==> provider.value <= clock)
    ensures var sent := Run(Start(cfg, clock, provider), moves).sent;
            && (forall i, j :: 0 <= i && j == i + 1 < |sent| ==>
                  sent[j].first - sent[j].missing == sent[i].end)
            && (sent != [] ==>
                  Samples(sent) + Missing(sent) == sent[|sent| - 1].end - Reach(sent[0]))
  {
    var w := Start(cfg, clock, provider);
    StartSound(cfg, clock, provider);
    assert Line(w) == [];
    RunExact(w, moves);
    var sent := Run(w, moves).sent;
    if sent != [] {
      ChainCoversSpan(sent);
    }
  }

  /** Rebasing a record never fails: the survivor it is rebased onto always ended earlier. */
  lemma RebaseNeverFails(cfg: Config, clock: nat, provider: Option<nat>, moves: seq<Move>)
    requires PlanOk(cfg) && (provider.Some? ==> provider.value <= clock)
    ensures var w := Run(Start(cfg, clock, provider), moves);
            Sound(w) && (w.pc.Captured? && !w.broken ==> Account(w.q, w.pc.meta).1 == 0)
  {
    var w := Start(cfg, clock, provider);
    StartSound(cfg, clock, provider);
    assert Line(w) == [];
    RunExact(w, moves);
    RunSound(w, moves);
    var end := Run(w, moves);
    if end.pc.Captured? && !end.broken {
      AccountExact(end);
    }
  }

  // ---------------------------------------------------------------------------------------
  // From one segment to the next

  /** A segment that needs no more frames: the newest one ends where the capture stands. */
  ghost predicate Full(w: World) {
    !w.broken && w.q.tally.consumed + |w.q.entries| == w.q.cfg.target ==>
      w.provider == Some(w.clock) && Line(w) != [] && Line(w)[|Line(w)| - 1].end == w.clock
  }

  lemma PublishFull(w: World)
    requires Sound(w) && Exact(w) && w.pc.Captured?
    ensures Full(PublishStep(w))
  {
    if !w.broken && !w.q.cancelled {
      AccountExact(w);
      PushedLast(w);
    }
  }

  /** A queued frame ends the line, where the capture stands. */
  lemma PushedLast(w: World)
    requires w.pc.Captured? && !w.q.cancelled && (w.q.active ==> w.q.entries != [])
    requires Account(w.q, w.pc.meta).1 == 0
    ensures var line := Line(PublishStep(w));
            line != [] && line[|line| - 1] == Account(w.q, w.pc.meta).0
  {
    var d := Survivors(w.q, w.pc.meta);
    var e := Entry(w.pc.iq, Account(w.q, w.pc.meta).0,
                   if w.q.cfg.dropBacklog then w.pc.meta.end else 0, Dma(w.pc.block));
    assert PublishStep(w).q.entries == d.entries + [e];
    assert (d.entries + [e])[..|d.entries|] == d.entries;
  }

  lemma EndFull(w: World, ret: int)
    requires Sound(w) && Exact(w) && Full(w)
    ensures Full(EndStep(w, ret))
  {
    if w.q.entries != [] && ret >= 0 {
      MetasTail(w.q.entries);
      assert Line(w) == w.sent + [w.q.entries[0].meta] + Metas(w.q.entries[1..]);
    }
  }

  lemma ProducerFull(w: World, block: nat, iq: Iq, first: nat, samples: nat, error: int)
    requires Sound(w) && Full(w)
    ensures Full(CaptureStep(w, block, iq, first, samples))
    ensures Full(SkipStep(w, first, samples, StaleBlock)) && Full(SkipStep(w, first, samples, Idle))
    ensures Full(FailStep(w, error))
  {
  }

  lemma RetireFull(w: World)
    requires Sound(w) && Full(w)
    ensures Full(RetireStep(w))
  {
    if w.pc.StaleBlock? && !w.q.cancelled {
      DropSound(w.q);
    }
  }

  lemma ReturnFull(w: World)
    requires Sound(w) && Full(w)
    ensures Full(ReturnStep(w))
  {
    MetasSame(ReturnStep(w).q.entries, w.q.entries);
  }

  lemma BeginFull(w: World, fits: bool)
    requires Sound(w) && Full(w)
    ensures Full(BeginStep(w, fits)) && Full(w.(q := CancelAll(w.q)))
  {
  }

  lemma SenderFull(w: World, fits: bool)
    requires Sound(w) && Full(w)
    ensures Full(BeginStep(w, fits)) && Full(ReturnStep(w)) && Full(w.(q := CancelAll(w.q)))
  {
    hide Full;
    ReturnFull(w);
    BeginFull(w, fits);
  }

  lemma AdmitFull(w: World, spills: bool)
    requires Sound(w) && Full(w)
    ensures Full(AdmitStep(w, spills))
  {
    SpillSound(w.q);
    MetasSame(AdmitStep(w, spills).q.entries, w.q.entries);
  }

  lemma NextFull(w: World, m: Move)
    requires Sound(w) && Exact(w) && Full(w)
    ensures Full(Next(w, m))
  {
    hide Full, Exact;
    match m
    case Admit(spills) => AdmitFull(w, spills);
    case CaptureFrame(block, iq, first, samples) => ProducerFull(w, block, iq, first, samples, 0);
    case CaptureStale(first, samples) => ProducerFull(w, 0, [], first, samples, 0);
    case CaptureAgain(first, samples) => ProducerFull(w, 0, [], first, samples, 0);
    case ProducerFails(error) => ProducerFull(w, 0, [], 0, 0, error);
    case RetireStale => RetireFull(w);
    case PublishFrame => if w.pc.Captured? { PublishFull(w); }
    case End(ret) => EndFull(w, ret);
    case Begin(fits) => SenderFull(w, fits);
    case _ => SenderFull(w, true);
  }

  /** What the first frame of the segment will reach back to, while none has been taken. */
  ghost predicate FirstReach(w: World) {
    w.origin.Some? && !w.broken && w.sent == [] && !w.q.active && !(w.pc.Left? && w.q.entries == []) ==>
      var intact := w.q.tally.dropped == w.q.tally.stale;
      if w.q.entries != [] then
        Reach(w.q.entries[0].meta) >= w.origin.value &&
        (Reach(w.q.entries[0].meta) == w.origin.value <==> intact)
      else if w.pc.Captured? then
        Reach(w.pc.meta) >= w.origin.value && (Reach(w.pc.meta) == w.origin.value <==> intact)
      else
        w.provider.Some? && w.provider.value >= w.origin.value &&
        (w.provider.value == w.origin.value <==> intact)
  }

  ghost predicate FirstInv(w: World) {
    FirstReach(w) && w.q.tally.stale <= w.q.tally.dropped
  }

  /** While nothing is sent, the newest queued record ends after the segment's origin. */
  lemma NewestPastOrigin(w: World)
    requires Exact(w) && FirstInv(w) && w.origin.Some? && !w.broken && w.sent == []
    requires !w.q.active && w.q.entries != []
    ensures Line(w) != [] && Line(w)[|Line(w)| - 1].end > w.origin.value
  {
    MetasAt(w.q.entries, 0);
    assert Line(w) == Metas(w.q.entries);
    ChainAscends(Line(w), 0);
  }

  lemma RetireFirst(w: World)
    requires Sound(w) && Exact(w) && FirstInv(w)
    ensures FirstInv(RetireStep(w))
  {
    if w.origin.Some? && !w.broken && w.sent == [] && !w.q.active && w.q.entries != [] {
      NewestPastOrigin(w);
    }
  }

  lemma PublishCounts(w: World)
    requires Sound(w) && FirstInv(w)
    ensures PublishStep(w).q.tally.stale <= PublishStep(w).q.tally.dropped
  {
    hide FirstReach;
  }

  lemma PublishFirst(w: World)
    requires Sound(w) && Exact(w) && FirstInv(w)
    ensures FirstInv(PublishStep(w))
  {
    PublishCounts(w);
    if w.pc.Captured? && !w.broken && !w.q.cancelled {
      AccountExact(w);
      if w.origin.Some? && w.sent == [] && !w.q.active && w.q.entries != [] {
        NewestPastOrigin(w);
      }
    }
  }

  lemma ProducerFirst(w: World, block: nat, iq: Iq, first: nat, samples: nat, error: int)
    requires Sound(w) && Exact(w) && FirstInv(w)
    ensures FirstInv(CaptureStep(w, block, iq, first, samples))
    ensures FirstInv(FailStep(w, error))
  {
  }

  lemma SkipFirst(w: World, first: nat, samples: nat, pc: Pc)
    requires Sound(w) && Exact(w) && FirstInv(w) && !pc.Admitted? && !pc.Captured?
    ensures FirstInv(SkipStep(w, first, samples, pc))
  {
  }

  lemma SenderFirst(w: World, ret: int, fits: bool)
    requires Sound(w) && Exact(w) && FirstInv(w)
    ensures FirstInv(BeginStep(w, fits)) && FirstInv(ReturnStep(w)) && FirstInv(EndStep(w, ret))
    ensures FirstInv(w.(q := CancelAll(w.q)))
  {
  }

  lemma AdmitFirst(w: World, spills: bool)
    requires Sound(w) && FirstInv(w)
    ensures FirstInv(AdmitStep(w, spills))
  {
    SpillSound(w.q);
  }

  lemma NextFirst(w: World, m: Move)
    requires Sound(w) && Exact(w) && FirstInv(w)
    ensures FirstInv(Next(w, m))
  {
    match m
    case Admit(spills) => AdmitFirst(w, spills);
    case CaptureFrame(block, iq, first, samples) => ProducerFirst(w, block, iq, first, samples, 0);
    case CaptureStale(first, samples) => SkipFirst(w, first, samples, StaleBlock);
    case CaptureAgain(first, samples) => SkipFirst(w, first, samples, Idle);
    case ProducerFails(error) => ProducerFirst(w, 0, [], 0, 0, error);
    case RetireStale => RetireFirst(w);
    case PublishFrame => PublishFirst(w);
    case End(ret) => SenderFirst(w, ret, true);
    case Begin(fits) => SenderFirst(w, 0, fits);
    case _ => SenderFirst(w, 0, true);
  }

  lemma {:induction false} RunSegment(w: World, moves: seq<Move>)
    requires Sound(w) && Exact(w) && Full(w) && FirstInv(w) && Healthy(w)
    ensures var e := Run(w, moves);
            Sound(e) && Exact(e) && Full(e) && FirstInv(e) && Healthy(e) && e.origin == w.origin
    decreases |moves|
  {
    if moves != [] {
      NextSound(w, moves[0]);
      NextExact(w, moves[0]);
      NextFull(w, moves[0]);
      NextFirst(w, moves[0]);
      NextHealthy(w, moves[0]);
      NextOrigin(w, moves[0]);
      RunSegment(Next(w, moves[0]), moves[1..]);
    }
  }

  lemma NextOrigin(w: World, m: Move)
    requires Sound(w)
    ensures Next(w, m).origin == w.origin
  {
  }

  /** A segment that delivers its target leaves the provider exactly where its last frame ended,
      so the next segment's origin is that end. */
  lemma SegmentHandsOver(cfg: Config, clock: nat, provider: Option<nat>, moves: seq<Move>)
    requires PlanOk(cfg) && (provider.Some? ==> provider.value <= clock)
    ensures var w := Run(Start(cfg, clock, provider), moves);
            w.q.tally.consumed == cfg.target && !w.broken ==>
              w.sent != [] && w.provider == Some(w.sent[|w.sent| - 1].end) && w.clock == w.provider.value
  {
    var w0 := Start(cfg, clock, provider);
    StartSound(cfg, clock, provider);
    assert Line(w0) == [];
    RunSegment(w0, moves);
    RunSound(w0, moves);
    var w := Run(w0, moves);
    if w.q.tally.consumed == cfg.target && !w.broken {
      assert Line(w) == w.sent;
    }
  }

  /** The first frame of a segment reaches back to the end of the previous segment if and only
      if no published frame was dropped before it was taken: re-arming forgets the last frame
      delivered, so there is nothing left to rebase the survivor onto. */
  lemma FirstFrameReachesBack(cfg: Config, clock: nat, origin: nat, moves: seq<Move>)
    requires PlanOk(cfg) && origin <= clock
    ensures var w := Run(Start(cfg, clock, Some(origin)), moves);
            !w.broken && w.sent == [] && !w.q.active && w.q.entries != [] ==>
              Reach(w.q.entries[0].meta) >= origin &&
              (Reach(w.q.entries[0].meta) == origin <==> w.q.tally.dropped == w.q.tally.stale)
  {
    var w0 := Start(cfg, clock, Some(origin));
    StartSound(cfg, clock, Some(origin));
    assert Line(w0) == [];
    RunSegment(w0, moves);
  }

  /** The base for the next record: where the last frame ended that was sent without an error. */
  ghost predicate LastEndKnown(w: World) {
    && (forall i :: 0 <= i < |w.q.entries| && w.q.cfg.dropBacklog ==>
          w.q.entries[i].frameEnd == w.q.entries[i].meta.end)
    && w.q.lastEnd == if w.sent == [] || !w.q.cfg.dropBacklog then None else Some(w.sent[|w.sent| - 1].end)
  }

  lemma ProducerKnows(w: World, m: Move)
    requires Sound(w) && LastEndKnown(w) && !m.Begin? && !m.Return? && !m.End? && !m.CancelSegment?
    ensures LastEndKnown(Next(w, m))
  {
    hide Publish;
    if m.PublishFrame? {
      PublishKnows(w);
    }
  }

  lemma PublishKnows(w: World)
    requires Sound(w) && LastEndKnown(w)
    ensures LastEndKnown(PublishStep(w))
  {
  }

  lemma SenderKnows(w: World, m: Move)
    requires Sound(w) && LastEndKnown(w) && (m.Begin? || m.Return? || m.End? || m.CancelSegment?)
    ensures LastEndKnown(Next(w, m))
  {
  }

  lemma {:induction false} RunKnows(w: World, moves: seq<Move>)
    requires Sound(w) && LastEndKnown(w)
    ensures LastEndKnown(Run(w, moves))
    decreases |moves|
  {
    hide LastEndKnown, Next;
    if moves != [] {
      var m := moves[0];
      NextSound(w, m);
      if m.Begin? || m.Return? || m.End? || m.CancelSegment? {
        SenderKnows(w, m);
      } else {
        ProducerKnows(w, m);
      }
      RunKnows(Next(w, m), moves[1..]);
    }
  }

  /** Also after a failed send: the frame that failed does not count. */
  lemma LastEndIsDelivered(cfg: Config, clock: nat, provider: Option<nat>, moves: seq<Move>)
    requires PlanOk(cfg) && cfg.dropBacklog
    ensures var w := Run(Start(cfg, clock, provider), moves);
            w.q.lastEnd == if w.sent == [] then None else Some(w.sent[|w.sent| - 1].end)
  {
    StartSound(cfg, clock, provider);
    RunSound(Start(cfg, clock, provider), moves);
    RunKnows(Start(cfg, clock, provider), moves);
  }

  /** One round of the producer with nothing in the queue or in transport before it. */
  lemma FirstRound(w: World, block: nat, iq: Iq, first: nat, samples: nat)
    requires PlanOk(w.q.cfg) && w.q.cfg.dropBacklog && !w.q.cfg.extension && w.pc.Idle? && Wanted(w.q)
    requires w.q.entries == [] && !w.q.active && w.q.lastEnd == None && w.clock <= first && 0 < samples
    requires w.provider == Some(first)
    ensures var n := PublishStep(CaptureStep(AdmitStep(w, true), block, iq, first, samples));
            && n.q.entries == [Entry(iq, Meta(first, first + samples, 0), first + samples, Dma(block))]
            && n.pc.Idle? && !n.q.active && n.q.lastEnd == None && !n.q.cancelled && n.q.cfg == w.q.cfg
            && n.q.tally.consumed == w.q.tally.consumed
            && n.provider == Some(first + samples) && n.clock == first + samples
  {
  }

  /** And one that finds samples lost, with that one frame in the queue. */
  lemma LossyRound(w: World, block: nat, iq: Iq, first: nat, samples: nat)
    requires PlanOk(w.q.cfg) && w.q.cfg.dropBacklog && !w.q.cfg.extension && w.pc.Idle? && Wanted(w.q)
    requires |w.q.entries| == 1 < w.q.cfg.capacity && !w.q.active && w.q.lastEnd == None && 0 < samples
    requires w.provider == Some(w.clock) && w.clock < first
    ensures var n := PublishStep(CaptureStep(AdmitStep(w, true), block, iq, first, samples));
            n.q.entries ==
            [Entry(iq, Meta(first, first + samples, first - w.clock), first + samples, Dma(block))]
  {
  }

  /** Such a loss happens: the segment starts at sample 100; samples 100 to 109 were captured,
      dropped, and declared nowhere. */
  lemma RearmedSegmentCanLoseAGap(w0: World, block: nat, iq: Iq)
    requires w0 == Start(Plan(4, 0, 3, true, false), 100, Some(100))
    ensures var w3 := PublishStep(CaptureStep(AdmitStep(w0, true), block, iq, 100, 10));
            && PlanOk(w0.q.cfg) && !w3.q.active
            && (var w6 := PublishStep(CaptureStep(AdmitStep(w3, true), block, iq, 120, 10));
                |w6.q.entries| == 1 && w6.q.entries[0].meta == Meta(120, 130, 10) && Reach(w6.q.entries[0].meta) == 110)
  {
    hide PublishStep;
    FirstRound(w0, block, iq, 100, 10);
    LossyRound(PublishStep(CaptureStep(AdmitStep(w0, true), block, iq, 100, 10)), block, iq, 120, 10);
  }
}
