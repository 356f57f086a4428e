/**
 What the client receives: not only records that account for every sample, but under each record the
 samples the hardware captured for it, in the order of capture, whether they went through the RAM
 ring or not.
 */
module DirectDelivery {
  import opened DirectModel
  import opened Options
  import opened DirectRuns
  import opened DirectGaps

  /** Samples, and where they belong. */
  datatype Shot = Shot(iq: Iq, first: nat, end: nat)

  /** A run with a log of both ends: what was captured; what the transport took from the head of the
      queue when it began; what was delivered. */
  datatype Track = Track(w: World, captured: seq<Shot>, taken: Iq, delivered: seq<Shot>)

  function ShotOf(iq: Iq, m: Meta): Shot {
    Shot(iq, m.first, m.end)
  }

  function Follow(t: Track, m: Move): Track
    requires t.w.q.active ==> t.w.q.entries != []
  {
    var n := Next(t.w, m);
    if m.CaptureFrame? && t.w.pc.Admitted? && n.pc.Captured? then
      t.(w := n, captured := t.captured + [ShotOf(n.pc.iq, n.pc.meta)])
    else if m.Begin? && !t.w.q.active && n.q.active && t.w.q.entries != [] then
      t.(w := n, taken := t.w.q.entries[0].iq)
    else if m.End? && |t.w.sent| < |n.sent| && t.w.q.entries != [] then
      t.(w := n, delivered := t.delivered + [ShotOf(t.taken, t.w.q.entries[0].meta)])
    else t.(w := n)
  }

  // ---------------------------------------------------------------------------------------
  // What every step keeps

  /** Shots that follow one another in time. */
  ghost predicate InTime(s: seq<Shot>) {
    && (forall i :: 0 <= i < |s| ==> s[i].first < s[i].end)
    && (forall i, j :: 0 <= i < j < |s| ==> s[i].end <= s[j].first)
  }

  ghost predicate FromCapture(es: seq<Entry>, captured: seq<Shot>) {
    forall i :: 0 <= i < |es| && !es[i].store.Returned? ==> ShotOf(es[i].iq, es[i].meta) in captured
  }

  ghost predicate Logged(t: Track) {
    && InTime(t.captured) && (t.captured != [] ==> t.captured[|t.captured| - 1].end <= t.w.clock)
    && (t.w.pc.Captured? ==> ShotOf(t.w.pc.iq, t.w.pc.meta) in t.captured)
    && FromCapture(t.w.q.entries, t.captured)
    && (t.w.q.active && t.w.q.entries != [] ==> ShotOf(t.taken, t.w.q.entries[0].meta) in t.captured)
  }

  ghost predicate Shipped(t: Track) {
    && |t.delivered| == |t.w.sent|
    && (forall i :: 0 <= i < |t.delivered| ==>
          t.delivered[i] in t.captured &&
          t.delivered[i].first == t.w.sent[i].first && t.delivered[i].end == t.w.sent[i].end)
  }

  lemma CaptureLogged(t: Track, m: Move)
    requires Sound(t.w) && Logged(t) && m.CaptureFrame?
    ensures Logged(Follow(t, m))
  {
  }

  lemma PublishLogged(t: Track)
    requires Sound(t.w) && Logged(t)
    ensures Logged(Follow(t, PublishFrame))
  {
  }

  lemma AdmitLogged(t: Track, m: Move)
    requires Sound(t.w) && Logged(t) && m.Admit?
    ensures Logged(Follow(t, m))
  {
    hide QueueInv, Room;
    SpillSound(t.w.q);
    SpilledFromCapture(t.w.q, t.captured);
  }

  lemma SpilledFromCapture(s: State, captured: seq<Shot>)
    requires (MustSpill(s) ==> s.entries != [] && s.entries[|s.entries| - 1].store.Dma?)
    requires FromCapture(s.entries, captured)
    ensures FromCapture(Spill(s).entries, captured) && |Spill(s).entries| == |s.entries|
    ensures s.entries != [] ==> Spill(s).entries[0].meta == s.entries[0].meta
  {
  }

  lemma RetireLogged(t: Track)
    requires Sound(t.w) && Logged(t)
    ensures Logged(Follow(t, RetireStale))
  {
  }

  lemma SkipLogged(t: Track, m: Move)
    requires Sound(t.w) && Logged(t) && (m.CaptureStale? || m.CaptureAgain? || m.ProducerFails?)
    ensures Logged(Follow(t, m))
  {
  }

  lemma BeginLogged(t: Track, m: Move)
    requires Sound(t.w) && Logged(t) && m.Begin?
    ensures Logged(Follow(t, m))
  {
  }

  lemma EndLogged(t: Track, m: Move)
    requires Sound(t.w) && Logged(t) && m.End?
    ensures Logged(Follow(t, m))
  {
  }

  lemma SenderLogged(t: Track, m: Move)
    requires Sound(t.w) && Logged(t) && (m.Return? || m.CancelSegment?)
    ensures Logged(Follow(t, m))
  {
  }

  lemma FollowShipped(t: Track, m: Move)
    requires Sound(t.w) && Logged(t) && Shipped(t)
    ensures Shipped(Follow(t, m))
  {
  }

  lemma FollowLogged(t: Track, m: Move)
    requires Sound(t.w) && Logged(t)
    ensures Logged(Follow(t, m)) && Follow(t, m).w == Next(t.w, m)
  {
    match m
    case CaptureFrame(_, _, _, _) => CaptureLogged(t, m);
    case PublishFrame => PublishLogged(t);
    case Admit(_) => AdmitLogged(t, m);
    case RetireStale => RetireLogged(t);
    case Begin(_) => BeginLogged(t, m);
    case End(_) => EndLogged(t, m);
    case CaptureStale(_, _) => SkipLogged(t, m);
    case CaptureAgain(_, _) => SkipLogged(t, m);
    case ProducerFails(_) => SkipLogged(t, m);
    case _ => SenderLogged(t, m);
  }

  function RunTrack(t: Track, moves: seq<Move>): Track
    requires Sound(t.w)
    decreases |moves|
  {
    if moves == [] then t
    else
      NextSound(t.w, moves[0]);
      FollowsRun(t, moves[0]);
      RunTrack(Follow(t, moves[0]), moves[1..])
  }

  lemma FollowsRun(t: Track, m: Move)
    requires t.w.q.active ==> t.w.q.entries != []
    ensures Follow(t, m).w == Next(t.w, m)
  {
  }

  lemma {:induction false} RunTrackLogged(t: Track, moves: seq<Move>)
    requires Sound(t.w) && Logged(t) && Shipped(t)
    ensures RunTrack(t, moves).w == Run(t.w, moves)
    ensures Logged(RunTrack(t, moves)) && Shipped(RunTrack(t, moves))
    decreases |moves|
  {
    if moves != [] {
      NextSound(t.w, moves[0]);
      FollowLogged(t, moves[0]);
      FollowShipped(t, moves[0]);
      RunTrackLogged(Follow(t, moves[0]), moves[1..]);
    }
  }

  // ---------------------------------------------------------------------------------------
  // The main result

  lemma {:induction false} ChainInTime(ms: seq<Meta>, i: nat, j: nat)
    requires Chain(ms) && i < j < |ms|
    ensures ms[i].end <= ms[j].first
    decreases j
  {
    assert Reach(ms[j]) == ms[j - 1].end;
    if i < j - 1 {
      ChainInTime(ms, i, j - 1);
      assert WellFormed(ms[j - 1]);
    }
  }

  lemma DeliveredInTime(t: Track)
    requires Shipped(t) && Chain(t.w.sent)
    ensures InTime(t.delivered)
  {
    forall i, j | 0 <= i < j < |t.delivered| ensures t.delivered[i].end <= t.delivered[j].first {
      ChainInTime(t.w.sent, i, j);
    }
    forall i | 0 <= i < |t.delivered| ensures t.delivered[i].first < t.delivered[i].end {
      assert WellFormed(t.w.sent[i]);
    }
  }

  /** `a` is `b` with some elements left out. */
  predicate LeavesOut(a: seq<Shot>, b: seq<Shot>)
    decreases |b|
  {
    a == [] || (b != [] &&
      if a[|a| - 1] == b[|b| - 1] then LeavesOut(a[..|a| - 1], b[..|b| - 1]) else LeavesOut(a, b[..|b| - 1]))
  }

  ghost predicate AllIn(a: seq<Shot>, b: seq<Shot>) {
    forall i :: 0 <= i < |a| ==> a[i] in b
  }

  lemma InTimePrefix(s: seq<Shot>, n: nat)
    requires InTime(s) && n <= |s|
    ensures InTime(s[..n])
  {
  }

  lemma EarlierIsBefore(a: seq<Shot>, b: seq<Shot>, i: nat)
    requires InTime(a) && InTime(b) && i < |a| - 1 && a[i] in b && a[|a| - 1] in b
    ensures b != [] && a[i] in b[..|b| - 1]
  {
    var k :| 0 <= k < |b| && b[k] == a[|a| - 1];
    assert a[i].end <= b[k].first;
    if k < |b| - 1 {
      assert b[k].end <= b[|b| - 1].first;
    }
  }

  lemma AllEarlier(a: seq<Shot>, b: seq<Shot>)
    requires InTime(a) && InTime(b) && AllIn(a, b) && a != []
    ensures b != [] && AllIn(a[..|a| - 1], b[..|b| - 1])
    ensures a[|a| - 1] != b[|b| - 1] ==> AllIn(a, b[..|b| - 1])
  {
    assert a[|a| - 1] in b;
    forall i | 0 <= i < |a| - 1 ensures a[i] in b[..|b| - 1] {
      EarlierIsBefore(a, b, i);
    }
  }

  lemma {:induction false} InOrder(a: seq<Shot>, b: seq<Shot>)
    requires InTime(a) && InTime(b) && AllIn(a, b)
    ensures LeavesOut(a, b)
    decreases |b|
  {
    hide InTime, AllIn;
    if a != [] {
      AllEarlier(a, b);
      InTimePrefix(b, |b| - 1);
      if a[|a| - 1] == b[|b| - 1] {
        InTimePrefix(a, |a| - 1);
        InOrder(a[..|a| - 1], b[..|b| - 1]);
      } else {
        InOrder(a, b[..|b| - 1]);
      }
    }
  }

  /** Every run: what is delivered under the records of `sent` is what was captured for them, sample
      for sample and in the order of capture; what is missing was left out whole. */
  lemma DeliveredAsCaptured(cfg: Config, clock: nat, provider: Option<nat>, moves: seq<Move>)
    requires PlanOk(cfg) && (provider.Some? ==> provider.value <= clock)
    ensures Sound(Start(cfg, clock, provider))
    ensures var t := RunTrack(Track(Start(cfg, clock, provider), [], [], []), moves);
            && t.w == Run(Start(cfg, clock, provider), moves) && |t.delivered| == |t.w.sent|
            && (forall i :: 0 <= i < |t.delivered| ==>
                  t.delivered[i].first == t.w.sent[i].first && t.delivered[i].end == t.w.sent[i].end)
            && LeavesOut(t.delivered, t.captured)
  {
    var w := Start(cfg, clock, provider);
    StartSound(cfg, clock, provider);
    assert Line(w) == [];
    RunExact(w, moves);
    RunTrackLogged(Track(w, [], [], []), moves);
    var t := RunTrack(Track(w, [], [], []), moves);
    DeliveredInTime(t);
    InOrder(t.delivered, t.captured);
  }
}
