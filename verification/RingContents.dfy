/**
 What the slots of the RAM ring carry: a producer writes into the slot it has reserved, a consumer reads
 from the one it has reserved, and what it finds there is what the producer had written when it
 committed that frame.
 */
module RingContents {
  import opened RingModel
  import opened RingRuns

  /** A call of the ring, a write into the producer's slot or a read from the consumer's. */
  datatype Op<P> = Do(c: Call) | Write(p: P) | Read

  /** The ring and the numbers of its frames, the slots' contents, the contents of each frame when it
      was committed, and what was read: the number of the frame, and what was found. */
  datatype Store<P> = Store(r: Ring, t: Traffic, mem: seq<P>, committed: seq<P>, found: seq<(nat, P)>)

  /** The source has no check that keeps the sides in their slots: the callers only write and read
      while they hold one. */
  function Step<P>(s: Store<P>, op: Op<P>): Store<P>
    requires |s.t.waiting| == |s.r.queue|
  {
    match op
    case Do(c) =>
      var committed := if c.ProducerCommit? && s.r.producerHeld && s.r.next < |s.mem|
                       then s.committed + [s.mem[s.r.next]] else s.committed;
      s.(r := Apply(s.r, c).0, t := Move(s.r, s.t, c), committed := committed)
    case Write(p) =>
      if s.r.producerHeld && s.r.next < |s.mem| then s.(mem := s.mem[s.r.next := p]) else s
    case Read =>
      if s.r.consumerHeld && s.r.queue != [] && s.r.queue[0] < |s.mem|
      then s.(found := s.found + [(s.t.waiting[0], s.mem[s.r.queue[0]])]) else s
  }

  function Steps<P>(s: Store<P>, ops: seq<Op<P>>): Store<P>
    requires |s.t.waiting| == |s.r.queue|
    decreases |ops|
  {
    if ops == [] then s
    else
      StepLength(s, ops[0]);
      Steps(Step(s, ops[0]), ops[1..])
  }

  lemma StepLength<P>(s: Store<P>, op: Op<P>)
    requires |s.t.waiting| == |s.r.queue|
    ensures |Step(s, op).t.waiting| == |Step(s, op).r.queue|
  {
    if op.Do? {
      MoveLength(s.r, s.t, op.c);
    }
  }

  /** The queued slots hold what was committed under the numbers that wait. */
  ghost predicate Held<P>(mem: seq<P>, queue: seq<nat>, committed: seq<P>, waiting: seq<nat>) {
    && |queue| == |waiting|
    && (forall i :: 0 <= i < |queue| ==> queue[i] < |mem| && waiting[i] < |committed|)
    && (forall i :: 0 <= i < |queue| ==> mem[queue[i]] == committed[waiting[i]])
  }

  lemma HeldPart<P>(mem: seq<P>, queue: seq<nat>, committed: seq<P>, waiting: seq<nat>, from: nat, upto: nat)
    requires Held(mem, queue, committed, waiting) && from <= upto <= |queue|
    ensures Held(mem, queue[from..upto], committed, waiting[from..upto])
  {
  }

  lemma HeldPush<P>(mem: seq<P>, queue: seq<nat>, committed: seq<P>, waiting: seq<nat>, slot: nat)
    requires Held(mem, queue, committed, waiting) && slot < |mem|
    ensures Held(mem, queue + [slot], committed + [mem[slot]], waiting + [|committed|])
  {
  }

  ghost predicate Found<P>(found: seq<(nat, P)>, committed: seq<P>) {
    forall f :: f in found ==> f.0 < |committed| && f.1 == committed[f.0]
  }

  /** Every queued frame still has in its slot what was committed, and every read found that. */
  ghost predicate Carried<P>(s: Store<P>) {
    && Inv(s.r) && Ordered(s.r, s.t)
    && |s.mem| == s.r.slotCount && |s.committed| == s.r.produced
    && Held(s.mem, s.r.queue, s.committed, s.t.waiting) && Found(s.found, s.committed)
  }

  /** How a call changes the queue and the numbers that wait. */
  lemma QueueMoves(r: Ring, t: Traffic, c: Call)
    requires Inv(r) && |t.waiting| == |r.queue|
    ensures var (n, m) := (Apply(r, c).0, Move(r, t, c));
            && n.slotCount == r.slotCount && |m.waiting| == |n.queue|
            && if c.ProducerCommit? && r.producerHeld then
                 n.queue == r.queue + [r.next] && m.waiting == t.waiting + [r.produced] && n.produced == r.produced + 1
               else
                 n.produced == r.produced &&
                 exists from: nat, upto: nat :: from <= upto <= |r.queue| &&
                   n.queue == r.queue[from..upto] && m.waiting == t.waiting[from..upto]
  {
    var n, m := Apply(r, c).0, Move(r, t, c);
    if c.ConsumerRelease? && |n.queue| < |r.queue| {
      assert r.queue[1..] == r.queue[1..|r.queue|] && t.waiting[1..] == t.waiting[1..|r.queue|];
    } else if c.Discard? && |n.queue| < |r.queue| {
      var keep := |n.queue|;
      assert r.queue[..keep] == r.queue[0..keep] && t.waiting[..keep] == t.waiting[0..keep];
    } else if !(c.ProducerCommit? && r.producerHeld) {
      assert n.queue == r.queue && m.waiting == t.waiting;
      assert r.queue == r.queue[0..|r.queue|] && t.waiting == t.waiting[0..|r.queue|];
    }
  }

  lemma CallCarries<P>(s: Store<P>, c: Call)
    requires Carried(s)
    ensures Carried(Step(s, Do(c)))
  {
    StepInv(s.r, c);
    MoveOrdered(s.r, s.t, c);
    QueueMoves(s.r, s.t, c);
    assert s.r.next < |s.mem|;
    hide Inv, Ordered, Apply, Move, Held;
    if c.ProducerCommit? && s.r.producerHeld {
      HeldPush(s.mem, s.r.queue, s.committed, s.t.waiting, s.r.next);
    } else {
      var n, m := Apply(s.r, c).0, Move(s.r, s.t, c);
      var from: nat, upto: nat :| from <= upto <= |s.r.queue| &&
        n.queue == s.r.queue[from..upto] && m.waiting == s.t.waiting[from..upto];
      HeldPart(s.mem, s.r.queue, s.committed, s.t.waiting, from, upto);
    }
  }

  lemma WriteCarries<P>(s: Store<P>, p: P)
    requires Carried(s)
    ensures Carried(Step(s, Write(p)))
  {
    if s.r.producerHeld {
      NextIsFree(s.r);
    }
  }

  lemma StepCarries<P>(s: Store<P>, op: Op<P>)
    requires Carried(s)
    ensures Carried(Step(s, op))
  {
    match op
    case Do(c) => CallCarries(s, c);
    case Write(p) => WriteCarries(s, p);
    case Read =>
  }

  lemma {:induction false} StepsCarry<P>(s: Store<P>, ops: seq<Op<P>>)
    requires Carried(s)
    ensures Carried(Steps(s, ops))
    decreases |ops|
  {
    if ops != [] {
      StepCarries(s, ops[0]);
      StepsCarry(Step(s, ops[0]), ops[1..]);
    }
  }

  /** Whatever calls, writes and reads follow each other: a read finds what its frame held when it was
      committed, and the frames are read in the order of their commits. */
  lemma ReadsFindCommits<P>(slotCount: nat, target: nat, mem: seq<P>, ops: seq<Op<P>>)
    requires 0 < slotCount == |mem|
    ensures var s := Steps(Store(Initial(slotCount, target), Traffic([], []), mem, [], []), ops);
            && |s.committed| == s.r.produced
            && (forall f :: f in s.found ==> f.0 < |s.committed| && f.1 == s.committed[f.0])
            && (forall i, j :: 0 <= i < j < |s.found| ==> s.found[i].0 <= s.found[j].0)
  {
    var s0 := Store(Initial(slotCount, target), Traffic([], []), mem, [], []);
    InitialInv(slotCount, target);
    StepsCarry(s0, ops);
    StepsOrder(s0, ops);
  }

  /** Frames are read in order, and none before the oldest that is queued. */
  ghost predicate InOrder<P>(s: Store<P>) {
    && (forall i, j :: 0 <= i < j < |s.found| ==> s.found[i].0 <= s.found[j].0)
    && (s.found != [] ==>
          var last := s.found[|s.found| - 1].0;
          last < s.r.produced && forall i :: 0 <= i < |s.t.waiting| ==> last <= s.t.waiting[i])
  }

  lemma StepOrder<P>(s: Store<P>, op: Op<P>)
    requires Carried(s) && InOrder(s)
    ensures InOrder(Step(s, op))
  {
    match op
    case Do(c) => CallOrder(s, c);
    case Write(_) =>
    case Read =>
      forall i | 0 <= i < |s.t.waiting| ensures s.t.waiting[0] <= s.t.waiting[i] {
        WaitingAscends(s, i);
      }
      ReadOrder(s);
  }

  lemma ReadOrder<P>(s: Store<P>)
    requires Carried(s) && InOrder(s)
    requires forall i :: 0 <= i < |s.t.waiting| ==> s.t.waiting[0] <= s.t.waiting[i]
    ensures InOrder(Step(s, Read))
  {
    hide Inv, Ordered;
    if s.t.waiting != [] {
      assert s.t.waiting[0] < |s.committed|;
    }
  }

  lemma CallOrder<P>(s: Store<P>, c: Call)
    requires Carried(s) && InOrder(s)
    ensures InOrder(Step(s, Do(c)))
  {
    QueueMoves(s.r, s.t, c);
    hide Inv, Ordered, Apply, Move, Held, Found;
  }

  lemma WaitingAscends<P>(s: Store<P>, i: nat)
    requires Carried(s) && i < |s.t.waiting|
    ensures s.t.waiting[0] <= s.t.waiting[i]
  {
    var all := s.t.out + s.t.waiting;
    assert all[|s.t.out|] == s.t.waiting[0] && all[|s.t.out| + i] == s.t.waiting[i];
  }

  lemma {:induction false} StepsOrder<P>(s: Store<P>, ops: seq<Op<P>>)
    requires Carried(s) && InOrder(s)
    ensures InOrder(Steps(s, ops))
    decreases |ops|
  {
    if ops != [] {
      StepCarries(s, ops[0]);
      StepOrder(s, ops[0]);
      StepsOrder(Step(s, ops[0]), ops[1..]);
    }
  }
}
