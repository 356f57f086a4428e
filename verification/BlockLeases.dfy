/**
 Leases of kernel blocks (`local_acquire_buffer_block`, `local_release_buffer_block`): any number of
 threads acquire and release at the same time, each holding the lock only around its look at
 `lease_states`, never around the call into the kernel.
 */
module BlockLeases {
  import opened Errno

  const UINT_MAX: nat := 0xffff_ffff

  // ---------------------------------------------------------------------------------------
  // The sections under the lock

  /** The first half of a release: may the holder of `token` give its block back? */
  function ClaimResult(states: seq<nat>, token: nat, bytesUsed: nat): int {
    if token == 0 || token - 1 > UINT_MAX then -EINVAL
    else if token - 1 >= |states| || bytesUsed > UINT_MAX then -EINVAL
    else if states[token - 1] != 1 then -EINVAL
    else 0
  }

  class LeaseTable {
    const states: array<nat>

    constructor (blocks: nat)
      ensures fresh(states) && states.Length == blocks && forall i :: 0 <= i < blocks ==> states[i] == 0
    {
      states := new nat[blocks](_ => 0);
    }

    /** For a block that was just taken from the kernel. */
    method Grant(id: nat) returns (ret: int)
      requires id < states.Length
      modifies states
      ensures if old(states[id]) != 0 then ret == -EIO && states[..] == old(states[..])
              else ret == 0 && states[..] == old(states[..])[id := 1]
    {
      if states[id] != 0 {
        return -EIO;
      }
      states[id] := 1;
      ret := 0;
    }

    method Claim(token: nat, bytesUsed: nat) returns (ret: int)
      modifies states
      ensures ret == ClaimResult(old(states[..]), token, bytesUsed)
      ensures states[..] == if ret == 0 then old(states[..])[token - 1 := 0] else old(states[..])
    {
      if token == 0 || token - 1 > UINT_MAX {
        return -EINVAL;
      }
      var id := token - 1;
      if id >= states.Length || bytesUsed > UINT_MAX {
        return -EINVAL;
      }
      if states[id] != 1 {
        return -EINVAL;
      }
      states[id] := 0;
      ret := 0;
    }

    /** The kernel refused the block: it stays with its holder. */
    method Restore(id: nat)
      requires id < states.Length
      modifies states
      ensures states[..] == old(states[..])[id := 1]
    {
      states[id] := 1;
    }
  }

  // ---------------------------------------------------------------------------------------
  // All interleavings

  /** In the kernel; taken from it by a thread that has not looked at the table yet; on lease; claimed
      by a thread that is about to give it to the kernel; refused by the kernel. */
  datatype Stage = Queued | Taken | Leased | Claimed | Refused

  /** `grants` and `handed` count the calls for the block that succeeded. `faults` counts the -EIO of
      an acquire that finds the block leased. */
  datatype Leases = Leases(states: seq<nat>, stages: seq<Stage>, grants: seq<nat>, handed: seq<nat>, faults: nat)

  function Fresh(blocks: nat): Leases {
    Leases(seq(blocks, _ => 0), seq(blocks, _ => Queued), seq(blocks, _ => 0), seq(blocks, _ => 0), 0)
  }

  datatype Step =
    | Dequeue(id: nat)                   // the kernel hands out one of its blocks
    | Look(id: nat)                      // `Grant`, by the thread that has it
    | Ask(token: nat, bytesUsed: nat)    // `Claim`, by any thread with any token
    | Enqueue(id: nat, ok: bool)         // the kernel takes the claimed block, or refuses
    | Undo(id: nat)                      // `Restore`, by the thread whose block was refused

  predicate Shaped(l: Leases) {
    |l.states| == |l.stages| == |l.grants| == |l.handed|
  }

  predicate Enabled(l: Leases, s: Step)
    requires Shaped(l)
  {
    match s
    case Dequeue(id) => id < |l.stages| && l.stages[id] == Queued
    case Look(id) => id < |l.stages| && l.stages[id] == Taken
    case Ask(_, _) => true
    case Enqueue(id, _) => id < |l.stages| && l.stages[id] == Claimed
    case Undo(id) => id < |l.stages| && l.stages[id] == Refused
  }

  function Next(l: Leases, s: Step): (m: Leases)
    requires Shaped(l) && Enabled(l, s)
    ensures Shaped(m) && |m.states| == |l.states|
  {
    match s
    case Dequeue(id) => l.(stages := l.stages[id := Taken])
    case Look(id) =>
      if l.states[id] != 0 then l.(stages := l.stages[id := Queued], faults := l.faults + 1)
      else l.(states := l.states[id := 1], stages := l.stages[id := Leased], grants := l.grants[id := l.grants[id] + 1])
    case Ask(token, bytesUsed) =>
      if ClaimResult(l.states, token, bytesUsed) != 0 then l
      else l.(states := l.states[token - 1 := 0], stages := l.stages[token - 1 := Claimed])
    case Enqueue(id, ok) =>
      if ok then l.(stages := l.stages[id := Queued], handed := l.handed[id := l.handed[id] + 1])
      else l.(stages := l.stages[id := Refused])
    case Undo(id) => l.(states := l.states[id := 1], stages := l.stages[id := Leased])
  }

  /** Someone outside the kernel was granted the block and has not given it back. */
  predicate Out(s: Stage) {
    s == Leased || s == Claimed || s == Refused
  }

  ghost predicate BlockSound(l: Leases, id: nat)
    requires Shaped(l) && id < |l.states|
  {
    && l.states[id] == (if l.stages[id] == Leased then 1 else 0)
    && l.grants[id] == l.handed[id] + (if Out(l.stages[id]) then 1 else 0)
  }

  ghost predicate Sound(l: Leases) {
    Shaped(l) && l.faults == 0 && forall id :: 0 <= id < |l.states| ==> BlockSound(l, id)
  }

  lemma KeepsSound(l: Leases, s: Step)
    requires Sound(l) && Enabled(l, s)
    ensures Sound(Next(l, s))
  {
    var m := Next(l, s);
    if s.Look? {
      assert BlockSound(l, s.id);
    }
    forall id | 0 <= id < |m.states| ensures BlockSound(m, id) {
      assert BlockSound(l, id);
    }
  }

  predicate Possible(l: Leases, steps: seq<Step>)
    requires Shaped(l)
    decreases |steps|
  {
    steps == [] || (Enabled(l, steps[0]) && Possible(Next(l, steps[0]), steps[1..]))
  }

  function Run(l: Leases, steps: seq<Step>): (m: Leases)
    requires Shaped(l) && Possible(l, steps)
    ensures Shaped(m) && |m.states| == |l.states|
    decreases |steps|
  {
    if steps == [] then l else Run(Next(l, steps[0]), steps[1..])
  }

  lemma {:induction false} RunIsSound(l: Leases, steps: seq<Step>)
    requires Sound(l) && Possible(l, steps)
    ensures Sound(Run(l, steps))
    decreases |steps|
  {
    if steps != [] {
      KeepsSound(l, steps[0]);
      RunIsSound(Next(l, steps[0]), steps[1..]);
    }
  }

  lemma FreshIsSound(blocks: nat)
    ensures Sound(Fresh(blocks))
  {
    forall id | 0 <= id < blocks ensures BlockSound(Fresh(blocks), id) {
    }
  }

  /** However releases race, each grant is given back at most once, and every acquire finds the block
      it took from the kernel free. */
  lemma ReleasedOnce(blocks: nat, steps: seq<Step>, id: nat)
    requires Possible(Fresh(blocks), steps) && id < blocks
    ensures var l := Run(Fresh(blocks), steps);
            l.handed[id] <= l.grants[id] <= l.handed[id] + 1 && l.faults == 0
  {
    FreshIsSound(blocks);
    RunIsSound(Fresh(blocks), steps);
    assert BlockSound(Run(Fresh(blocks), steps), id);
  }

  /** While one thread is between its claim and its call into the kernel, and until the block has been
      granted again or restored, no other thread can claim it. */
  lemma ClaimsExclude(blocks: nat, steps: seq<Step>, id: nat, bytesUsed: nat)
    requires Possible(Fresh(blocks), steps) && id < blocks && bytesUsed <= UINT_MAX && id <= UINT_MAX
    ensures var l := Run(Fresh(blocks), steps);
            ClaimResult(l.states, id + 1, bytesUsed) == 0 <==> l.stages[id] == Leased
  {
    FreshIsSound(blocks);
    RunIsSound(Fresh(blocks), steps);
    assert BlockSound(Run(Fresh(blocks), steps), id);
  }

  /** Whatever token a caller makes up, it is accepted only if it names a leased block that no one is
      giving back. */
  lemma TokensAreChecked(blocks: nat, steps: seq<Step>, token: nat, bytesUsed: nat)
    requires Possible(Fresh(blocks), steps)
    ensures var l := Run(Fresh(blocks), steps);
            var good := 0 < token <= blocks && token <= 0x1_0000_0000 && bytesUsed <= 0xffff_ffff &&
                        l.stages[token - 1] == Leased;
            ClaimResult(l.states, token, bytesUsed) == if good then 0 else -EINVAL
  {
    FreshIsSound(blocks);
    RunIsSound(Fresh(blocks), steps);
    if 0 < token <= blocks {
      assert BlockSound(Run(Fresh(blocks), steps), token - 1);
    }
  }
}
