/**
 Numbering captured frames: which samples each one covers, which were lost before it, and its
 place among the buffers that should have been captured (iiod/spf-buffer-layout.c), and where
 the first gap of a finite capture lies (iiod/ddr-ring-core.c).
 */
module SampleSequence {
  import opened Errno
  import opened Options

  const UINT64_MAX := 0xffff_ffff_ffff_ffff

  // ---------------------------------------------------------------------------------------
  // Resolving a frame against the one before it

  /** `bufferSequence`, `missing` and `frameEnd` of a frame, or why it was refused. */
  datatype Result = Resolved(bufferSequence: nat, missing: nat, frameEnd: nat) | Refused(error: int)

  datatype State = State(previousFrameEnd: nat, previousBufferSequence: nat, valid: bool)

  /** `spf_buffer_sequence_resolve`. */
  function Resolve(s: State, first: nat, samples: nat): Result {
    if samples == 0 || first + samples > UINT64_MAX then Refused(-EINVAL)
    else if !s.valid then Resolved(0, 0, first + samples)
    else if first < s.previousFrameEnd then Refused(-ERANGE)
    else
      var missing := first - s.previousFrameEnd;
      var skipped := missing / samples;
      if s.previousBufferSequence + 1 + skipped > UINT64_MAX then Refused(-EOVERFLOW)
      else Resolved(s.previousBufferSequence + 1 + skipped, missing, first + samples)
  }

  class Sequence {
    var state: State

    constructor ()
      ensures !state.valid
    {
      state := State(0, 0, false);
    }

    /** `spf_buffer_sequence_commit`. */
    method Commit(r: Result)
      requires r.Resolved?
      modifies this
      ensures state == Committed(r)
    {
      state := State(r.frameEnd, r.bufferSequence, true);
    }

    /** One frame: resolved, and committed unless it is refused. */
    method Accept(first: nat, samples: nat) returns (r: Result)
      modifies this
      ensures r == Resolve(old(state), first, samples)
      ensures state == if r.Resolved? then Committed(r) else old(state)
    {
      r := Resolve(state, first, samples);
      if r.Resolved? {
        Commit(r);
      }
    }
  }

  function Committed(r: Result): State
    requires r.Resolved?
  {
    State(r.frameEnd, r.bufferSequence, true)
  }

  const Fresh := State(0, 0, false)

  /** The frames accepted of a run of attempts, refused ones leaving no trace. */
  function Accepted(firsts: seq<nat>, samples: nat): (rs: seq<Result>)
    ensures forall r :: r in rs ==> r.Resolved?
  {
    if firsts == [] then []
    else
      var before := Accepted(firsts[..|firsts| - 1], samples);
      var r := Resolve(After(before), firsts[|firsts| - 1], samples);
      if r.Resolved? then before + [r] else before
  }

  function After(rs: seq<Result>): State
    requires forall r :: r in rs ==> r.Resolved?
  {
    if rs == [] then Fresh else Committed(rs[|rs| - 1])
  }

  function Missing(rs: seq<Result>): nat
    requires forall r :: r in rs ==> r.Resolved?
  {
    if rs == [] then 0 else Missing(rs[..|rs| - 1]) + rs[|rs| - 1].missing
  }

  /** How many whole frames were lost, gap by gap. */
  function Skipped(rs: seq<Result>, samples: nat): nat
    requires 0 < samples && forall r :: r in rs ==> r.Resolved?
  {
    if rs == [] then 0 else Skipped(rs[..|rs| - 1], samples) + rs[|rs| - 1].missing / samples
  }

  /** What every run of attempts keeps, `origin` being where its first accepted frame began. */
  ghost predicate Accounted(rs: seq<Result>, origin: nat, samples: nat)
    requires 0 < samples && forall r :: r in rs ==> r.Resolved?
  {
    rs != [] ==>
      var last := rs[|rs| - 1];
      && last.frameEnd - origin == |rs| * samples + Missing(rs)
      && last.bufferSequence == |rs| - 1 + Skipped(rs, samples)
      && last.bufferSequence * samples + samples <= last.frameEnd - origin
      && last.frameEnd <= UINT64_MAX
  }

  lemma WholeFrames(missing: nat, samples: nat)
    requires 0 < samples
    ensures missing / samples * samples <= missing
  {
  }

  lemma AddFrames(a: nat, b: nat, samples: nat)
    ensures (a + 1 + b) * samples == a * samples + samples + b * samples
  {
  }

  lemma FrameBound(n: nat, samples: nat, room: nat)
    requires 0 < samples && n * samples + samples <= room
    ensures n < room
  {
    assert n <= n * samples;
  }

  /** Where the accepted frame before `first`, if any, left the sequence: the overflow check
      behind it can never fire. */
  lemma NextAccounted(rs: seq<Result>, origin: nat, first: nat, samples: nat)
    requires 0 < samples && (forall r :: r in rs ==> r.Resolved?) && Accounted(rs, origin, samples)
    requires rs == [] ==> origin == first
    ensures Resolve(After(rs), first, samples) != Refused(-EOVERFLOW)
    ensures var r := Resolve(After(rs), first, samples);
            r.Resolved? ==> Accounted(rs + [r], origin, samples)
  {
    if rs != [] && rs[|rs| - 1].frameEnd <= first && first + samples <= UINT64_MAX {
      NextFrame(rs, origin, first, samples);
    } else if rs == [] {
      var r := Resolve(Fresh, first, samples);
      assert [r][..0] == [];
    }
  }

  lemma NextFrame(rs: seq<Result>, origin: nat, first: nat, samples: nat)
    requires 0 < samples && (forall r :: r in rs ==> r.Resolved?) && Accounted(rs, origin, samples)
    requires rs != [] && rs[|rs| - 1].frameEnd <= first && first + samples <= UINT64_MAX
    ensures var r := Resolve(After(rs), first, samples);
            r.Resolved? && Accounted(rs + [r], origin, samples)
  {
    var last := rs[|rs| - 1];
    var missing := first - last.frameEnd;
    var skipped := missing / samples;
    var number := last.bufferSequence + 1 + skipped;
    assert number < first + samples - origin && number * samples + samples <= first + samples - origin by {
      NumberFits(last.bufferSequence, missing, samples, last.frameEnd - origin);
    }
    AddFrames(|rs|, 0, samples);
    OneMoreResult(rs, Resolved(number, missing, first + samples), samples);
  }

  lemma NumberFits(before: nat, missing: nat, samples: nat, span: nat)
    requires 0 < samples && before * samples + samples <= span
    ensures var number := before + 1 + missing / samples;
            number * samples + samples <= span + missing + samples && number < span + missing + samples
  {
    var skipped := missing / samples;
    WholeFrames(missing, samples);
    AddFrames(before, skipped, samples);
    FrameBound(before + 1 + skipped, samples, span + missing + samples);
  }

  lemma OneMoreResult(rs: seq<Result>, r: Result, samples: nat)
    requires 0 < samples && r.Resolved? && forall r :: r in rs ==> r.Resolved?
    ensures (forall q :: q in rs + [r] ==> q.Resolved?)
    ensures Missing(rs + [r]) == Missing(rs) + r.missing
    ensures Skipped(rs + [r], samples) == Skipped(rs, samples) + r.missing / samples
  {
    assert (rs + [r])[..|rs|] == rs;
  }

  /** Where the first accepted frame of a run begins. */
  function Origin(firsts: seq<nat>, samples: nat): nat {
    if firsts == [] then 0
    else if Accepted(firsts[..|firsts| - 1], samples) == [] then firsts[|firsts| - 1]
    else Origin(firsts[..|firsts| - 1], samples)
  }

  /** Over any run of attempts with one frame size, gaps, repeats and refusals included: the
      accepted frames and the samples declared missing cover exactly the span from the first
      start to the last end; each buffer number counts the frames before it and the whole frames
      lost in each gap, and is never more than the samples elapsed allow. */
  lemma {:induction false} RunAccounted(firsts: seq<nat>, samples: nat)
    requires 0 < samples
    ensures Accounted(Accepted(firsts, samples), Origin(firsts, samples), samples)
  {
    if firsts != [] {
      var n := |firsts| - 1;
      RunAccounted(firsts[..n], samples);
      NextAccounted(Accepted(firsts[..n], samples), Origin(firsts, samples), firsts[n], samples);
    }
  }

  /** From whatever was committed before: the number and the end of an accepted frame fit 64 bits, and
      both move on. */
  lemma ResolvedInRange(s: State, first: nat, samples: nat)
    ensures var r := Resolve(s, first, samples);
            && (samples == 0 ==> r == Refused(-EINVAL))
            && (r.Resolved? ==>
                  && 0 < samples && r.frameEnd == first + samples < 0x1_0000_0000_0000_0000
                  && (s.valid ==> s.previousFrameEnd + r.missing + samples == r.frameEnd)
                  && (s.valid ==> s.previousBufferSequence < r.bufferSequence < 0x1_0000_0000_0000_0000))
            && (r == Refused(-EOVERFLOW) <==>
                  && 0 < samples && s.valid && s.previousFrameEnd <= first && first + samples <= UINT64_MAX
                  && s.previousBufferSequence + 1 + (first - s.previousFrameEnd) / samples >= 0x1_0000_0000_0000_0000)
  {
    if 0 < samples && s.valid && s.previousFrameEnd <= first {
      var missing: nat := first - s.previousFrameEnd;
      var skipped: nat := missing / samples;
      assert s.previousBufferSequence + 1 + skipped >= s.previousBufferSequence + 1;
    }
  }

  /** A frame is refused if and only if it wraps the counter or overlaps the one before; its number
      never overflows. */
  lemma RefusedIffOverlaps(firsts: seq<nat>, first: nat, samples: nat)
    requires 0 < samples
    ensures var s := After(Accepted(firsts, samples));
            var r := Resolve(s, first, samples);
            && (r.Refused? <==>
                  0x1_0000_0000_0000_0000 <= first + samples || (s.valid && first < s.previousFrameEnd))
            && (r.Refused? ==> r.error == if 0x1_0000_0000_0000_0000 <= first + samples then -EINVAL else -ERANGE)
  {
    RunAccounted(firsts, samples);
    var rs := Accepted(firsts, samples);
    NextAccounted(rs, if rs == [] then first else Origin(firsts, samples), first, samples);
  }

  // ---------------------------------------------------------------------------------------
  // Where a capture first lost samples

  /** The sample accounting of `struct iiod_ddr_ring_core`; a missing value is a flag not set. */
  datatype Continuity = Continuity(expected: Option<nat>, lastContiguous: Option<nat>,
                                   firstUnavailable: Option<nat>, broken: bool)

  const Unseen := Continuity(None, None, None, false)

  function Marked(c: Continuity, observed: nat): Continuity {
    if c.firstUnavailable.Some? then c
    else c.(firstUnavailable := Some(if c.expected.Some? then c.expected.value else observed), broken := true)
  }

  function Observed(c: Continuity, first: nat, samples: nat): Continuity {
    var marked := if c.expected.Some? && first != c.expected.value then Marked(c, first) else c;
    var end := first + samples;
    marked.(lastContiguous := if marked.broken then marked.lastContiguous else Some(end), expected := Some(end))
  }

  class SampleWatch {
    var c: Continuity

    constructor ()
      ensures c == Unseen
    {
      c := Unseen;
    }

    /** `iiod_ddr_ring_core_mark_unavailable`. */
    method MarkUnavailable(observed: nat)
      modifies this
      ensures c == Marked(old(c), observed)
    {
      if c.firstUnavailable.None? {
        c := c.(firstUnavailable := if c.expected.Some? then c.expected else Some(observed), broken := true);
      }
    }

    /** `iiod_ddr_ring_core_observe_samples`. */
    method ObserveSamples(first: nat, samples: nat) returns (ret: int)
      modifies this
      ensures ret == if samples == 0 then -EINVAL else if first + samples > UINT64_MAX then -EOVERFLOW else 0
      ensures c == if ret == 0 then Observed(old(c), first, samples) else old(c)
    {
      if samples == 0 {
        return -EINVAL;
      }
      if first + samples > UINT64_MAX {
        return -EOVERFLOW;
      }
      if c.expected.Some? && first != c.expected.value {
        MarkUnavailable(first);
      }
      if !c.broken {
        c := c.(lastContiguous := Some(first + samples));
      }
      c := c.(expected := Some(first + samples));
      return 0;
    }
  }

  function Watch(firsts: seq<nat>, samples: nat): Continuity {
    if firsts == [] then Unseen
    else Observed(Watch(firsts[..|firsts| - 1], samples), firsts[|firsts| - 1], samples)
  }

  /** Each of the first `k` frames but the first starts where the one before it ended. */
  predicate GapFree(firsts: seq<nat>, k: nat, samples: nat)
    requires k <= |firsts|
  {
    k <= 1 || (firsts[k - 1] == firsts[k - 2] + samples && GapFree(firsts, k - 1, samples))
  }

  /** The longest gap-free prefix: `firsts[k]`, if there is one, does not continue it. */
  predicate LongestGapFree(firsts: seq<nat>, k: nat, samples: nat) {
    && 0 < k <= |firsts| && GapFree(firsts, k, samples)
    && (k < |firsts| ==> firsts[k] != firsts[k - 1] + samples)
  }

  lemma {:induction false} GapFreeExtends(firsts: seq<nat>, n: nat, k: nat, samples: nat)
    requires k <= n <= |firsts|
    ensures GapFree(firsts[..n], k, samples) == GapFree(firsts, k, samples)
    decreases k
  {
    if k > 1 {
      GapFreeExtends(firsts, n, k - 1, samples);
    }
  }

  function PrefixLength(firsts: seq<nat>, samples: nat): nat
    decreases |firsts|
  {
    if |firsts| <= 1 then |firsts|
    else
      var n := |firsts| - 1;
      var k := PrefixLength(firsts[..n], samples);
      if k == n && firsts[n] == firsts[n - 1] + samples then n + 1 else k
  }

  lemma {:induction false} PrefixIsLongest(firsts: seq<nat>, samples: nat)
    requires firsts != []
    ensures LongestGapFree(firsts, PrefixLength(firsts, samples), samples)
    decreases |firsts|
  {
    var n := |firsts| - 1;
    if n > 0 {
      PrefixIsLongest(firsts[..n], samples);
      GapFreeExtends(firsts, n, PrefixLength(firsts[..n], samples), samples);
    }
  }

  /** After any frames, the watch reports the end of their longest gap-free prefix; a first
      unavailable sample is reported if and only if there is a gap, and it is that same end. */
  lemma {:induction false} WatchReportsPrefix(firsts: seq<nat>, samples: nat)
    requires firsts != []
    ensures var k, c := PrefixLength(firsts, samples), Watch(firsts, samples);
            && LongestGapFree(firsts, k, samples)
            && c.lastContiguous == Some(firsts[k - 1] + samples)
            && c.broken == (k < |firsts|)
            && c.firstUnavailable == (if k < |firsts| then c.lastContiguous else None)
            && c.expected == Some(firsts[|firsts| - 1] + samples)
    decreases |firsts|
  {
    var n := |firsts| - 1;
    PrefixIsLongest(firsts, samples);
    if n == 0 {
      assert Watch(firsts[..0], samples) == Unseen;
    } else {
      WatchReportsPrefix(firsts[..n], samples);
    }
  }
}
