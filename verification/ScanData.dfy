/**
 `iio_channel_read_raw` and `iio_channel_write_raw`: the samples of one channel, picked out of the
 scans of a buffer and put back. A buffer holds a whole number of scans.
 */
module ScanData {
  import opened Slices
  import opened Strides
  import opened ScanLayout

  /** Scan after scan, `buf` has at `first` what `data` has one after the other. */
  predicate Holds<T(==)>(buf: seq<T>, data: seq<T>, first: nat, step: nat, length: nat, k: nat)
    requires first + length <= step && At(k, step) <= |buf| && At(k, length) <= |data|
  {
    k == 0 || (Holds(buf, data, first, step, length, k - 1) && HeldAt(buf, data, first, step, length, k - 1))
  }

  predicate HeldAt<T(==)>(buf: seq<T>, data: seq<T>, first: nat, step: nat, length: nat, k: nat)
    requires first + length <= step && At(k + 1, step) <= |buf| && At(k + 1, length) <= |data|
  {
    Part(buf, At(k, step) + first, length) == Part(data, At(k, length), length)
  }

  /** In each of the first `n` scans, only the bytes from `first` on may differ. */
  predicate Kept<T(==)>(was: seq<T>, now: seq<T>, first: nat, step: nat, length: nat, n: nat)
    requires first + length <= step && At(n, step) <= |was| && At(n, step) <= |now|
  {
    n == 0 || (Kept(was, now, first, step, length, n - 1) && KeptAt(was, now, first, step, length, n - 1))
  }

  predicate KeptAt<T(==)>(was: seq<T>, now: seq<T>, first: nat, step: nat, length: nat, n: nat)
    requires first + length <= step && At(n + 1, step) <= |was| && At(n + 1, step) <= |now|
  {
    && Part(now, At(n, step), first) == Part(was, At(n, step), first)
    && Part(now, At(n, step) + first + length, step - first - length) ==
       Part(was, At(n, step) + first + length, step - first - length)
  }

  // ---------------------------------------------------------------------------------------
  // What reading after writing gives

  lemma {:induction false} HoldsOnce<T>(buf: seq<T>, a: seq<T>, b: seq<T>, first: nat, step: nat, length: nat, k: nat)
    requires first + length <= step && At(k, step) <= |buf| && At(k, length) <= |a| && At(k, length) <= |b|
    requires Holds(buf, a, first, step, length, k) && Holds(buf, b, first, step, length, k)
    ensures a[..At(k, length)] == b[..At(k, length)]
    decreases k
  {
    if k > 0 {
      HoldsOnce(buf, a, b, first, step, length, k - 1);
      SplitLast(a, At(k - 1, length), length);
      SplitLast(b, At(k - 1, length), length);
    }
  }

  lemma SplitLast<T>(a: seq<T>, at: nat, length: nat)
    requires at + length <= |a|
    ensures a[..at + length] == a[..at] + Part(a, at, length)
  {
  }

  lemma {:induction false} HoldsLess<T>(buf: seq<T>, a: seq<T>, first: nat, step: nat, length: nat, j: nat, k: nat)
    requires first + length <= step && At(k, step) <= |buf| && At(k, length) <= |a| && j <= k
    requires Holds(buf, a, first, step, length, k)
    ensures At(j, step) <= |buf| && At(j, length) <= |a| && Holds(buf, a, first, step, length, j)
    decreases k
  {
    if j < k {
      HoldsLess(buf, a, first, step, length, j, k - 1);
    }
  }

  /** Ranges of a scan that do not meet. */
  predicate Apart(first: nat, length: nat, first': nat, length': nat) {
    first + length <= first' || first' + length' <= first
  }

  lemma OtherKeptAt<T>(was: seq<T>, now: seq<T>, data: seq<T>, first: nat, length: nat, step: nat,
                       first': nat, length': nat, k: nat)
    requires first + length <= step && first' + length' <= step && Apart(first, length, first', length')
    requires At(k + 1, step) <= |was| && At(k + 1, step) <= |now| && At(k + 1, length') <= |data|
    requires KeptAt(was, now, first, step, length, k) && HeldAt(was, data, first', step, length', k)
    ensures HeldAt(now, data, first', step, length', k)
  {
    var at := At(k, step);
    if first' + length' <= first {
      PartOfPart(was, at, first, first', length');
      PartOfPart(now, at, first, first', length');
    } else {
      var from, size := first + length, step - first - length;
      PartOfPart(was, at + from, size, first' - from, length');
      PartOfPart(now, at + from, size, first' - from, length');
    }
  }

  /** What another channel's samples are does not change. */
  lemma {:induction false} OtherKept<T>(was: seq<T>, now: seq<T>, data: seq<T>, first: nat, length: nat, step: nat,
                                        first': nat, length': nat, k: nat, n: nat)
    requires first + length <= step && first' + length' <= step && Apart(first, length, first', length') && k <= n
    requires At(n, step) <= |was| && At(n, step) <= |now| && At(k, length') <= |data| && At(k, step) <= |was|
    requires At(k, step) <= |now|
    requires Kept(was, now, first, step, length, n) && Holds(was, data, first', step, length', k)
    ensures Holds(now, data, first', step, length', k)
    decreases n
  {
    if k < n {
      SlotsApart(n - 1, n, step);
      OtherKept(was, now, data, first, length, step, first', length', k, n - 1);
    } else if k > 0 {
      OtherKept(was, now, data, first, length, step, first', length', k - 1, n - 1);
      OtherKeptAt(was, now, data, first, length, step, first', length', k - 1);
    }
  }

  // ---------------------------------------------------------------------------------------
  // The loops

  lemma Within(k: nat, n: nat, step: nat)
    requires k <= n && 0 < step
    ensures At(k, step) <= At(n, step) && (k < n ==> At(k + 1, step) == At(k, step) + step <= At(n, step))
  {
    if k < n {
      SlotsApart(k, n, step);
    }
  }

  lemma {:induction false} HoldsKept<T>(buf: seq<T>, was: seq<T>, now: seq<T>, first: nat, step: nat, length: nat,
                                        k: nat, upto: nat)
    requires first + length <= step && At(k, step) <= |buf| && At(k, length) <= upto <= |was| == |now|
    requires was[..upto] == now[..upto] && Holds(buf, was, first, step, length, k)
    ensures Holds(buf, now, first, step, length, k)
    decreases k
  {
    if k > 0 {
      HoldsKept(buf, was, now, first, step, length, k - 1, upto);
      PartKept(was, now, At(k - 1, length), length, upto);
    }
  }

  lemma HeldNext<T>(buf: seq<T>, was: seq<T>, now: seq<T>, first: nat, step: nat, length: nat, k: nat)
    requires first + length <= step && At(k + 1, step) <= |buf| && At(k + 1, length) <= |was| == |now|
    requires Holds(buf, was, first, step, length, k) && now[..At(k, length)] == was[..At(k, length)]
    requires Part(now, At(k, length), length) == Part(buf, At(k, step) + first, length)
    ensures Holds(buf, now, first, step, length, k + 1)
  {
    HoldsKept(buf, was, now, first, step, length, k, At(k, length));
  }

  /** `iio_channel_read_raw`, with `first` from `iio_buffer_first` and `n` scans in the buffer, whose
      data end at `end`. As many samples come out as there are and as fit; the rest of `dst` stays. */
  method ReadRaw<T(==)>(buf: seq<T>, first: nat, end: nat, step: nat, length: nat, dst: array<T>, ghost n: nat)
      returns (ret: nat, ghost k: nat)
    requires 0 < length && first + length <= step && end == At(n, step) <= |buf|
    modifies dst
    ensures k <= n && ret == At(k, length) <= dst.Length && (k == n || ret + length > dst.Length)
    ensures At(k, step) <= |buf| && Holds(buf, dst[..], first, step, length, k)
    ensures dst[ret..] == old(dst[ret..])
  {
    hide HeldAt, Over;
    var src_ptr := first;
    ret, k := 0, 0;
    ghost var orig := dst[..];
    Within(0, n, step);
    while src_ptr < end && ret + length <= dst.Length
      invariant k <= n && ret == At(k, length) <= dst.Length && src_ptr == At(k, step) + first
      invariant At(k, step) <= end && (src_ptr < end <==> k < n)
      invariant Holds(buf, dst[..], first, step, length, k)
      invariant dst[ret..] == orig[ret..]
      decreases dst.Length - ret
    {
      Within(k, n, step);
      Within(k + 1, n, step);
      ghost var was := dst[..];
      Copy(dst, ret, buf[src_ptr..src_ptr + length]);
      OverParts(was, ret, buf[src_ptr..src_ptr + length]);
      HeldNext(buf, was, dst[..], first, step, length, k);
      TailOfTail(orig, was, ret, ret + length);
      src_ptr, ret, k := src_ptr + step, ret + length, k + 1;
    }
  }

  lemma {:induction false} BufferKept<T>(was: seq<T>, now: seq<T>, src: seq<T>, first: nat, step: nat, length: nat,
                                         k: nat, upto: nat)
    requires first + length <= step && At(k, step) <= upto <= |was| == |now| && At(k, length) <= |src|
    requires was[..upto] == now[..upto] && Holds(was, src, first, step, length, k)
    ensures Holds(now, src, first, step, length, k)
    decreases k
  {
    if k > 0 {
      BufferKept(was, now, src, first, step, length, k - 1, upto);
      PartKept(was, now, At(k - 1, step) + first, length, upto);
    }
  }

  lemma {:induction false} StillKept<T>(orig: seq<T>, was: seq<T>, now: seq<T>, first: nat, step: nat, length: nat,
                                        k: nat, upto: nat)
    requires first + length <= step && At(k, step) <= upto <= |was| == |now| == |orig|
    requires was[..upto] == now[..upto] && Kept(orig, was, first, step, length, k)
    ensures Kept(orig, now, first, step, length, k)
    decreases k
  {
    if k > 0 {
      StillKept(orig, was, now, first, step, length, k - 1, upto);
      PartKept(was, now, At(k - 1, step), first, upto);
      PartKept(was, now, At(k - 1, step) + first + length, step - first - length, upto);
    }
  }

  /** The state after `iio_channel_write_raw` wrote `k` samples. */
  predicate Wrote<T(==)>(was: seq<T>, now: seq<T>, src: seq<T>, first: nat, step: nat, length: nat, k: nat) {
    && first + length <= step && |was| == |now| && At(k, step) <= |was| && At(k, length) <= |src|
    && Holds(now, src, first, step, length, k) && Kept(was, now, first, step, length, k)
    && now[At(k, step)..] == was[At(k, step)..]
  }

  /** One sample is written into scan `k`. */
  lemma WrittenNext<T>(orig: seq<T>, was: seq<T>, now: seq<T>, src: seq<T>, first: nat, step: nat, length: nat, k: nat)
    requires Wrote(orig, was, src, first, step, length, k)
    requires At(k + 1, step) <= |was| == |now| && At(k + 1, length) <= |src|
    requires now[..At(k, step) + first] == was[..At(k, step) + first]
    requires now[At(k, step) + first + length..] == was[At(k, step) + first + length..]
    requires Part(now, At(k, step) + first, length) == Part(src, At(k, length), length)
    ensures Wrote(orig, now, src, first, step, length, k + 1)
  {
    var at := At(k, step);
    HeadOfHead(was, now, at + first, at);
    BufferKept(was, now, src, first, step, length, k, at);
    StillKept(orig, was, now, first, step, length, k, at);
    WrittenKeeps(orig, was, now, first, step, length, k);
    TailOfTail(was, now, at + first + length, at + step);
    TailOfTail(orig, was, at, at + step);
  }

  lemma WrittenKeeps<T>(orig: seq<T>, was: seq<T>, now: seq<T>, first: nat, step: nat, length: nat, k: nat)
    requires first + length <= step && At(k + 1, step) <= |was| == |now| == |orig|
    requires was[At(k, step)..] == orig[At(k, step)..]
    requires now[..At(k, step) + first] == was[..At(k, step) + first]
    requires now[At(k, step) + first + length..] == was[At(k, step) + first + length..]
    ensures KeptAt(orig, now, first, step, length, k)
  {
    var at, rest := At(k, step), step - first - length;
    PartKept(was, now, at, first, at + first);
    TailPart(orig, was, at, at, first);
    TailPart(was, now, at + first + length, at + first + length, rest);
    TailPart(orig, was, at, at + first + length, rest);
  }

  /** `iio_channel_write_raw`: all bytes but those of the written samples stay. */
  method WriteRaw<T(==)>(buf: array<T>, first: nat, end: nat, step: nat, length: nat, src: seq<T>, ghost n: nat)
      returns (ret: nat, ghost k: nat)
    requires 0 < length && first + length <= step && end == At(n, step) <= buf.Length
    modifies buf
    ensures k <= n && ret == At(k, length) <= |src| && (k == n || ret + length > |src|)
    ensures Wrote(old(buf[..]), buf[..], src, first, step, length, k)
  {
    hide HeldAt, KeptAt, Over;
    var dst_ptr := first;
    ret, k := 0, 0;
    ghost var orig := buf[..];
    Within(0, n, step);
    assert Wrote(orig, buf[..], src, first, step, length, 0);
    hide Wrote;
    while dst_ptr < end && ret + length <= |src|
      invariant k <= n && ret == At(k, length) <= |src| && dst_ptr == At(k, step) + first
      invariant At(k, step) <= end && (dst_ptr < end <==> k < n)
      invariant Wrote(orig, buf[..], src, first, step, length, k)
      decreases |src| - ret
    {
      Within(k, n, step);
      Within(k + 1, n, step);
      ghost var was := buf[..];
      Copy(buf, dst_ptr, src[ret..ret + length]);
      OverParts(was, dst_ptr, src[ret..ret + length]);
      WrittenNext(orig, was, buf[..], src, first, step, length, k);
      dst_ptr, ret, k := dst_ptr + step, ret + length, k + 1;
    }
  }

  lemma {:induction false} KeptBeyond<T>(was: seq<T>, now: seq<T>, first: nat, step: nat, length: nat, k: nat, n: nat)
    requires first + length <= step && k <= n && At(n, step) <= |was| == |now| && At(k, step) <= |was|
    requires Kept(was, now, first, step, length, k) && was[At(k, step)..] == now[At(k, step)..]
    ensures Kept(was, now, first, step, length, n)
    decreases n
  {
    if k < n {
      if k < n - 1 {
        SlotsApart(k, n - 1, step);
      }
      KeptBeyond(was, now, first, step, length, k, n - 1);
      var at := At(n - 1, step);
      TailPart(was, now, At(k, step), at, first);
      TailPart(was, now, At(k, step), at + first + length, step - first - length);
    }
  }

  // ---------------------------------------------------------------------------------------
  // Write, then read

  /** Reading the channel gives what was written. */
  lemma ReadsBack<T>(was: seq<T>, now: seq<T>, src: seq<T>, dst: seq<T>, first: nat, step: nat, length: nat,
                     k: nat, j: nat)
    requires Wrote(was, now, src, first, step, length, k) && j <= k
    requires At(j, step) <= |now| && At(j, length) <= |dst| && Holds(now, dst, first, step, length, j)
    ensures At(j, length) <= |src| && dst[..At(j, length)] == src[..At(j, length)]
  {
    HoldsLess(now, src, first, step, length, j, k);
    HoldsOnce(now, src, dst, first, step, length, j);
  }

  lemma ApartRead<T>(was: seq<T>, now: seq<T>, src: seq<T>, before: seq<T>, after: seq<T>, first: nat, length: nat,
                     step: nat, first': nat, length': nat, k: nat, j: nat, n: nat)
    requires first' + length' <= step && Apart(first, length, first', length')
    requires k <= n && j <= n && At(n, step) <= |was| && Wrote(was, now, src, first, step, length, k)
    requires At(j, step) <= |was| && At(j, length') <= |before| && At(j, length') <= |after|
    requires Holds(was, before, first', step, length', j) && Holds(now, after, first', step, length', j)
    ensures before[..At(j, length')] == after[..At(j, length')]
  {
    hide Apart, HeldAt, KeptAt;
    KeptBeyond(was, now, first, step, length, k, n);
    OtherKept(was, now, before, first, length, step, first', length', j, n);
    HoldsOnce(now, before, after, first', step, length', j);
  }

  /** Reading any channel with another index gives what it gave before: channel `i` was written,
      `before` and `after` are what reading channel `c` gives. */
  lemma OthersRead<T>(s: Scan, i: nat, c: nat, was: seq<T>, now: seq<T>, src: seq<T>, before: seq<T>, after: seq<T>,
                      k: nat, j: nat, n: nat)
    requires Ordered(s) && Shared(s) && LedBelow(s, Indexed(s, 0)) && Enabled(s, i) && Enabled(s, c)
    requires s.chs[i].index != s.chs[c].index
    requires k <= n && j <= n && At(n, ScanSize(s)) <= |was|
    requires Wrote(was, now, src, First(s, i), ScanSize(s), s.chs[i].length, k)
    requires First(s, c) + s.chs[c].length <= ScanSize(s)
    requires At(j, ScanSize(s)) <= |was| && At(j, s.chs[c].length) <= |before| && At(j, s.chs[c].length) <= |after|
    requires Holds(was, before, First(s, c), ScanSize(s), s.chs[c].length, j)
    requires Holds(now, after, First(s, c), ScanSize(s), s.chs[c].length, j)
    ensures before[..At(j, s.chs[c].length)] == after[..At(j, s.chs[c].length)]
  {
    hide First, ScanSize, Ordered, Shared, LedBelow, Wrote, Holds;
    FoundApart(s, i, c);
    ApartRead(was, now, src, before, after, First(s, i), s.chs[i].length, ScanSize(s), First(s, c), s.chs[c].length,
              k, j, n);
  }
}
