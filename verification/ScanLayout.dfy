/**
 Where the samples of each channel lie in a scan: the size of a scan as the device computes it
 (`iio_device_get_sample_size_mask`), the first sample of a channel as the buffer computes it
 (`iio_buffer_first`), and when the two agree.
 */
module ScanLayout {
  import opened Binary
  import opened Errno
  import opened Strides

  /** `index` is negative for a channel without a place in the scan; `length` is in bytes. */
  datatype Channel = Channel(index: int, length: nat)

  /** The channels in their order, and the bit of the mask for each. */
  datatype Scan = Scan(chs: seq<Channel>, mask: seq<bool>)

  /** What ordering the channels establishes: by index, those without one last. */
  ghost predicate Ordered(s: Scan) {
    && |s.mask| >= |s.chs|
    && (forall i, j :: 0 <= i < j < |s.chs| && 0 <= s.chs[j].index ==> 0 <= s.chs[i].index <= s.chs[j].index)
    && (forall i :: 0 <= i < |s.chs| ==> 0 < s.chs[i].length)
  }

  predicate Enabled(s: Scan, i: nat) {
    i < |s.chs| && i < |s.mask| && s.mask[i] && 0 <= s.chs[i].index
  }

  /** Enabled channels of one index share their samples. */
  ghost predicate Shared(s: Scan) {
    forall i: nat, j: nat :: Enabled(s, i) && Enabled(s, j) && s.chs[i].index == s.chs[j].index ==>
      s.chs[i].length == s.chs[j].length
  }

  function AlignUp(p: nat, length: nat): (r: nat)
    requires 0 < length
    ensures p <= r < p + length && (p % length == 0 ==> r == p)
  {
    if p % length == 0 then p else p + (length - p % length)
  }

  lemma Aligned(p: nat, length: nat)
    requires 0 < length
    ensures AlignUp(p, length) % length == 0
  {
    if p % length != 0 {
      NextMultiple(p, length);
    }
  }

  lemma NextMultiple(p: nat, length: nat)
    requires 0 < length
    ensures (p - p % length + length) % length == 0
  {
    var q, r := p / length, p % length;
    Distribute(q, 1, length);
    DivUnique(p - r + length, length, q + 1, 0);
  }

  // ---------------------------------------------------------------------------------------
  // The size of a scan

  /** The state of the loop: `prev` is the index of the last enabled channel, -1 before any. */
  datatype Walk = Walk(size: nat, largest: nat, prev: int)

  function Step(w: Walk, c: Channel): Walk
    requires 0 < c.length
  {
    if c.index == w.prev then w
    else Walk(AlignUp(w.size, c.length) + c.length, if c.length > w.largest then c.length else w.largest, c.index)
  }

  /** The loop over the first `n` channels, all with an index. */
  ghost function Walked(s: Scan, n: nat): (w: Walk)
    requires n <= |s.chs| && n <= |s.mask| && forall i :: 0 <= i < |s.chs| ==> 0 < s.chs[i].length
    ensures 0 < w.largest
  {
    if n == 0 then Walk(0, 1, -1)
    else if s.mask[n - 1] then Step(Walked(s, n - 1), s.chs[n - 1])
    else Walked(s, n - 1)
  }

  /** How many channels have an index. */
  ghost function Indexed(s: Scan, from: nat): (n: nat)
    requires from <= |s.chs|
    ensures from <= n <= |s.chs|
    ensures forall i :: from <= i < n ==> 0 <= s.chs[i].index
    ensures n < |s.chs| ==> s.chs[n].index < 0
    decreases |s.chs| - from
  {
    if from < |s.chs| && 0 <= s.chs[from].index then Indexed(s, from + 1) else from
  }

  ghost function ScanSize(s: Scan): nat
    requires Ordered(s)
  {
    var w := Walked(s, Indexed(s, 0));
    AlignUp(w.size, w.largest)
  }

  /** `iio_device_get_sample_size_mask`: the mask comes in words of 32 bits. */
  method GetSampleSize(s: Scan) returns (ret: int)
    requires forall i :: 0 <= i < |s.chs| ==> 0 < s.chs[i].length
    ensures |s.mask| != (|s.chs| + 31) / 32 * 32 ==> ret == -EINVAL
    ensures |s.mask| == (|s.chs| + 31) / 32 * 32 && Ordered(s) ==> ret == ScanSize(s)
  {
    if |s.mask| != (|s.chs| + 31) / 32 * 32 {
      return -EINVAL;
    }
    var w := Walk(0, 1, -1);
    var i := 0;
    while i < |s.chs| && 0 <= s.chs[i].index
      invariant 0 <= i <= |s.chs| && Indexed(s, i) == Indexed(s, 0)
      invariant w == Walked(s, i)
    {
      var c := s.chs[i];
      if s.mask[i] {
        if c.index != w.prev {
          var largest := if c.length > w.largest then c.length else w.largest;
          if w.size % c.length != 0 {
            w := Walk(w.size + (2 * c.length - w.size % c.length), largest, c.index);
          } else {
            w := Walk(w.size + c.length, largest, c.index);
          }
        }
      }
      i := i + 1;
    }
    ret := w.size;
    if w.size % w.largest != 0 {
      ret := w.size + (w.largest - w.size % w.largest);
    }
  }

  // ---------------------------------------------------------------------------------------
  // Where that size puts each channel

  /** The place of channel `i`: its own, or that of the enabled channel before it with its index. */
  ghost function Place(s: Scan, i: nat): int
    requires Ordered(s) && Enabled(s, i)
  {
    var w, c := Walked(s, i), s.chs[i];
    if c.index == w.prev then w.size - c.length else AlignUp(w.size, c.length)
  }

  /** The first enabled channel of the index that the loop saw last. */
  lemma {:induction false} FirstOfIndex(s: Scan, n: nat) returns (g: nat)
    requires Ordered(s) && n <= Indexed(s, 0) && Walked(s, n).prev >= 0
    ensures g < n && Enabled(s, g) && s.chs[g].index == Walked(s, n).prev != Walked(s, g).prev
    ensures Walked(s, n).size == AlignUp(Walked(s, g).size, s.chs[g].length) + s.chs[g].length
    decreases n
  {
    if s.mask[n - 1] && s.chs[n - 1].index != Walked(s, n - 1).prev {
      g := n - 1;
    } else {
      g := FirstOfIndex(s, n - 1);
    }
  }

  lemma {:induction false} SizeGrows(s: Scan, i: nat, n: nat)
    requires Ordered(s) && i <= n <= |s.chs|
    ensures Walked(s, i).size <= Walked(s, n).size && Walked(s, i).largest <= Walked(s, n).largest
    decreases n
  {
    if i < n {
      SizeGrows(s, i, n - 1);
    }
  }

  /** The place of a channel lies behind everything that was counted before the first enabled
      channel of its index, `g`, and ends where the count then stands. */
  lemma PlaceOf(s: Scan, i: nat) returns (g: nat)
    requires Ordered(s) && Shared(s) && Enabled(s, i)
    ensures g <= i && Enabled(s, g) && s.chs[g].index == s.chs[i].index != Walked(s, g).prev
    ensures Place(s, i) == AlignUp(Walked(s, g).size, s.chs[i].length)
    ensures Place(s, i) + s.chs[i].length == Walked(s, i + 1).size
  {
    IndexedBound(s, i);
    if s.chs[i].index == Walked(s, i).prev {
      g := FirstOfIndex(s, i);
    } else {
      g := i;
    }
  }

  lemma IndexedBound(s: Scan, i: nat)
    requires Ordered(s) && Enabled(s, i)
    ensures i < Indexed(s, 0)
  {
  }

  /** Every enabled channel lies at a multiple of its length, inside the scan. */
  lemma PlacesFit(s: Scan, i: nat)
    requires Ordered(s) && Shared(s) && Enabled(s, i)
    ensures 0 <= Place(s, i) && Place(s, i) % s.chs[i].length == 0
    ensures Place(s, i) + s.chs[i].length <= ScanSize(s)
  {
    var g := PlaceOf(s, i);
    Aligned(Walked(s, g).size, s.chs[i].length);
    IndexedBound(s, i);
    SizeGrows(s, i + 1, Indexed(s, 0));
  }

  /** Channels of different indexes do not overlap, and lie in the order of their indexes. */
  lemma PlacesApart(s: Scan, i: nat, j: nat)
    requires Ordered(s) && Shared(s) && Enabled(s, i) && Enabled(s, j) && s.chs[i].index < s.chs[j].index
    ensures Place(s, i) + s.chs[i].length <= Place(s, j)
  {
    var gi := PlaceOf(s, i);
    var gj := PlaceOf(s, j);
    assert i < gj;
    SizeGrows(s, i + 1, gj);
  }

  /** From one enabled channel to the next of its index, the loop keeps its count. */
  lemma {:induction false} PrevOfGroup(s: Scan, i: nat, j: nat)
    requires Ordered(s) && Enabled(s, i) && i < j <= |s.chs| && s.chs[j - 1].index == s.chs[i].index
    ensures Walked(s, j).prev == s.chs[i].index && Walked(s, j).size == Walked(s, i + 1).size
    decreases j
  {
    if i < j - 1 {
      PrevOfGroup(s, i, j - 1);
    }
  }

  lemma SameIndexSamePlace(s: Scan, i: nat, j: nat)
    requires Ordered(s) && Shared(s) && Enabled(s, i) && Enabled(s, j) && s.chs[i].index == s.chs[j].index && i <= j
    ensures Place(s, i) == Place(s, j)
  {
    if i < j {
      var g := PlaceOf(s, i);
      PrevOfGroup(s, i, j);
    }
  }

  // ---------------------------------------------------------------------------------------
  // No scan could be smaller

  /** Any way to place the enabled channels in the order of their indexes, each at a multiple of
      its length. */
  ghost predicate Placing(s: Scan, f: nat -> nat) {
    && (forall i: nat :: Enabled(s, i) && 0 < s.chs[i].length ==> f(i) % s.chs[i].length == 0)
    && (forall i: nat, j: nat :: Enabled(s, i) && Enabled(s, j) && s.chs[i].index < s.chs[j].index ==>
          f(i) + s.chs[i].length <= f(j))
  }

  /** The largest length of an enabled channel, 1 without any. */
  ghost predicate IsLargest(s: Scan, largest: nat) {
    && (forall i: nat :: Enabled(s, i) ==> s.chs[i].length <= largest)
    && (largest == 1 || exists i: nat :: Enabled(s, i) && s.chs[i].length == largest)
  }

  lemma MultipleAbove(a: nat, r: nat, b: nat, length: nat)
    requires 0 < r < length && a * length + r <= b * length
    ensures a * length + length <= b * length
  {
    if b <= a {
      Monotone(b, a, length);
    } else {
      Monotone(a + 1, b, length);
      Distribute(a, 1, length);
    }
  }

  lemma AlignIsLeast(p: nat, length: nat, q: nat)
    requires 0 < length && p <= q && q % length == 0
    ensures AlignUp(p, length) <= q
  {
    if p % length != 0 {
      MultipleAbove(p / length, p % length, q / length, length);
    }
  }

  lemma {:induction false} NothingBefore(s: Scan, n: nat)
    requires Ordered(s) && n <= Indexed(s, 0) && Walked(s, n).prev < 0
    ensures Walked(s, n).size == 0
  {
    if n > 0 {
      NothingBefore(s, n - 1);
    }
  }

  /** What is counted before the first channel of an index fits below that index wherever it is. */
  lemma {:induction false} CountIsLeast(s: Scan, f: nat -> nat, g: nat, i: nat)
    requires Ordered(s) && Shared(s) && Placing(s, f) && Enabled(s, g) && Enabled(s, i)
    requires s.chs[g].index == s.chs[i].index != Walked(s, g).prev
    ensures AlignUp(Walked(s, g).size, s.chs[i].length) <= f(i)
    decreases g
  {
    IndexedBound(s, g);
    if Walked(s, g).prev < 0 {
      NothingBefore(s, g);
    } else {
      var h := FirstOfIndex(s, g);
      CountIsLeast(s, f, h, h);
    }
    AlignIsLeast(Walked(s, g).size, s.chs[i].length, f(i));
  }

  /** No way of placing the channels gives any of them a lower place. */
  lemma PlacesAreLeast(s: Scan, f: nat -> nat, i: nat)
    requires Ordered(s) && Shared(s) && Placing(s, f) && Enabled(s, i)
    ensures Place(s, i) <= f(i)
  {
    var g := PlaceOf(s, i);
    CountIsLeast(s, f, g, i);
  }

  lemma {:induction false} LargestSoFar(s: Scan, n: nat)
    requires Ordered(s) && Shared(s) && n <= Indexed(s, 0)
    ensures var largest := Walked(s, n).largest;
            && (forall i: nat :: i < n && Enabled(s, i) ==> s.chs[i].length <= largest)
            && (largest == 1 || exists i: nat :: Enabled(s, i) && s.chs[i].length == largest)
  {
    if n > 0 {
      LargestSoFar(s, n - 1);
      if Enabled(s, n - 1) && s.chs[n - 1].index == Walked(s, n - 1).prev {
        var g := FirstOfIndex(s, n - 1);
      }
    }
  }

  lemma LargestIsUnique(s: Scan, largest: nat)
    requires Ordered(s) && Shared(s) && IsLargest(s, largest)
    ensures Walked(s, Indexed(s, 0)).largest == largest
  {
    var n := Indexed(s, 0);
    LargestSoFar(s, n);
    assert forall i: nat :: Enabled(s, i) ==> i < n by {
      forall i: nat | Enabled(s, i) ensures i < n {
        IndexedBound(s, i);
      }
    }
  }

  /** The size of a scan is the least multiple of the largest length that holds the channels,
      however they are placed. */
  lemma ScanSizeIsLeast(s: Scan, f: nat -> nat, size: nat, largest: nat)
    requires Ordered(s) && Shared(s) && Placing(s, f) && IsLargest(s, largest) && 0 < largest
    requires size % largest == 0 && forall i: nat :: Enabled(s, i) ==> f(i) + s.chs[i].length <= size
    ensures ScanSize(s) <= size && ScanSize(s) % largest == 0
  {
    var n := Indexed(s, 0);
    LargestIsUnique(s, largest);
    if Walked(s, n).prev < 0 {
      NothingBefore(s, n);
    } else {
      var g := FirstOfIndex(s, n);
      CountIsLeast(s, f, g, g);
    }
    AlignIsLeast(Walked(s, n).size, largest, size);
    Aligned(Walked(s, n).size, largest);
  }

  // ---------------------------------------------------------------------------------------
  // Where the buffer looks for it

  /** `iio_buffer_first`'s loop over the first `n` channels: an index counts if its first channel,
      enabled or not, is enabled. */
  ghost function Skimmed(s: Scan, n: nat): (p: nat)
    requires Ordered(s) && n <= |s.chs|
  {
    if n == 0 then 0
    else if s.mask[n - 1] && (n == 1 || s.chs[n - 1].index != s.chs[n - 2].index) then
      AlignUp(Skimmed(s, n - 1), s.chs[n - 1].length) + s.chs[n - 1].length
    else Skimmed(s, n - 1)
  }

  /** The first channel with the index of channel `i`. */
  ghost function Leader(s: Scan, i: nat): (l: nat)
    requires Ordered(s) && i < |s.chs| && 0 <= s.chs[i].index
    ensures l <= i && s.chs[l].index == s.chs[i].index && (l > 0 ==> s.chs[l - 1].index != s.chs[l].index)
  {
    if i > 0 && s.chs[i - 1].index == s.chs[i].index then Leader(s, i - 1) else i
  }

  ghost function First(s: Scan, i: nat): nat
    requires Ordered(s) && Enabled(s, i)
  {
    AlignUp(Skimmed(s, Leader(s, i)), s.chs[i].length)
  }

  lemma {:induction false} LeaderIsFirst(s: Scan, i: nat, k: nat)
    requires Ordered(s) && i < |s.chs| && 0 <= s.chs[i].index && k < Leader(s, i)
    ensures 0 <= s.chs[k].index < s.chs[i].index
  {
    var l := Leader(s, i);
    assert s.chs[k].index <= s.chs[l - 1].index <= s.chs[l].index;
  }

  /** `iio_buffer_first`, as an offset from the start of the buffer; `none` stands for its end. */
  method BufferFirst(s: Scan, i: nat, end: nat) returns (ptr: nat)
    requires Ordered(s) && i < |s.chs| && 0 <= s.chs[i].index
    ensures ptr == if s.mask[i] then First(s, i) else end
  {
    if !s.mask[i] {
      return end;
    }
    ptr := 0;
    var k := 0;
    while k < |s.chs| && 0 <= s.chs[k].index != s.chs[i].index
      invariant 0 <= k <= Leader(s, i)
      invariant ptr == Skimmed(s, k)
      decreases |s.chs| - k
    {
      var length := s.chs[k].length;
      if s.mask[k] && !(k > 0 && s.chs[k].index == s.chs[k - 1].index) {
        if ptr % length != 0 {
          ptr := ptr + (length - ptr % length);
        }
        ptr := ptr + length;
      }
      k := k + 1;
    }
    if k < Leader(s, i) {
      LeaderIsFirst(s, i, k);
    }
    if ptr % s.chs[i].length != 0 {
      ptr := ptr + (s.chs[i].length - ptr % s.chs[i].length);
    }
  }

  /** Every enabled channel before `n` has the first channel of its index enabled with it. */
  ghost predicate LedBelow(s: Scan, n: nat)
    requires Ordered(s) && n <= Indexed(s, 0)
  {
    n == 0 || (LedBelow(s, n - 1) && (s.mask[n - 1] ==> s.mask[Leader(s, n - 1)]))
  }

  lemma {:induction false} PrevIsSeen(s: Scan, n: nat)
    requires Ordered(s) && n <= Indexed(s, 0)
    ensures Walked(s, n).prev >= 0 ==> n > 0 && Walked(s, n).prev <= s.chs[n - 1].index
  {
    if n > 1 {
      PrevIsSeen(s, n - 1);
    }
  }

  /** The first channel of an index never meets its own index in the loop. */
  lemma LeaderIsNew(s: Scan, n: nat)
    requires Ordered(s) && n < Indexed(s, 0) && Leader(s, n) == n
    ensures Walked(s, n).prev != s.chs[n].index
  {
    PrevIsSeen(s, n);
    if n > 0 {
      LeaderIsFirst(s, n, n - 1);
    }
  }

  lemma {:induction false} SameLeader(s: Scan, i: nat, j: nat)
    requires Ordered(s) && i <= j < |s.chs| && 0 <= s.chs[i].index == s.chs[j].index
    ensures Leader(s, i) == Leader(s, j)
    decreases j
  {
    if i < j {
      SameLeader(s, i, j - 1);
    }
  }

  /** Where every index has its first channel enabled, both loops count the same. */
  lemma {:induction false} CountsAgree(s: Scan, n: nat)
    requires Ordered(s) && n <= Indexed(s, 0) && LedBelow(s, n)
    ensures Skimmed(s, n) == Walked(s, n).size
    decreases n
  {
    if n > 0 {
      CountsAgree(s, n - 1);
      if s.mask[n - 1] {
        if Leader(s, n - 1) == n - 1 {
          LeaderIsNew(s, n - 1);
        } else {
          PrevOfGroup(s, Leader(s, n - 1), n - 1);
        }
      }
    }
  }

  lemma {:induction false} NothingBetween(s: Scan, l: nat, g: nat)
    requires Ordered(s) && l <= g < |s.chs| && 0 <= s.chs[l].index == s.chs[g].index != Walked(s, g).prev
    ensures Walked(s, l).size == Walked(s, g).size
    decreases g
  {
    if l < g {
      assert s.chs[g - 1].index == s.chs[g].index;
      if !s.mask[g - 1] {
        NothingBetween(s, l, g - 1);
      }
    }
  }

  /** Nothing of an index is counted before its first channel. */
  lemma PlaceFromLeader(s: Scan, i: nat)
    requires Ordered(s) && Shared(s) && Enabled(s, i)
    ensures Place(s, i) == AlignUp(Walked(s, Leader(s, i)).size, s.chs[i].length)
  {
    var g := PlaceOf(s, i);
    SameLeader(s, g, i);
    NothingBetween(s, Leader(s, i), g);
  }

  /** The buffer finds a channel where the size calculation put it, if every index before it has its
      first channel enabled or is not enabled at all. */
  lemma FirstIsPlace(s: Scan, i: nat)
    requires Ordered(s) && Shared(s) && Enabled(s, i) && Leader(s, i) <= Indexed(s, 0)
    requires LedBelow(s, Leader(s, i))
    ensures First(s, i) == Place(s, i)
  {
    PlaceFromLeader(s, i);
    CountsAgree(s, Leader(s, i));
  }

  ghost predicate AllOf(s: Scan, length: nat) {
    forall i :: 0 <= i < |s.chs| ==> s.chs[i].length == length
  }

  /** What both loops do at channel `n`, with channels of one length. */
  lemma CountOneMore(s: Scan, n: nat, length: nat)
    requires Ordered(s) && 0 < length && AllOf(s, length) && n < Indexed(s, 0)
    requires Skimmed(s, n) % length == 0 && Walked(s, n).size % length == 0
    ensures Skimmed(s, n + 1) == Skimmed(s, n) + (if s.mask[n] && Leader(s, n) == n then length else 0)
    ensures Walked(s, n + 1).size ==
              Walked(s, n).size + (if s.mask[n] && s.chs[n].index != Walked(s, n).prev then length else 0)
    ensures Skimmed(s, n + 1) % length == 0 && Walked(s, n + 1).size % length == 0
  {
    OneMore(Skimmed(s, n), length);
    OneMore(Walked(s, n).size, length);
  }

  /** Whether the index of an enabled channel was counted before it. */
  lemma CountedBefore(s: Scan, n: nat)
    requires Ordered(s) && n < Indexed(s, 0) && s.mask[n]
    ensures Leader(s, n) == n ==> s.chs[n].index != Walked(s, n).prev
    ensures Leader(s, n) != n && s.mask[Leader(s, n)] ==> s.chs[n].index == Walked(s, n).prev
    ensures !s.mask[Leader(s, n)] && s.chs[n].index == Walked(s, n).prev ==> !LedBelow(s, n)
  {
    hide LedBelow;
    if Leader(s, n) == n {
      LeaderIsNew(s, n);
    } else if s.mask[Leader(s, n)] {
      PrevOfGroup(s, Leader(s, n), n);
    } else if Walked(s, n).prev == s.chs[n].index {
      Misled(s, n);
    }
  }

  lemma LedOneMore(s: Scan, n: nat)
    requires Ordered(s) && n < Indexed(s, 0)
    ensures LedBelow(s, n + 1) <==> LedBelow(s, n) && (s.mask[n] ==> s.mask[Leader(s, n)])
  {
    hide Leader;
  }

  lemma CountsGoOn(s: Scan, n: nat, length: nat)
    requires Ordered(s) && 0 < length && AllOf(s, length) && n < Indexed(s, 0)
    requires Skimmed(s, n) % length == 0 && Walked(s, n).size % length == 0 && Skimmed(s, n) <= Walked(s, n).size
    requires Skimmed(s, n) == Walked(s, n).size <==> LedBelow(s, n)
    ensures Skimmed(s, n + 1) % length == 0 && Walked(s, n + 1).size % length == 0
    ensures Skimmed(s, n + 1) <= Walked(s, n + 1).size
    ensures Skimmed(s, n + 1) == Walked(s, n + 1).size <==> LedBelow(s, n + 1)
  {
    hide AllOf, Enabled, Skimmed, Walked, LedBelow, Leader;
    CountOneMore(s, n, length);
    LedOneMore(s, n);
    if s.mask[n] {
      CountedBefore(s, n);
    }
  }

  /** With channels of one length, every index that is not counted shifts all later ones. */
  lemma {:induction false} CountsOfOneLength(s: Scan, n: nat, length: nat)
    requires Ordered(s) && 0 < length && AllOf(s, length) && n <= Indexed(s, 0)
    ensures Skimmed(s, n) % length == 0 && Walked(s, n).size % length == 0
    ensures Skimmed(s, n) <= Walked(s, n).size
    ensures Skimmed(s, n) == Walked(s, n).size <==> LedBelow(s, n)
    decreases n
  {
    hide Ordered, AllOf, Enabled, AlignUp, Leader;
    if n > 0 {
      CountsOfOneLength(s, n - 1, length);
      CountsGoOn(s, n - 1, length);
    }
  }

  lemma OneMore(p: nat, length: nat)
    requires 0 < length && p % length == 0
    ensures (p + length) % length == 0
  {
    NextMultiple(p, length);
  }

  /** An enabled channel of this index was seen, but its first one is not enabled. */
  lemma Misled(s: Scan, n: nat)
    requires Ordered(s) && n < Indexed(s, 0) && Walked(s, n).prev == s.chs[n].index && !s.mask[Leader(s, n)]
    ensures !LedBelow(s, n)
  {
    var g := FirstOfIndex(s, n);
    SameLeader(s, g, n);
    if LedBelow(s, n) {
      LedAt(s, g, n);
    }
  }

  lemma {:induction false} LedAt(s: Scan, g: nat, n: nat)
    requires Ordered(s) && g < n <= Indexed(s, 0) && LedBelow(s, n) && s.mask[g]
    ensures s.mask[Leader(s, g)]
    decreases n
  {
    if g < n - 1 {
      LedAt(s, g, n - 1);
    }
  }

  /** So for channels of one length the condition is exact. */
  lemma FirstIsPlaceExactly(s: Scan, i: nat, length: nat)
    requires Ordered(s) && 0 < length && AllOf(s, length) && Enabled(s, i) && Leader(s, i) <= Indexed(s, 0)
    ensures First(s, i) == Place(s, i) <==> LedBelow(s, Leader(s, i))
  {
    PlaceFromLeader(s, i);
    CountsOfOneLength(s, Leader(s, i), length);
  }

  /** An index whose first channel is not enabled is passed over whole. */
  lemma {:induction false} PassedOver(s: Scan, l: nat, n: nat)
    requires Ordered(s) && l < n <= |s.chs| && !s.mask[l] && 0 <= s.chs[l].index == s.chs[n - 1].index
    ensures Skimmed(s, n) == Skimmed(s, l)
    decreases n
  {
    if l < n - 1 {
      assert s.chs[n - 2].index == s.chs[l].index;
      PassedOver(s, l, n - 1);
    }
  }

  /** The channel of the next index is then looked for where the samples of this one begin. */
  lemma FirstSkipsAnIndex(s: Scan, i: nat)
    requires Ordered(s) && Enabled(s, i) && !s.mask[Leader(s, i)]
    requires Enabled(s, i + 1) && s.chs[i + 1].index != s.chs[i].index && s.chs[i + 1].length == s.chs[i].length
    ensures First(s, i + 1) == First(s, i)
  {
    PassedOver(s, Leader(s, i), i + 1);
  }

  /** Two channels share an index, and the second of them is enabled alone. */
  ghost predicate SecondAlone(s: Scan) {
    s == Scan([Channel(0, 2), Channel(0, 2), Channel(1, 2)], [false, true, true])
  }

  lemma SecondAloneIsSound(s: Scan)
    requires SecondAlone(s)
    ensures Ordered(s) && Shared(s) && |s.chs| == |s.mask| == 3
    ensures !s.mask[0] && s.mask[1] && s.mask[2] && s.chs[0] == s.chs[1] == Channel(0, 2) && s.chs[2] == Channel(1, 2)
  {
  }

  lemma FirstSkipsAnIndexHere(s: Scan, i: nat)
    requires SecondAlone(s) && i == 1
    ensures Ordered(s) && Shared(s) && Enabled(s, i) && Enabled(s, i + 1)
    ensures First(s, i + 1) == First(s, i) && Place(s, i) + 2 <= Place(s, i + 1)
  {
    hide SecondAlone, Shared, Walked, Skimmed, Place, First, ScanSize;
    SecondAloneIsSound(s);
    assert Leader(s, i) == 0;
    FirstSkipsAnIndex(s, i);
    PlacesApart(s, i, i + 1);
  }

  // ---------------------------------------------------------------------------------------
  // Alignment in every scan

  predicate IsPowerOf2(n: nat) {
    n == 1 || (0 < n && n % 2 == 0 && IsPowerOf2(n / 2))
  }

  lemma {:induction false} PowersDivide(a: nat, b: nat)
    requires IsPowerOf2(a) && IsPowerOf2(b) && a <= b
    ensures b % a == 0
  {
    if a > 1 {
      PowersDivide(a / 2, b / 2);
      Doubled(a / 2, b / 2);
    }
  }

  lemma Doubled(a: nat, b: nat)
    requires 0 < a && b % a == 0
    ensures 2 * b % (2 * a) == 0
  {
    var q := b / a;
    assert b == q * a;
    DivUnique(2 * b, 2 * a, q, 0);
  }

  lemma Through(n: nat, m: nat, d: nat)
    requires 0 < d && 0 < m && n % m == 0 && m % d == 0
    ensures n % d == 0
  {
    var q, r := n / m, m / d;
    assert n == q * m && m == r * d;
    Times(q, r, d);
    DivUnique(n, d, q * r, 0);
  }

  lemma SumOfMultiples(a: nat, b: nat, d: nat)
    requires 0 < d && a % d == 0 && b % d == 0
    ensures (a + b) % d == 0
  {
    Distribute(a / d, b / d, d);
    DivUnique(a + b, d, a / d + b / d, 0);
  }

  lemma {:induction false} LargestIsPower(s: Scan, n: nat)
    requires Ordered(s) && n <= |s.chs| && forall i :: 0 <= i < |s.chs| ==> IsPowerOf2(s.chs[i].length)
    ensures IsPowerOf2(Walked(s, n).largest)
    ensures forall i :: 0 <= i < n && s.mask[i] && s.chs[i].index != Walked(s, i).prev ==>
              s.chs[i].length <= Walked(s, n).largest
    decreases n
  {
    if n > 0 {
      LargestIsPower(s, n - 1);
    }
  }

  lemma {:induction false} ScansAligned(size: nat, k: nat, d: nat)
    requires 0 < d && size % d == 0
    ensures At(k, size) % d == 0
  {
    if k > 0 {
      ScansAligned(size, k - 1, d);
      SumOfMultiples(At(k - 1, size), size, d);
    }
  }

  /** With lengths that are powers of two, the samples of a channel are aligned in every scan. */
  lemma EveryScanAligned(s: Scan, i: nat, k: nat)
    requires Ordered(s) && Shared(s) && Enabled(s, i)
    requires forall i :: 0 <= i < |s.chs| ==> IsPowerOf2(s.chs[i].length)
    ensures 0 <= Place(s, i) && (At(k, ScanSize(s)) + Place(s, i)) % s.chs[i].length == 0
  {
    hide AlignUp, IsPowerOf2;
    var d, n := s.chs[i].length, Indexed(s, 0);
    var g := PlaceOf(s, i);
    LargestIsPower(s, n);
    assert s.chs[g].length <= Walked(s, n).largest;
    PowersDivide(d, Walked(s, n).largest);
    Aligned(Walked(s, n).size, Walked(s, n).largest);
    Through(ScanSize(s), Walked(s, n).largest, d);
    ScansAligned(ScanSize(s), k, d);
    PlacesFit(s, i);
    SumOfMultiples(At(k, ScanSize(s)), Place(s, i), d);
  }

  /** Two enabled channels with different indexes, found by the buffer, use different bytes. */
  lemma FoundApart(s: Scan, i: nat, j: nat)
    requires Ordered(s) && Shared(s) && Enabled(s, i) && Enabled(s, j) && s.chs[i].index != s.chs[j].index
    requires LedBelow(s, Indexed(s, 0))
    ensures First(s, i) + s.chs[i].length <= ScanSize(s) && First(s, j) + s.chs[j].length <= ScanSize(s)
    ensures First(s, i) + s.chs[i].length <= First(s, j) || First(s, j) + s.chs[j].length <= First(s, i)
  {
    LedBefore(s, Leader(s, i), Indexed(s, 0));
    LedBefore(s, Leader(s, j), Indexed(s, 0));
    FirstIsPlace(s, i);
    FirstIsPlace(s, j);
    PlacesFit(s, i);
    PlacesFit(s, j);
    if s.chs[i].index < s.chs[j].index {
      PlacesApart(s, i, j);
    } else {
      PlacesApart(s, j, i);
    }
  }

  lemma {:induction false} LedBefore(s: Scan, m: nat, n: nat)
    requires Ordered(s) && m <= n <= Indexed(s, 0) && LedBelow(s, n)
    ensures LedBelow(s, m)
    decreases n
  {
    if m < n {
      LedBefore(s, m, n - 1);
    }
  }
}
