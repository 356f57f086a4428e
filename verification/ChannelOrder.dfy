/**
 `reorder_channels`: the channels of a device are put in the order of their indexes, by swapping
 neighbours until nothing is left to swap, and then numbered.
 */
module ChannelOrder {

  /** `index` is negative for a channel that has no place in a scan. */
  datatype Key = Key(index: int, shift: nat)

  class Channel {
    const index: int
    const shift: nat
    var number: nat

    function Rank(): Key {
      Key(index, shift)
    }

    constructor (index: int, shift: nat)
      ensures this.index == index && this.shift == shift
    {
      this.index := index;
      this.shift := shift;
    }
  }

  /** Whether a channel with key `y`, found right behind one with key `x`, changes places with it. */
  predicate GoesBefore(y: Key, x: Key) {
    0 <= y.index && (x.index < 0 || x.index > y.index || (x.index == y.index && x.shift > y.shift))
  }

  /** Neither has to be before the other. */
  predicate Alike(x: Key, y: Key) {
    !GoesBefore(x, y) && !GoesBefore(y, x)
  }

  /** By index, then by shift; channels without an index last. */
  ghost predicate Sorted(s: seq<Channel>) {
    forall i, j :: 0 <= i < j < |s| ==> !GoesBefore(s[j].Rank(), s[i].Rank())
  }

  /** The channels whose keys are alike with `x`, in the order in which they come. */
  function AlikeWith(s: seq<Channel>, x: Key): seq<Channel> {
    if s == [] then []
    else if Alike(s[0].Rank(), x) then [s[0]] + AlikeWith(s[1..], x)
    else AlikeWith(s[1..], x)
  }

  ghost predicate Distinct(s: seq<Channel>) {
    forall i, j :: 0 <= i < j < |s| ==> s[i] != s[j]
  }

  // ---------------------------------------------------------------------------------------
  // One swap

  function Swapped(s: seq<Channel>, i: nat): (t: seq<Channel>)
    requires i + 1 < |s|
    ensures |t| == |s| && t[i] == s[i + 1] && t[i + 1] == s[i]
    ensures forall k :: 0 <= k < |s| && k != i && k != i + 1 ==> t[k] == s[k]
  {
    s[i := s[i + 1]][i + 1 := s[i]]
  }

  lemma SwapTail(s: seq<Channel>, i: nat)
    requires 0 < i && i + 1 < |s|
    ensures Swapped(s, i)[0] == s[0] && Swapped(s, i)[1..] == Swapped(s[1..], i - 1)
  {
  }

  lemma SwapHead(s: seq<Channel>)
    requires 1 < |s|
    ensures Swapped(s, 0)[1..] == [s[0]] + s[2..] && s[1..] == [s[1]] + s[2..]
    ensures Swapped(s, 0)[1..][1..] == s[2..] == s[1..][1..]
  {
  }

  /** Channels that are alike never pass each other. */
  lemma {:induction false} SwapKeepsAlike(s: seq<Channel>, i: nat, x: Key)
    requires i + 1 < |s| && GoesBefore(s[i + 1].Rank(), s[i].Rank())
    ensures AlikeWith(Swapped(s, i), x) == AlikeWith(s, x)
    decreases i
  {
    if i > 0 {
      SwapTail(s, i);
      SwapKeepsAlike(s[1..], i - 1, x);
    } else {
      SwapHead(s);
    }
  }

  /** How many of `t` go before a channel with key `x`. */
  function Ahead(t: seq<Channel>, x: Key): nat {
    if t == [] then 0 else (if GoesBefore(t[0].Rank(), x) then 1 else 0) + Ahead(t[1..], x)
  }

  /** The pairs in the wrong order. */
  function Inversions(s: seq<Channel>): nat {
    if s == [] then 0 else Ahead(s[1..], s[0].Rank()) + Inversions(s[1..])
  }

  lemma {:induction false} SwapKeepsAhead(s: seq<Channel>, i: nat, x: Key)
    requires i + 1 < |s|
    ensures Ahead(Swapped(s, i), x) == Ahead(s, x)
    decreases i
  {
    if i > 0 {
      SwapTail(s, i);
      SwapKeepsAhead(s[1..], i - 1, x);
    } else {
      SwapHead(s);
    }
  }

  /** Every swap puts exactly one pair right. */
  lemma {:induction false} SwapRemovesOne(s: seq<Channel>, i: nat)
    requires i + 1 < |s| && GoesBefore(s[i + 1].Rank(), s[i].Rank())
    ensures Inversions(Swapped(s, i)) == Inversions(s) - 1
    decreases i
  {
    if i > 0 {
      SwapTail(s, i);
      SwapRemovesOne(s[1..], i - 1);
      SwapKeepsAhead(s[1..], i - 1, s[0].Rank());
    } else {
      SwapHead(s);
    }
  }

  // ---------------------------------------------------------------------------------------
  // Whole passes

  /** Everything that stays the same while channels are swapped. */
  ghost predicate Rearranged(was: seq<Channel>, now: seq<Channel>) {
    && |now| == |was|
    && (Distinct(was) ==> Distinct(now))
    && multiset(now) == multiset(was)
    && (forall x: Key :: AlikeWith(now, x) == AlikeWith(was, x))
  }

  lemma SwapRearranges(was: seq<Channel>, now: seq<Channel>, i: nat)
    requires Rearranged(was, now) && i + 1 < |now| && GoesBefore(now[i + 1].Rank(), now[i].Rank())
    ensures Rearranged(was, Swapped(now, i))
  {
    forall x: Key ensures AlikeWith(Swapped(now, i), x) == AlikeWith(was, x) {
      SwapKeepsAlike(now, i, x);
    }
  }

  /** Neighbours in order are enough. */
  lemma {:induction false} SortedFromNeighbours(s: seq<Channel>, i: nat, j: nat)
    requires Settled(s, |s|)
    requires i < j < |s|
    ensures !GoesBefore(s[j].Rank(), s[i].Rank())
    decreases j
  {
    if i < j - 1 {
      SortedFromNeighbours(s, i, j - 1);
    }
  }

  method SwapNeighbours(channels: array<Channel>, i: nat, ghost was: seq<Channel>)
    requires 0 < i < channels.Length && GoesBefore(channels[i].Rank(), channels[i - 1].Rank())
    requires Rearranged(was, channels[..])
    modifies channels
    ensures channels[..] == Swapped(old(channels[..]), i - 1) && Rearranged(was, channels[..])
    ensures Inversions(channels[..]) == old(Inversions(channels[..])) - 1
  {
    SwapRearranges(was, channels[..], i - 1);
    SwapRemovesOne(channels[..], i - 1);
    ghost var swapped := Swapped(channels[..], i - 1);
    channels[i], channels[i - 1] := channels[i - 1], channels[i];
    assert channels[..] == swapped;
  }

  /** The first `n` channels have no neighbours in the wrong order. */
  ghost predicate Settled(s: seq<Channel>, n: nat) {
    forall k :: 0 < k < n && k < |s| ==> !GoesBefore(s[k].Rank(), s[k - 1].Rank())
  }

  method Sort(channels: array<Channel>)
    modifies channels
    ensures Settled(channels[..], channels.Length) && Rearranged(old(channels[..]), channels[..])
  {
    hide Rearranged, Inversions;
    ghost var was := channels[..];
    Unmoved(was);
    var found := true;
    while found
      invariant Rearranged(was, channels[..])
      invariant !found ==> Settled(channels[..], channels.Length)
      decreases Inversions(channels[..]), found
    {
      ghost var before := Inversions(channels[..]);
      found := false;
      var i := 1;
      while i < channels.Length
        invariant 1 <= i && Rearranged(was, channels[..])
        invariant if found then Inversions(channels[..]) < before else Inversions(channels[..]) == before
        invariant !found ==> Settled(channels[..], i)
      {
        var ch1, ch2 := channels[i - 1].index, channels[i].index;
        if ch1 == ch2 && ch1 >= 0 {
          ch1, ch2 := channels[i - 1].shift, channels[i].shift;
        }
        if ch2 >= 0 && (ch1 > ch2 || ch1 < 0) {
          SwapNeighbours(channels, i, was);
          found := true;
        }
        i := i + 1;
      }
    }
  }

  lemma Unmoved(s: seq<Channel>)
    ensures Rearranged(s, s)
  {
  }

  lemma SettledIsSorted(s: seq<Channel>)
    requires Settled(s, |s|)
    ensures Sorted(s)
  {
    forall i, j | 0 <= i < j < |s| ensures !GoesBefore(s[j].Rank(), s[i].Rank()) {
      SortedFromNeighbours(s, i, j);
    }
  }

  method ReorderChannels(channels: array<Channel>)
    requires Distinct(channels[..])
    modifies channels, channels[..]
    ensures Sorted(channels[..]) && Rearranged(old(channels[..]), channels[..])
    ensures forall i :: 0 <= i < channels.Length ==> channels[i].number == i
  {
    Sort(channels);
    ghost var sorted := channels[..];
    SettledIsSorted(sorted);
    SameMembers(old(channels[..]), sorted);
    for i := 0 to channels.Length
      invariant channels[..] == sorted
      invariant forall k :: 0 <= k < i ==> channels[k].number == k
    {
      assert sorted[i] in old(channels[..]);
      channels[i].number := i;
    }
  }

  lemma SameMembers(was: seq<Channel>, now: seq<Channel>)
    requires Rearranged(was, now) && Distinct(was)
    ensures Distinct(now) && forall i :: 0 <= i < |now| ==> now[i] in was
  {
    forall i | 0 <= i < |now| ensures now[i] in was {
      assert now[i] in multiset(now);
    }
  }

  // ---------------------------------------------------------------------------------------
  // What the order means

  /** As the computation of scans expects it: channels with an index first, by index. */
  lemma SortedByIndex(s: seq<Channel>, i: nat, j: nat)
    requires Sorted(s) && i < j < |s|
    ensures 0 <= s[j].index ==> 0 <= s[i].index <= s[j].index
    ensures 0 <= s[j].index == s[i].index ==> s[i].shift <= s[j].shift
  {
    assert !GoesBefore(s[j].Rank(), s[i].Rank());
  }

  /** The result is determined by what was there: two sorted arrangements that keep alike channels
      in their order are equal. */
  lemma {:induction false} SortedOnce(s: seq<Channel>, t: seq<Channel>)
    requires Sorted(s) && Sorted(t) && |s| == |t| && forall x: Key :: AlikeWith(s, x) == AlikeWith(t, x)
    ensures s == t
  {
    if s != [] {
      SameHead(s, t);
      forall x: Key ensures AlikeWith(s[1..], x) == AlikeWith(t[1..], x) {
        assert AlikeWith(s, x) == AlikeWith(t, x);
        if Alike(s[0].Rank(), x) {
          assert AlikeWith(s[1..], x) == AlikeWith(s, x)[1..] && AlikeWith(t[1..], x) == AlikeWith(t, x)[1..];
        }
      }
      SortedOnce(s[1..], t[1..]);
      assert s == [s[0]] + s[1..] && t == [t[0]] + t[1..];
    }
  }

  /** Nothing that goes before the first channel is anywhere in a sorted sequence. */
  lemma {:induction false} NoneBefore(s: seq<Channel>, x: Key)
    requires forall i :: 0 <= i < |s| ==> !Alike(s[i].Rank(), x)
    ensures AlikeWith(s, x) == []
  {
    if s != [] {
      NoneBefore(s[1..], x);
    }
  }

  lemma {:induction false} FirstAlike(s: seq<Channel>, x: Key) returns (i: nat)
    requires AlikeWith(s, x) != []
    ensures i < |s| && Alike(s[i].Rank(), x) && AlikeWith(s, x)[0] == s[i]
  {
    if Alike(s[0].Rank(), x) {
      i := 0;
    } else {
      var k := FirstAlike(s[1..], x);
      i := k + 1;
    }
  }

  lemma SameHead(s: seq<Channel>, t: seq<Channel>)
    requires Sorted(s) && Sorted(t) && s != [] && t != [] && forall x: Key :: AlikeWith(s, x) == AlikeWith(t, x)
    ensures s[0] == t[0]
  {
    var x, y := s[0].Rank(), t[0].Rank();
    assert AlikeWith(s, x) == AlikeWith(t, x) && AlikeWith(s, y) == AlikeWith(t, y);
    var i := FirstAlike(t, x);
    var j := FirstAlike(s, y);
    assert !GoesBefore(t[i].Rank(), t[0].Rank()) && !GoesBefore(s[j].Rank(), s[0].Rank());
    assert Alike(x, y);
    assert Alike(y, x);
  }
}
