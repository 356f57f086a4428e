/** Parts of sequences, and copying them into arrays. */
module Slices {

  function Part<T>(s: seq<T>, at: nat, length: nat): (r: seq<T>)
    requires at + length <= |s|
    ensures |r| == length
  {
    s[at..at + length]
  }

  /** `part` written over `was` from `at` on. */
  function Over<T>(was: seq<T>, at: nat, part: seq<T>): (now: seq<T>)
    requires at + |part| <= |was|
    ensures |now| == |was|
  {
    was[..at] + part + was[at + |part|..]
  }

  lemma OverFrom<T>(was: seq<T>, now: seq<T>, at: nat, part: seq<T>)
    requires at + |part| <= |was| == |now|
    requires now[..at] == was[..at] && now[at + |part|..] == was[at + |part|..]
    requires forall j :: 0 <= j < |part| ==> now[at + j] == part[j]
    ensures now == Over(was, at, part)
  {
    assert now[at..at + |part|] == part;
  }

  lemma OverParts<T>(was: seq<T>, at: nat, part: seq<T>)
    requires at + |part| <= |was|
    ensures var now := Over(was, at, part);
            now[..at] == was[..at] && Part(now, at, |part|) == part && now[at + |part|..] == was[at + |part|..]
  {
  }

  lemma OverTwice<T>(was: seq<T>, at: nat, a: seq<T>, b: seq<T>)
    requires |a| == |b| && at + |a| <= |was|
    ensures Over(Over(was, at, a), at, b) == Over(was, at, b) && Part(Over(was, at, a), at, |a|) == a
  {
  }

  /** memcpy. */
  method Copy<T>(dst: array<T>, at: nat, src: seq<T>)
    requires at + |src| <= dst.Length
    modifies dst
    ensures dst[..] == Over(old(dst[..]), at, src)
  {
    for i := 0 to |src|
      invariant dst[..at] == old(dst[..at]) && dst[at + |src|..] == old(dst[at + |src|..])
      invariant forall j :: 0 <= j < i ==> dst[at + j] == src[j]
    {
      dst[at + i] := src[i];
    }
    OverFrom(old(dst[..]), dst[..], at, src);
  }

  lemma PartOfPart<T>(s: seq<T>, at: nat, size: nat, from: nat, length: nat)
    requires at + size <= |s| && from + length <= size
    ensures Part(s, at + from, length) == Part(Part(s, at, size), from, length)
  {
    var whole, part := Part(s, at + from, length), Part(Part(s, at, size), from, length);
    forall j | 0 <= j < length ensures whole[j] == part[j] {
      assert part[j] == Part(s, at, size)[from + j] == s[at + from + j];
    }
  }

  lemma PartKept<T>(was: seq<T>, now: seq<T>, at: nat, length: nat, upto: nat)
    requires at + length <= upto <= |was| == |now| && was[..upto] == now[..upto]
    ensures Part(was, at, length) == Part(now, at, length)
  {
    PartOfPart(was, 0, upto, at, length);
    PartOfPart(now, 0, upto, at, length);
    assert Part(was, 0, upto) == was[..upto] && Part(now, 0, upto) == now[..upto];
  }

  lemma HeadOfHead<T>(was: seq<T>, now: seq<T>, upto: nat, at: nat)
    requires at <= upto <= |was| == |now| && was[..upto] == now[..upto]
    ensures was[..at] == now[..at]
  {
    PartKept(was, now, 0, at, upto);
    assert Part(was, 0, at) == was[..at] && Part(now, 0, at) == now[..at];
  }

  lemma TailPart<T>(was: seq<T>, now: seq<T>, from: nat, at: nat, length: nat)
    requires from <= at && at + length <= |was| == |now| && was[from..] == now[from..]
    ensures Part(was, at, length) == Part(now, at, length)
  {
    PartOfPart(was, from, |was| - from, at - from, length);
    PartOfPart(now, from, |was| - from, at - from, length);
    assert Part(was, from, |was| - from) == was[from..] && Part(now, from, |was| - from) == now[from..];
  }

  lemma TailOfTail<T>(was: seq<T>, now: seq<T>, from: nat, at: nat)
    requires from <= at <= |was| == |now| && was[from..] == now[from..]
    ensures was[at..] == now[at..]
  {
    TailPart(was, now, from, at, |was| - at);
    assert Part(was, at, |was| - at) == was[at..] && Part(now, at, |was| - at) == now[at..];
  }
}
