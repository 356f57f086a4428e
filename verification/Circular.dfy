/** Windows of a circular buffer, read from a head position. */
module Circular {

  /** The position `i` places after `first`, round a buffer of `n`. */
  function Place(first: nat, i: nat, n: nat): nat
    requires first < n && i <= n
  {
    if first + i < n then first + i else first + i - n
  }

  lemma Scale(a: nat, b: nat, n: nat)
    requires a <= b
    ensures a * n <= b * n
  {
  }

  /** Both ways the source steps round a buffer land on `Place`. */
  lemma PlaceIsModulo(first: nat, i: nat, n: nat)
    requires first < n && i <= n
    ensures Place(first, i, n) == (first + i) % n
  {
    var x := first + i;
    var q, r := x / n, x % n;
    assert x == q * n + r && 0 <= r < n;
    if q >= 2 {
      Scale(2, q, n);
    }
  }

  /** The `count` elements of `s` from `first` on. */
  function Window<T>(s: seq<T>, first: nat, count: nat): (w: seq<T>)
    requires first < |s| && count <= |s|
    ensures |w| == count
    decreases count
  {
    if count == 0 then [] else Window(s, first, count - 1) + [s[Place(first, count - 1, |s|)]]
  }

  lemma {:induction false} WindowAt<T>(s: seq<T>, first: nat, count: nat, i: nat)
    requires first < |s| && i < count <= |s|
    ensures Window(s, first, count)[i] == s[Place(first, i, |s|)]
    decreases count
  {
    if i < count - 1 {
      WindowAt(s, first, count - 1, i);
    }
  }

  /** Two windows agree when their elements do. */
  lemma {:induction false} WindowSame<T>(s: seq<T>, t: seq<T>, first: nat, count: nat)
    requires first < |s| == |t| && count <= |s|
    requires forall i {:trigger Place(first, i, |s|)} :: 0 <= i < count ==>
               s[Place(first, i, |s|)] == t[Place(first, i, |s|)]
    ensures Window(s, first, count) == Window(t, first, count)
    decreases count
  {
    if count > 0 {
      WindowSame(s, t, first, count - 1);
    }
  }

  lemma WindowUpdate<T>(s: seq<T>, first: nat, count: nat, i: nat, v: T)
    requires first < |s| && i < count <= |s|
    ensures Window(s[Place(first, i, |s|) := v], first, count) == Window(s, first, count)[i := v]
  {
    var t := s[Place(first, i, |s|) := v];
    forall k | 0 <= k < count
      ensures Window(t, first, count)[k] == Window(s, first, count)[i := v][k]
    {
      WindowAt(s, first, count, k);
      WindowAt(t, first, count, k);
    }
  }

  /** Writing just past the window leaves it alone and extends it. */
  lemma WindowPush<T>(s: seq<T>, first: nat, count: nat, v: T)
    requires first < |s| && count < |s|
    ensures var t := s[Place(first, count, |s|) := v];
            Window(t, first, count) == Window(s, first, count) &&
            Window(t, first, count + 1) == Window(s, first, count) + [v]
  {
    WindowSame(s, s[Place(first, count, |s|) := v], first, count);
  }

  lemma WindowPop<T>(s: seq<T>, first: nat, count: nat)
    requires first < |s| && 0 < count <= |s|
    ensures Window(s, Place(first, 1, |s|), count - 1) == Window(s, first, count)[1..]
  {
    var next := Place(first, 1, |s|);
    forall k | 0 <= k < count - 1
      ensures Window(s, next, count - 1)[k] == Window(s, first, count)[1..][k]
    {
      WindowAt(s, next, count - 1, k);
      WindowAt(s, first, count, k + 1);
    }
  }

  lemma WindowPrefix<T>(s: seq<T>, first: nat, count: nat, keep: nat)
    requires first < |s| && keep <= count <= |s|
    ensures Window(s, first, keep) == Window(s, first, count)[..keep]
  {
    forall k | 0 <= k < keep
      ensures Window(s, first, keep)[k] == Window(s, first, count)[..keep][k]
    {
      WindowAt(s, first, keep, k);
      WindowAt(s, first, count, k);
    }
  }

  /** All of a buffer, from `first` on. */
  lemma WholeWindow<T>(s: seq<T>, first: nat)
    requires first < |s|
    ensures Window(s, first, |s|) == s[first..] + s[..first]
  {
    forall k | 0 <= k < |s|
      ensures Window(s, first, |s|)[k] == (s[first..] + s[..first])[k]
    {
      WindowAt(s, first, |s|, k);
    }
  }
}
