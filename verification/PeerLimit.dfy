/** The frame limit a peer advertises for READBUFMA (buffer.c, `validate_direct_peer_limit`). */
module PeerLimit {
  import opened Errno

  const UINT_MAX := 0xffff_ffff
  const LEGACY_LIMIT := 4096

  predicate IsDigit(c: char) {
    '0' <= c <= '9'
  }

  function DigitValue(c: char): nat
    requires IsDigit(c)
  {
    (c - '0') as nat
  }

  /** The number a string of digits denotes. */
  function Denotes(s: string): nat
    requires forall c :: c in s ==> IsDigit(c)
  {
    if s == "" then 0 else Denotes(s[..|s| - 1]) * 10 + DigitValue(s[|s| - 1])
  }

  lemma {:induction false} PrefixDenotesLess(s: string, k: nat)
    requires (forall c :: c in s ==> IsDigit(c)) && k <= |s|
    ensures (forall c :: c in s[..k] ==> IsDigit(c)) && Denotes(s[..k]) <= Denotes(s)
  {
    if k == |s| {
      assert s[..k] == s;
    } else {
      var n := |s| - 1;
      PrefixDenotesLess(s[..n], k);
      assert s[..n][..k] == s[..k];
    }
  }

  predicate IsDecimal(s: string) {
    forall c :: c in s ==> IsDigit(c)
  }

  /** A positive decimal that fits an unsigned int. */
  predicate ValidLimit(s: string) {
    IsDecimal(s) && 0 < Denotes(s) <= UINT_MAX
  }

  datatype Attribute = Missing | Advertised(value: string)

  predicate Acceptable(a: Attribute) {
    a.Missing? || ValidLimit(a.value)
  }

  function Limit(a: Attribute): nat
    requires Acceptable(a)
  {
    if a.Missing? then LEGACY_LIMIT else Denotes(a.value)
  }

  /** What the client tells a caller that wants to arm `frames` frames. */
  function Validated(a: Attribute, frames: nat): int {
    if !Acceptable(a) then -EINVAL else if frames > Limit(a) then -E2BIG else 0
  }

  /** A number as a server prints it. */
  function Printed(n: nat): (s: string)
    ensures s != ""
  {
    if n < 10 then ['0' + n as char] else Printed(n / 10) + ['0' + (n % 10) as char]
  }

  lemma {:induction false} PrintedDenotes(n: nat)
    ensures IsDecimal(Printed(n)) && Denotes(Printed(n)) == n
  {
    var last := '0' + (n % 10) as char;
    assert IsDigit(last) && DigitValue(last) == n % 10;
    if n < 10 {
      assert Printed(n) == [last] && Printed(n)[..0] == "";
    } else {
      PrintedDenotes(n / 10);
      assert Printed(n)[..|Printed(n)| - 1] == Printed(n / 10);
    }
  }

  /** The number a server advertises is the most that is accepted. Servers that advertise none accept
      4096; a zero, a number that is no unsigned int, and anything with another sign in it are refused. */
  lemma LimitIsAdvertised(n: nat, frames: nat, s: string, at: nat)
    requires at < |s| && (s[at] < '0' || '9' < s[at])
    ensures Validated(Advertised(Printed(n)), frames) ==
              if n == 0 || 0xffff_ffff < n then -EINVAL else if n < frames then -E2BIG else 0
    ensures Validated(Missing, frames) == if 4096 < frames then -E2BIG else 0
    ensures Validated(Advertised(""), frames) == Validated(Advertised(s), frames) == -EINVAL
  {
    PrintedDenotes(n);
    assert s[at] in s && !IsDigit(s[at]);
  }

  /** Digit by digit, stopping before an unsigned int would overflow. */
  method ValidateDirectPeerLimit(a: Attribute, frames: nat) returns (ret: int)
    ensures ret == Validated(a, frames)
  {
    var limit := LEGACY_LIMIT;
    if a.Advertised? {
      limit := 0;
      var p := 0;
      while p < |a.value|
        invariant 0 <= p <= |a.value|
        invariant IsDecimal(a.value[..p]) && limit == Denotes(a.value[..p]) <= UINT_MAX
      {
        var c := a.value[p];
        assert a.value[..p + 1] == a.value[..p] + [c];
        assert a.value[..p + 1][..p] == a.value[..p];
        if !IsDigit(c) || limit > (UINT_MAX - DigitValue(c)) / 10 {
          if IsDecimal(a.value) {
            PrefixDenotesLess(a.value, p + 1);
          }
          break;
        }
        limit := limit * 10 + DigitValue(c);
        p := p + 1;
      }
      if p < |a.value| || limit == 0 {
        assert p == |a.value| ==> a.value[..p] == a.value;
        return -EINVAL;
      }
      assert a.value[..p] == a.value;
    }
    if frames > limit {
      return -E2BIG;
    }
    return 0;
  }
}
