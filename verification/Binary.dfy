/** Powers of two, and byte strings as little-endian numbers. */
module Binary {
  import opened Octets

  function Pow2(n: nat): (p: nat)
    ensures 0 < p
  {
    if n == 0 then 1 else 2 * Pow2(n - 1)
  }

  lemma {:induction false} Pow2Add(a: nat, b: nat)
    ensures Pow2(a + b) == Pow2(a) * Pow2(b)
  {
    if a > 0 {
      Pow2Add(a - 1, b);
      assert Pow2(a + b) == 2 * Pow2(a - 1 + b);
      Times(2, Pow2(a - 1), Pow2(b));
    }
  }

  lemma Times(a: nat, b: nat, c: nat)
    ensures a * b * c == a * (b * c)
  {
  }

  lemma {:induction false} Pow2Grows(a: nat, b: nat)
    requires a <= b
    ensures Pow2(a) <= Pow2(b)
  {
    if a < b {
      Pow2Grows(a, b - 1);
    }
  }

  // ---------------------------------------------------------------------------------------
  // Division

  lemma Distribute(a: int, b: int, d: int)
    ensures (a + b) * d == a * d + b * d
  {
  }

  lemma AtLeastOnce(k: int, d: int)
    requires 1 <= k && 0 < d
    ensures d <= k * d
  {
  }

  lemma NotAbove(q: int, q': int, r: int, r': int, d: int)
    requires 0 < d && q * d + r == q' * d + r' && 0 <= r < d && 0 <= r' < d
    ensures q <= q'
  {
    if q > q' {
      Distribute(q', q - q', d);
      AtLeastOnce(q - q', d);
    }
  }

  lemma DivUnique(n: int, d: int, q: int, r: int)
    requires 0 < d && n == q * d + r && 0 <= r < d
    ensures n / d == q && n % d == r
  {
    var q', r' := n / d, n % d;
    assert q' * d + r' == n;
    NotAbove(q, q', r, r', d);
    NotAbove(q', q, r', r, d);
  }

  lemma DivTwice(n: nat, a: nat, b: nat)
    requires 0 < a && 0 < b
    ensures 0 < a * b && n / a / b == n / (a * b)
  {
    AtLeastOnce(a, b);
    DivParts(n, a, b, n / a, n % a, n / a / b, n / a % b);
  }

  lemma DivParts(n: nat, a: nat, b: nat, q: nat, r: nat, q2: nat, r2: nat)
    requires 0 < a && 0 < b && 0 < a * b
    requires n == q * a + r && r < a && q == q2 * b + r2 && r2 < b
    ensures n / (a * b) == q2
  {
    Distribute(q2 * b, r2, a);
    Times(q2, b, a);
    Distribute(r2, 1, a);
    Monotone(r2 + 1, b, a);
    DivUnique(n, a * b, q2, r2 * a + r);
  }

  lemma Monotone(a: int, b: int, d: int)
    requires a <= b && 0 <= d
    ensures a * d <= b * d
  {
  }

  /** The remainder of a number whose last digit, in base `d`, is `low`. */
  lemma ModDigit(low: nat, high: nat, d: nat, m: nat)
    requires low < d && 0 < m
    ensures 0 < d * m && (low + d * high) % (d * m) == low + d * (high % m)
  {
    var q, r := high / m, high % m;
    assert d * high == q * (d * m) + d * r by {
      assert high == q * m + r;
      assert d * high == d * (q * m) + d * r;
      assert d * (q * m) == q * (d * m);
    }
    assert d * r + d <= d * m by {
      assert d * (r + 1) <= d * m;
    }
    DivUnique(low + d * high, d * m, q, low + d * r);
  }

  lemma ModOfSmall(n: nat, m: nat)
    requires n < m
    ensures n % m == n && n / m == 0
  {
  }

  // ---------------------------------------------------------------------------------------
  // Numbers

  /** The number `s` denotes, lowest byte first. */
  function Num(s: seq<byte>): nat {
    if s == [] then 0 else s[0] + 256 * Num(s[1..])
  }

  lemma {:induction false} NumBound(s: seq<byte>)
    ensures Num(s) < Pow2(8 * |s|)
  {
    if s != [] {
      NumBound(s[1..]);
      EightBits(|s| - 1);
    }
  }

  lemma EightBits(n: nat)
    ensures Pow2(8 * (n + 1)) == 256 * Pow2(8 * n)
  {
    Pow2Add(8, 8 * n);
    assert Pow2(8) == 256;
  }

  lemma {:induction false} NumSplit(s: seq<byte>, k: nat)
    requires k <= |s|
    ensures Num(s) == Num(s[..k]) + Pow2(8 * k) * Num(s[k..])
    decreases k
  {
    if k == 0 {
      assert s[0..] == s && s[..0] == [];
    } else {
      NumSplit(s[1..], k - 1);
      assert s[1..][..k - 1] == s[..k][1..] && s[1..][k - 1..] == s[k..];
      EightBits(k - 1);
      Times(256, Pow2(8 * (k - 1)), Num(s[k..]));
    }
  }

  lemma {:induction false} NumInjective(s: seq<byte>, t: seq<byte>)
    requires |s| == |t| && Num(s) == Num(t)
    ensures s == t
  {
    if s != [] {
      NumInjective(s[1..], t[1..]);
      assert s == [s[0]] + s[1..] && t == [t[0]] + t[1..];
    }
  }

  function Zeros(n: nat): (s: seq<byte>)
    ensures |s| == n
  {
    if n == 0 then [] else [0] + Zeros(n - 1)
  }

  lemma {:induction false} NumZeros(n: nat)
    ensures Num(Zeros(n)) == 0
  {
    if n > 0 {
      NumZeros(n - 1);
    }
  }

  lemma NumAppendZeros(s: seq<byte>, k: nat)
    ensures Num(s + Zeros(k)) == Num(s)
  {
    var t := s + Zeros(k);
    NumSplit(t, |s|);
    assert t[..|s|] == s && t[|s|..] == Zeros(k);
    NumZeros(k);
    assert Pow2(8 * |s|) * 0 == 0;
  }

  lemma NumPrependZeros(k: nat, s: seq<byte>)
    ensures Num(Zeros(k) + s) == Pow2(8 * k) * Num(s)
  {
    var t := Zeros(k) + s;
    NumSplit(t, k);
    assert t[..k] == Zeros(k) && t[k..] == s;
    NumZeros(k);
  }

  lemma DivBound(n: nat, d: nat, k: nat)
    requires 0 < d && n < k * d
    ensures n / d < k
  {
    var q := n / d;
    assert n == q * d + n % d;
    if k <= q {
      Monotone(k, q, d);
    }
  }

  lemma DivOfSplit(n: nat, d: nat, high: nat, low: nat)
    requires low < d && n == low + d * high
    ensures n / d == high && n % d == low
  {
    DivUnique(n, d, high, low);
  }

  /** Cutting a byte string is dividing its number. */
  lemma CutBytes(s: seq<byte>, k: nat)
    requires k <= |s|
    ensures Num(s) / Pow2(8 * k) == Num(s[k..]) && Num(s) % Pow2(8 * k) == Num(s[..k])
  {
    NumSplit(s, k);
    NumBound(s[..k]);
    DivOfSplit(Num(s), Pow2(8 * k), Num(s[k..]), Num(s[..k]));
  }

  lemma ModScaled(n: nat, d: nat, m: nat)
    requires 0 < d && 0 < m
    ensures 0 < d * m && n * d % (d * m) == d * (n % m)
  {
    ModDigit(0, n, d, m);
    assert n * d == 0 + d * n;
  }

  lemma NumConcat(s: seq<byte>, t: seq<byte>)
    ensures Num(s + t) == Num(s) + Pow2(8 * |s|) * Num(t)
  {
    NumSplit(s + t, |s|);
    assert (s + t)[..|s|] == s && (s + t)[|s|..] == t;
  }

  function Ones(n: nat): (s: seq<byte>)
    ensures |s| == n
  {
    if n == 0 then [] else [255] + Ones(n - 1)
  }

  lemma {:induction false} NumOnes(n: nat)
    ensures Num(Ones(n)) == Pow2(8 * n) - 1
  {
    if n > 0 {
      NumOnes(n - 1);
      EightBits(n - 1);
    }
  }
}
