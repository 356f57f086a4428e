/**
 Samples as channels store them (channel.c, on a little-endian host): the byte loops that shift,
 mask and sign-extend, against the arithmetic they stand for, and the two conversions built from
 them. A `|` of bytes without a common bit is written as their sum.
 */
module SampleCodec {
  import opened Octets
  import opened Binary

  // ---------------------------------------------------------------------------------------
  // Shifting by less than a byte

  /** `p` is 2 to the shift, `q` 2 to the rest of a byte. */
  predicate Halves(p: nat, q: nat) {
    0 < p && 0 < q && p * q == 256
  }

  lemma ShiftHalves(shift: nat)
    requires shift < 8
    ensures Halves(Pow2(shift), Pow2(8 - shift))
  {
    Pow2Add(shift, 8 - shift);
    assert Pow2(8) == 256;
  }

  // The operators on single bytes, one bit at a time.

  /** `x >> b`. */
  function Shr(x: byte, b: nat): byte
    decreases b
  {
    if b == 0 then x else Shr(x / 2, b - 1)
  }

  /** `x << b`, in a byte. */
  function Shl(x: byte, b: nat): byte
    decreases b
  {
    if b == 0 then x else Shl(x * 2 % 256, b - 1)
  }

  /** `x & ((1 << b) - 1)`. */
  function Low(x: byte, b: nat): (r: byte)
    ensures r <= x
    decreases b
  {
    if b == 0 then 0 else x % 2 + 2 * Low(x / 2, b - 1)
  }

  lemma {:induction false} ShrDivides(x: byte, b: nat)
    ensures Shr(x, b) == x / Pow2(b)
    decreases b
  {
    if b > 0 {
      ShrDivides(x / 2, b - 1);
      DivTwice(x, 2, Pow2(b - 1));
    }
  }

  lemma {:induction false} ShlMultiplies(x: byte, b: nat)
    ensures Shl(x, b) == x * Pow2(b) % 256
    decreases b
  {
    if b > 0 {
      ShlMultiplies(x * 2 % 256, b - 1);
      ModMultiply(x * 2, Pow2(b - 1), 256);
      Times(x, 2, Pow2(b - 1));
    }
  }

  lemma {:induction false} LowIsModulo(x: byte, b: nat)
    ensures Low(x, b) == x % Pow2(b)
    decreases b
  {
    if b > 0 {
      LowIsModulo(x / 2, b - 1);
      ModDigit(x % 2, x / 2, 2, Pow2(b - 1));
    }
  }

  /** A byte shifted right, and the bits shifted in from the byte above. */
  function RightByte(x: byte, above: byte, b: nat): (r: byte)
    requires b < 8
  {
    RightByteIs(x, above, b);
    Shr(x, b) + Shl(above, 8 - b)
  }

  lemma RightByteIs(x: byte, above: byte, b: nat)
    requires b < 8
    ensures Halves(Pow2(b), Pow2(8 - b))
    ensures Shr(x, b) + Shl(above, 8 - b) == x / Pow2(b) + above * Pow2(8 - b) % 256 < 256
  {
    ShiftHalves(b);
    ShrDivides(x, b);
    ShlMultiplies(above, 8 - b);
    RightBound(x, above, Pow2(b), Pow2(8 - b));
  }

  lemma RightBound(x: byte, above: byte, p: nat, q: nat)
    requires Halves(p, q)
    ensures above * q % 256 == above % p * q && 0 <= x / p < q && x / p + above * q % 256 < 256
  {
    var h, l := above / p, above % p;
    assert above * q == h * 256 + l * q by {
      assert above == h * p + l;
      Distribute(h * p, l, q);
      Times(h, p, q);
    }
    assert l * q + q <= 256 by {
      Distribute(l, 1, q);
      Monotone(l + 1, p, q);
    }
    DivUnique(above * q, 256, h, l * q);
    DivBound(x, p, q);
  }

  function RightBits(s: seq<byte>, b: nat): (r: seq<byte>)
    requires b < 8
    ensures |r| == |s|
  {
    if s == [] then [] else [RightByte(s[0], if |s| > 1 then s[1] else 0, b)] + RightBits(s[1..], b)
  }

  lemma RightCarry(x: byte, tail: nat, above: byte, p: nat, q: nat)
    requires Halves(p, q) && tail % 256 == above
    ensures (x + 256 * tail) / p == x / p + above * q % 256 + 256 * (tail / p)
  {
    RightBound(x, above, p, q);
    var h, l := tail / p, tail % p;
    assert l == above % p by {
      assert tail == 256 * (tail / 256) + above;
      ModOfMultiple(tail / 256, above, p, q);
    }
    Recombine(x / p, x % p, h, l, p, q);
    DivUnique(x + 256 * tail, p, x / p + l * q + 256 * h, x % p);
  }

  lemma Recombine(a: nat, r: nat, h: nat, l: nat, p: nat, q: nat)
    requires Halves(p, q)
    ensures a * p + r + 256 * (h * p + l) == (a + l * q + 256 * h) * p + r
  {
    Distribute(a + l * q, 256 * h, p);
    Distribute(a, l * q, p);
    Times(l, q, p);
    Times(256, h, p);
  }

  lemma ModOfMultiple(k: nat, low: nat, p: nat, q: nat)
    requires Halves(p, q) && low < 256
    ensures (256 * k + low) % p == low % p
  {
    assert 256 * k + low == (q * k + low / p) * p + low % p by {
      assert low == low / p * p + low % p;
      Distribute(q * k, low / p, p);
      Times(p, q, k);
      assert p * (q * k) == q * k * p;
    }
    DivUnique(256 * k + low, p, q * k + low / p, low % p);
  }

  lemma RightStep(x: byte, tail: nat, above: byte, b: nat)
    requires b < 8 && tail % 256 == above
    ensures (x + 256 * tail) / Pow2(b) == RightByte(x, above, b) + 256 * (tail / Pow2(b))
  {
    RightByteIs(x, above, b);
    RightCarry(x, tail, above, Pow2(b), Pow2(8 - b));
  }

  lemma LowestByte(s: seq<byte>)
    ensures Num(s) % 256 == if s != [] then s[0] else 0
  {
    if s != [] {
      DivOfSplit(Num(s), 256, Num(s[1..]), s[0]);
    }
  }

  /** Shifting right bytewise is dividing. */
  lemma {:induction false} RightBitsDivide(s: seq<byte>, b: nat)
    requires b < 8
    ensures Num(RightBits(s, b)) == Num(s) / Pow2(b)
  {
    if s != [] {
      var above: byte := if |s| > 1 then s[1] else 0;
      RightBitsDivide(s[1..], b);
      LowestByte(s[1..]);
      RightStep(s[0], Num(s[1..]), above, b);
      NumPrepend(RightByte(s[0], above, b), RightBits(s[1..], b));
    } else {
      ZeroOver(Pow2(b));
    }
  }

  lemma ZeroOver(d: nat)
    requires 0 < d
    ensures 0 / d == 0
  {
  }

  lemma NumPrepend(x: byte, s: seq<byte>)
    ensures Num([x] + s) == x + 256 * Num(s)
  {
    assert ([x] + s)[1..] == s;
  }

  /** A byte shifted left, and the bits shifted in from the byte below. */
  function LeftByte(x: byte, below: byte, b: nat): (r: byte)
    requires b < 8
  {
    LeftByteIs(x, below, b);
    Shl(x, b) + Shr(below, 8 - b)
  }

  lemma LeftByteIs(x: byte, below: byte, b: nat)
    requires b < 8
    ensures Halves(Pow2(b), Pow2(8 - b))
    ensures Shl(x, b) + Shr(below, 8 - b) == x * Pow2(b) % 256 + below / Pow2(8 - b) < 256
  {
    ShiftHalves(b);
    ShlMultiplies(x, b);
    ShrDivides(below, 8 - b);
    LeftBound(x, below, Pow2(b), Pow2(8 - b));
  }

  lemma LeftBound(x: byte, below: byte, p: nat, q: nat)
    requires Halves(p, q)
    ensures x * p % 256 == x % q * p && x * p / 256 == x / q && 0 <= below / q < p
    ensures x * p % 256 + below / q < 256
  {
    RightBound(below, x, q, p);
    var h, l := x / q, x % q;
    assert x * p == h * 256 + l * p by {
      assert x == h * q + l;
      Distribute(h * q, l, p);
      Times(h, q, p);
    }
    assert l * p + p <= 256 by {
      Distribute(l, 1, p);
      Monotone(l + 1, q, p);
    }
    DivUnique(x * p, 256, h, l * p);
  }

  /** `below` is the byte under the lowest one. */
  function LeftBits(s: seq<byte>, below: byte, b: nat): (r: seq<byte>)
    requires b < 8
    ensures |r| == |s|
  {
    if s == [] then [] else [LeftByte(s[0], below, b)] + LeftBits(s[1..], s[0], b)
  }

  /** `n` shifted left by `b`, with the bits of `below` shifted in, modulo `m`. */
  function Raised(n: nat, below: byte, b: nat, m: nat): (r: nat)
    requires b < 8 && 0 < m
  {
    SumIsNat(n, Pow2(b), below, Pow2(8 - b));
    (n * Pow2(b) + below / Pow2(8 - b)) % m
  }

  lemma SumIsNat(n: nat, p: nat, x: nat, q: nat)
    requires 0 < q
    ensures 0 <= n * p + x / q
  {
  }

  lemma LeftStep(x: byte, tail: nat, below: byte, b: nat, m: nat)
    requires b < 8 && 0 < m
    ensures Raised(x + 256 * tail, below, b, 256 * m) == LeftByte(x, below, b) + 256 * Raised(tail, x, b, m)
  {
    LeftByteIs(x, below, b);
    LeftCarry(x, tail, below, Pow2(b), Pow2(8 - b), m);
  }

  /** Shifting left bytewise is multiplying, modulo the size of the sample. */
  lemma {:induction false} LeftBitsMultiply(s: seq<byte>, below: byte, b: nat)
    requires b < 8
    ensures Num(LeftBits(s, below, b)) == Raised(Num(s), below, b, Pow2(8 * |s|))
  {
    hide Pow2, LeftByte, Raised;
    if s != [] {
      LeftBitsMultiply(s[1..], s[0], b);
      LeftStep(s[0], Num(s[1..]), below, b, Pow2(8 * (|s| - 1)));
      EightBits(|s| - 1);
      NumPrepend(LeftByte(s[0], below, b), LeftBits(s[1..], s[0], b));
    } else {
      RaisedByOne(below, b);
    }
  }

  lemma RaisedByOne(below: byte, b: nat)
    requires b < 8
    ensures Raised(0, below, b, Pow2(0)) == 0
  {
    ModByOne(0 * Pow2(b) + below / Pow2(8 - b));
  }

  lemma ModByOne(n: int)
    ensures n % Pow2(0) == 0
  {
  }

  lemma LeftCarry(x: byte, tail: nat, below: byte, p: nat, q: nat, m: nat)
    requires Halves(p, q) && 0 < m
    ensures ((x + 256 * tail) * p + below / q) % (256 * m) ==
            x * p % 256 + below / q + 256 * ((tail * p + x / q) % m)
  {
    LeftBound(x, below, p, q);
    var low := x * p % 256 + below / q;
    assert (x + 256 * tail) * p + below / q == low + 256 * (tail * p + x / q) by {
      Distribute(x, 256 * tail, p);
      Times(256, tail, p);
    }
    ModDigit(low, tail * p + x / q, 256, m);
  }

  lemma LeftBitsOnly(s: seq<byte>, b: nat)
    requires b < 8
    ensures Num(LeftBits(s, 0, b)) == Num(s) * Pow2(b) % Pow2(8 * |s|)
  {
    LeftBitsMultiply(s, 0, b);
    ZeroOver(Pow2(8 - b));
  }

  // ---------------------------------------------------------------------------------------
  // Shifting by any number of bits

  function DropBytes(s: seq<byte>, k: nat): (r: seq<byte>)
    requires k <= |s|
    ensures |r| == |s|
  {
    s[k..] + Zeros(k)
  }

  function RaiseBytes(s: seq<byte>, k: nat): (r: seq<byte>)
    requires k <= |s|
    ensures |r| == |s|
  {
    Zeros(k) + s[..|s| - k]
  }

  lemma DropBytesDivide(s: seq<byte>, k: nat)
    requires k <= |s|
    ensures Num(DropBytes(s, k)) == Num(s) / Pow2(8 * k)
  {
    CutBytes(s, k);
    NumAppendZeros(s[k..], k);
  }

  lemma RaiseBytesMultiply(s: seq<byte>, k: nat)
    requires k <= |s|
    ensures Num(RaiseBytes(s, k)) == (Num(s) * Pow2(8 * k)) % Pow2(8 * |s|)
  {
    hide Num, Pow2, Zeros;
    var n := |s| - k;
    NumPrependZeros(k, s[..n]);
    CutBytes(s, n);
    Pow2Add(8 * k, 8 * n);
    ModScaled(Num(s), Pow2(8 * k), Pow2(8 * n));
  }

  function ShiftedRight(s: seq<byte>, shift: nat): (r: seq<byte>)
    requires shift <= 8 * |s|
    ensures |r| == |s|
  {
    RightBits(DropBytes(s, shift / 8), shift % 8)
  }

  function ShiftedLeft(s: seq<byte>, shift: nat): (r: seq<byte>)
    requires shift <= 8 * |s|
    ensures |r| == |s|
  {
    LeftBits(RaiseBytes(s, shift / 8), 0, shift % 8)
  }

  lemma ShiftedRightDivides(s: seq<byte>, shift: nat)
    requires shift <= 8 * |s|
    ensures Num(ShiftedRight(s, shift)) == Num(s) / Pow2(shift)
  {
    var k, b := shift / 8, shift % 8;
    RightBitsDivide(DropBytes(s, k), b);
    DropBytesDivide(s, k);
    DivTwice(Num(s), Pow2(8 * k), Pow2(b));
    Pow2Add(8 * k, b);
  }

  lemma ModMultiply(n: nat, p: nat, m: nat)
    requires 0 < m
    ensures n % m * p % m == n * p % m
  {
    var h, l := n / m, n % m;
    assert n * p == h * p * m + l * p by {
      assert n == h * m + l;
      Distribute(h * m, l, p);
      Times(h, m, p);
      Times(h, p, m);
    }
    var q, r := l * p / m, l * p % m;
    assert n * p == (h * p + q) * m + r by {
      assert l * p == q * m + r;
      Distribute(h * p, q, m);
    }
    DivUnique(n * p, m, h * p + q, r);
  }

  lemma ShiftedLeftOfRaised(s: seq<byte>, shift: nat)
    requires shift <= 8 * |s|
    ensures Num(ShiftedLeft(s, shift)) ==
            Num(RaiseBytes(s, shift / 8)) * Pow2(shift % 8) % Pow2(8 * |s|)
  {
    LeftBitsOnly(RaiseBytes(s, shift / 8), shift % 8);
  }

  lemma WholeShift(shift: nat)
    ensures Pow2(shift) == Pow2(8 * (shift / 8)) * Pow2(shift % 8)
  {
    Pow2Add(8 * (shift / 8), shift % 8);
  }

  lemma ShiftedLeftMultiplies(s: seq<byte>, shift: nat)
    requires shift <= 8 * |s|
    ensures Num(ShiftedLeft(s, shift)) == Num(s) * Pow2(shift) % Pow2(8 * |s|)
  {
    var k := shift / 8;
    ShiftedLeftOfRaised(s, shift);
    RaiseBytesMultiply(s, k);
    WholeShift(shift);
    ScaleTwice(Num(s), Num(RaiseBytes(s, k)), Pow2(8 * k), Pow2(shift % 8), Pow2(8 * |s|));
  }

  lemma ScaleTwice(n: nat, raised: nat, a: nat, b: nat, m: nat)
    requires 0 < m && raised == n * a % m
    ensures raised * b % m == n * (a * b) % m
  {
    ModMultiply(n * a, b, m);
    Times(n, a, b);
  }

  // ---------------------------------------------------------------------------------------
  // Masking and extending

  /** `mask_upper_bits`. */
  function Masked(s: seq<byte>, bits: nat): (r: seq<byte>)
    requires bits <= 8 * |s|
    ensures |r| == |s|
  {
    var k, b := bits / 8, bits % 8;
    if b == 0 then s[..k] + Zeros(|s| - k)
    else s[..k] + ([Low(s[k], b)] + Zeros(|s| - k - 1))
  }

  lemma SameProduct(low: nat, d: nat, a: int, b: int)
    requires a == b
    ensures low + d * a == low + d * b
  {
  }

  /** A byte, in place `k` of `s`, followed by a filling. */
  lemma NumThrough(s: seq<byte>, k: nat, x: byte, fill: seq<byte>)
    requires k < |s|
    ensures Num(s[..k] + ([x] + fill)) == Num(s[..k]) + Pow2(8 * k) * (x + 256 * Num(fill))
  {
    NumConcat(s[..k], [x] + fill);
    assert ([x] + fill)[1..] == fill;
    SameProduct(Num(s[..k]), Pow2(8 * k), Num([x] + fill), x + 256 * Num(fill));
  }

  lemma NumThroughZeros(s: seq<byte>, k: nat, x: byte)
    requires k < |s|
    ensures Num(s[..k] + ([x] + Zeros(|s| - k - 1))) == Num(s[..k]) + Pow2(8 * k) * x
  {
    NumThrough(s, k, x, Zeros(|s| - k - 1));
    NumZeros(|s| - k - 1);
    SameProduct(Num(s[..k]), Pow2(8 * k), x + 256 * 0, x);
  }

  /** The lowest bits of a byte string, counted to within byte `k`. */
  lemma LowBits(s: seq<byte>, k: nat, b: nat)
    requires k < |s| && b < 8
    ensures 0 < Pow2(8 * k) * Pow2(b)
    ensures Num(s) % (Pow2(8 * k) * Pow2(b)) == Num(s[..k]) + Pow2(8 * k) * (s[k] % Pow2(b))
  {
    hide Num, Pow2;
    var d, p := Pow2(8 * k), Pow2(b);
    NumSplit(s, k);
    NumBound(s[..k]);
    ModDigit(Num(s[..k]), Num(s[k..]), d, p);
    ByteLowBits(s, k, b);
    SameProduct(Num(s[..k]), d, Num(s[k..]) % p, s[k] % p);
  }

  lemma ByteLowBits(s: seq<byte>, k: nat, b: nat)
    requires k < |s| && b < 8
    ensures Num(s[k..]) % Pow2(b) == s[k] % Pow2(b)
  {
    ShiftHalves(b);
    ModOfMultiple(Num(s[k..][1..]), s[k], Pow2(b), Pow2(8 - b));
  }

  lemma MaskedIsModulo(s: seq<byte>, bits: nat)
    requires bits <= 8 * |s|
    ensures Num(Masked(s, bits)) == Num(s) % Pow2(bits)
  {
    hide Num, Pow2, Low, Zeros;
    var k, b := bits / 8, bits % 8;
    if b == 0 {
      CutBytes(s, k);
      NumAppendZeros(s[..k], |s| - k);
    } else {
      MaskedWithin(s, k, b);
      WholeShift(bits);
    }
  }

  lemma MaskedWithin(s: seq<byte>, k: nat, b: nat)
    requires k < |s| && b < 8
    ensures Num(s[..k] + ([Low(s[k], b)] + Zeros(|s| - k - 1))) == Num(s) % (Pow2(8 * k) * Pow2(b))
  {
    LowIsModulo(s[k], b);
    NumThroughZeros(s, k, Low(s[k], b));
    LowBits(s, k, b);
  }

  /** The byte with the sign bit, `b`, copied upwards. */
  function SignByte(x: byte, b: nat): byte
    requires b < 8
  {
    SignByteIs(x, b);
    if Shr(x, b) % 2 == 1 then Low(x, b) + Shl(255, b) else Low(x, b)
  }

  lemma SignByteIs(x: byte, b: nat)
    requires b < 8
    ensures Shr(x, b) == x / Pow2(b) && Low(x, b) == x % Pow2(b) < Pow2(b) <= 128 && Shl(255, b) == 256 - Pow2(b)
  {
    SmallBit(b);
    ShrDivides(x, b);
    LowIsModulo(x, b);
    ShlMultiplies(255, b);
    ShiftHalves(b);
    DivUnique(255 * Pow2(b), 256, Pow2(b) - 1, 256 - Pow2(b));
  }

  lemma SmallBit(b: nat)
    requires b < 8
    ensures Pow2(b) <= 128
  {
    Pow2Grows(b, 7);
    assert Pow2(7) == 128;
  }

  /** `sign_extend`: bit `bits - 1` is copied upwards. */
  function Extended(s: seq<byte>, bits: nat): (r: seq<byte>)
    requires 0 < bits <= 8 * |s|
    ensures |r| == |s|
  {
    var top, b := (bits - 1) / 8, (bits - 1) % 8;
    var negative := Shr(s[top], b) % 2 == 1;
    s[..top] + ([SignByte(s[top], b)] + (if negative then Ones(|s| - top - 1) else Zeros(|s| - top - 1)))
  }

  /** The two's complement of `width` bits that has the value of the lowest `bits` bits of `n`. */
  function SignExtended(n: nat, bits: nat, width: nat): (r: nat)
    requires 0 < bits <= width
  {
    var half := Pow2(bits - 1);
    Pow2Grows(bits - 1, width);
    if n / half % 2 == 1 then n % half + (Pow2(width) - half) else n % half
  }

  /** Bit `b` of byte `k` is a bit of the number. */
  lemma TopBit(s: seq<byte>, k: nat, b: nat)
    requires k < |s| && b < 8
    ensures 0 < Pow2(8 * k) * Pow2(b)
    ensures Num(s) / (Pow2(8 * k) * Pow2(b)) % 2 == s[k] / Pow2(b) % 2
  {
    CutBytes(s, k);
    DivTwice(Num(s), Pow2(8 * k), Pow2(b));
    ByteBit(s[k], Num(s[k..][1..]), b);
  }

  lemma ByteBit(x: byte, high: nat, b: nat)
    requires b < 8
    ensures (x + 256 * high) / Pow2(b) % 2 == x / Pow2(b) % 2
  {
    hide Pow2;
    BitWeights(b);
    HigherBits(x, high, Pow2(b), Pow2(7 - b));
    Parity(x / Pow2(b), Pow2(7 - b) * high);
  }

  lemma BitWeights(b: nat)
    requires b < 8
    ensures Pow2(b) * Pow2(7 - b) == 128
  {
    Pow2Add(b, 7 - b);
    assert Pow2(7) == 128;
  }

  lemma Parity(a: nat, c: nat)
    ensures (a + 2 * c) % 2 == a % 2
  {
  }

  lemma HigherBits(x: nat, high: nat, p: nat, half: nat)
    requires 0 < p && p * half == 128
    ensures (x + 256 * high) / p == x / p + 2 * (half * high)
  {
    Recount(x / p, x % p, half, high, p);
    DivUnique(x + 256 * high, p, x / p + 2 * (half * high), x % p);
  }

  lemma Recount(a: nat, r: nat, half: nat, high: nat, p: nat)
    requires p * half == 128
    ensures a * p + r + 256 * high == (a + 2 * (half * high)) * p + r
  {
    Distribute(a, 2 * (half * high), p);
    Times(2, half * high, p);
    Times(p, half, high);
    assert half * high * p == p * (half * high);
  }

  /** The weight of the bits above bit `b` of byte `k`. */
  lemma Filled(s: seq<byte>, k: nat, x: nat, m: nat, filled: byte)
    requires k < |s| && x < m <= 128 && filled == x + (256 - m)
    ensures Num(s[..k] + ([filled] + Ones(|s| - k - 1))) ==
            Num(s[..k]) + Pow2(8 * k) * x + Pow2(8 * |s|) - Pow2(8 * k) * m
  {
    hide Num, Pow2, Ones;
    var u, d := |s| - k - 1, Pow2(8 * k);
    var top := Pow2(8 * (u + 1));
    NumThrough(s, k, filled, Ones(u));
    OnesInner(x, m, u);
    SameProduct(Num(s[..k]), d, filled + 256 * Num(Ones(u)), x - m + top);
    Spread(d, x, m, top);
    WholeWidth(k, |s|);
  }

  lemma OnesInner(x: int, m: int, u: nat)
    ensures x + (256 - m) + 256 * Num(Ones(u)) == x - m + Pow2(8 * (u + 1))
  {
    NumOnes(u);
    EightBits(u);
  }

  lemma WholeWidth(k: nat, n: nat)
    requires k < n
    ensures Pow2(8 * k) * Pow2(8 * (n - k)) == Pow2(8 * n)
  {
    Pow2Add(8 * k, 8 * (n - k));
  }

  lemma Spread(d: int, x: int, m: int, top: int)
    ensures d * (x - m + top) == d * x - d * m + d * top
  {
    Distribute(x - m, top, d);
    Distribute(x, -m, d);
  }

  /** The sign bit is set. */
  lemma ExtendedByOnes(s: seq<byte>, k: nat, b: nat)
    requires k < |s| && b < 8 && Shr(s[k], b) % 2 == 1
    ensures 0 < Pow2(8 * k) * Pow2(b)
    ensures Num(s[..k] + ([SignByte(s[k], b)] + Ones(|s| - k - 1))) ==
            Num(s) % (Pow2(8 * k) * Pow2(b)) + Pow2(8 * |s|) - Pow2(8 * k) * Pow2(b)
  {
    SignByteSet(s[k], b);
    Filled(s, k, Low(s[k], b), Pow2(b), SignByte(s[k], b));
    LowBitsOf(s, k, b);
  }

  lemma SignByteSet(x: byte, b: nat)
    requires b < 8 && Shr(x, b) % 2 == 1
    ensures SignByte(x, b) == Low(x, b) + (256 - Pow2(b)) && Low(x, b) < Pow2(b) <= 128
  {
    SignByteIs(x, b);
  }

  lemma LowBitsOf(s: seq<byte>, k: nat, b: nat)
    requires k < |s| && b < 8
    ensures 0 < Pow2(8 * k) * Pow2(b)
    ensures Num(s) % (Pow2(8 * k) * Pow2(b)) == Num(s[..k]) + Pow2(8 * k) * Low(s[k], b)
  {
    LowIsModulo(s[k], b);
    LowBits(s, k, b);
  }

  /** The sign bit is clear. */
  lemma ExtendedByZeros(s: seq<byte>, k: nat, b: nat)
    requires k < |s| && b < 8 && Shr(s[k], b) % 2 != 1
    ensures 0 < Pow2(8 * k) * Pow2(b)
    ensures Num(s[..k] + ([SignByte(s[k], b)] + Zeros(|s| - k - 1))) == Num(s) % (Pow2(8 * k) * Pow2(b))
  {
    NumThroughZeros(s, k, Low(s[k], b));
    LowBitsOf(s, k, b);
  }

  lemma SignBit(s: seq<byte>, bits: nat)
    requires 0 < bits <= 8 * |s|
    ensures Num(s) / Pow2(bits - 1) % 2 == Shr(s[(bits - 1) / 8], (bits - 1) % 8) % 2
  {
    var k, b := (bits - 1) / 8, (bits - 1) % 8;
    TopBit(s, k, b);
    WholeShift(bits - 1);
    ShrDivides(s[k], b);
  }

  /** The bytes of the sign-extended sample, when its sign bit has the weight `half`. */
  lemma ExtendedBytes(s: seq<byte>, bits: nat, half: nat)
    requires 0 < bits <= 8 * |s| && half == Pow2(bits - 1) && 0 < half
    ensures Num(Extended(s, bits)) ==
            if Shr(s[(bits - 1) / 8], (bits - 1) % 8) % 2 == 1 then Num(s) % half + Pow2(8 * |s|) - half
            else Num(s) % half
  {
    hide Shr, SignByte, Num, Ones, Zeros, Pow2;
    var k, b := (bits - 1) / 8, (bits - 1) % 8;
    WholeShift(bits - 1);
    if Shr(s[k], b) % 2 == 1 {
      ExtendedByOnes(s, k, b);
    } else {
      ExtendedByZeros(s, k, b);
    }
  }

  lemma ExtendedIsTwosComplement(s: seq<byte>, bits: nat)
    requires 0 < bits <= 8 * |s|
    ensures Num(Extended(s, bits)) == SignExtended(Num(s), bits, 8 * |s|)
  {
    hide Shr, Extended, Num, Pow2;
    SignBit(s, bits);
    ExtendedBytes(s, bits, Pow2(bits - 1));
  }
}
