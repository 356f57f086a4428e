/**
 Shift registers in general: feeding message bits into a register one at a time. `step` moves
 the register on by one place and `mix` adds a bit to it.
 */
module ShiftRegister {
  function Iterate<S>(step: S -> S, s: S, n: nat): S
    decreases n
  {
    if n == 0 then s else Iterate(step, step(s), n - 1)
  }

  function Feed<S>(step: S -> S, mix: (S, bool) -> S, s: S, bits: seq<bool>): S
    decreases |bits|
  {
    if bits == [] then s else Feed(step, mix, step(mix(s, bits[0])), bits[1..])
  }

  lemma {:induction false} IterateInjective<S(!new)>(step: S -> S, s: S, t: S, n: nat)
    requires forall x, y :: step(x) == step(y) ==> x == y
    requires Iterate(step, s, n) == Iterate(step, t, n)
    ensures s == t
    decreases n
  {
    if n > 0 {
      IterateInjective(step, step(s), step(t), n - 1);
    }
  }

  lemma {:induction false} FeedConcat<S>(step: S -> S, mix: (S, bool) -> S, s: S, u: seq<bool>, v: seq<bool>)
    ensures Feed(step, mix, s, u + v) == Feed(step, mix, Feed(step, mix, s, u), v)
    decreases |u|
  {
    if u == [] {
      assert u + v == v;
    } else {
      FeedConcat(step, mix, step(mix(s, u[0])), u[1..], v);
      assert (u + v)[1..] == u[1..] + v;
    }
  }

  /** The rest of a message never brings two different register values together again. */
  lemma {:induction false} FeedInjective<S(!new)>(step: S -> S, mix: (S, bool) -> S, s: S, t: S, bits: seq<bool>)
    requires forall x, y, b :: step(mix(x, b)) == step(mix(y, b)) ==> x == y
    requires Feed(step, mix, s, bits) == Feed(step, mix, t, bits)
    ensures s == t
    decreases |bits|
  {
    if bits != [] {
      FeedInjective(step, mix, step(mix(s, bits[0])), step(mix(t, bits[0])), bits[1..]);
    }
  }

  /** A few message bits packed into one value, the first one lowest. */
  function Pack<S>(cons: (bool, S) -> S, zero: S, bits: seq<bool>): S
    decreases |bits|
  {
    if bits == [] then zero else cons(bits[0], Pack(cons, zero, bits[1..]))
  }

  lemma PackFrom<S>(cons: (bool, S) -> S, zero: S, s: seq<bool>, i: nat)
    requires i < |s|
    ensures Pack(cons, zero, s[i..]) == cons(s[i], Pack(cons, zero, s[i + 1..]))
  {
    assert s[i..][1..] == s[i + 1..];
  }

  lemma PackEight<S>(cons: (bool, S) -> S, zero: S, s: seq<bool>, rest: seq<bool>)
    requires |s| == 8
    ensures Pack(cons, zero, s + rest) ==
              cons(s[0], cons(s[1], cons(s[2], cons(s[3], cons(s[4], cons(s[5], cons(s[6],
                cons(s[7], Pack(cons, zero, rest)))))))))
  {
    var all := s + rest;
    forall i | 0 <= i < 8 ensures Pack(cons, zero, all[i..]) == cons(s[i], Pack(cons, zero, all[i + 1..])) {
      PackFrom(cons, zero, all, i);
    }
    assert all[0..] == all && all[8..] == rest;
  }

  lemma {:induction false} PackFits<S(!new)>(cons: (bool, S) -> S, zero: S, fits: (S, nat) -> bool, bits: seq<bool>)
    requires fits(zero, 0)
    requires forall b, p, n: nat :: fits(p, n) ==> fits(cons(b, p), n + 1)
    ensures fits(Pack(cons, zero, bits), |bits|)
    decreases |bits|
  {
    if bits != [] {
      PackFits(cons, zero, fits, bits[1..]);
    }
  }

  lemma {:induction false} PackInjective<S(!new)>(cons: (bool, S) -> S, zero: S, fits: (S, nat) -> bool,
                                                   width: nat, u: seq<bool>, v: seq<bool>)
    requires fits(zero, 0)
    requires forall b, p, n: nat :: fits(p, n) ==> fits(cons(b, p), n + 1)
    requires forall a, b, p, q, n: nat :: fits(p, n) && fits(q, n) && n < width && cons(a, p) == cons(b, q) ==>
               a == b && p == q
    requires |u| == |v| <= width && Pack(cons, zero, u) == Pack(cons, zero, v)
    ensures u == v
    decreases |u|
  {
    if u != [] {
      PackFits(cons, zero, fits, u[1..]);
      PackFits(cons, zero, fits, v[1..]);
      PackInjective(cons, zero, fits, width, u[1..], v[1..]);
      assert u == [u[0]] + u[1..] && v == [v[0]] + v[1..];
    }
  }

  /** Feeding up to `width` bits is joining them all at once and then stepping as often. */
  lemma {:induction false} FeedPacked<S(!new)>(step: S -> S, mix: (S, bool) -> S, join: (S, S) -> S,
                                                cons: (bool, S) -> S, zero: S, fits: (S, nat) -> bool,
                                                width: nat, s: S, bits: seq<bool>)
    requires fits(zero, 0)
    requires forall b, p, n: nat :: fits(p, n) ==> fits(cons(b, p), n + 1)
    requires forall x :: join(x, zero) == x
    requires forall x, b, p, n: nat :: fits(p, n) && n < width ==> join(step(mix(x, b)), p) == step(join(x, cons(b, p)))
    requires |bits| <= width
    ensures Feed(step, mix, s, bits) == Iterate(step, join(s, Pack(cons, zero, bits)), |bits|)
    decreases |bits|
  {
    if bits != [] {
      PackFits(cons, zero, fits, bits[1..]);
      FeedPacked(step, mix, join, cons, zero, fits, width, step(mix(s, bits[0])), bits[1..]);
    }
  }

  /** Messages that differ at most in the `n` bits from `at` on. */
  ghost predicate DifferWithin(u: seq<bool>, v: seq<bool>, at: nat, n: nat) {
    && |u| == |v| && at + n <= |u|
    && u[..at] == v[..at] && u[at + n..] == v[at + n..]
  }

  lemma FeedThree<S>(step: S -> S, mix: (S, bool) -> S, s: S, u: seq<bool>, at: nat, n: nat)
    requires at + n <= |u|
    ensures Feed(step, mix, s, u) ==
              Feed(step, mix, Feed(step, mix, Feed(step, mix, s, u[..at]), u[at..at + n]), u[at + n..])
  {
    assert u == u[..at] + (u[at..at + n] + u[at + n..]);
    FeedConcat(step, mix, s, u[..at], u[at..at + n] + u[at + n..]);
    FeedConcat(step, mix, Feed(step, mix, s, u[..at]), u[at..at + n], u[at + n..]);
  }
}

/**
 The CRC-32 of iiod/spf-counter-metadata.c, bit by bit, and what it detects: two messages of
 the same length that differ, and only inside some 32 consecutive bits, never have the same
 checksum.
 */
module Crc32 {
  import opened ShiftRegister

  const POLY: bv32 := 0xedb88320

  function BitStep(c: bv32): bv32 {
    if c & 1 == 1 then (c >> 1) ^ POLY else c >> 1
  }

  /** The source selects the polynomial with a mask of all ones or all zeros. */
  lemma MaskSelects(c: bv32)
    ensures (c >> 1) ^ (POLY & (0 - (c & 1))) == BitStep(c)
  {
    if c & 1 == 1 {
      assert 0 - (c & 1) == 0xffffffff;
    } else {
      assert c & 1 == 0 && 0 - (c & 1) == 0;
    }
  }

  /** The polynomial's top bit tells which way the step went. */
  function BitUnstep(c: bv32): bv32 {
    if c & 0x80000000 != 0 then ((c ^ POLY) << 1) | 1 else c << 1
  }

  lemma BitStepInvertible(c: bv32)
    ensures BitUnstep(BitStep(c)) == c
  {
  }

  function Bit(b: bool): bv32 {
    if b then 1 else 0
  }

  function Mix(c: bv32, b: bool): bv32 {
    c ^ Bit(b)
  }

  function Xor(c: bv32, w: bv32): bv32 {
    c ^ w
  }

  function Cons(b: bool, w: bv32): bv32 {
    Bit(b) | (w << 1)
  }

  function Mask(n: nat): bv32 {
    if n == 0 then 0 else (Mask(n - 1) << 1) | 1
  }

  /** `w` has at most `n` bits. */
  predicate Fits(w: bv32, n: nat) {
    w | Mask(n) == Mask(n)
  }

  lemma ShiftInto(b: bv32, w: bv32, m: bv32)
    requires w | m == m && b <= 1
    ensures (b | (w << 1)) | ((m << 1) | 1) == (m << 1) | 1
  {
  }

  lemma {:induction false} FitsGrows(w: bv32, n: nat, upto: nat)
    requires Fits(w, n) && n <= upto
    ensures Fits(w, upto)
    decreases upto
  {
    if n < upto {
      FitsGrows(w, n, upto - 1);
      MaskGrows(upto - 1);
      MaskedMore(w, Mask(upto - 1), Mask(upto));
    }
  }

  lemma MaskedMore(w: bv32, m: bv32, m': bv32)
    requires w | m == m && m | m' == m'
    ensures w | m' == m'
  {
  }

  lemma {:induction false} MaskGrows(n: nat)
    ensures Mask(n) | Mask(n + 1) == Mask(n + 1)
  {
    if n > 0 {
      MaskGrows(n - 1);
      MaskShifts(Mask(n - 1), Mask(n));
    }
  }

  lemma MaskShifts(m: bv32, m': bv32)
    requires m | m' == m'
    ensures ((m << 1) | 1) | ((m' << 1) | 1) == (m' << 1) | 1
  {
  }

  lemma FitsBelowTop(w: bv32, n: nat)
    requires Fits(w, n) && n < 32
    ensures w & 0x80000000 == 0
  {
    FitsGrows(w, n, 31);
    assert Mask(31) == 0x7fffffff by {
      assert Mask(8) == 0xff && Mask(16) == 0xffff && Mask(24) == 0xffffff;
    }
    BelowTop(w);
  }

  lemma BelowTop(w: bv32)
    requires w | 0x7fffffff == 0x7fffffff
    ensures w & 0x80000000 == 0
  {
  }

  /** Bits above the lowest only move down, so a bit mixed in later could have come earlier. */
  lemma MixEarlier(c: bv32, b: bool, w: bv32)
    requires w & 0x80000000 == 0
    ensures BitStep(Mix(c, b)) ^ w == BitStep(c ^ Cons(b, w))
  {
  }

  lemma ConsParts(b: bv32, p: bv32)
    requires b <= 1 && p & 0x80000000 == 0
    ensures (b | (p << 1)) & 1 == b && (b | (p << 1)) >> 1 == p
  {
  }

  lemma XorCancels(x: bv32, c: bv32, d: bv32)
    ensures c ^ x == d ^ x ==> c == d
    ensures x ^ c == x ^ d ==> c == d
  {
  }

  // ---------------------------------------------------------------------------------------
  // The laws of this register

  lemma StepLaw()
    ensures forall x, y :: BitStep(x) == BitStep(y) ==> x == y
  {
    forall x, y | BitStep(x) == BitStep(y) ensures x == y {
      BitStepInvertible(x);
      BitStepInvertible(y);
    }
  }

  lemma FeedLaw()
    ensures forall x, y, b :: BitStep(Mix(x, b)) == BitStep(Mix(y, b)) ==> x == y
  {
    StepLaw();
    forall x, y, b | BitStep(Mix(x, b)) == BitStep(Mix(y, b)) ensures x == y {
      assert Mix(x, b) == Mix(y, b);
      XorCancels(Bit(b), x, y);
    }
  }

  lemma ConsFits(b: bool, p: bv32, n: nat)
    requires Fits(p, n)
    ensures Fits(Cons(b, p), n + 1)
  {
    ShiftInto(Bit(b), p, Mask(n));
  }

  lemma PackLaw()
    ensures Fits(0, 0) && forall b, p, n: nat :: Fits(p, n) ==> Fits(Cons(b, p), n + 1)
  {
    forall b, p, n: nat | Fits(p, n) ensures Fits(Cons(b, p), n + 1) {
      ConsFits(b, p, n);
    }
  }

  lemma ConsInjective(a: bool, b: bool, p: bv32, q: bv32, n: nat)
    requires Fits(p, n) && Fits(q, n) && n < 32 && Cons(a, p) == Cons(b, q)
    ensures a == b && p == q
  {
    FitsBelowTop(p, n);
    FitsBelowTop(q, n);
    ConsParts(Bit(a), p);
    ConsParts(Bit(b), q);
  }

  lemma ConsLaw()
    ensures forall a, b, p, q, n: nat :: Fits(p, n) && Fits(q, n) && n < 32 && Cons(a, p) == Cons(b, q) ==>
              a == b && p == q
  {
    forall a, b, p, q, n: nat | Fits(p, n) && Fits(q, n) && n < 32 && Cons(a, p) == Cons(b, q)
      ensures a == b && p == q
    {
      ConsInjective(a, b, p, q, n);
    }
  }

  lemma JoinLaw()
    ensures forall x :: Xor(x, 0) == x
    ensures forall x, b, p, n: nat :: Fits(p, n) && n < 32 ==> Xor(BitStep(Mix(x, b)), p) == BitStep(Xor(x, Cons(b, p)))
  {
    forall x, b, p, n: nat | Fits(p, n) && n < 32
      ensures Xor(BitStep(Mix(x, b)), p) == BitStep(Xor(x, Cons(b, p)))
    {
      FitsBelowTop(p, n);
      MixEarlier(x, b, p);
    }
  }

  function StepBits(c: bv32, bits: seq<bool>): bv32 {
    Feed(BitStep, Mix, c, bits)
  }

  function Packed(bits: seq<bool>): bv32 {
    Pack(Cons, 0, bits)
  }

  lemma StepBitsPacked(c: bv32, bits: seq<bool>)
    requires |bits| <= 32
    ensures StepBits(c, bits) == Iterate(BitStep, Xor(c, Packed(bits)), |bits|)
  {
    PackLaw();
    JoinLaw();
    FeedPacked(BitStep, Mix, Xor, Cons, 0, Fits, 32, c, bits);
  }

  lemma PackedInjective(u: seq<bool>, v: seq<bool>)
    requires |u| == |v| <= 32 && Packed(u) == Packed(v)
    ensures u == v
  {
    PackLaw();
    ConsLaw();
    PackInjective(Cons, 0, Fits, 32, u, v);
  }

  /** Different bits in the same place leave different values. */
  lemma WindowDiffers(c: bv32, u: seq<bool>, v: seq<bool>)
    requires |u| == |v| <= 32 && StepBits(c, u) == StepBits(c, v)
    ensures u == v
  {
    StepBitsPacked(c, u);
    StepBitsPacked(c, v);
    StepLaw();
    IterateInjective(BitStep, Xor(c, Packed(u)), Xor(c, Packed(v)), |u|);
    XorCancels(c, Packed(u), Packed(v));
    PackedInjective(u, v);
  }

  lemma BurstBits(c: bv32, u: seq<bool>, v: seq<bool>, at: nat, n: nat)
    requires DifferWithin(u, v, at, n) && n <= 32 && StepBits(c, u) == StepBits(c, v)
    ensures u == v
  {
    FeedThree(BitStep, Mix, c, u, at, n);
    FeedThree(BitStep, Mix, c, v, at, n);
    var start := StepBits(c, u[..at]);
    FeedLaw();
    FeedInjective(BitStep, Mix, StepBits(start, u[at..at + n]), StepBits(start, v[at..at + n]), u[at + n..]);
    WindowDiffers(start, u[at..at + n], v[at..at + n]);
    assert u == u[..at] + u[at..at + n] + u[at + n..] && v == v[..at] + v[at..at + n] + v[at + n..];
  }

  // ---------------------------------------------------------------------------------------
  // Bytes

  function ByteStep(c: bv32, b: bv8): bv32 {
    Iterate(BitStep, Xor(c, b as bv32), 8)
  }

  /** The running value after the bytes of `s`. */
  function Raw(c: bv32, s: seq<bv8>): bv32
    decreases |s|
  {
    if s == [] then c else ByteStep(Raw(c, s[..|s| - 1]), s[|s| - 1])
  }

  function Crc(s: seq<bv8>): bv32 {
    !Raw(0xffffffff, s)
  }

  /** The inner loop over the bits of a byte. */
  method Byte(c: bv32, b: bv8) returns (crc: bv32)
    ensures crc == ByteStep(c, b)
  {
    crc := c ^ (b as bv32);
    ghost var start := crc;
    for bit := 0 to 8
      invariant Iterate(BitStep, crc, 8 - bit) == Iterate(BitStep, start, 8)
    {
      MaskSelects(crc);
      crc := (crc >> 1) ^ (POLY & (0 - (crc & 1)));
    }
  }

  /** Lowest bit first, as on the wire. */
  function ByteBits(b: bv8): (bits: seq<bool>)
    ensures |bits| == 8
  {
    [b & 1 != 0, b & 2 != 0, b & 4 != 0, b & 8 != 0, b & 16 != 0, b & 32 != 0, b & 64 != 0, b & 128 != 0]
  }

  function Bits(s: seq<bv8>): (bits: seq<bool>)
    ensures |bits| == 8 * |s|
  {
    if s == [] then [] else Bits(s[..|s| - 1]) + ByteBits(s[|s| - 1])
  }

  /** A byte's bits in front of others. */
  lemma PackedByteOnto(b: bv8, rest: seq<bool>)
    ensures Packed(ByteBits(b) + rest) == (b as bv32) | (Packed(rest) << 8)
  {
    hide Cons;
    PackEight(Cons, 0, ByteBits(b), rest);
    ByteConses(b, Packed(rest));
  }

  lemma BitsOfByte(b: bv8)
    ensures Bit(b & 1 != 0) == (b as bv32) & 1 && Bit(b & 2 != 0) == ((b as bv32) >> 1) & 1
    ensures Bit(b & 4 != 0) == ((b as bv32) >> 2) & 1 && Bit(b & 8 != 0) == ((b as bv32) >> 3) & 1
    ensures Bit(b & 16 != 0) == ((b as bv32) >> 4) & 1 && Bit(b & 32 != 0) == ((b as bv32) >> 5) & 1
    ensures Bit(b & 64 != 0) == ((b as bv32) >> 6) & 1 && Bit(b & 128 != 0) == ((b as bv32) >> 7) & 1
  {
  }

  lemma BitsJoin(x: bv32, w: bv32)
    requires x < 256
    ensures (x & 1) | ((((x >> 1) & 1) | ((((x >> 2) & 1) | ((((x >> 3) & 1) | ((((x >> 4) & 1) | ((((x >> 5) & 1) |
              ((((x >> 6) & 1) | ((((x >> 7) & 1) | (w << 1)) << 1)) << 1)) << 1)) << 1)) << 1)) << 1)) << 1)
            == x | (w << 8)
  {
  }

  lemma ByteConses(b: bv8, w: bv32)
    ensures Cons(b & 1 != 0, Cons(b & 2 != 0, Cons(b & 4 != 0, Cons(b & 8 != 0, Cons(b & 16 != 0,
              Cons(b & 32 != 0, Cons(b & 64 != 0, Cons(b & 128 != 0, w)))))))) == (b as bv32) | (w << 8)
  {
    BitsOfByte(b);
    BitsJoin(b as bv32, w);
  }

  lemma PackedByte(b: bv8)
    ensures Packed(ByteBits(b)) == b as bv32
  {
    PackedByteOnto(b, []);
    assert ByteBits(b) + [] == ByteBits(b);
  }

  lemma {:induction false} RawIsBitwise(c: bv32, s: seq<bv8>)
    ensures Raw(c, s) == StepBits(c, Bits(s))
    decreases |s|
  {
    if s != [] {
      var n := |s| - 1;
      RawIsBitwise(c, s[..n]);
      FeedConcat(BitStep, Mix, c, Bits(s[..n]), ByteBits(s[n]));
      StepBitsPacked(Raw(c, s[..n]), ByteBits(s[n]));
      PackedByte(s[n]);
    }
  }

  lemma ByteBitsInjective(a: bv8, b: bv8)
    requires ByteBits(a) == ByteBits(b)
    ensures a == b
  {
    PackedByte(a);
    PackedByte(b);
    WidenInjective(a, b);
  }

  lemma {:induction false} BitsInjective(s: seq<bv8>, t: seq<bv8>)
    requires Bits(s) == Bits(t)
    ensures s == t
  {
    if s != [] {
      var n := |s| - 1;
      assert |t| == n + 1;
      var u, v := Bits(s), Bits(t);
      assert Bits(s[..n]) == u[..8 * n] && ByteBits(s[n]) == u[8 * n..];
      assert Bits(t[..n]) == v[..8 * n] && ByteBits(t[n]) == v[8 * n..];
      BitsInjective(s[..n], t[..n]);
      ByteBitsInjective(s[n], t[n]);
    }
  }

  lemma WidenInjective(a: bv8, b: bv8)
    ensures a as bv32 == b as bv32 ==> a == b
  {
  }

  /** Any change confined to 32 consecutive bits changes the running value, whatever it started
      from. */
  lemma BurstChangesRaw(c: bv32, s: seq<bv8>, t: seq<bv8>, at: nat, n: nat)
    requires DifferWithin(Bits(s), Bits(t), at, n) && n <= 32 && s != t
    ensures Raw(c, s) != Raw(c, t)
  {
    if Raw(c, s) == Raw(c, t) {
      RawIsBitwise(c, s);
      RawIsBitwise(c, t);
      BurstBits(c, Bits(s), Bits(t), at, n);
      BitsInjective(s, t);
    }
  }

  lemma {:induction false} BitsConcat(s: seq<bv8>, t: seq<bv8>)
    ensures Bits(s + t) == Bits(s) + Bits(t)
    decreases |t|
  {
    if t == [] {
      assert s + t == s;
    } else {
      var n := |t| - 1;
      BitsConcat(s, t[..n]);
      assert (s + t)[..|s| + n] == s + t[..n];
    }
  }

  /** A change to one byte is confined to 8 consecutive bits. */
  lemma OneByteIsBurst(s: seq<bv8>, i: nat, b: bv8)
    requires i < |s|
    ensures DifferWithin(Bits(s), Bits(s[i := b]), 8 * i, 8)
  {
    var t := s[i := b];
    assert s == s[..i] + ([s[i]] + s[i + 1..]) && t == s[..i] + ([b] + s[i + 1..]);
    BitsConcat(s[..i], [s[i]] + s[i + 1..]);
    BitsConcat(s[..i], [b] + s[i + 1..]);
    BitsConcat([s[i]], s[i + 1..]);
    BitsConcat([b], s[i + 1..]);
  }

  // ---------------------------------------------------------------------------------------
  // A message followed by its own checksum

  /** The four bytes of a word, lowest first. */
  function Le32(v: bv32): (s: seq<bv8>)
    ensures |s| == 4
  {
    [(v & 0xff) as bv8, ((v >> 8) & 0xff) as bv8, ((v >> 16) & 0xff) as bv8, ((v >> 24) & 0xff) as bv8]
  }

  lemma WordJoins(v: bv32)
    ensures (v & 0xff) | ((((v >> 8) & 0xff) | ((((v >> 16) & 0xff) | (((v >> 24) & 0xff) << 8)) << 8)) << 8) == v
  {
  }

  lemma BitsOfFour(s: seq<bv8>)
    requires |s| == 4
    ensures Bits(s) == ByteBits(s[0]) + (ByteBits(s[1]) + (ByteBits(s[2]) + ByteBits(s[3])))
  {
    hide ByteBits;
    assert s == [s[0]] + ([s[1]] + ([s[2]] + [s[3]]));
    BitsConcat([s[0]], [s[1]] + ([s[2]] + [s[3]]));
    BitsConcat([s[1]], [s[2]] + [s[3]]);
    BitsConcat([s[2]], [s[3]]);
    BitsOfOne(s[0]);
    BitsOfOne(s[1]);
    BitsOfOne(s[2]);
    BitsOfOne(s[3]);
  }

  lemma BitsOfOne(b: bv8)
    ensures Bits([b]) == ByteBits(b)
  {
    assert [b][..0] == [];
  }

  lemma PackedWord(v: bv32)
    ensures Packed(Bits(Le32(v))) == v
  {
    hide Bits, ByteBits, Packed;
    var s := Le32(v);
    var b0, b1, b2, b3 := ByteBits(s[0]), ByteBits(s[1]), ByteBits(s[2]), ByteBits(s[3]);
    BitsOfFour(s);
    PackedByte(s[3]);
    PackedByteOnto(s[2], b3);
    PackedByteOnto(s[1], b2 + b3);
    PackedByteOnto(s[0], b1 + (b2 + b3));
    WordJoins(v);
  }

  /** Feeding a word in is one xor and 32 steps. */
  lemma RawWord(c: bv32, v: bv32, steps: nat)
    requires steps == 32
    ensures Raw(c, Le32(v)) == Iterate(BitStep, Xor(c, v), steps)
  {
    RawIsBitwise(c, Le32(v));
    PackedWord(v);
    StepBitsPacked(c, Bits(Le32(v)));
  }

  lemma {:induction false} RawConcat(c: bv32, s: seq<bv8>, t: seq<bv8>)
    ensures Raw(c, s + t) == Raw(Raw(c, s), t)
    decreases |t|
  {
    hide ByteStep;
    if t == [] {
      assert s + t == s;
    } else {
      var n := |t| - 1;
      RawConcat(c, s, t[..n]);
      assert (s + t)[..|s| + n] == s + t[..n];
    }
  }

  lemma XorTwice(c: bv32, v: bv32)
    ensures c ^ (c ^ v) == v
  {
  }

  lemma XorOnes(c: bv32)
    ensures c ^ 0xffffffff == !c
  {
  }

  lemma OnesMeanComplement(c: bv32, v: bv32)
    requires c ^ v == 0xffffffff
    ensures v == !c
  {
    XorTwice(c, v);
    XorOnes(c);
  }

  lemma ComplementMeansOnes(c: bv32)
    ensures c ^ !c == 0xffffffff
  {
  }

  /** Two words leave the same value after two others exactly when both xors agree. */
  lemma WordsMeet(c: bv32, v: bv32, d: bv32, w: bv32, steps: nat)
    requires steps == 32
    ensures Raw(c, Le32(v)) == Raw(d, Le32(w)) <==> Xor(c, v) == Xor(d, w)
  {
    RawWord(c, v, steps);
    RawWord(d, w, steps);
    StepLaw();
    if Raw(c, Le32(v)) == Raw(d, Le32(w)) {
      IterateInjective(BitStep, Xor(c, v), Xor(d, w), steps);
    }
  }

  lemma ComplementsMeet(c: bv32, v: bv32, d: bv32, w: bv32)
    requires v == !c
    ensures Raw(c, Le32(v)) == Raw(d, Le32(w)) <==> w == !d
  {
    WordsMeet(c, v, d, w, 32);
    assert Xor(c, v) == 0xffffffff by {
      ComplementMeansOnes(c);
    }
    ComplementIff(d, w);
  }

  lemma ComplementIff(d: bv32, w: bv32)
    ensures Xor(d, w) == 0xffffffff <==> w == !d
  {
    if Xor(d, w) == 0xffffffff {
      OnesMeanComplement(d, w);
    }
    if w == !d {
      ComplementMeansOnes(d);
    }
  }

  lemma Glued(start: bv32, s: seq<bv8>, v: seq<bv8>, t: seq<bv8>, w: seq<bv8>)
    ensures Raw(start, s + v) == Raw(start, t + w) <==> Raw(Raw(start, s), v) == Raw(Raw(start, t), w)
  {
    RawConcat(start, s, v);
    RawConcat(start, t, w);
  }

  /** Next to a message that ends in its own checksum, another one ends in its own checksum if and
      only if both leave the same value in the register. */
  lemma ChecksumResidue(start: bv32, s: seq<bv8>, v: bv32, t: seq<bv8>, w: bv32)
    requires v == !Raw(start, s)
    ensures Raw(start, s + Le32(v)) == Raw(start, t + Le32(w)) <==> w == !Raw(start, t)
  {
    Glued(start, s, Le32(v), t, Le32(w));
    ComplementsMeet(Raw(start, s), v, Raw(start, t), w);
  }

  // ---------------------------------------------------------------------------------------
  // The register divides by the polynomial of IEEE 802.3

  /** `x^32` is `x^26 + x^23 + x^22 + x^16 + x^12 + x^11 + x^10 + x^8 + x^7 + x^5 + x^4 + x^2 + x + 1`. */
  function TimesX(r: bv32): bv32 {
    if r & 0x80000000 != 0 then (r << 1) ^ 0x04c11db7 else r << 1
  }

  function Top(b: bool): bv32 {
    if b then 0x80000000 else 0
  }

  function Divided(r: bv32, b: bool): bv32 {
    TimesX(r ^ Top(b))
  }

  /** The long division of a message by that polynomial, highest power first, from `r` on. */
  function Remainder(r: bv32, bits: seq<bool>): bv32
    decreases |bits|
  {
    if bits == [] then r else Remainder(Divided(r, bits[0]), bits[1..])
  }

  /** The bits of a word in reverse. */
  function Reversed(v: bv32): bv32 {
    var a := ((v >> 1) & 0x55555555) | ((v & 0x55555555) << 1);
    var b := ((a >> 2) & 0x33333333) | ((a & 0x33333333) << 2);
    var c := ((b >> 4) & 0x0f0f0f0f) | ((b & 0x0f0f0f0f) << 4);
    var d := ((c >> 8) & 0x00ff00ff) | ((c & 0x00ff00ff) << 8);
    (d >> 16) | (d << 16)
  }

  lemma OddReversed(c: bv32)
    requires c & 1 == 1
    ensures Reversed(c) & 0x80000000 != 0 && Reversed((c >> 1) ^ POLY) == (Reversed(c) << 1) ^ 0x04c11db7
  {
  }

  lemma EvenReversed(c: bv32)
    requires c & 1 != 1
    ensures Reversed(c) & 0x80000000 == 0 && Reversed(c >> 1) == Reversed(c) << 1
  {
  }

  /** Moving the register on by one place is multiplying its reverse by `x`. */
  lemma StepIsTimesX(c: bv32)
    ensures Reversed(BitStep(c)) == TimesX(Reversed(c))
  {
    hide Reversed;
    if c & 1 == 1 {
      OddReversed(c);
    } else {
      EvenReversed(c);
    }
  }

  lemma MixIsTop(c: bv32, b: bool)
    ensures Reversed(Mix(c, b)) == Reversed(c) ^ Top(b)
  {
    hide Reversed, Mix, Top;
    if b {
      LowestIsTop(c);
    } else {
      NothingMixed(c);
    }
  }

  lemma LowestIsTop(c: bv32)
    ensures Reversed(Mix(c, true)) == Reversed(c) ^ Top(true)
  {
  }

  lemma NothingMixed(c: bv32)
    ensures Reversed(Mix(c, false)) == Reversed(c) ^ Top(false)
  {
  }

  lemma StepDivides(c: bv32, b: bool)
    ensures Reversed(BitStep(Mix(c, b))) == Divided(Reversed(c), b)
  {
    hide Reversed, BitStep, Mix, TimesX, Top;
    StepIsTimesX(Mix(c, b));
    MixIsTop(c, b);
  }

  lemma StepBitsFirst(c: bv32, bits: seq<bool>)
    requires bits != []
    ensures StepBits(c, bits) == StepBits(BitStep(Mix(c, bits[0])), bits[1..])
  {
    hide BitStep, Mix;
  }

  lemma {:induction false} RegisterDivides(c: bv32, bits: seq<bool>)
    ensures Reversed(StepBits(c, bits)) == Remainder(Reversed(c), bits)
    decreases |bits|
  {
    hide Reversed, BitStep, Mix, Divided;
    if bits != [] {
      hide StepBits;
      StepBitsFirst(c, bits);
      RegisterDivides(BitStep(Mix(c, bits[0])), bits[1..]);
      StepDivides(c, bits[0]);
    }
  }

  /** The checksum is the complement of the reversed remainder of the message. */
  lemma ChecksumIsRemainder(s: seq<bv8>)
    ensures Reversed(!Crc(s)) == Remainder(0xffffffff, Bits(s))
  {
    hide Reversed, Raw, StepBits, Bits;
    RawIsBitwise(0xffffffff, s);
    RegisterDivides(0xffffffff, Bits(s));
    AllOnesReversed();
    TwiceNot(Raw(0xffffffff, s));
  }

  lemma AllOnesReversed()
    ensures Reversed(0xffffffff) == 0xffffffff
  {
  }

  lemma TwiceNot(v: bv32)
    ensures !!v == v
  {
  }

  lemma NextByte(c: bv32, s: seq<bv8>, k: nat)
    requires k < |s|
    ensures Raw(c, s[..0]) == c && Raw(c, s[..k + 1]) == ByteStep(Raw(c, s[..k]), s[k])
  {
    hide ByteStep;
    assert s[..k + 1][..k] == s[..k];
  }

  lemma ByteValue(c: bv32, b: bv8, start: bv32, end: bv32)
    requires start == c ^ (b as bv32)
    requires BitStep(BitStep(BitStep(BitStep(BitStep(BitStep(BitStep(BitStep(start)))))))) == end
    ensures ByteStep(c, b) == end
  {
    hide BitStep;
    var half := BitStep(BitStep(BitStep(BitStep(start))));
    assert Iterate(BitStep, start, 8) == Iterate(BitStep, half, 4);
  }

  /** The check value of CRC-32: the checksum of the digits from 1 to 9. */
  lemma CheckValue(s: seq<bv8>)
    requires s == [0x31, 0x32, 0x33, 0x34, 0x35, 0x36, 0x37, 0x38, 0x39]
    ensures Crc(s) == 0xcbf43926
  {
    hide ByteStep, Raw;
    NextByte(0xffffffff, s, 0);
    ByteValue(0xffffffff, 0x31, 0xffffffce, 0x7c231048);
    NextByte(0xffffffff, s, 1);
    ByteValue(0x7c231048, 0x32, 0x7c23107a, 0xb0acbb32);
    NextByte(0xffffffff, s, 2);
    ByteValue(0xb0acbb32, 0x33, 0xb0acbb01, 0x77b79c2d);
    NextByte(0xffffffff, s, 3);
    ByteValue(0x77b79c2d, 0x34, 0x77b79c19, 0x641c1f5c);
    NextByte(0xffffffff, s, 4);
    ByteValue(0x641c1f5c, 0x35, 0x641c1f69, 0x340ac5e3);
    NextByte(0xffffffff, s, 5);
    ByteValue(0x340ac5e3, 0x36, 0x340ac5d5, 0xf68d2c9e);
    NextByte(0xffffffff, s, 6);
    ByteValue(0xf68d2c9e, 0x37, 0xf68d2ca9, 0xaffc9660);
    NextByte(0xffffffff, s, 7);
    ByteValue(0xaffc9660, 0x38, 0xaffc9658, 0x651f2550);
    NextByte(0xffffffff, s, 8);
    ByteValue(0x651f2550, 0x39, 0x651f2569, 0x340bc6d9);
    assert s[..9] == s;
  }
}
