/**
 `iio_channel_convert` and `iio_channel_convert_inverse`: in place, sample by sample, and what
 they do to the numbers the samples stand for.
 */
module SampleConvert {
  import opened Octets
  import opened Binary
  import opened SampleCodec
  import opened Slices
  import opened Strides

  /** `struct iio_data_format`; `length` is in bytes. */
  datatype Format = Format(length: nat, bits: nat, shift: nat, isSigned: bool, isBe: bool, isFullyDefined: bool,
                           repeat: nat)

  /** The significant bits lie inside the sample. */
  predicate Sane(f: Format) {
    0 < f.bits && f.bits + f.shift <= 8 * f.length
  }

  function Reverse(s: seq<byte>): (r: seq<byte>)
    ensures |r| == |s|
  {
    if s == [] then [] else Reverse(s[1..]) + [s[0]]
  }

  lemma {:induction false} ReverseAt(s: seq<byte>, i: nat)
    requires i < |s|
    ensures Reverse(s)[i] == s[|s| - 1 - i]
  {
    if i < |s| - 1 {
      ReverseAt(s[1..], i);
    }
  }

  lemma ReverseTwice(s: seq<byte>)
    ensures Reverse(Reverse(s)) == s
  {
    forall i | 0 <= i < |s| ensures Reverse(Reverse(s))[i] == s[i] {
      ReverseAt(Reverse(s), i);
      ReverseAt(s, |s| - 1 - i);
    }
  }

  /** The bytes in the host's order. */
  function Ordered(f: Format, s: seq<byte>): (r: seq<byte>)
    ensures |r| == |s|
  {
    if f.isBe then Reverse(s) else s
  }

  function Converted(f: Format, src: seq<byte>): (r: seq<byte>)
    requires Sane(f) && |src| == f.length
    ensures |r| == f.length
  {
    var s := ShiftedRight(Ordered(f, src), f.shift);
    if f.isFullyDefined then s else if f.isSigned then Extended(s, f.bits) else Masked(s, f.bits)
  }

  function Inverted(f: Format, src: seq<byte>): (r: seq<byte>)
    requires Sane(f) && |src| == f.length
    ensures |r| == f.length
  {
    Ordered(f, ShiftedLeft(Masked(src, f.bits), f.shift))
  }

  // ---------------------------------------------------------------------------------------
  // In numbers

  lemma QuotientIsNat(n: nat, d: nat)
    requires 0 < d
    ensures 0 <= n / d
  {
  }

  function Decoded(f: Format, raw: nat): nat
    requires Sane(f)
  {
    QuotientIsNat(raw, Pow2(f.shift));
    var v := raw / Pow2(f.shift);
    if f.isFullyDefined then v
    else if f.isSigned then SignExtended(v, f.bits, 8 * f.length)
    else v % Pow2(f.bits)
  }

  /** What a sample stands for before conversion. */
  function Raw(f: Format, s: seq<byte>): nat {
    Num(Ordered(f, s))
  }

  /** The number some bytes denote, highest byte first. */
  function BigEndian(s: seq<byte>): nat {
    if s == [] then 0 else BigEndian(s[..|s| - 1]) * 256 + s[|s| - 1]
  }

  lemma {:induction false} ReverseIsBigEndian(s: seq<byte>)
    ensures Num(Reverse(s)) == BigEndian(s)
    decreases |s|
  {
    if s != [] {
      var n := |s| - 1;
      ReverseIsBigEndian(s[..n]);
      ReverseOfLast(s[..n], s[n]);
      assert s == s[..n] + [s[n]];
      NumPrepend(s[n], Reverse(s[..n]));
    }
  }

  lemma {:induction false} ReverseOfLast(s: seq<byte>, x: byte)
    ensures Reverse(s + [x]) == [x] + Reverse(s)
  {
    if s == [] {
      assert s + [x] == [x] && [x][1..] == [];
    } else {
      ReverseOfLast(s[1..], x);
      assert (s + [x])[1..] == s[1..] + [x];
    }
  }

  /** A raw sample is read in the byte order of its format. */
  lemma RawByOrder(f: Format, s: seq<byte>)
    ensures Raw(f, s) == if f.isBe then BigEndian(s) else Num(s)
  {
    ReverseIsBigEndian(s);
  }

  lemma ConvertedNumber(f: Format, src: seq<byte>)
    requires Sane(f) && |src| == f.length
    ensures Num(Converted(f, src)) == Decoded(f, Raw(f, src))
  {
    var s := ShiftedRight(Ordered(f, src), f.shift);
    ShiftedRightDivides(Ordered(f, src), f.shift);
    if !f.isFullyDefined {
      if f.isSigned {
        ExtendedIsTwosComplement(s, f.bits);
      } else {
        MaskedIsModulo(s, f.bits);
      }
    }
  }

  /** Clearing, then shifting, never loses a bit of a sane format. */
  lemma Placed(n: nat, bits: nat, shift: nat, width: nat)
    requires bits + shift <= width
    ensures n % Pow2(bits) * Pow2(shift) % Pow2(width) == n % Pow2(bits) * Pow2(shift)
    ensures n % Pow2(bits) * Pow2(shift) / Pow2(shift) == n % Pow2(bits)
  {
    var v, p := n % Pow2(bits), Pow2(shift);
    assert v * p < Pow2(width) by {
      Pow2Add(bits, shift);
      Pow2Grows(bits + shift, width);
      Below(v, Pow2(bits), p);
    }
    ModOfSmall(v * p, Pow2(width));
    DivUnique(v * p, p, v, 0);
  }

  lemma Below(v: nat, b: nat, p: nat)
    requires v < b && 0 < p
    ensures v * p < b * p
  {
    Distribute(v, 1, p);
    Monotone(v + 1, b, p);
  }

  lemma InvertedNumber(f: Format, src: seq<byte>)
    requires Sane(f) && |src| == f.length
    ensures Raw(f, Inverted(f, src)) == Num(src) % Pow2(f.bits) * Pow2(f.shift)
  {
    var s := ShiftedLeft(Masked(src, f.bits), f.shift);
    MaskedIsModulo(src, f.bits);
    ShiftedLeftMultiplies(Masked(src, f.bits), f.shift);
    Placed(Num(src), f.bits, f.shift, 8 * f.length);
    ReverseTwice(s);
  }

  // ---------------------------------------------------------------------------------------
  // Round trips

  /** The numbers of `width` bits whose value fits `bits` bits: for signed samples, the two's
      complement of a value between -2^(bits-1) and 2^(bits-1). */
  predicate Representable(f: Format, n: nat)
    requires Sane(f)
  {
    if f.isSigned && !f.isFullyDefined then
      n < Pow2(f.bits - 1) || n + Pow2(f.bits - 1) >= Pow2(8 * f.length)
    else n < Pow2(f.bits)
  }

  lemma SignExtendedFixes(n: nat, bits: nat, width: nat)
    requires 0 < bits <= width && n < Pow2(width)
    ensures SignExtended(n, bits, width) == n <==> n < Pow2(bits - 1) || n + Pow2(bits - 1) >= Pow2(width)
  {
    var half := Pow2(bits - 1);
    if n < half {
      ModOfSmall(n, half);
    } else if n + half >= Pow2(width) {
      var many := Pow2(width - bits);
      Pow2Add(width - bits, bits);
      TopRange(n, half, many);
    }
  }

  lemma TopRange(n: nat, half: nat, many: nat)
    requires 0 < half && 0 < many && n < many * (2 * half) <= n + half
    ensures n / half % 2 == 1 && n % half == n + half - many * (2 * half)
  {
    var r := n + half - many * (2 * half);
    Distribute(2 * many, -1, half);
    Times(many, 2, half);
    DivUnique(n, half, 2 * many - 1, r);
  }

  lemma SameLowBits(n: nat, bits: nat, width: nat)
    requires 0 < bits <= width
    ensures SignExtended(n % Pow2(bits), bits, width) == SignExtended(n, bits, width)
    ensures SignExtended(n, bits, width) % Pow2(bits) == n % Pow2(bits)
  {
    SameSign(n, bits, width);
    KeepsLowBits(n, bits, width);
  }

  function Extend(n: nat, half: nat, top: nat): nat
    requires 0 < half <= top
  {
    if n / half % 2 == 1 then n % half + (top - half) else n % half
  }

  lemma SameSign(n: nat, bits: nat, width: nat)
    requires 0 < bits <= width
    ensures SignExtended(n % Pow2(bits), bits, width) == SignExtended(n, bits, width)
  {
    Pow2Grows(bits - 1, width);
    ExtendSame(n, n % Pow2(bits), Pow2(bits - 1), Pow2(bits), Pow2(width));
  }

  lemma ExtendSame(n: nat, l: nat, half: nat, d: nat, top: nat)
    requires 0 < half <= top && d == 2 * half && l == n % d
    ensures Extend(l, half, top) == Extend(n, half, top)
  {
    LowParts(n, half);
    ModOfSmall(n / half % 2, 2);
  }

  lemma KeepsLowBits(n: nat, bits: nat, width: nat)
    requires 0 < bits <= width
    ensures SignExtended(n, bits, width) % Pow2(bits) == n % Pow2(bits)
  {
    hide Pow2;
    Pow2Grows(bits - 1, width);
    ExtendKeeps(n, bits, width);
  }

  lemma ExtendKeeps(n: nat, bits: nat, width: nat)
    requires 0 < bits <= width && Pow2(bits - 1) <= Pow2(width)
    ensures Extend(n, Pow2(bits - 1), Pow2(width)) % Pow2(bits) == n % Pow2(bits)
  {
    SplitWidth(bits, width);
    ExtendedLowBits(n, Pow2(bits - 1), Pow2(bits), Pow2(width - bits), Pow2(width));
  }

  lemma SplitWidth(bits: nat, width: nat)
    requires 0 < bits <= width
    ensures Pow2(width) == Pow2(width - bits) * Pow2(bits) && Pow2(bits - 1) <= Pow2(width)
    ensures Pow2(bits) == 2 * Pow2(bits - 1)
  {
    Pow2Add(width - bits, bits);
    Pow2Grows(bits - 1, width);
  }

  lemma LowParts(n: nat, half: nat)
    requires 0 < half
    ensures var l := n % (2 * half);
            l / half == n / half % 2 && l % half == n % half && l == n / half % 2 * half + n % half
  {
    var q, r := n / half, n % half;
    Recast(q, r, half);
    DivUnique(n, 2 * half, q / 2, q % 2 * half + r);
    DivUnique(n % (2 * half), half, q % 2, r);
  }

  lemma ExtendedLowBits(n: nat, half: nat, d: nat, many: nat, top: nat)
    requires 0 < half <= top && 0 < many && d == 2 * half && top == many * d
    ensures Extend(n, half, top) % d == n % d
  {
    LowParts(n, half);
    if n / half % 2 == 1 {
      Wrap(n % half, half, many);
    } else {
      ModOfSmall(n % half, d);
    }
  }

  lemma Recast(q: nat, r: nat, half: nat)
    requires r < half
    ensures q * half + r == q / 2 * (2 * half) + (q % 2 * half + r)
    ensures 0 <= q % 2 * half + r < 2 * half
  {
    assert q == q / 2 * 2 + q % 2;
    Distribute(q / 2 * 2, q % 2, half);
    Times(q / 2, 2, half);
  }

  lemma Wrap(r: nat, half: nat, many: nat)
    requires r < half && 0 < many
    ensures 0 <= r + many * (2 * half) - half
    ensures (r + many * (2 * half) - half) % (2 * half) == half + r
  {
    Distribute(many - 1, 1, 2 * half);
    Monotone(1, many, 2 * half);
    DivUnique(r + many * (2 * half) - half, 2 * half, many - 1, half + r);
  }

  /** Writing a value and reading it back gives the value if and only if the format can represent
      it; for every byte order, and for fully defined formats as for others. */
  lemma WriteThenRead(f: Format, v: seq<byte>)
    requires Sane(f) && |v| == f.length
    ensures Converted(f, Inverted(f, v)) == v <==> Representable(f, Num(v))
  {
    ConvertedNumber(f, Inverted(f, v));
    InvertedNumber(f, v);
    NumBound(v);
    DecodeFixes(f, Num(v));
    if Num(Converted(f, Inverted(f, v))) == Num(v) {
      NumInjective(Converted(f, Inverted(f, v)), v);
    }
  }

  lemma DecodeFixes(f: Format, n: nat)
    requires Sane(f) && n < Pow2(8 * f.length)
    ensures Decoded(f, n % Pow2(f.bits) * Pow2(f.shift)) == n <==> Representable(f, n)
  {
    Placed(n, f.bits, f.shift, 8 * f.length);
    if f.isSigned && !f.isFullyDefined {
      SameLowBits(n, f.bits, 8 * f.length);
      SignExtendedFixes(n, f.bits, 8 * f.length);
    } else {
      ModTwice(n, Pow2(f.bits));
    }
  }

  lemma ModTwice(n: nat, m: nat)
    requires 0 < m
    ensures n % m % m == n % m && (n % m == n <==> n < m)
  {
    ModOfSmall(n % m, m);
    if n < m {
      ModOfSmall(n, m);
    }
  }

  /** Reading a sample and writing it back keeps its significant bits and clears all others. */
  lemma ReadThenWrite(f: Format, s: seq<byte>)
    requires Sane(f) && |s| == f.length
    ensures Raw(f, Inverted(f, Converted(f, s))) == Raw(f, s) / Pow2(f.shift) % Pow2(f.bits) * Pow2(f.shift)
  {
    QuotientIsNat(Raw(f, s), Pow2(f.shift));
    var v: int := Raw(f, s) / Pow2(f.shift);
    ConvertedNumber(f, s);
    InvertedNumber(f, Converted(f, s));
    SameLowBits(v, f.bits, 8 * f.length);
    ModTwice(v, Pow2(f.bits));
  }

  // ---------------------------------------------------------------------------------------
  // In place

  /** `byte_swap`, or a plain copy. */
  method CopyOrdered(dst: array<byte>, at: nat, src: seq<byte>, swap: bool)
    requires at + |src| <= dst.Length
    modifies dst
    ensures dst[..] == Over(old(dst[..]), at, if swap then Reverse(src) else src)
  {
    ghost var part := if swap then Reverse(src) else src;
    for i := 0 to |src|
      invariant dst[..at] == old(dst[..at]) && dst[at + |src|..] == old(dst[at + |src|..])
      invariant forall j :: 0 <= j < i ==> dst[at + j] == part[j]
    {
      if swap {
        ReverseAt(src, i);
        dst[at + i] := src[|src| - i - 1];
      } else {
        dst[at + i] := src[i];
      }
    }
    OverFrom(old(dst[..]), dst[..], at, part);
  }

  /** memmove down by `k` bytes, then zeros. */
  method MoveDown(dst: array<byte>, at: nat, len: nat, k: nat)
    requires at + len <= dst.Length && k <= len
    modifies dst
    ensures dst[..] == Over(old(dst[..]), at, DropBytes(Part(old(dst[..]), at, len), k))
  {
    CopyOrdered(dst, at, dst[at + k..at + len] + Zeros(k), false);
  }

  method MoveUp(dst: array<byte>, at: nat, len: nat, k: nat)
    requires at + len <= dst.Length && k <= len
    modifies dst
    ensures dst[..] == Over(old(dst[..]), at, RaiseBytes(Part(old(dst[..]), at, len), k))
  {
    CopyOrdered(dst, at, Zeros(k) + dst[at..at + len - k], false);
  }

  lemma {:induction false} RightBitsAt(s: seq<byte>, b: nat, i: nat)
    requires b < 8 && i < |s|
    ensures RightBits(s, b)[i] == RightByte(s[i], if i + 1 < |s| then s[i + 1] else 0, b)
  {
    if i > 0 {
      RightBitsAt(s[1..], b, i - 1);
    }
  }

  lemma {:induction false} LeftBitsAt(s: seq<byte>, below: byte, b: nat, i: nat)
    requires b < 8 && i < |s|
    ensures LeftBits(s, below, b)[i] == LeftByte(s[i], if i > 0 then s[i - 1] else below, b)
  {
    if i > 0 {
      LeftBitsAt(s[1..], s[0], b, i - 1);
    }
  }

  /** From the lowest byte up: each byte takes bits from the one above it, still unshifted. */
  method ShiftDown(dst: array<byte>, at: nat, len: nat, b: nat)
    requires at + len <= dst.Length && b < 8
    modifies dst
    ensures dst[..] == Over(old(dst[..]), at, RightBits(Part(old(dst[..]), at, len), b))
  {
    ghost var s := Part(dst[..], at, len);
    ghost var part := RightBits(s, b);
    for i := 0 to len
      invariant dst[..at] == old(dst[..at]) && dst[at + len..] == old(dst[at + len..])
      invariant forall j :: 0 <= j < i ==> dst[at + j] == part[j]
      invariant forall j :: i <= j < len ==> dst[at + j] == s[j]
    {
      RightBitsAt(s, b, i);
      dst[at + i] := RightByte(dst[at + i], if i < len - 1 then dst[at + i + 1] else 0, b);
    }
    OverFrom(old(dst[..]), dst[..], at, part);
  }

  /** From the highest byte down. */
  method ShiftUp(dst: array<byte>, at: nat, len: nat, b: nat)
    requires at + len <= dst.Length && b < 8
    modifies dst
    ensures dst[..] == Over(old(dst[..]), at, LeftBits(Part(old(dst[..]), at, len), 0, b))
  {
    ghost var s := Part(dst[..], at, len);
    ghost var part := LeftBits(s, 0, b);
    var i := len;
    while i > 0
      invariant 0 <= i <= len
      invariant dst[..at] == old(dst[..at]) && dst[at + len..] == old(dst[at + len..])
      invariant forall j :: i <= j < len ==> dst[at + j] == part[j]
      invariant forall j :: 0 <= j < i ==> dst[at + j] == s[j]
    {
      LeftBitsAt(s, 0, b, i - 1);
      dst[at + i - 1] := LeftByte(dst[at + i - 1], if i > 1 then dst[at + i - 2] else 0, b);
      i := i - 1;
    }
    OverFrom(old(dst[..]), dst[..], at, part);
  }

  lemma WholeByteOut(x: byte, b: nat)
    requires b == 8
    ensures Shl(x, b) == 0 && Shr(x, b) == 0
  {
    hide Shl, Shr;
    ShlMultiplies(x, b);
    ShrDivides(x, b);
    assert Pow2(b) == 256 by {
      assert Pow2(8) == 256;
    }
  }

  lemma ShiftedByNone(x: byte)
    ensures Shr(x, 0) == x && Shl(x, 0) == x
  {
  }

  lemma ByteByNone(x: byte, other: byte)
    ensures RightByte(x, other, 0) == x && LeftByte(x, other, 0) == x
  {
    hide Shr, Shl;
    ShiftedByNone(x);
    WholeByteOut(other, 8);
  }

  lemma {:induction false} RightBitsByNone(s: seq<byte>)
    ensures RightBits(s, 0) == s
  {
    hide RightByte;
    if s != [] {
      RightBitsByNone(s[1..]);
      ByteByNone(s[0], if |s| > 1 then s[1] else 0);
    }
  }

  lemma {:induction false} LeftBitsByNone(s: seq<byte>, below: byte)
    ensures LeftBits(s, below, 0) == s
  {
    hide LeftByte;
    if s != [] {
      LeftBitsByNone(s[1..], s[0]);
      ByteByNone(s[0], below);
    }
  }

  lemma WholeBytesRight(s: seq<byte>, shift: nat)
    requires shift <= 8 * |s| && shift % 8 == 0
    ensures ShiftedRight(s, shift) == DropBytes(s, shift / 8)
  {
    RightBitsByNone(DropBytes(s, shift / 8));
  }

  lemma WholeBytesLeft(s: seq<byte>, shift: nat)
    requires shift <= 8 * |s| && shift % 8 == 0
    ensures ShiftedLeft(s, shift) == RaiseBytes(s, shift / 8)
  {
    LeftBitsByNone(RaiseBytes(s, shift / 8), 0);
  }

  /** `shift_bits` to the right: whole bytes first. */
  method ShiftBitsRight(dst: array<byte>, at: nat, len: nat, shift: nat)
    requires at + len <= dst.Length && shift <= 8 * len
    modifies dst
    ensures dst[..] == Over(old(dst[..]), at, ShiftedRight(Part(old(dst[..]), at, len), shift))
  {
    ghost var was, s := dst[..], Part(dst[..], at, len);
    MoveDown(dst, at, len, shift / 8);
    if shift % 8 != 0 {
      OverTwice(was, at, DropBytes(s, shift / 8), ShiftedRight(s, shift));
      ShiftDown(dst, at, len, shift % 8);
    } else {
      WholeBytesRight(s, shift);
    }
  }

  /** `shift_bits` to the left. */
  method ShiftBitsLeft(dst: array<byte>, at: nat, len: nat, shift: nat)
    requires at + len <= dst.Length && shift <= 8 * len
    modifies dst
    ensures dst[..] == Over(old(dst[..]), at, ShiftedLeft(Part(old(dst[..]), at, len), shift))
  {
    ghost var was, s := dst[..], Part(dst[..], at, len);
    MoveUp(dst, at, len, shift / 8);
    if shift % 8 != 0 {
      OverTwice(was, at, RaiseBytes(s, shift / 8), ShiftedLeft(s, shift));
      ShiftUp(dst, at, len, shift % 8);
    } else {
      WholeBytesLeft(s, shift);
    }
  }

  /** A byte at `k` and a filling above it are the whole change. */
  lemma OverByte(was: seq<byte>, at: nat, s: seq<byte>, k: nat, x: byte, fill: seq<byte>)
    requires at + |s| <= |was| && k < |s| && |fill| == |s| - k - 1 && s == Part(was, at, |s|)
    ensures Over(was[at + k := x], at + k + 1, fill) == Over(was, at, s[..k] + ([x] + fill))
    ensures Over(was, at + k + 1, fill)[at + k := x] == Over(was, at, s[..k] + ([x] + fill))
  {
  }

  lemma OverTail(was: seq<byte>, at: nat, s: seq<byte>, k: nat)
    requires at + |s| <= |was| && k <= |s| && s == Part(was, at, |s|)
    ensures Over(was, at + k, Zeros(|s| - k)) == Over(was, at, s[..k] + Zeros(|s| - k))
  {
  }

  /** Byte `k` of a sample is replaced, and everything above it. */
  method ReplaceFrom(dst: array<byte>, at: nat, len: nat, k: nat, x: byte, fill: seq<byte>)
    requires at + len <= dst.Length && k < len && |fill| == len - k - 1
    modifies dst
    ensures dst[..] == Over(old(dst[..]), at, Part(old(dst[..]), at, len)[..k] + ([x] + fill))
  {
    ghost var was := dst[..];
    OverByte(was, at, Part(was, at, len), k, x, fill);
    CopyOrdered(dst, at + k + 1, fill, false);
    ghost var filled := dst[..];
    dst[at + k] := x;
    assert dst[..] == filled[at + k := x];
  }

  /** `mask_upper_bits`. */
  method MaskUpperBits(dst: array<byte>, at: nat, bits: nat, len: nat)
    requires at + len <= dst.Length && bits <= 8 * len
    modifies dst
    ensures dst[..] == Over(old(dst[..]), at, Masked(Part(old(dst[..]), at, len), bits))
  {
    hide Low, Over;
    var k := bits / 8;
    if bits % 8 != 0 {
      ReplaceFrom(dst, at, len, k, Low(dst[at + k], bits % 8), Zeros(len - k - 1));
    } else {
      OverTail(dst[..], at, Part(dst[..], at, len), k);
      CopyOrdered(dst, at + k, Zeros(len - k), false);
    }
  }

  /** `sign_extend`. */
  method SignExtend(dst: array<byte>, at: nat, bits: nat, len: nat)
    requires at + len <= dst.Length && 0 < bits <= 8 * len
    modifies dst
    ensures dst[..] == Over(old(dst[..]), at, Extended(Part(old(dst[..]), at, len), bits))
  {
    hide Shr, SignByte, Ones, Zeros, Over;
    var upper := (len * 8 - bits) / 8;
    var top, b := len - 1 - upper, (bits - 1) % 8;
    assert top == (bits - 1) / 8;
    var x := dst[at + top];
    ReplaceFrom(dst, at, len, top, SignByte(x, b), if Shr(x, b) % 2 == 1 then Ones(upper) else Zeros(upper));
  }

  // ---------------------------------------------------------------------------------------
  // Whole samples

  /** One sample of `iio_channel_convert`. */
  method ConvertOne(f: Format, dst: array<byte>, at: nat, src: seq<byte>)
    requires Sane(f) && |src| == f.length && at + f.length <= dst.Length
    modifies dst
    ensures dst[..] == Over(old(dst[..]), at, One(f, src, false))
  {
    ghost var was, s := dst[..], Ordered(f, src);
    CopyOrdered(dst, at, src, f.isBe);
    ghost var r := ShiftedRight(s, f.shift);
    OverTwice(was, at, s, r);
    if f.shift != 0 {
      ShiftBitsRight(dst, at, f.length, f.shift);
    } else {
      WholeBytesRight(s, 0);
      DropNothing(s);
    }
    OverTwice(was, at, r, Converted(f, src));
    if !f.isFullyDefined {
      if f.isSigned {
        SignExtend(dst, at, f.bits, f.length);
      } else {
        MaskUpperBits(dst, at, f.bits, f.length);
      }
    }
  }

  lemma DropNothing(s: seq<byte>)
    ensures DropBytes(s, 0) == s && RaiseBytes(s, 0) == s
  {
  }

  /** One sample of `iio_channel_convert_inverse`, by way of a scratch buffer. */
  method ConvertInverseOne(f: Format, dst: array<byte>, at: nat, src: seq<byte>)
    requires Sane(f) && |src| == f.length && at + f.length <= dst.Length
    modifies dst
    ensures dst[..] == Over(old(dst[..]), at, One(f, src, true))
  {
    var buf := new byte[f.length];
    CopyOrdered(buf, 0, src, false);
    WholeOver(buf[..], src);
    MaskUpperBits(buf, 0, f.bits, f.length);
    WholeOver(src, Masked(src, f.bits));
    if f.shift != 0 {
      ShiftBitsLeft(buf, 0, f.length, f.shift);
      WholeOver(Masked(src, f.bits), ShiftedLeft(Masked(src, f.bits), f.shift));
    } else {
      WholeBytesLeft(Masked(src, f.bits), 0);
      DropNothing(Masked(src, f.bits));
    }
    CopyOrdered(dst, at, buf[..], f.isBe);
  }

  lemma WholeOver(was: seq<byte>, part: seq<byte>)
    requires |was| == |part|
    ensures Over(was, 0, part) == part && Part(was, 0, |was|) == was
  {
  }

  // ---------------------------------------------------------------------------------------
  // Repeated samples

  function One(f: Format, s: seq<byte>, inverse: bool): (r: seq<byte>)
    requires Sane(f) && |s| == f.length
    ensures |r| == f.length
  {
    if inverse then Inverted(f, s) else Converted(f, s)
  }

  /** Sample `n` of `s`. */
  function Slot(f: Format, s: seq<byte>, n: nat): (r: seq<byte>)
    requires At(n + 1, f.length) <= |s|
    ensures |r| == f.length
  {
    Part(s, At(n, f.length), f.length)
  }

  /** Sample `n` of `now` is that of `src`, converted one way or the other. */
  predicate SlotIs(f: Format, src: seq<byte>, now: seq<byte>, n: nat, inverse: bool)
    requires Sane(f) && At(n + 1, f.length) <= |src| && At(n + 1, f.length) <= |now|
  {
    Slot(f, now, n) == One(f, Slot(f, src, n), inverse)
  }

  predicate Each(f: Format, src: seq<byte>, now: seq<byte>, n: nat, inverse: bool)
    requires Sane(f) && At(n, f.length) <= |src| && At(n, f.length) <= |now|
  {
    n == 0 || (Each(f, src, now, n - 1, inverse) && SlotIs(f, src, now, n - 1, inverse))
  }

  lemma SlotKept(f: Format, now: seq<byte>, next: seq<byte>, n: nat, upto: nat)
    requires At(n + 1, f.length) <= upto <= |now| == |next| && now[..upto] == next[..upto]
    ensures Slot(f, next, n) == Slot(f, now, n)
  {
    assert forall j :: 0 <= j < upto ==> now[j] == now[..upto][j] == next[j];
  }

  lemma {:induction false} EachKept(f: Format, src: seq<byte>, now: seq<byte>, next: seq<byte>, n: nat, inverse: bool,
                                    upto: nat)
    requires Sane(f) && At(n, f.length) <= |src| && At(n, f.length) <= upto <= |now| == |next|
    requires now[..upto] == next[..upto] && Each(f, src, now, n, inverse)
    ensures Each(f, src, next, n, inverse)
    decreases n
  {
    hide One;
    if n > 0 {
      EachKept(f, src, now, next, n - 1, inverse, upto);
      SlotKept(f, now, next, n - 1, upto);
    }
  }

  lemma EachStep(f: Format, src: seq<byte>, now: seq<byte>, next: seq<byte>, n: nat, inverse: bool)
    requires Sane(f) && At(n + 1, f.length) <= |src| && At(n + 1, f.length) <= |now| && Each(f, src, now, n, inverse)
    requires next == Over(now, At(n, f.length), One(f, Slot(f, src, n), inverse))
    ensures Each(f, src, next, n + 1, inverse) && next[At(n + 1, f.length)..] == now[At(n + 1, f.length)..]
  {
    hide One;
    OverParts(now, At(n, f.length), One(f, Slot(f, src, n), inverse));
    EachKept(f, src, now, next, n, inverse, At(n, f.length));
  }

  lemma WithinSlots(n: nat, f: Format)
    requires Sane(f) && n <= f.repeat
    ensures At(n, f.length) <= At(f.repeat, f.length) && (At(n, f.length) < At(f.repeat, f.length) <==> n < f.repeat)
    ensures n < f.repeat ==> At(n + 1, f.length) == At(n, f.length) + f.length <= At(f.repeat, f.length)
  {
    if n < f.repeat {
      SlotsApart(n, f.repeat, f.length);
    }
  }

  lemma RestKept(was: seq<byte>, now: seq<byte>, next: seq<byte>, at: nat, upto: nat)
    requires at <= upto <= |was| == |now| == |next| && now[at..] == was[at..] && next[upto..] == now[upto..]
    ensures next[upto..] == was[upto..]
  {
    assert now[upto..] == now[at..][upto - at..] && was[upto..] == was[at..][upto - at..];
  }

  /** Sample `n`, where the pointers stand. */
  method ConvertAt(f: Format, dst: array<byte>, src: seq<byte>, ptr: nat, inverse: bool, ghost n: nat)
    requires Sane(f) && ptr == At(n, f.length) && At(n + 1, f.length) <= |src| <= dst.Length
    requires Each(f, src, dst[..], n, inverse)
    modifies dst
    ensures Each(f, src, dst[..], n + 1, inverse) && dst[ptr + f.length..] == old(dst[ptr + f.length..])
  {
    hide SlotIs, Over;
    ghost var now := dst[..];
    var s := src[ptr..ptr + f.length];
    if inverse {
      ConvertInverseOne(f, dst, ptr, s);
    } else {
      ConvertOne(f, dst, ptr, s);
    }
    EachStep(f, src, now, dst[..], n, inverse);
  }

  /** `iio_channel_convert`: a pointer walks over the repeated samples; what lies behind them stays. */
  method Convert(f: Format, dst: array<byte>, src: seq<byte>)
    requires Sane(f) && |src| == At(f.repeat, f.length) <= dst.Length
    modifies dst
    ensures Each(f, src, dst[..], f.repeat, false) && dst[|src|..] == old(dst[|src|..])
  {
    hide SlotIs;
    AtIsProduct(f.repeat, f.length);
    WithinSlots(0, f);
    var ptr, end := 0, f.length * f.repeat;
    ghost var n, was := 0, dst[..];
    while ptr < end
      invariant n <= f.repeat && ptr == At(n, f.length) <= end && (ptr < end <==> n < f.repeat)
      invariant Each(f, src, dst[..], n, false) && dst[ptr..] == was[ptr..]
      decreases end - ptr
    {
      WithinSlots(n, f);
      WithinSlots(n + 1, f);
      ghost var now := dst[..];
      ConvertAt(f, dst, src, ptr, false, n);
      RestKept(was, now, dst[..], ptr, ptr + f.length);
      ptr, n := ptr + f.length, n + 1;
    }
  }

  /** The loop of `iio_channel_convert_inverse`. */
  method ConvertEachInverse(f: Format, dst: array<byte>, src: seq<byte>)
    requires Sane(f) && |src| == At(f.repeat, f.length) <= dst.Length
    modifies dst
    ensures Each(f, src, dst[..], f.repeat, true) && dst[|src|..] == old(dst[|src|..])
  {
    hide SlotIs;
    AtIsProduct(f.repeat, f.length);
    WithinSlots(0, f);
    var ptr, end := 0, f.length * f.repeat;
    ghost var n, was := 0, dst[..];
    while ptr < end
      invariant n <= f.repeat && ptr == At(n, f.length) <= end && (ptr < end <==> n < f.repeat)
      invariant Each(f, src, dst[..], n, true) && dst[ptr..] == was[ptr..]
      decreases end - ptr
    {
      WithinSlots(n, f);
      WithinSlots(n + 1, f);
      ghost var now := dst[..];
      ConvertAt(f, dst, src, ptr, true, n);
      RestKept(was, now, dst[..], ptr, ptr + f.length);
      ptr, n := ptr + f.length, n + 1;
    }
  }

  /** The size of the scratch buffer in bytes; larger samples are left alone. */
  const SCRATCH: nat := 1024

  method ConvertInverse(f: Format, dst: array<byte>, src: seq<byte>)
    requires Sane(f) && |src| == At(f.repeat, f.length) <= dst.Length
    modifies dst
    ensures if f.length > 1024 then dst[..] == old(dst[..])
            else Each(f, src, dst[..], f.repeat, true) && dst[|src|..] == old(dst[|src|..])
  {
    hide SlotIs;
    if f.length > SCRATCH {
      return;
    }
    ConvertEachInverse(f, dst, src);
  }

  /** Each of the first `n` samples can be represented. */
  predicate AllFit(f: Format, v: seq<byte>, n: nat)
    requires Sane(f) && At(n, f.length) <= |v|
  {
    n == 0 || (AllFit(f, v, n - 1) && Representable(f, Num(Slot(f, v, n - 1))))
  }

  lemma OneThenOther(f: Format, s: seq<byte>)
    requires Sane(f) && |s| == f.length
    ensures One(f, One(f, s, true), false) == s <==> Representable(f, Num(s))
  {
    WriteThenRead(f, s);
  }

  /** Every one of the repeated values comes back if and only if the format can represent all of them. */
  lemma {:induction false} WriteThenReadAll(f: Format, v: seq<byte>, raw: seq<byte>, back: seq<byte>, n: nat)
    requires Sane(f) && At(n, f.length) <= |v| && At(n, f.length) <= |raw| && At(n, f.length) <= |back|
    requires Each(f, v, raw, n, true) && Each(f, raw, back, n, false)
    ensures back[..At(n, f.length)] == v[..At(n, f.length)] <==> AllFit(f, v, n)
    decreases n
  {
    hide One, Representable;
    if n > 0 {
      WriteThenReadAll(f, v, raw, back, n - 1);
      OneThenOther(f, Slot(f, v, n - 1));
      OneMore(f, v, back, n - 1);
    }
  }

  lemma OneMore(f: Format, v: seq<byte>, w: seq<byte>, n: nat)
    requires At(n + 1, f.length) <= |v| && At(n + 1, f.length) <= |w|
    ensures v[..At(n + 1, f.length)] == w[..At(n + 1, f.length)] <==>
            v[..At(n, f.length)] == w[..At(n, f.length)] && Slot(f, v, n) == Slot(f, w, n)
  {
    var at, upto := At(n, f.length), At(n + 1, f.length);
    assert v[..upto] == v[..at] + Slot(f, v, n) && w[..upto] == w[..at] + Slot(f, w, n);
    if v[..upto] == w[..upto] {
      assert v[..at] == v[..upto][..at] && Slot(f, v, n) == v[..upto][at..];
      assert w[..at] == w[..upto][..at] && Slot(f, w, n) == w[..upto][at..];
    }
  }
}
