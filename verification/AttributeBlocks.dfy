/**
 Blocks of attribute values, as `read_each_attr` and `write_each_attr` (device.c) exchange them with
 `local_read_all_dev_attrs`, `local_buffer_analyze` and `local_write_all_dev_attrs` (local.c): for
 each attribute a big-endian length or error code, then the value, filled up to four bytes.
 */
module AttributeBlocks {
  import opened Errno
  import opened Octets
  import opened Slices

  /** What reading one attribute gives: a value that is not empty, or zero, or an error code. */
  datatype Entry = Value(bytes: seq<byte>) | Code(code: int)

  const LIMIT: nat := 0x7fff_fffc

  predicate IsEntry(e: Entry) {
    match e
    case Value(b) => 0 < |b| <= LIMIT
    case Code(c) => -0x8000_0000 <= c <= 0
  }

  /** The number in front of the entry. */
  function Head(e: Entry): int {
    if e.Value? then |e.bytes| else e.code
  }

  /** `((n >> 2) + 1) << 2` unless `n` is a multiple of four. */
  function Padded(n: nat): (r: nat)
    ensures n <= r < n + 4 && r % 4 == 0
  {
    if n % 4 != 0 then (n / 4 + 1) * 4 else n
  }

  function Size(e: Entry): nat {
    4 + if e.Value? then Padded(|e.bytes|) else 0
  }

  // ---------------------------------------------------------------------------------------
  // Numbers in four bytes

  function Unsigned(v: int): (u: nat)
    requires -0x8000_0000 <= v < 0x8000_0000
    ensures u < 0x1_0000_0000
  {
    if v < 0 then v + 0x1_0000_0000 else v
  }

  function Be32(v: int): (s: seq<byte>)
    requires -0x8000_0000 <= v < 0x8000_0000
    ensures |s| == 4
  {
    var u: int := Unsigned(v);
    var b1: int, b2: int, b3: int := u / 0x1_0000 % 256, u / 256 % 256, u % 256;
    [u / 0x100_0000, b1, b2, b3]
  }

  function FromBe32(s: seq<byte>): int
    requires |s| == 4
  {
    var b0: int, b1: int, b2: int, b3: int := s[0], s[1], s[2], s[3];
    var u := b0 * 0x100_0000 + b1 * 0x1_0000 + b2 * 256 + b3;
    if u < 0x8000_0000 then u else u - 0x1_0000_0000
  }

  /** The highest byte goes first; negative numbers are sent as their two's complement. */
  lemma HighestFirst(v: int)
    requires -0x8000_0000 <= v < 0x8000_0000
    ensures var b0: int, b1: int, b2: int, b3: int := Be32(v)[0], Be32(v)[1], Be32(v)[2], Be32(v)[3];
            ((b0 * 256 + b1) * 256 + b2) * 256 + b3 == if v < 0 then v + 0x1_0000_0000 else v
  {
    var u: int := Unsigned(v);
    assert u == u / 256 * 256 + u % 256;
    assert u / 256 == u / 0x1_0000 * 256 + u / 256 % 256;
    assert u / 0x1_0000 == u / 0x100_0000 * 256 + u / 0x1_0000 % 256;
  }

  lemma Be32Back(v: int)
    requires -0x8000_0000 <= v < 0x8000_0000
    ensures FromBe32(Be32(v)) == v
  {
    var u: int := Unsigned(v);
    assert u == u / 256 * 256 + u % 256;
    assert u / 256 == u / 0x1_0000 * 256 + u / 256 % 256;
    assert u / 0x1_0000 == u / 0x100_0000 * 256 + u / 0x1_0000 % 256;
  }

  // ---------------------------------------------------------------------------------------
  // Blocks

  /** Where entry `n` begins. */
  function Offset(es: seq<Entry>, n: nat): nat
    requires n <= |es|
  {
    if n == 0 then 0 else Offset(es, n - 1) + Size(es[n - 1])
  }

  /** The entry without what fills it up. */
  function Bare(e: Entry): (n: nat)
    ensures n <= Size(e)
  {
    4 + if e.Value? then |e.bytes| else 0
  }

  /** `buf` has `e` at `at`; what fills it up does not matter, and need not be there. */
  predicate EntryAt(buf: seq<byte>, at: nat, e: Entry) {
    && IsEntry(e) && at + Bare(e) <= |buf|
    && Part(buf, at, 4) == Be32(Head(e))
    && (e.Value? ==> Part(buf, at + 4, |e.bytes|) == e.bytes)
  }

  /** The first `n` entries, one behind the other. */
  predicate Laid(buf: seq<byte>, es: seq<Entry>, n: nat)
    requires n <= |es|
  {
    n == 0 || (Laid(buf, es, n - 1) && EntryAt(buf, Offset(es, n - 1), es[n - 1]))
  }

  lemma SizeIsMultiple(e: Entry)
    ensures Size(e) % 4 == 0
  {
  }

  lemma {:induction false} OffsetIsMultiple(es: seq<Entry>, n: nat)
    requires n <= |es|
    ensures Offset(es, n) % 4 == 0
  {
    hide Size;
    if n > 0 {
      OffsetIsMultiple(es, n - 1);
      SizeIsMultiple(es[n - 1]);
    }
  }

  lemma {:induction false} LaidAt(buf: seq<byte>, es: seq<Entry>, i: nat, n: nat)
    requires i < n <= |es| && Laid(buf, es, n)
    ensures EntryAt(buf, Offset(es, i), es[i])
    decreases n
  {
    if i < n - 1 {
      LaidAt(buf, es, i, n - 1);
    }
  }

  lemma {:induction false} LaidKept(was: seq<byte>, now: seq<byte>, es: seq<Entry>, n: nat, upto: nat)
    requires n <= |es| && Laid(was, es, n) && Offset(es, n) <= upto <= |was| == |now|
    requires was[..upto] == now[..upto]
    ensures Laid(now, es, n)
    decreases n
  {
    if n > 0 {
      LaidKept(was, now, es, n - 1, upto);
      var at, e := Offset(es, n - 1), es[n - 1];
      PartKept(was, now, at, 4, upto);
      if e.Value? {
        PartKept(was, now, at + 4, |e.bytes|, upto);
      }
    }
  }

  lemma {:induction false} LaidMore(buf: seq<byte>, es: seq<Entry>, more: seq<Entry>, n: nat)
    requires n <= |es|
    ensures Offset(es + more, n) == Offset(es, n) && Laid(buf, es + more, n) == Laid(buf, es, n)
    decreases n
  {
    if n > 0 {
      LaidMore(buf, es, more, n - 1);
    }
  }

  // ---------------------------------------------------------------------------------------
  // Packing

  /** One entry: the value comes first, its length after it. */
  method PutEntry(dst: array<byte>, at: nat, e: Entry)
    requires IsEntry(e) && at + Bare(e) <= dst.Length
    modifies dst
    ensures dst[..at] == old(dst[..at]) && EntryAt(dst[..], at, e)
  {
    ghost var orig := dst[..];
    if e.Value? {
      Copy(dst, at + 4, e.bytes);
      OverParts(orig, at + 4, e.bytes);
    }
    ghost var was := dst[..];
    Copy(dst, at, Be32(Head(e)));
    OverParts(was, at, Be32(Head(e)));
    if e.Value? {
      TailPart(was, dst[..], at + 4, at + 4, |e.bytes|);
      HeadOfHead(orig, was, at + 4, at);
    }
  }

  /** What the callbacks of the packing loops may give: a value no longer than the space. */
  ghost predicate Obeys(read: (nat, nat) -> Entry) {
    forall i, space :: IsEntry(read(i, space)) && (read(i, space).Value? ==> |read(i, space).bytes| <= space)
  }

  /** Each of the first `n` entries is what the callback gave for the space that was left. */
  ghost predicate Given(es: seq<Entry>, read: (nat, nat) -> Entry, total: nat, n: nat)
    requires n <= |es|
  {
    n == 0 || (Given(es, read, total, n - 1) && Offset(es, n - 1) + 4 <= total &&
               es[n - 1] == read(n - 1, total - Offset(es, n - 1) - 4))
  }

  lemma {:induction false} GivenMore(es: seq<Entry>, e: Entry, read: (nat, nat) -> Entry, total: nat, n: nat)
    requires n <= |es|
    ensures Given(es + [e], read, total, n) == Given(es, read, total, n)
    decreases n
  {
    if n > 0 {
      GivenMore(es, e, read, total, n - 1);
      LaidMore([], es, [e], n - 1);
    }
  }

  lemma GivenNext(es: seq<Entry>, e: Entry, read: (nat, nat) -> Entry, total: nat)
    requires Given(es, read, total, |es|) && Offset(es, |es|) + 4 <= total
    requires e == read(|es|, total - Offset(es, |es|) - 4)
    ensures Given(es + [e], read, total, |es| + 1)
  {
    GivenMore(es, e, read, total, |es|);
    LaidMore([], es, [e], |es|);
  }

  lemma LaidNext(was: seq<byte>, now: seq<byte>, es: seq<Entry>, e: Entry)
    requires Laid(was, es, |es|) && Offset(es, |es|) <= |was| == |now|
    requires was[..Offset(es, |es|)] == now[..Offset(es, |es|)] && EntryAt(now, Offset(es, |es|), e)
    ensures Laid(now, es + [e], |es| + 1) && Offset(es + [e], |es| + 1) == Offset(es, |es|) + Size(e)
  {
    LaidKept(was, now, es, |es|, Offset(es, |es|));
    LaidMore(now, es, [e], |es|);
  }

  lemma EmptyBlock(buf: seq<byte>, read: (nat, nat) -> Entry, es: seq<Entry>)
    requires es == []
    ensures Laid(buf, es, |es|) && Given(es, read, |buf|, |es|) && Offset(es, |es|) == 0
  {
  }

  /** Filling up one of the first `nb` values goes beyond the `left` bytes of space. */
  ghost predicate Overruns(read: (nat, nat) -> Entry, nb: nat, i: nat, left: nat)
    decreases nb - i
  {
    4 <= left && i < nb &&
    (Size(read(i, left - 4)) > left || Overruns(read, nb, i + 1, left - Size(read(i, left - 4))))
  }

  /** It does so, and another entry follows: that one is written behind the buffer. */
  ghost predicate WritesBehind(read: (nat, nat) -> Entry, nb: nat, length: nat) {
    0 < nb && Overruns(read, nb - 1, 0, length)
  }

  lemma {:induction false} OneMoreEntry(read: (nat, nat) -> Entry, nb: nat, i: nat, left: nat)
    requires Overruns(read, nb, i, left)
    ensures Overruns(read, nb + 1, i, left)
    decreases nb - i
  {
    if Size(read(i, left - 4)) <= left {
      OneMoreEntry(read, nb, i + 1, left - Size(read(i, left - 4)));
    }
  }

  /** How many values a `size_t` has, where it has 32 bits; a wider one wraps around as well. */
  const SIZES: nat := 0x1_0000_0000

  /** `local_read_all_dev_attrs` and `local_read_all_chn_attrs`: pack until the space is used up. If
      filling up goes beyond the end of `dst`, the space that is left wraps around, so the loop goes on
      behind `dst`, where the model stops: `behind`. */
  method ReadAll(dst: array<byte>, nb: nat, read: (nat, nat) -> Entry)
      returns (ret: nat, behind: bool, ghost es: seq<Entry>)
    requires dst.Length < SIZES && Obeys(read)
    modifies dst
    ensures |es| <= nb && ret == Offset(es, |es|)
    ensures Laid(dst[..], es, |es|) && Given(es, read, dst.Length, |es|)
    ensures ret > dst.Length <==> Overruns(read, nb, 0, dst.Length)
    ensures behind <==> WritesBehind(read, nb, dst.Length)
    ensures ret <= dst.Length && |es| < nb ==> dst.Length < ret + 4
  {
    hide EntryAt, Padded, Obeys, Size;
    ret, behind, es := 0, false, [];
    EmptyBlock(dst[..], read, es);
    var i, len := 0, dst.Length;
    while len >= 4 && i < nb
      invariant i == |es| <= nb && 0 <= len && ret == Offset(es, |es|)
      invariant Laid(dst[..], es, |es|) && Given(es, read, dst.Length, |es|)
      invariant if ret <= dst.Length then
                  len == dst.Length - ret &&
                  Overruns(read, nb, 0, dst.Length) == Overruns(read, nb, i, len) &&
                  WritesBehind(read, nb, dst.Length) == (i < nb && Overruns(read, nb - 1, i, len))
                else
                  len >= 4 && Overruns(read, nb, 0, dst.Length) && WritesBehind(read, nb, dst.Length) == (i < nb)
      decreases nb - i
    {
      if ret > dst.Length {
        behind := true;
        return;
      }
      var e := read(i, len - 4);
      AnswerFits(read, i, len);
      ghost var was := dst[..];
      PutEntry(dst, ret, e);
      LaidNext(was, dst[..], es, e);
      GivenNext(es, e, read, dst.Length);
      es := es + [e];
      ret, i := ret + Size(e), i + 1;
      len := if Size(e) <= len then len - Size(e) else len + SIZES - Size(e);
    }
  }

  lemma AnswerFits(read: (nat, nat) -> Entry, i: nat, left: nat)
    requires Obeys(read) && 4 <= left
    ensures IsEntry(read(i, left - 4)) && Bare(read(i, left - 4)) <= left && Size(read(i, left - 4)) <= left + 3
  {
  }

  /** A callback that uses all the space there is, but never more than an entry may have. */
  function Greedy(i: nat, space: nat): (e: Entry)
    ensures IsEntry(e) && (e.Value? ==> |e.bytes| <= space)
  {
    if space == 0 then Code(0) else if space <= LIMIT then Value(seq(space, _ => 0)) else Value([0, 0, 0, 0])
  }

  lemma GreedySize(i: nat, left: nat)
    requires left % 4 != 0 && 4 <= left
    ensures if left - 4 <= LIMIT then Size(Greedy(i, left - 4)) > left else Size(Greedy(i, left - 4)) == 8
  {
  }

  lemma {:induction false} GreedyOverruns(nb: nat, i: nat, left: nat)
    requires left % 4 != 0 && 4 <= left && i + left <= nb
    ensures Overruns(Greedy, nb, i, left)
    decreases left
  {
    hide Greedy, Size;
    GreedySize(i, left);
    if left - 4 > LIMIT {
      GreedyOverruns(nb, i + 1, left - 8);
    }
  }

  lemma {:induction false} MultiplesFit(read: (nat, nat) -> Entry, nb: nat, i: nat, left: nat)
    requires Obeys(read) && (left % 4 == 0 || left < 4)
    ensures !Overruns(read, nb, i, left)
    decreases nb - i
  {
    if 4 <= left && i < nb {
      AnswerFits(read, i, left);
      SizeIsMultiple(read(i, left - 4));
      MultiplesFit(read, nb, i + 1, left - Size(read(i, left - 4)));
    }
  }

  /** Exactly which buffers are safe, whatever the attributes are and however many. */
  lemma SafeBuffers(length: nat)
    ensures (forall read: (nat, nat) -> Entry, nb: nat :: Obeys(read) ==> !WritesBehind(read, nb, length)) <==>
            length % 4 == 0 || length < 4
  {
    if length % 4 == 0 || length < 4 {
      forall read: (nat, nat) -> Entry, nb: nat | Obeys(read) ensures !WritesBehind(read, nb, length) {
        if 0 < nb {
          MultiplesFit(read, nb - 1, 0, length);
        }
      }
    } else {
      GreedyOverruns(length, 0, length);
      assert Obeys(Greedy) && WritesBehind(Greedy, length + 1, length);
    }
  }

  /** The buffer of the server's read commands is offered as 65535 bytes and has one more. One attribute
      whose value fills the offer makes the result 65536, so the newline that is put behind it lies
      behind the buffer; with two attributes the second entry does. */
  lemma ServerBufferOverruns(length: nat)
    requires length == 0xffff
    ensures Obeys(Greedy) && Overruns(Greedy, 1, 0, length) && Size(Greedy(0, length - 4)) == length + 1
    ensures WritesBehind(Greedy, 2, length)
  {
    assert Size(Greedy(0, length - 4)) == 4 + Padded(length - 4) == length + 1;
  }

  // ---------------------------------------------------------------------------------------
  // Reading a block

  /** Whether the block goes on with a whole entry at `at`: its head, and its value if it has one. */
  predicate Whole(buf: seq<byte>, at: nat, end: nat)
    requires end <= |buf|
  {
    at + 4 <= end && at + 4 + ValueLength(buf, at) <= end
  }

  function HeadAt(buf: seq<byte>, at: nat): int
    requires at + 4 <= |buf|
  {
    FromBe32(Part(buf, at, 4))
  }

  function ValueLength(buf: seq<byte>, at: nat): nat
    requires at + 4 <= |buf|
  {
    if HeadAt(buf, at) > 0 then HeadAt(buf, at) else 0
  }

  lemma EntryIsWhole(buf: seq<byte>, at: nat, e: Entry)
    requires EntryAt(buf, at, e)
    ensures IsEntry(e) && Whole(buf, at, |buf|) && HeadAt(buf, at) == Head(e)
    ensures e.Value? ==> Part(buf, at + 4, HeadAt(buf, at)) == e.bytes
    ensures 4 + Padded(ValueLength(buf, at)) == Size(e)
  {
    Be32Back(Head(e));
  }

  /** The values among the first `n` entries, each with the number of its attribute. */
  function Values(es: seq<Entry>, n: nat): seq<(nat, seq<byte>)>
    requires n <= |es|
  {
    if n == 0 then []
    else if es[n - 1].Value? then Values(es, n - 1) + [(n - 1, es[n - 1].bytes)]
    else Values(es, n - 1)
  }

  /** No call failed. */
  predicate Accepted(calls: seq<(nat, seq<byte>)>, cb: (nat, seq<byte>) -> int) {
    calls == [] || (Accepted(calls[..|calls| - 1], cb) && cb(calls[|calls| - 1].0, calls[|calls| - 1].1) >= 0)
  }

  /** The last call, and no other, failed, and with `ret`. */
  predicate Refused(calls: seq<(nat, seq<byte>)>, cb: (nat, seq<byte>) -> int, ret: int) {
    calls != [] && Accepted(calls[..|calls| - 1], cb) && ret < 0 &&
    ret == cb(calls[|calls| - 1].0, calls[|calls| - 1].1)
  }

  lemma NoCalls(cb: (nat, seq<byte>) -> int)
    ensures Accepted([], cb)
  {
  }

  lemma AcceptNext(calls: seq<(nat, seq<byte>)>, c: (nat, seq<byte>), cb: (nat, seq<byte>) -> int)
    requires Accepted(calls, cb)
    ensures if cb(c.0, c.1) >= 0 then Accepted(calls + [c], cb)
            else !Accepted(calls + [c], cb) && Refused(calls + [c], cb, cb(c.0, c.1))
  {
    assert (calls + [c])[..|calls|] == calls;
  }

  /** The entry at `at`: its value, or the code instead of one. */
  function Decoded(src: seq<byte>, at: nat): (e: Entry)
    requires Whole(src, at, |src|)
  {
    if HeadAt(src, at) > 0 then Value(Part(src, at + 4, HeadAt(src, at))) else Code(HeadAt(src, at))
  }

  /** What is left behind an entry, `left` being what was left behind its head: nothing, if filling up
      its value goes to the end or beyond. */
  function LeftAfter(left: nat, value: nat): nat {
    if value == 0 then left else if Padded(value) >= left then 0 else left - Padded(value)
  }

  /** The entries that are whole, at most `n`, among the `left` bytes from `at` on. */
  function WholeEntries(buf: seq<byte>, at: nat, left: nat, n: nat): (es: seq<Entry>)
    requires left == 0 || at + left <= |buf|
    ensures |es| <= n
    decreases n
  {
    if n == 0 || left < 4 || left - 4 < ValueLength(buf, at) then []
    else
      var value := ValueLength(buf, at);
      [Decoded(buf, at)] + WholeEntries(buf, at + 4 + Padded(value), LeftAfter(left - 4, value), n - 1)
  }

  /** The next entry, if it is whole, and what follows it. */
  lemma NextWhole(buf: seq<byte>, at: nat, left: nat, n: nat)
    requires 0 < n && (left == 0 || at + left <= |buf|)
    ensures var es := WholeEntries(buf, at, left, n);
            if left < 4 || left - 4 < ValueLength(buf, at) then es == []
            else
              && es != [] && es[0] == Decoded(buf, at)
              && es[1..] == WholeEntries(buf, at + 4 + Padded(ValueLength(buf, at)),
                                         LeftAfter(left - 4, ValueLength(buf, at)), n - 1)
  {
  }

  /** Of a packed block all entries are whole. */
  lemma {:induction false} PackedEntriesAreWhole(buf: seq<byte>, es: seq<Entry>, i: nat, n: nat)
    requires i <= |es| && Laid(buf, es, |es|) && Offset(es, |es|) <= |buf| && |es| - i <= n
    ensures Offset(es, i) <= Offset(es, |es|)
    ensures WholeEntries(buf, Offset(es, i), Offset(es, |es|) - Offset(es, i), n) == es[i..]
    decreases |es| - i
  {
    hide EntryAt, HeadAt, Decoded, Padded;
    OffsetGrows(es, i, |es|);
    if i < |es| {
      PackedEntriesAreWhole(buf, es, i + 1, n - 1);
      LaidAt(buf, es, i, |es|);
      OffsetGrows(es, i + 1, |es|);
      NextIsWhole(buf, es, i, n);
    }
  }

  lemma NextIsWhole(buf: seq<byte>, es: seq<Entry>, i: nat, n: nat)
    requires i < |es| && 0 < n && EntryAt(buf, Offset(es, i), es[i])
    requires Offset(es, i) + Size(es[i]) == Offset(es, i + 1) <= Offset(es, |es|) <= |buf|
    requires WholeEntries(buf, Offset(es, i + 1), Offset(es, |es|) - Offset(es, i + 1), n - 1) == es[i + 1..]
    ensures WholeEntries(buf, Offset(es, i), Offset(es, |es|) - Offset(es, i), n) == es[i..]
  {
    hide EntryAt, Size, Offset, WholeEntries;
    FirstIsWhole(buf, Offset(es, i), Offset(es, |es|), es[i], es[i + 1..], n);
    assert es[i..] == [es[i]] + es[i + 1..];
  }

  lemma FirstIsWhole(buf: seq<byte>, at: nat, end: nat, e: Entry, rest: seq<Entry>, n: nat)
    requires 0 < n && EntryAt(buf, at, e) && at + Size(e) <= end <= |buf|
    requires WholeEntries(buf, at + Size(e), end - at - Size(e), n - 1) == rest
    ensures WholeEntries(buf, at, end - at, n) == [e] + rest
  {
    EntryIsWhole(buf, at, e);
    NextWhole(buf, at, end - at, n);
    PaddedNone(ValueLength(buf, at));
    hide EntryAt, HeadAt, Padded, Size;
    assert Decoded(buf, at) == e;
    assert LeftAfter(end - at - 4, ValueLength(buf, at)) == end - at - Size(e);
  }

  lemma PaddedNone(n: nat)
    ensures n <= Padded(n) && (n == 0 <==> Padded(n) == 0)
  {
  }

  /** `read_each_attr`, from where it has `nb` bytes in `buf`: the values of all entries that are whole
      go to the callback, until one of its calls fails; if there are fewer entries than attributes, or
      the last one is cut off, -EPROTO tells. `calls` are the calls that were made. */
  method ReadEach(buf: seq<byte>, nb: nat, count: nat, cb: (nat, seq<byte>) -> int)
      returns (ret: int, calls: seq<(nat, seq<byte>)>)
    requires nb <= |buf|
    ensures var es := WholeEntries(buf, 0, nb, count);
            if Accepted(calls, cb) then calls == Values(es, |es|) && ret == (if |es| < count then -EPROTO else 0)
            else Refused(calls, cb, ret) && calls <= Values(es, |es|)
  {
    ret, calls := ReadEntries(buf, nb, count, cb, WholeEntries(buf, 0, nb, count));
  }

  method ReadEntries(buf: seq<byte>, nb: nat, count: nat, cb: (nat, seq<byte>) -> int, ghost es: seq<Entry>)
      returns (ret: int, calls: seq<(nat, seq<byte>)>)
    requires nb <= |buf| && es == WholeEntries(buf, 0, nb, count)
    ensures if Accepted(calls, cb) then calls == Values(es, |es|) && ret == (if |es| < count then -EPROTO else 0)
            else Refused(calls, cb, ret) && calls <= Values(es, |es|)
  {
    hide Accepted, Refused, HeadAt, Padded, WholeEntries, Part;
    ret, calls := 0, [];
    NoCalls(cb);
    var ptr: nat, left: nat := 0, nb;
    var i := 0;
    assert es[0..] == es;
    while i < count
      invariant i <= |es| && i <= count && (left == 0 || ptr + left <= nb)
      invariant WholeEntries(buf, ptr, left, count - i) == es[i..]
      invariant calls == Values(es, i) && Accepted(calls, cb)
    {
      NextWhole(buf, ptr, left, count - i);
      if left < 4 {
        return -EPROTO, calls;
      }
      var len := HeadAt(buf, ptr);
      if len > 0 && left - 4 < len {
        return -EPROTO, calls;
      }
      assert es[i..][0] == es[i] && es[i..][1..] == es[i + 1..];
      ValuesGrow(es, i + 1, |es|);
      ptr, left := ptr + 4, left - 4;
      if len > 0 {
        ret := cb(i, Part(buf, ptr, len));
        AcceptNext(calls, (i, Part(buf, ptr, len)), cb);
        calls := calls + [(i, Part(buf, ptr, len))];
        if ret < 0 {
          return;
        }
        len := Padded(len);
        ptr := ptr + len;
        left := if len >= left then 0 else left - len;
      }
      i := i + 1;
    }
    ret := 0;
  }

  lemma {:induction false} ValuesGrow(es: seq<Entry>, m: nat, n: nat)
    requires m <= n <= |es|
    ensures Values(es, m) <= Values(es, n)
    decreases n
  {
    if m < n {
      ValuesGrow(es, m, n - 1);
    }
  }

  lemma {:induction false} OffsetGrows(es: seq<Entry>, m: nat, n: nat)
    requires m <= n <= |es|
    ensures Offset(es, m) <= Offset(es, n)
    decreases n
  {
    if m < n {
      OffsetGrows(es, m, n - 1);
    }
  }

  // ---------------------------------------------------------------------------------------
  // Writing a block

  predicate Failed(e: Entry) {
    e.Code? && e.code < 0
  }

  /** The buffer of `write_each_attr`: one megabyte. */
  const MEGABYTE: nat := 0x10_0000

  /** One of the attributes from `i` on comes when the `left` bytes have been used up: the callback and
      the head of its entry then write behind the buffer, and the space it is told has wrapped around. */
  ghost predicate WritesPast(read: (nat, nat) -> Entry, n: nat, i: nat, left: nat)
    decreases n - i
  {
    i < n &&
    (left < 4 ||
     (!Failed(read(i, left - 4)) &&
      (Size(read(i, left - 4)) > left || WritesPast(read, n, i + 1, left - Size(read(i, left - 4))))))
  }

  /** `write_each_attr`: what the callback gives for one attribute after the other is packed, unless it
      fails; there is no check that the buffer still has room, where the model stops: `behind`. */
  method WriteEach(buf: array<byte>, n: nat, read: (nat, nat) -> Entry)
      returns (ret: int, behind: bool, ghost es: seq<Entry>)
    requires buf.Length == MEGABYTE && Obeys(read)
    modifies buf
    ensures behind <==> WritesPast(read, n, 0, MEGABYTE)
    ensures |es| <= n && Given(es, read, MEGABYTE, |es|) && Laid(buf[..], es, |es|)
    ensures forall i :: 0 <= i < |es| ==> !Failed(es[i])
    ensures !behind && ret >= 0 ==> |es| == n && ret == Offset(es, n) <= MEGABYTE
    ensures !behind && ret < 0 ==>
              |es| < n && Offset(es, |es|) + 4 <= MEGABYTE &&
              read(|es|, MEGABYTE - Offset(es, |es|) - 4) == Code(ret)
  {
    hide EntryAt, Padded, Obeys, Size;
    ret, behind, es := 0, false, [];
    EmptyBlock(buf[..], read, es);
    var i: nat, left: nat := 0, MEGABYTE;
    while i < n
      invariant i == |es| <= n && ret + left == MEGABYTE && ret == Offset(es, i)
      invariant Laid(buf[..], es, |es|) && Given(es, read, MEGABYTE, |es|)
      invariant forall k :: 0 <= k < i ==> !Failed(es[k])
      invariant WritesPast(read, n, 0, MEGABYTE) == WritesPast(read, n, i, left)
    {
      if left < 4 {
        behind := true;
        return;
      }
      var e := read(i, left - 4);
      if e.Code? && e.code < 0 {
        ret := e.code;
        return;
      }
      AnswerFits(read, i, left);
      OffsetIsMultiple(es, i);
      MultipleHasRoom(e, left);
      ghost var was := buf[..];
      PutEntry(buf, ret, e);
      LaidNext(was, buf[..], es, e);
      GivenNext(es, e, read, MEGABYTE);
      es := es + [e];
      ret, left, i := ret + Size(e), left - Size(e), i + 1;
    }
  }

  lemma MultipleHasRoom(e: Entry, left: nat)
    requires Bare(e) <= left && left % 4 == 0
    ensures Size(e) <= left
  {
  }

  lemma {:induction false} PastInOrder(read: (nat, nat) -> Entry, n: nat, i: nat, left: nat)
    requires Obeys(read) && left % 4 == 0 && WritesPast(read, n, i, left)
    ensures left < 4 || i + 1 < n
  {
    if 4 <= left {
      AnswerFits(read, i, left);
      MultipleHasRoom(read(i, left - 4), left);
    }
  }

  /** One attribute always fits; from two attributes on, values that use up the buffer are enough to
      write behind it. */
  lemma SafeCounts(n: nat)
    ensures (forall read: (nat, nat) -> Entry :: Obeys(read) ==> !WritesPast(read, n, 0, MEGABYTE)) <==> n <= 1
  {
    if n <= 1 {
      forall read: (nat, nat) -> Entry | Obeys(read) ensures !WritesPast(read, n, 0, MEGABYTE) {
        if WritesPast(read, n, 0, MEGABYTE) {
          PastInOrder(read, n, 0, MEGABYTE);
        }
      }
    } else {
      GreedyFills(n);
      assert Obeys(Greedy);
    }
  }

  lemma GreedyFills(n: nat)
    requires 1 < n
    ensures WritesPast(Greedy, n, 0, MEGABYTE)
  {
    assert Size(Greedy(0, MEGABYTE - 4)) == MEGABYTE;
  }

  /** `read` answers within the first `n` attributes, none of them failing, so that they fill the
      megabyte exactly. */
  ghost predicate FillsUp(es: seq<Entry>, read: (nat, nat) -> Entry, n: nat) {
    |es| < n && Given(es, read, MEGABYTE, |es|) && Offset(es, |es|) == MEGABYTE &&
    forall i :: 0 <= i < |es| ==> !Failed(es[i])
  }

  /** Exactly when a callback makes it write behind the buffer: when its first answers fill the
      megabyte to the last byte, and another attribute follows. */
  lemma PastExactlyWhenFull(read: (nat, nat) -> Entry, n: nat)
    requires Obeys(read)
    ensures WritesPast(read, n, 0, MEGABYTE) <==> exists es :: FillsUp(es, read, n)
  {
    if WritesPast(read, n, 0, MEGABYTE) {
      var es := FillFrom(read, n, [], MEGABYTE);
    }
    if es :| FillsUp(es, read, n) {
      FullIsPast(read, n, es, |es|);
    }
  }

  lemma {:induction false} FillFrom(read: (nat, nat) -> Entry, n: nat, es: seq<Entry>, left: nat)
      returns (fs: seq<Entry>)
    requires Obeys(read) && |es| <= n && Given(es, read, MEGABYTE, |es|) && Offset(es, |es|) + left == MEGABYTE
    requires WritesPast(read, n, |es|, left) && forall i :: 0 <= i < |es| ==> !Failed(es[i])
    ensures FillsUp(fs, read, n)
    decreases n - |es|
  {
    if left < 4 {
      OffsetIsMultiple(es, |es|);
      fs := es;
    } else {
      var e := read(|es|, left - 4);
      FilledMore(read, es, left);
      fs := FillFrom(read, n, es + [e], left - Size(e));
    }
  }

  lemma FilledMore(read: (nat, nat) -> Entry, es: seq<Entry>, left: nat)
    requires Obeys(read) && Given(es, read, MEGABYTE, |es|) && Offset(es, |es|) + left == MEGABYTE && 4 <= left
    ensures var e := read(|es|, left - 4);
            && Size(e) <= left && Given(es + [e], read, MEGABYTE, |es| + 1)
            && Offset(es + [e], |es| + 1) + (left - Size(e)) == MEGABYTE
  {
    var e := read(|es|, left - 4);
    OffsetIsMultiple(es, |es|);
    AnswerFits(read, |es|, left);
    hide Obeys, EntryAt, Padded, Size, Given;
    MultipleHasRoom(e, left);
    GivenNext(es, e, read, MEGABYTE);
    LaidMore([], es, [e], |es|);
  }

  lemma {:induction false} FullIsPast(read: (nat, nat) -> Entry, n: nat, es: seq<Entry>, k: nat)
    requires FillsUp(es, read, n) && k <= |es|
    ensures Offset(es, |es| - k) <= MEGABYTE
    ensures WritesPast(read, n, |es| - k, MEGABYTE - Offset(es, |es| - k))
    decreases k
  {
    if k > 0 {
      FullIsPast(read, n, es, k - 1);
      GivenAt(es, read, |es| - k, |es|);
    }
  }

  lemma {:induction false} GivenAt(es: seq<Entry>, read: (nat, nat) -> Entry, i: nat, n: nat)
    requires i < n <= |es| && Given(es, read, MEGABYTE, n)
    ensures Offset(es, i) + 4 <= MEGABYTE && es[i] == read(i, MEGABYTE - Offset(es, i) - 4)
    decreases n
  {
    if i < n - 1 {
      GivenAt(es, read, i, n - 1);
    }
  }

  /** `src` is a block of `nb` entries and nothing else. */
  ghost predicate IsBlock(src: seq<byte>, es: seq<Entry>, nb: nat) {
    |es| == nb && Laid(src, es, nb) && Offset(es, nb) == |src|
  }

  lemma {:induction false} LaidOnce(src: seq<byte>, es: seq<Entry>, fs: seq<Entry>, n: nat)
    requires n <= |es| && n <= |fs| && Laid(src, es, n) && Laid(src, fs, n)
    requires forall i :: 0 <= i < |es| ==> IsEntry(es[i])
    ensures Offset(es, n) == Offset(fs, n) && es[..n] == fs[..n]
    decreases n
  {
    if n > 0 {
      LaidOnce(src, es, fs, n - 1);
      SameEntry(src, Offset(es, n - 1), es[n - 1], fs[n - 1]);
      assert es[..n] == es[..n - 1] + [es[n - 1]] && fs[..n] == fs[..n - 1] + [fs[n - 1]];
    }
  }

  lemma SameEntry(src: seq<byte>, at: nat, e: Entry, f: Entry)
    requires EntryAt(src, at, e) && EntryAt(src, at, f)
    ensures e == f
  {
    EntryIsWhole(src, at, e);
    EntryIsWhole(src, at, f);
  }

  lemma Be32Forth(s: seq<byte>)
    requires |s| == 4
    ensures -0x8000_0000 <= FromBe32(s) < 0x8000_0000 && Be32(FromBe32(s)) == s
  {
    FourDigits(s[0], s[1], s[2], s[3]);
    var b0: int, b1: int, b2: int, b3: int := s[0], s[1], s[2], s[3];
    assert Unsigned(FromBe32(s)) == b0 * 0x100_0000 + b1 * 0x1_0000 + b2 * 256 + b3;
  }

  lemma FourDigits(b0: int, b1: int, b2: int, b3: int)
    requires 0 <= b0 < 256 && 0 <= b1 < 256 && 0 <= b2 < 256 && 0 <= b3 < 256
    ensures var u := b0 * 0x100_0000 + b1 * 0x1_0000 + b2 * 256 + b3;
            u / 0x100_0000 == b0 && u / 0x1_0000 % 256 == b1 && u / 256 % 256 == b2 && u % 256 == b3
  {
    var u := b0 * 0x100_0000 + b1 * 0x1_0000 + b2 * 256 + b3;
    assert u / 0x1_0000 == b0 * 256 + b1 && u / 256 == b0 * 0x1_0000 + b1 * 256 + b2;
  }

  lemma DecodedAt(src: seq<byte>, at: nat)
    requires |src| <= LIMIT && Whole(src, at, |src|) && at + 4 + Padded(ValueLength(src, at)) <= |src|
    ensures EntryAt(src, at, Decoded(src, at)) && Size(Decoded(src, at)) == 4 + Padded(ValueLength(src, at))
  {
    Be32Forth(Part(src, at, 4));
  }

  /** A block that goes wrong behind its first entries is not a block at all. */
  lemma NotABlock(src: seq<byte>, es: seq<Entry>, fs: seq<Entry>, nb: nat)
    requires Laid(src, es, |es|) && |es| < nb
    requires !(Whole(src, Offset(es, |es|), |src|) &&
               Offset(es, |es|) + 4 + Padded(ValueLength(src, Offset(es, |es|))) <= |src|)
    ensures !IsBlock(src, fs, nb)
  {
    hide Padded, HeadAt, EntryAt, Size;
    if IsBlock(src, fs, nb) {
      var n := |es|;
      LaidLess(src, fs, n, nb);
      EveryEntry(src, es, n);
      LaidOnce(src, es, fs, n);
      LaidAt(src, fs, n, nb);
      EntryIsWhole(src, Offset(fs, n), fs[n]);
      OffsetGrows(fs, n + 1, nb);
    }
  }

  lemma NoBlock(src: seq<byte>, es: seq<Entry>, nb: nat)
    requires Laid(src, es, |es|) && |es| < nb
    requires !(Whole(src, Offset(es, |es|), |src|) &&
               Offset(es, |es|) + 4 + Padded(ValueLength(src, Offset(es, |es|))) <= |src|)
    ensures forall fs: seq<Entry> :: !IsBlock(src, fs, nb)
  {
    forall fs: seq<Entry> ensures !IsBlock(src, fs, nb) {
      NotABlock(src, es, fs, nb);
    }
  }

  lemma DecodedNext(src: seq<byte>, es: seq<Entry>, at: nat)
    requires Laid(src, es, |es|) && at == Offset(es, |es|) && |src| <= LIMIT
    requires Whole(src, at, |src|) && at + 4 + Padded(ValueLength(src, at)) <= |src|
    ensures var fs := es + [Decoded(src, at)];
            Laid(src, fs, |fs|) && Offset(fs, |fs|) == at + 4 + Padded(ValueLength(src, at)) <= |src|
  {
    DecodedAt(src, at);
    LaidNext(src, src, es, Decoded(src, at));
  }

  lemma {:induction false} LaidLess(src: seq<byte>, es: seq<Entry>, m: nat, n: nat)
    requires m <= n <= |es| && Laid(src, es, n)
    ensures Laid(src, es, m)
    decreases n
  {
    if m < n {
      LaidLess(src, es, m, n - 1);
    }
  }

  lemma EveryEntry(src: seq<byte>, es: seq<Entry>, n: nat)
    requires n == |es| && Laid(src, es, n)
    ensures forall i :: 0 <= i < n ==> IsEntry(es[i])
  {
    forall i | 0 <= i < n ensures IsEntry(es[i]) {
      LaidAt(src, es, i, n);
    }
  }

  lemma BlockOnce(src: seq<byte>, es: seq<Entry>, fs: seq<Entry>, nb: nat)
    requires |es| == nb && Laid(src, es, nb) && IsBlock(src, fs, nb)
    ensures es == fs && Offset(es, nb) == |src|
  {
    EveryEntry(src, es, nb);
    LaidOnce(src, es, fs, nb);
    assert es[..nb] == es && fs[..nb] == fs;
  }

  /** With `n` entries still to come, filling up a value goes beyond the end of `src`, and another
      entry follows: that one is read behind `src`. */
  predicate ReadsBehindFrom(src: seq<byte>, at: nat, n: nat)
    decreases n
  {
    0 < n && Whole(src, at, |src|) &&
    var next := at + 4 + Padded(ValueLength(src, at));
    if next <= |src| then ReadsBehindFrom(src, next, n - 1) else 1 < n
  }

  predicate ReadsBehind(src: seq<byte>, nb: nat) {
    ReadsBehindFrom(src, 0, nb)
  }

  /** `local_buffer_analyze` accepts exactly the blocks. When filling up a value goes beyond the end
      of `src`, the length that is left wraps around; while entries are left, the code then reads on
      behind `src`, where the model stops: `beyond`. */
  method Analyze(nb: nat, src: seq<byte>) returns (ret: int, beyond: bool, ghost es: seq<Entry>)
    requires |src| <= LIMIT
    ensures ret == 0 || ret == -EINVAL
    ensures ret == 0 ==> IsBlock(src, es, nb)
    ensures ret != 0 ==> forall fs: seq<Entry> :: !IsBlock(src, fs, nb)
    ensures beyond <==> ReadsBehind(src, nb)
    ensures beyond ==> ret != 0
  {
    hide IsBlock, HeadAt, Decoded, Be32, EntryAt, Padded;
    es, beyond, ret := [], false, 0;
    var at, len, n := 0, |src|, nb;
    while n > 0
      invariant 0 <= n && n + |es| == nb && 0 <= len && at + len == |src|
      invariant at == Offset(es, |es|) && Laid(src, es, |es|)
      invariant ReadsBehind(src, nb) == ReadsBehindFrom(src, at, n)
    {
      n := n - 1;
      if len < 4 || (HeadAt(src, at) > 0 && HeadAt(src, at) > len - 4) {
        NoBlock(src, es, nb);
        return -EINVAL, false, es;
      }
      var val := ValueLength(src, at);
      if Padded(val) > len - 4 {
        NoBlock(src, es, nb);
        return -EINVAL, n > 0, es;
      }
      DecodedNext(src, es, at);
      es := es + [Decoded(src, at)];
      at, len := at + (4 + Padded(val)), len - (4 + Padded(val));
    }
    ret := Verdict(src, nb, es, len);
  }

  lemma {:induction false} MultiplesAreReadInside(src: seq<byte>, at: nat, n: nat)
    requires at <= |src| && ((|src| - at) % 4 == 0 || |src| < 4)
    ensures !ReadsBehindFrom(src, at, n)
    decreases n
  {
    if 0 < n && Whole(src, at, |src|) {
      PaddedFits(ValueLength(src, at), |src| - at - 4);
      MultiplesAreReadInside(src, at + 4 + Padded(ValueLength(src, at)), n - 1);
    }
  }

  lemma PaddedFits(n: nat, space: nat)
    requires n <= space && space % 4 == 0
    ensures Padded(n) <= space && (space - Padded(n)) % 4 == 0
  {
  }

  /** Empty entries, and a value of fewer than four bytes at the very end. */
  function ShortEnding(length: nat): (src: seq<byte>)
    requires 4 < length && length % 4 != 0
    ensures |src| == length
  {
    seq(length, j => if j == length - length % 4 - 1 then length % 4 else 0)
  }

  lemma {:induction false} ShortEndingReadsBehind(src: seq<byte>, at: nat, n: nat)
    requires 4 < |src| && |src| % 4 != 0 && src == ShortEnding(|src|)
    requires at % 4 == 0 && at + 4 < |src| && |src| - at <= n
    ensures ReadsBehindFrom(src, at, n)
    decreases n
  {
    var r := |src| % 4;
    assert Part(src, at, 4) == [src[at], src[at + 1], src[at + 2], src[at + 3]];
    if at + 4 + r == |src| {
      assert HeadAt(src, at) == r;
    } else {
      assert HeadAt(src, at) == 0;
      ShortEndingReadsBehind(src, at + 4, n - 1);
    }
  }

  /** Exactly which lengths are safe, whatever the bytes are and however many attributes there are. */
  lemma SafeLengths(length: nat)
    ensures (forall src: seq<byte>, nb: nat :: |src| == length ==> !ReadsBehind(src, nb)) <==>
            length % 4 == 0 || length < 4
  {
    if length % 4 == 0 || length < 4 {
      forall src: seq<byte>, nb: nat | |src| == length ensures !ReadsBehind(src, nb) {
        MultiplesAreReadInside(src, 0, nb);
      }
    } else {
      var src := ShortEnding(length);
      ShortEndingReadsBehind(src, 0, length);
      assert |src| == length && ReadsBehind(src, length);
    }
  }

  /** Five bytes for two attributes. */
  lemma FiveBytesReadBehind(src: seq<byte>, nb: nat)
    requires src == [0, 0, 0, 1, 7] && nb == 2
    ensures ReadsBehind(src, nb)
  {
    assert Part(src, 0, 4) == [0, 0, 0, 1];
    assert HeadAt(src, 0) == 1;
  }

  /** Nothing may be left. */
  method Verdict(src: seq<byte>, nb: nat, ghost es: seq<Entry>, len: nat) returns (ret: int)
    requires |es| == nb && Laid(src, es, nb) && Offset(es, nb) + len == |src|
    ensures ret == if len == 0 then 0 else -EINVAL
    ensures ret == 0 ==> IsBlock(src, es, nb)
    ensures ret != 0 ==> forall fs: seq<Entry> :: !IsBlock(src, fs, nb)
  {
    ret := if len == 0 then 0 else -EINVAL;
    forall fs: seq<Entry> | IsBlock(src, fs, nb) ensures len == 0 {
      BlockOnce(src, es, fs, nb);
    }
  }

  /** `local_write_all_dev_attrs` writes either every value of a block, or nothing. */
  method WriteAll(src: seq<byte>, nb: nat) returns (ret: int, writes: seq<(nat, seq<byte>)>, ghost es: seq<Entry>)
    requires |src| <= LIMIT
    ensures if ret == -EINVAL then writes == [] && forall fs: seq<Entry> :: !IsBlock(src, fs, nb)
            else ret == |src| && IsBlock(src, es, nb) && writes == Values(es, nb)
  {
    var beyond: bool;
    writes := [];
    ret, beyond, es := Analyze(nb, src);
    if ret != 0 {
      return;
    }
    var ptr := 0;
    for i := 0 to nb
      invariant ptr == Offset(es, i) && writes == Values(es, i)
    {
      LaidAt(src, es, i, nb);
      EntryIsWhole(src, ptr, es[i]);
      var val := HeadAt(src, ptr);
      ptr := ptr + 4;
      if val > 0 {
        writes := writes + [(i, Part(src, ptr, val))];
        ptr := ptr + Padded(val);
      }
    }
    ret := ptr;
  }

  lemma {:induction false} LaidTaken(buf: seq<byte>, es: seq<Entry>, n: nat, upto: nat)
    requires n <= |es| && Laid(buf, es, n) && Offset(es, n) <= upto <= |buf|
    ensures Laid(buf[..upto], es, n)
    decreases n
  {
    if n > 0 {
      LaidTaken(buf, es, n - 1, upto);
      var at, e := Offset(es, n - 1), es[n - 1];
      assert Part(buf[..upto], at, 4) == Part(buf, at, 4);
      if e.Value? {
        assert Part(buf[..upto], at + 4, |e.bytes|) == Part(buf, at + 4, |e.bytes|);
      }
    }
  }

  /** What `write_each_attr` packs is a block, and no other than that of its values. */
  lemma PackedIsBlock(buf: seq<byte>, values: seq<Entry>, es: seq<Entry>)
    requires Laid(buf, values, |values|) && Offset(values, |values|) <= |buf|
    ensures IsBlock(buf[..Offset(values, |values|)], values, |values|)
    ensures IsBlock(buf[..Offset(values, |values|)], es, |values|) ==> es == values
  {
    var src := buf[..Offset(values, |values|)];
    LaidTaken(buf, values, |values|, |src|);
    if IsBlock(src, es, |values|) {
      BlockOnce(src, values, es, |values|);
    }
  }

  // ---------------------------------------------------------------------------------------
  // From one end to the other

  /** Read-all on one side, `read_each_attr` on the other: as long as packing stays inside the buffer,
      every value that was read is delivered, in order and under the number of its attribute, and
      nothing else is, until a callback fails; if the space did not suffice, -EPROTO tells. */
  method Transfer(dst: array<byte>, nb: nat, read: (nat, nat) -> Entry, cb: (nat, seq<byte>) -> int)
      returns (ret: int, calls: seq<(nat, seq<byte>)>, ghost es: seq<Entry>)
    requires dst.Length < SIZES && Obeys(read) && !Overruns(read, nb, 0, dst.Length)
    modifies dst
    ensures |es| <= nb && Given(es, read, dst.Length, |es|)
    ensures |es| < nb ==> Offset(es, |es|) <= dst.Length < Offset(es, |es|) + 4
    ensures if Accepted(calls, cb) then calls == Values(es, |es|) && ret == (if |es| < nb then -EPROTO else 0)
            else Refused(calls, cb, ret) && calls <= Values(es, |es|)
  {
    hide EntryAt, HeadAt, Padded, Size, Obeys, Overruns, WholeEntries, Accepted, Refused;
    var n, behind;
    n, behind, es := ReadAll(dst, nb, read);
    PackedEntriesAreWhole(dst[..], es, 0, nb);
    assert es[0..] == es;
    ret, calls := ReadEach(dst[..], n, nb, cb);
  }
}
