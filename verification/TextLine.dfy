/** The decimal lines that frame every reply of the wire protocol. */
module TextLine {
  import opened Octets

  const NEWLINE: byte := 10
  const MINUS: byte := 45
  const ZERO: byte := 48

  const INT_MAX := 0x7fff_ffff
  const INT_SPAN := 0x1_0000_0000
  const LONG_MAX := 0x7fff_ffff_ffff_ffff

  function Digits(n: nat): (s: seq<byte>)
    ensures s != []
  {
    if n < 10 then [ZERO + n] else Digits(n / 10) + [ZERO + n % 10]
  }

  /** `print_value`. */
  function Line(v: int): (s: seq<byte>)
    ensures s != []
  {
    (if v < 0 then [MINUS] + Digits(-v) else Digits(v)) + [NEWLINE]
  }

  predicate IsDigit(b: byte) {
    ZERO <= b < ZERO + 10
  }

  /** The digits at the front of `s`, read after `acc`. */
  function Number(s: seq<byte>, acc: nat): nat
    decreases |s|
  {
    if s == [] || !IsDigit(s[0]) then acc else Number(s[1..], acc * 10 + (s[0] - ZERO))
  }

  lemma {:induction false} NumberOfDigits(n: nat, tail: seq<byte>)
    ensures Number(Digits(n) + tail, 0) == Number(tail, n)
  {
    if n < 10 {
      assert (Digits(n) + tail)[1..] == tail;
    } else {
      var last := [ZERO + n % 10];
      NumberOfDigits(n / 10, last + tail);
      assert Digits(n) + tail == Digits(n / 10) + (last + tail);
      assert (last + tail)[1..] == tail;
    }
  }

  lemma {:induction false} DigitsAreDigits(n: nat)
    ensures forall b :: b in Digits(n) ==> IsDigit(b)
  {
    if n >= 10 {
      DigitsAreDigits(n / 10);
    }
  }

  /** The cast of a long to an int. */
  function CInt(v: int): int {
    (v + INT_MAX + 1) % INT_SPAN - INT_MAX - 1
  }

  datatype Got<T> = Value(value: T, rest: seq<byte>) | Malformed(rest: seq<byte>) | Closed

  /** A line up to and including its newline. */
  function ReadLine(s: seq<byte>): Got<seq<byte>>
    decreases |s|
  {
    if s == [] then Closed
    else if s[0] == NEWLINE then Value([NEWLINE], s[1..])
    else
      match ReadLine(s[1..])
      case Value(l, rest) => Value([s[0]] + l, rest)
      case _ => Closed
  }

  /** `strtol` on a line without leading blanks, narrowed to an int. */
  function Parse(line: seq<byte>, rest: seq<byte>): Got<int> {
    var negative := line != [] && line[0] == MINUS;
    var digits := if negative then line[1..] else line;
    if digits == [] || !IsDigit(digits[0]) || Number(digits, 0) > (if negative then LONG_MAX + 1 else LONG_MAX) then
      Malformed(rest)
    else
      var size: int := Number(digits, 0);
      Value(CInt(if negative then -size else size), rest)
  }

  /** `iiod_client_read_integer`: blank lines are skipped. */
  function ReadInteger(s: seq<byte>): (r: Got<int>)
    ensures !r.Closed? ==> |r.rest| < |s|
    decreases |s|
  {
    if s != [] && s[0] == NEWLINE then ReadInteger(s[1..])
    else
      LineShortens(s);
      match ReadLine(s)
      case Value(line, rest) => Parse(line, rest)
      case _ => Closed
  }

  lemma {:induction false} LineShortens(s: seq<byte>)
    ensures ReadLine(s).Value? ==> |ReadLine(s).rest| < |s|
    decreases |s|
  {
    if s != [] && s[0] != NEWLINE {
      LineShortens(s[1..]);
    }
  }

  lemma {:induction false} LineEnds(line: seq<byte>, rest: seq<byte>)
    requires NEWLINE !in line
    ensures ReadLine(line + [NEWLINE] + rest) == Value(line + [NEWLINE], rest)
    decreases |line|
  {
    var s := line + [NEWLINE] + rest;
    if line == [] {
      assert s[1..] == rest && line + [NEWLINE] == [NEWLINE];
    } else {
      LineEnds(line[1..], rest);
      assert s[1..] == line[1..] + [NEWLINE] + rest;
      assert [line[0]] + (line[1..] + [NEWLINE]) == line + [NEWLINE];
    }
  }

  lemma {:induction false} Unended(s: seq<byte>)
    requires NEWLINE !in s
    ensures ReadLine(s).Closed?
  {
    if s != [] {
      Unended(s[1..]);
    }
  }

  /** A line that was cut off is no number. */
  lemma CutLine(v: int, n: nat)
    requires n < |Line(v)|
    ensures ReadInteger(Line(v)[..n]).Closed?
  {
    DigitsAreDigits(if v < 0 then -v else v);
    var s := Line(v)[..n];
    var line := if v < 0 then [MINUS] + Digits(-v) else Digits(v);
    assert NEWLINE !in line && s == line[..n];
    Unended(s);
  }

  /** What is printed is read back, narrowed to an int, and nothing more is consumed. */
  lemma ReadBack(v: int, rest: seq<byte>)
    requires -0x8000_0000_0000_0000 <= v <= 0x7fff_ffff_ffff_ffff
    ensures ReadInteger(Line(v) + rest) == Value(CInt(v), rest)
  {
    var n := if v < 0 then -v else v;
    DigitsAreDigits(n);
    var line := if v < 0 then [MINUS] + Digits(n) else Digits(n);
    LineEnds(line, rest);
    assert Line(v) + rest == line + [NEWLINE] + rest;
    NumberOfDigits(n, [NEWLINE]);
    assert (if v < 0 then (line + [NEWLINE])[1..] else line + [NEWLINE]) == Digits(n) + [NEWLINE];
  }

  /** What no long can hold is no number. */
  lemma TooLargeForLong(v: int, rest: seq<byte>)
    requires v < -0x8000_0000_0000_0000 || 0x7fff_ffff_ffff_ffff < v
    ensures ReadInteger(Line(v) + rest) == Malformed(rest)
  {
    var n := if v < 0 then -v else v;
    DigitsAreDigits(n);
    var line := if v < 0 then [MINUS] + Digits(n) else Digits(n);
    LineEnds(line, rest);
    assert Line(v) + rest == line + [NEWLINE] + rest;
    NumberOfDigits(n, [NEWLINE]);
    assert (if v < 0 then (line + [NEWLINE])[1..] else line + [NEWLINE]) == Digits(n) + [NEWLINE];
  }

  /** Blank lines in front of a number are passed over. */
  lemma {:induction false} BlankLinesSkipped(blanks: seq<byte>, v: int, rest: seq<byte>)
    requires (forall i :: 0 <= i < |blanks| ==> blanks[i] == NEWLINE)
    requires -0x8000_0000_0000_0000 <= v <= 0x7fff_ffff_ffff_ffff
    ensures ReadInteger(blanks + Line(v) + rest) == Value(CInt(v), rest)
    decreases |blanks|
  {
    if blanks == [] {
      assert blanks + Line(v) + rest == Line(v) + rest;
      ReadBack(v, rest);
    } else {
      assert (blanks + Line(v) + rest)[1..] == blanks[1..] + Line(v) + rest;
      BlankLinesSkipped(blanks[1..], v, rest);
    }
  }

  lemma SmallFits(v: int)
    requires -INT_MAX <= v <= INT_MAX
    ensures CInt(v) == v
  {
  }

  /** A size between the int and the unsigned range reads back as a negative number. */
  lemma LargeWraps(v: int)
    requires INT_MAX < v < INT_SPAN
    ensures CInt(v) < 0
  {
  }
}
