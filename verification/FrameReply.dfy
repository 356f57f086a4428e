/**
 READBUFM and READBUFMA: replies made of whole frames, each with its metadata record. READBUFM
 asks for one frame; READBUFMA asks for many with a single command.
 */
module FrameReply {
  import opened Errno
  import opened Octets
  import opened TextLine
  import ReadBuf

  // ---------------------------------------------------------------------------------------
  // The server

  datatype Frame = Frame(iq: seq<byte>, metadata: seq<byte>)

  /** What the worker has for a waiting client: a frame, or an error. */
  datatype Supply = Ready(frame: Frame) | Fails(error: int)

  /** Whether a frame is what the client asked for. */
  predicate Fits(f: Frame, nb: nat, capacity: nat) {
    |f.iq| == nb && 0 < |f.metadata| <= capacity
  }

  function FrameBytes(f: Frame, mask: seq<byte>): seq<byte> {
    Line(|f.iq|) + mask + Line(|f.metadata|) + f.metadata + f.iq
  }

  datatype Stream = Stream(out: seq<byte>, done: bool)

  /** The reply to a request for `frames` frames of `nb` bytes; a frame that does not fit ends it
      with `misfit`. */
  function Serve(frames: nat, nb: nat, capacity: nat, misfit: int, mask: seq<byte>, supply: seq<Supply>): Stream
    decreases |supply|
  {
    if frames == 0 then Stream([], true)
    else if supply == [] then Stream([], false)
    else if supply[0].Fails? then Stream(Line(supply[0].error), true)
    else if !Fits(supply[0].frame, nb, capacity) then Stream(Line(misfit), true)
    else
      var later := Serve(frames - 1, nb, capacity, misfit, mask, supply[1..]);
      Stream(FrameBytes(supply[0].frame, mask) + later.out, later.done)
  }

  /** The frames that were sent, and 0 or the error that cut the reply short. */
  datatype Delivery = Delivery(frames: seq<Frame>, ret: int)

  function Delivered(frames: nat, nb: nat, capacity: nat, misfit: int, supply: seq<Supply>): Delivery
    decreases |supply|
  {
    if frames == 0 || supply == [] then Delivery([], 0)
    else if supply[0].Fails? then Delivery([], supply[0].error)
    else if !Fits(supply[0].frame, nb, capacity) then Delivery([], misfit)
    else
      var later := Delivered(frames - 1, nb, capacity, misfit, supply[1..]);
      later.(frames := [supply[0].frame] + later.frames)
  }

  /** A READBUFMA client in the worker's list. */
  class AsyncThread {
    const capacity: nat
    var nb: nat
    var framesRemaining: nat
    var err: int
    var newClient: bool
    var active: bool
    var out: seq<byte>

    constructor (frames: nat, nb: nat, capacity: nat)
      requires 0 < frames
      ensures active && newClient && this.nb == nb && framesRemaining == frames && out == []
      ensures this.capacity == capacity
    {
      this.capacity := capacity;
      this.nb, framesRemaining, err, newClient, active, out := nb, frames, 0, true, true, [];
    }

    /** One turn of the worker: a frame goes out whole, or the request ends with an error. The
        mask goes out with every frame. */
    method TakeTurn(mask: seq<byte>, s: Supply, misfit: int)
      requires active && newClient && 0 < framesRemaining && misfit < 0 && 0 < nb
      requires s.Fails? ==> s.error < 0
      modifies this
      ensures var sent := s.Ready? && Fits(s.frame, old(nb), capacity);
              if sent then
                && out == old(out) + FrameBytes(s.frame, mask) && framesRemaining == old(framesRemaining) - 1
                && active == (framesRemaining != 0)
                && (if active then newClient && nb == old(nb) else err == 0 && nb == 0)
              else
                && out == old(out) && !active && nb == 0
                && err == (if s.Fails? then s.error else misfit)
    {
      var ret := misfit;
      if s.Fails? {
        ret := s.error;
      } else if nb == |s.frame.iq| && capacity >= |s.frame.metadata| && |s.frame.metadata| > 0 {
        var was := out;
        out := out + Line(|s.frame.iq|);
        if newClient {
          out := out + mask;
          newClient := false;
        }
        out := out + Line(|s.frame.metadata|) + s.frame.metadata;
        out := out + s.frame.iq;
        assert out == was + FrameBytes(s.frame, mask);
        ret := |s.frame.iq|;
      }
      if ret > 0 {
        nb := nb - ret;
        framesRemaining := framesRemaining - 1;
        if framesRemaining != 0 {
          nb, newClient := ret, true;
        }
      }
      if ret < 0 || framesRemaining == 0 {
        err, nb, active := if ret < 0 then ret else nb, 0, false;
      }
    }

    /** The end of `rw_buffer` and `rw_dev_with_metadata_async`: an error is printed; after all
        the frames nothing is. */
    method Finish(asked: nat) returns (ret: int)
      requires 0 < asked && err <= asked
      modifies `out
      ensures out == old(out) + (if err < 0 then Line(err) else ReadBuf.Closing(asked, err))
    {
      if 0 < err < asked {
        out := out + Line(0);
      }
      ret := if err < 0 then err else asked - err;
      if ret <= 0 {
        out := out + Line(ret);
      }
    }

    /** The worker's turns, one for each supply, until the request ends; then its end. Together they
        write `Serve`. */
    method Answer(mask: seq<byte>, supply: seq<Supply>, misfit: int) returns (done: bool)
      requires active && newClient && 0 < framesRemaining && misfit < 0 && 0 < nb
      requires forall s :: s in supply && s.Fails? ==> s.error < 0
      modifies this
      ensures Stream(out, done) ==
              Prefixed(old(out), Serve(old(framesRemaining), old(nb), capacity, misfit, mask, supply))
    {
      ghost var whole := Prefixed(out, Serve(framesRemaining, nb, capacity, misfit, mask, supply));
      var asked, i := nb, 0;
      while active && i < |supply|
        invariant i <= |supply|
        invariant active ==> newClient && 0 < framesRemaining && nb == asked
        invariant active ==> whole == Prefixed(out, Serve(framesRemaining, nb, capacity, misfit, mask, supply[i..]))
        invariant !active ==> err <= 0 && whole == Stream(if err < 0 then out + Line(err) else out, true)
        decreases |supply| - i
      {
        ServeTurn(out, framesRemaining, nb, capacity, misfit, mask, supply, i);
        TakeTurn(mask, supply[i], misfit);
        i := i + 1;
      }
      done := !active;
      if done {
        var _ := Finish(asked);
      }
    }
  }

  function Prefixed(was: seq<byte>, s: Stream): Stream {
    s.(out := was + s.out)
  }

  /** One more supply, at the front of what is left. */
  lemma ServeTurn(was: seq<byte>, frames: nat, nb: nat, capacity: nat, misfit: int, mask: seq<byte>,
                  supply: seq<Supply>, i: nat)
    requires 0 < frames && i < |supply|
    ensures Prefixed(was, Serve(frames, nb, capacity, misfit, mask, supply[i..])) ==
            if supply[i].Fails? then Stream(was + Line(supply[i].error), true)
            else if !Fits(supply[i].frame, nb, capacity) then Stream(was + Line(misfit), true)
            else Prefixed(was + FrameBytes(supply[i].frame, mask),
                          Serve(frames - 1, nb, capacity, misfit, mask, supply[i + 1..]))
    ensures supply[i].Ready? ==>
              Prefixed(was + FrameBytes(supply[i].frame, mask),
                       Serve(0, nb, capacity, misfit, mask, supply[i + 1..])) ==
              Stream(was + FrameBytes(supply[i].frame, mask), true)
  {
    assert supply[i..][0] == supply[i] && supply[i..][1..] == supply[i + 1..];
    if supply[i].Ready? {
      var later := Serve(frames - 1, nb, capacity, misfit, mask, supply[i + 1..]).out;
      assert was + (FrameBytes(supply[i].frame, mask) + later) == was + FrameBytes(supply[i].frame, mask) + later;
      assert was + FrameBytes(supply[i].frame, mask) + [] == was + FrameBytes(supply[i].frame, mask);
    }
  }

  // ---------------------------------------------------------------------------------------
  // The client

  datatype Received = Received(ret: int, frame: Frame, rest: seq<byte>)

  const NoFrame := Frame([], [])

  /** A length line, refused unless it is between 1 and `limit`. */
  function ReadLength(s: seq<byte>, limit: nat): (r: Received)
    ensures 0 < r.ret ==> r.ret <= limit
  {
    match ReadInteger(s)
    case Closed => Received(-EPIPE, NoFrame, [])
    case Malformed(rest) => Received(-EINVAL, NoFrame, rest)
    case Value(n, rest) =>
      if n < 0 then Received(n, NoFrame, rest)
      else if n == 0 || n > limit then Received(-EOVERFLOW, NoFrame, rest)
      else Received(n, NoFrame, rest)
  }

  /** `iiod_client_read_metadata_response_unlocked`. */
  function ReadFrame(s: seq<byte>, len: nat, capacity: nat, maskBytes: nat): Received {
    var size := ReadLength(s, len);
    if size.ret < 0 then size
    else if |size.rest| < maskBytes then Received(-EPIPE, NoFrame, [])
    else
      var meta := ReadLength(size.rest[maskBytes..], capacity);
      if meta.ret < 0 then meta
      else if size.ret <= 0 || meta.ret <= 0 || |meta.rest| < meta.ret + size.ret then Received(-EPIPE, NoFrame, [])
      else
        Received(size.ret, Frame(meta.rest[meta.ret..meta.ret + size.ret], meta.rest[..meta.ret]),
                 meta.rest[meta.ret + size.ret..])
  }

  method ReadLengthUnlocked(c: ReadBuf.Client, limit: nat) returns (ret: int)
    modifies c`stream
    ensures var r := ReadLength(old(c.stream), limit); ret == r.ret && c.stream == r.rest && ret != 0
  {
    var got, n := c.ReadIntegerUnlocked();
    if got < 0 {
      return got;
    }
    if n < 0 {
      return n;
    }
    if n == 0 || n > limit {
      return -EOVERFLOW;
    }
    return n;
  }

  method ReadFrameUnlocked(c: ReadBuf.Client, len: nat, capacity: nat, maskBytes: nat) returns (r: Received)
    modifies c`stream
    ensures r == ReadFrame(old(c.stream), len, capacity, maskBytes) && c.stream == r.rest
  {
    var got: int, mask, metadata, iq;
    var iqBytes := ReadLengthUnlocked(c, len);
    if iqBytes < 0 {
      return Received(iqBytes, NoFrame, c.stream);
    }
    got, mask := c.ReadAll(maskBytes);
    if got < 0 {
      return Received(got, NoFrame, c.stream);
    }
    var metaBytes := ReadLengthUnlocked(c, capacity);
    if metaBytes < 0 {
      return Received(metaBytes, NoFrame, c.stream);
    }
    ghost var s := c.stream;
    got, metadata := c.ReadAll(metaBytes);
    if got < 0 {
      return Received(got, NoFrame, c.stream);
    }
    got, iq := c.ReadAll(iqBytes);
    if got < 0 {
      return Received(got, NoFrame, c.stream);
    }
    r := Received(iqBytes, Frame(iq, metadata), c.stream);
  }

  /** A client that reads the frames it asked for, up to the first error. */
  function ReadFrames(s: seq<byte>, frames: nat, len: nat, capacity: nat, maskBytes: nat): (Delivery, seq<byte>)
    decreases frames
  {
    if frames == 0 then (Delivery([], 0), s)
    else
      var r := ReadFrame(s, len, capacity, maskBytes);
      if r.ret < 0 then (Delivery([], r.ret), r.rest)
      else
        var (later, rest) := ReadFrames(r.rest, frames - 1, len, capacity, maskBytes);
        (later.(frames := [r.frame] + later.frames), rest)
  }

  // ---------------------------------------------------------------------------------------
  // Both sides stop at the same byte

  predicate ErrorCodes(supply: seq<Supply>) {
    forall s :: s in supply && s.Fails? ==> -INT_MAX <= s.error < 0
  }

  lemma LengthReadBack(v: int, tail: seq<byte>, limit: nat)
    requires -INT_MAX <= v <= limit <= INT_MAX && v != 0
    ensures ReadLength(Line(v) + tail, limit) == Received(v, NoFrame, tail)
  {
    ReadBack(v, tail);
    SmallFits(v);
  }

  /** What the client makes of a length, whoever wrote it. */
  lemma LengthMeans(v: int, tail: seq<byte>, limit: nat)
    requires -INT_MAX <= v <= INT_MAX
    ensures ReadLength(Line(v) + tail, limit) ==
              if v < 0 then Received(v, NoFrame, tail)
              else if 0 < v <= limit then Received(v, NoFrame, tail)
              else Received(-EOVERFLOW, NoFrame, tail)
  {
    ReadBack(v, tail);
    SmallFits(v);
  }

  lemma TakeOfSum(a: seq<byte>, b: seq<byte>, n: nat)
    requires n <= |a| + |b|
    ensures (a + b)[..n] == if n <= |a| then a[..n] else a + b[..n - |a|]
  {
  }

  lemma CutAfterMask(f: Frame, nb: nat, capacity: nat, n: nat)
    requires Fits(f, nb, capacity) && 0 < nb <= INT_MAX && capacity <= INT_MAX
    requires n < |Line(|f.metadata|)| + |f.metadata| + |f.iq|
    ensures var meta := ReadLength((Line(|f.metadata|) + (f.metadata + f.iq))[..n], capacity);
            meta.ret == -EPIPE || (meta.ret == |f.metadata| && |meta.rest| < |f.metadata| + |f.iq|)
    ensures ReadLength((Line(|f.metadata|) + (f.metadata + f.iq))[..n], capacity).ret == -EPIPE ==>
              ReadLength((Line(|f.metadata|) + (f.metadata + f.iq))[..n], capacity).rest == []
  {
    var line := Line(|f.metadata|);
    TakeOfSum(line, f.metadata + f.iq, n);
    if n < |line| {
      CutLine(|f.metadata|, n);
    } else {
      assert (line + (f.metadata + f.iq))[..n] == line + (f.metadata + f.iq)[..n - |line|];
      LengthReadBack(|f.metadata|, (f.metadata + f.iq)[..n - |line|], capacity);
    }
  }

  /** A client that gets only the beginning of a frame gets no frame, but -EPIPE. */
  lemma CutFrame(f: Frame, mask: seq<byte>, nb: nat, capacity: nat, n: nat)
    requires Fits(f, nb, capacity) && 0 < nb <= INT_MAX && capacity <= INT_MAX && n < |FrameBytes(f, mask)|
    ensures ReadFrame(FrameBytes(f, mask)[..n], nb, capacity, |mask|) == Received(-EPIPE, NoFrame, [])
  {
    hide Line;
    var line := Line(|f.iq|);
    var tail := Line(|f.metadata|) + (f.metadata + f.iq);
    assert FrameBytes(f, mask) == line + (mask + tail);
    TakeOfSum(line, mask + tail, n);
    if n < |line| {
      CutLine(|f.iq|, n);
    } else {
      var u := (mask + tail)[..n - |line|];
      assert (line + (mask + tail))[..n] == line + u;
      LengthReadBack(|f.iq|, u, nb);
      TakeOfSum(mask, tail, n - |line|);
      if |mask| <= |u| {
        assert u[|mask|..] == tail[..|u| - |mask|];
        CutAfterMask(f, nb, capacity, |u| - |mask|);
      }
    }
  }

  lemma FrameReadBack(f: Frame, mask: seq<byte>, tail: seq<byte>, nb: nat, capacity: nat)
    requires Fits(f, nb, capacity) && 0 < nb <= INT_MAX && capacity <= INT_MAX
    ensures ReadFrame(FrameBytes(f, mask) + tail, nb, capacity, |mask|) == Received(nb, f, tail)
  {
    var body := f.metadata + f.iq + tail;
    var record := Line(|f.metadata|) + body;
    assert FrameBytes(f, mask) + tail == Line(nb) + (mask + record);
    LengthReadBack(nb, mask + record, nb);
    assert (mask + record)[|mask|..] == record;
    LengthReadBack(|f.metadata|, body, capacity);
    assert body[..|f.metadata|] == f.metadata && body[|f.metadata|..|f.metadata| + nb] == f.iq;
    assert body[|f.metadata| + nb..] == tail;
  }

  lemma ErrorReadBack(error: int, mask: seq<byte>, tail: seq<byte>, nb: nat, capacity: nat)
    requires -INT_MAX <= error < 0 && nb <= INT_MAX
    ensures ReadFrame(Line(error) + tail, nb, capacity, |mask|) == Received(error, NoFrame, tail)
  {
    LengthReadBack(error, tail, nb);
  }

  /** However the capture goes, a finished reply gives the client either all the frames it asked
      for, or fewer and exactly one error line; it reads every byte of the reply and no more. */
  lemma {:induction false} FramesAreFramed(frames: nat, nb: nat, capacity: nat, misfit: int, mask: seq<byte>,
                                           supply: seq<Supply>, rest: seq<byte>)
    requires 0 < nb <= INT_MAX && capacity <= INT_MAX && -INT_MAX <= misfit < 0 && ErrorCodes(supply)
    requires Serve(frames, nb, capacity, misfit, mask, supply).done
    ensures var d := Delivered(frames, nb, capacity, misfit, supply);
            && ReadFrames(Serve(frames, nb, capacity, misfit, mask, supply).out + rest, frames, nb, capacity, |mask|)
               == (d, rest)
            && (d.ret == 0 <==> |d.frames| == frames) && (d.ret < 0 <==> |d.frames| < frames)
    decreases |supply|
  {
    if frames == 0 {
      assert [] + rest == rest;
    } else if supply[0].Fails? {
      ErrorReadBack(supply[0].error, mask, rest, nb, capacity);
    } else if !Fits(supply[0].frame, nb, capacity) {
      ErrorReadBack(misfit, mask, rest, nb, capacity);
    } else {
      FramesAreFramed(frames - 1, nb, capacity, misfit, mask, supply[1..], rest);
      OneFrameMore(frames, nb, capacity, mask, supply[0].frame,
                   Serve(frames - 1, nb, capacity, misfit, mask, supply[1..]).out, rest);
    }
  }

  lemma OneFrameMore(frames: nat, nb: nat, capacity: nat, mask: seq<byte>, f: Frame, later: seq<byte>, rest: seq<byte>)
    requires 0 < frames && 0 < nb <= INT_MAX && capacity <= INT_MAX && Fits(f, nb, capacity)
    ensures var (d, after) := ReadFrames(later + rest, frames - 1, nb, capacity, |mask|);
            ReadFrames(FrameBytes(f, mask) + later + rest, frames, nb, capacity, |mask|) ==
            (d.(frames := [f] + d.frames), after)
  {
    assert FrameBytes(f, mask) + later + rest == FrameBytes(f, mask) + (later + rest);
    FrameReadBack(f, mask, later + rest, nb, capacity);
  }
}
