/**
 An armed segment on the wire: the client of MetadataClient reads the reply that the server of
 FrameReply writes. What the client counts as pending is what it has not read yet.
 */
module SegmentWire {
  import opened Octets
  import opened TextLine
  import opened FrameReply
  import opened MetadataClient

  /** The client, and the bytes that are on their way to it. */
  datatype Wire = Wire(c: Client, stream: seq<byte>)

  /** One refill: only a segment with frames pending is read from. */
  function ReadOne(x: Wire, maskBytes: nat): Wire {
    if x.c.failed || x.c.directFrames == 0 || x.c.pending == 0 then x
    else
      var r := ReadFrame(x.stream, x.c.length, x.c.directCapacity, maskBytes);
      Wire(RefillDirect(x.c, x.c.directCapacity, Reply(r.ret, r.frame, x.c.directMask, false)).0, r.rest)
  }

  function ReadSome(x: Wire, maskBytes: nat, n: nat): Wire
    decreases n
  {
    if n == 0 then x else ReadSome(ReadOne(x, maskBytes), maskBytes, n - 1)
  }

  /** A segment with `pending` frames to come. */
  predicate Armed(c: Client) {
    && !c.failed && c.directFrames != 0 && c.pending <= c.directFrames && c.mask == c.directMask
    && 0 < c.length <= INT_MAX && c.directCapacity <= INT_MAX
  }

  /** The reply the client waits for: as many frames as are pending. */
  function Owed(c: Client, misfit: int, mask: seq<byte>, supply: seq<Supply>): Stream {
    Serve(c.pending, c.length, c.directCapacity, misfit, mask, supply)
  }

  lemma FrameArrives(c: Client, misfit: int, mask: seq<byte>, supply: seq<Supply>, rest: seq<byte>)
    requires Armed(c) && 0 < c.pending && supply != [] && supply[0].Ready?
    requires Fits(supply[0].frame, c.length, c.directCapacity)
    ensures ReadOne(Wire(c, Owed(c, misfit, mask, supply).out + rest), |mask|) ==
            Wire(c.(pending := c.pending - 1), Owed(c.(pending := c.pending - 1), misfit, mask, supply[1..]).out + rest)
  {
    var f, later := supply[0].frame, Owed(c.(pending := c.pending - 1), misfit, mask, supply[1..]).out;
    assert Owed(c, misfit, mask, supply).out + rest == FrameBytes(f, mask) + (later + rest);
    FrameReadBack(f, mask, later + rest, c.length, c.directCapacity);
  }

  lemma ErrorArrives(c: Client, error: int, mask: seq<byte>, rest: seq<byte>)
    requires Armed(c) && 0 < c.pending && -INT_MAX <= error < 0
    ensures var x := ReadOne(Wire(c, Line(error) + rest), |mask|);
            x.stream == rest && (x.c.failed || x.c.directFrames == 0)
  {
    ErrorReadBack(error, mask, rest, c.length, c.directCapacity);
  }

  lemma {:induction false} NothingMore(x: Wire, maskBytes: nat, n: nat)
    requires x.c.failed || x.c.directFrames == 0 || x.c.pending == 0
    ensures ReadSome(x, maskBytes, n) == x
    decreases n
  {
    if n > 0 {
      NothingMore(x, maskBytes, n - 1);
    }
  }

  /** After any number of refills, either as many frames of the reply are unread as the client has
      pending, and nothing has failed; or the whole reply is read, and the client owes it nothing. */
  lemma {:induction false} PendingIsUnread(c: Client, misfit: int, mask: seq<byte>, supply: seq<Supply>,
                                           rest: seq<byte>, n: nat)
    requires Armed(c) && -INT_MAX <= misfit < 0 && ErrorCodes(supply) && Owed(c, misfit, mask, supply).done
    ensures var frames := Delivered(c.pending, c.length, c.directCapacity, misfit, supply).frames;
            var x := ReadSome(Wire(c, Owed(c, misfit, mask, supply).out + rest), |mask|, n);
            if n <= |frames| then
              && n <= c.pending && n <= |supply|
              && x == Wire(c.(pending := c.pending - n),
                           Owed(c.(pending := c.pending - n), misfit, mask, supply[n..]).out + rest)
            else
              && x.stream == rest
              && (x.c.failed || x.c.directFrames == 0 || x.c.pending == 0)
    decreases n
  {
    hide ReadOne, FrameBytes, ReadFrame, RefillDirect;
    var s := Owed(c, misfit, mask, supply).out + rest;
    if c.pending == 0 {
      assert s == rest;
      NothingMore(Wire(c, s), |mask|, n);
      assert n == 0 ==> supply[n..] == supply;
    } else if n == 0 {
      assert supply[n..] == supply;
    } else if supply[0].Ready? && Fits(supply[0].frame, c.length, c.directCapacity) {
      FrameArrives(c, misfit, mask, supply, rest);
      PendingIsUnread(c.(pending := c.pending - 1), misfit, mask, supply[1..], rest, n - 1);
      assert n <= |supply| ==> supply[1..][n - 1..] == supply[n..];
    } else {
      ErrorArrives(c, if supply[0].Fails? then supply[0].error else misfit, mask, rest);
      NothingMore(ReadOne(Wire(c, s), |mask|), |mask|, n - 1);
    }
  }

  /** A control command is written only when no byte of the reply is left to read. */
  lemma ControlFindsNothingUnread(c: Client, misfit: int, mask: seq<byte>, supply: seq<Supply>, rest: seq<byte>,
                                  n: nat, looksAtCache: bool, supported: bool)
    requires Armed(c) && -INT_MAX <= misfit < 0 && ErrorCodes(supply) && Owed(c, misfit, mask, supply).done
    ensures var x := ReadSome(Wire(c, Owed(c, misfit, mask, supply).out + rest), |mask|, n);
            Control(x.c, looksAtCache, supported) == 0 ==> x.stream == rest
  {
    PendingIsUnread(c, misfit, mask, supply, rest, n);
    assert [] + rest == rest;
  }
}
