/**
 One READBUF request: the reply the server's worker thread writes, piece by piece (iiod/ops.c),
 and the loop in which the client reads it (iiod-client.c).
 */
module ReadBuf {
  import opened Errno
  import opened Octets
  import opened TextLine

  // ---------------------------------------------------------------------------------------
  // The server

  /** What happens to the buffer while a request is served: a refill with the samples this client
      asked for, a failed refill, a reopening for another set of channels, or the end of the worker,
      which leaves its loop with an error. */
  datatype Event =
    | Refill(data: seq<byte>)
    | RefillFails(error: int)
    | Reopen(sampleSize: nat)
    | WorkerEnds(error: int)

  /** `Waiting`: `nb` bytes are still owed. `Stalled`: they are, but the samples are now wider, and
      the worker passes the request over. `Done`: the request is answered. */
  datatype Phase = Waiting(nb: nat, newClient: bool, sampleSize: nat) | Stalled(nb: nat) | Done

  datatype Serving = Serving(phase: Phase, out: seq<byte>)

  predicate Fails(e: Event) {
    e.RefillFails? || e.WorkerEnds?
  }

  /** The end of `rw_buffer` and `rw_dev`: `left` bytes of `asked` were never sent. */
  function Closing(asked: nat, left: nat): seq<byte> {
    if left == 0 then [] else Line(0)
  }

  function Sent(nb: nat, data: seq<byte>): seq<byte> {
    if |data| > nb then data[..nb] else data
  }

  function Chunk(data: seq<byte>, newClient: bool, mask: seq<byte>): seq<byte> {
    Line(|data|) + (if newClient then mask else []) + data
  }

  /** One turn of the worker thread for a client whose request is pending. */
  function Turn(p: Phase, asked: nat, mask: seq<byte>, e: Event): Serving
    requires !p.Done?
  {
    match e
    case Reopen(sampleSize) =>
      if p.nb < sampleSize then Serving(Stalled(p.nb), [])
      else Serving(Done, Closing(asked, p.nb))
    case WorkerEnds(error) => Serving(Done, Line(error))
    case RefillFails(error) => if p.Stalled? then Serving(p, []) else Serving(Done, Line(error))
    case Refill(data) =>
      if p.Stalled? then Serving(p, []) else
      var sent := Sent(p.nb, data);
      var left := p.nb - |sent|;
      if left < p.sampleSize then Serving(Done, Chunk(sent, p.newClient, mask) + Closing(asked, left))
      else Serving(Waiting(left, false, p.sampleSize), Chunk(sent, p.newClient, mask))
  }

  function Serve(p: Phase, asked: nat, mask: seq<byte>, events: seq<Event>): Serving
    requires !p.Done?
    decreases |events|
  {
    if events == [] then Serving(p, [])
    else
      var turn := Turn(p, asked, mask, events[0]);
      if turn.phase.Done? then turn
      else
        var later := Serve(turn.phase, asked, mask, events[1..]);
        Serving(later.phase, turn.out + later.out)
  }

  /** The whole reply to a request for `nb` bytes. */
  function Reply(nb: nat, sampleSize: nat, mask: seq<byte>, events: seq<Event>): Serving {
    if nb < sampleSize then Serving(Done, Line(0))
    else Serve(Waiting(nb, true, sampleSize), nb, mask, events)
  }

  /** `struct ThdEntry` and the worker's dealings with it. */
  class ServerThread {
    var nb: nat
    var err: int
    var newClient: bool
    var active: bool
    var out: seq<byte>

    constructor ()
      ensures out == [] && !active && nb == 0
    {
      nb, err, newClient, active, out := 0, 0, false, false, [];
    }

    method PrintValue(v: int)
      modifies `out
      ensures out == old(out) + Line(v)
    {
      out := out + Line(v);
    }

    method Signal(ret: int)
      modifies `err, `nb, `active
      ensures err == ret && nb == 0 && !active
    {
      err, nb, active := ret, 0, false;
    }

    /** `send_data`: a chunk, preceded once by the mask. */
    method SendData(mask: seq<byte>, data: seq<byte>) returns (ret: nat)
      modifies `out, `newClient
      ensures ret == (if |data| < nb then |data| else nb) && !newClient
      ensures out == old(out) + Chunk(Sent(nb, data), old(newClient), mask)
    {
      var len := |data|;
      if len > nb {
        len := nb;
      }
      PrintValue(len);
      if newClient {
        out := out + mask;
        newClient := false;
      }
      out := out + data[..len];
      ret := len;
      assert data[..len] == Sent(nb, data);
    }

    /** The request as it is pending: as `rw_buffer` leaves it, or passed over. */
    predicate Matches(p: Phase)
      reads this
    {
      && !p.Done? && err == 0 && nb == p.nb && active == p.Waiting?
      && (p.Waiting? ==> newClient == p.newClient)
    }

    /** One turn of `rw_thd`. */
    method TakeTurn(p: Phase, asked: nat, mask: seq<byte>, e: Event)
      requires Matches(p)
      modifies this
      ensures var turn := Turn(p, asked, mask, e);
              if !turn.phase.Done? then Matches(turn.phase) && out == old(out) + turn.out
              else
                && !active && nb == 0
                && (if Fails(e) then err == e.error else 0 <= err <= p.nb)
                && old(out) + turn.out == out + (if Fails(e) then Line(err) else Closing(asked, err))
    {
      match e {
        case Refill(data) =>
          if active {
            var ret := SendData(mask, data);
            nb := nb - ret;
            if nb < p.sampleSize {
              Signal(nb);
            }
          }
        case RefillFails(error) =>
          if active {
            Signal(error);
          }
        case Reopen(sampleSize) =>
          active := err == 0 && nb >= sampleSize;
          if active {
            Signal(nb);
          }
        case WorkerEnds(error) =>
          Signal(error);
      }
    }

    /** What `rw_buffer` and `rw_dev` print when the worker has signalled. */
    method Finish(asked: nat) returns (ret: int)
      requires 0 < asked && err <= asked
      modifies `out
      ensures out == old(out) + (if err < 0 then Line(err) else Closing(asked, err))
      ensures ret == if err < 0 then err else asked - err
    {
      if 0 < err < asked {
        PrintValue(0);
      }
      ret := if err < 0 then err else asked - err;
      if ret <= 0 {
        PrintValue(ret);
      }
    }

    /** A whole request: refused at once, or served by the worker, one turn for each event, and then
        ended. What is written is `Reply`. */
    method Answer(asked: nat, sampleSize: nat, mask: seq<byte>, events: seq<Event>) returns (phase: Phase)
      requires 0 < asked && 1 <= sampleSize && ErrorCodes(events)
      modifies this
      ensures phase == Reply(asked, sampleSize, mask, events).phase
      ensures out == old(out) + Reply(asked, sampleSize, mask, events).out
    {
      phase := Done;
      if asked < sampleSize {
        PrintValue(0);
        return;
      }
      hide Turn, Serve;
      nb, newClient, err, active := asked, true, 0, true;
      ghost var whole := out + Serve(Waiting(asked, true, sampleSize), asked, mask, events).out;
      ghost var last := Serve(Waiting(asked, true, sampleSize), asked, mask, events).phase;
      phase := Waiting(asked, true, sampleSize);
      var i := 0;
      while !phase.Done? && i < |events|
        invariant i <= |events|
        invariant !phase.Done? ==> Matches(phase) && 0 < phase.nb <= asked
        invariant phase.Waiting? ==> phase.sampleSize == sampleSize <= phase.nb
        invariant !phase.Done? ==> whole == out + Serve(phase, asked, mask, events[i..]).out
        invariant !phase.Done? ==> last == Serve(phase, asked, mask, events[i..]).phase
        invariant phase.Done? ==> last == phase && whole == out
        decreases |events| - i
      {
        ServeTurn(out, phase, asked, mask, events, i);
        TakeTurn(phase, asked, mask, events[i]);
        if active {
          phase := Waiting(nb, newClient, sampleSize);
        } else if nb != 0 {
          phase := Stalled(nb);
        } else {
          phase := Done;
          var _ := Finish(asked);
        }
        i := i + 1;
      }
      if !phase.Done? {
        NoMoreTurns(phase, asked, mask, events[i..]);
      }
    }
  }

  lemma NoMoreTurns(p: Phase, asked: nat, mask: seq<byte>, events: seq<Event>)
    requires !p.Done? && events == []
    ensures Serve(p, asked, mask, events) == Serving(p, [])
  {
  }

  /** One more event, at the front of those that are left. */
  lemma ServeTurn(was: seq<byte>, p: Phase, asked: nat, mask: seq<byte>, events: seq<Event>, i: nat)
    requires !p.Done? && i < |events|
    ensures var turn := Turn(p, asked, mask, events[i]);
            var s := Serve(p, asked, mask, events[i..]);
            if !turn.phase.Done? then
              var later := Serve(turn.phase, asked, mask, events[i + 1..]);
              was + s.out == was + turn.out + later.out && s.phase == later.phase
            else s == turn
    ensures var next := Turn(p, asked, mask, events[i]).phase;
            && (next.Waiting? ==> p.Waiting? && next.sampleSize == p.sampleSize <= next.nb <= p.nb)
            && (next.Stalled? ==> next.nb == p.nb)
  {
    assert events[i..][0] == events[i] && events[i..][1..] == events[i + 1..];
  }

  // ---------------------------------------------------------------------------------------
  // The client

  /** What a read returns: an error or the number of bytes read, those bytes, the mask if one was
      read, and the bytes of the stream it left. */
  datatype Outcome = Outcome(ret: int, data: seq<byte>, mask: seq<byte>, rest: seq<byte>)

  /** One chunk of at most `left` bytes, after a mask of `maskBytes`; 0 bytes end the reply. */
  function ReadChunk(s: seq<byte>, left: nat, maskBytes: nat): (o: Outcome)
    ensures 0 < o.ret ==> o.ret <= left && |o.data| == o.ret
    ensures o.ret <= 0 ==> o.data == [] && o.mask == []
  {
    match ReadInteger(s)
    case Closed => Outcome(-EPIPE, [], [], [])
    case Malformed(rest) => Outcome(-EINVAL, [], [], rest)
    case Value(n, rest) =>
      if n <= 0 then Outcome(n, [], [], rest)
      else if n > left then Outcome(-EOVERFLOW, [], [], rest)
      else if |rest| < maskBytes + n then Outcome(-EPIPE, [], [], [])
      else Outcome(n, rest[maskBytes..maskBytes + n], rest[..maskBytes], rest[maskBytes + n..])
  }

  function Join(data: seq<byte>, mask: seq<byte>, o: Outcome): Outcome {
    if o.ret < 0 then o else Outcome(|data| + o.ret, data + o.data, mask + o.mask, o.rest)
  }

  /** `iiod_client_read_unlocked`: the reply to a request for `len` bytes; the mask is read once. */
  function ReadChunks(s: seq<byte>, len: nat, maskBytes: nat): (o: Outcome)
    requires 0 < len
    decreases len
  {
    var chunk := ReadChunk(s, len, maskBytes);
    if chunk.ret <= 0 || chunk.ret == len then chunk
    else Join(chunk.data, chunk.mask, ReadChunks(chunk.rest, len - chunk.ret, 0))
  }

  class Client {
    var stream: seq<byte>

    constructor (s: seq<byte>)
      ensures stream == s
    {
      stream := s;
    }

    method ReadLineUnlocked() returns (ret: int, line: seq<byte>)
      modifies `stream
      ensures match ReadLine(old(stream))
              case Value(l, rest) => ret == |l| && line == l && stream == rest
              case _ => ret == -EPIPE && stream == []
    {
      var i := 0;
      ghost var s := stream;
      while i < |stream| && stream[i] != NEWLINE
        invariant 0 <= i <= |stream|
        invariant NEWLINE !in stream[..i]
      {
        assert stream[..i + 1] == stream[..i] + [stream[i]];
        i := i + 1;
      }
      if i == |stream| {
        NoLine(stream);
        line, stream := [], [];
        return -EPIPE, line;
      }
      LineEnds(stream[..i], stream[i + 1..]);
      assert stream == stream[..i] + [NEWLINE] + stream[i + 1..];
      assert stream[..i + 1] == stream[..i] + [NEWLINE];
      line, stream := stream[..i + 1], stream[i + 1..];
      ret := i + 1;
    }

    /** `iiod_client_read_integer`. */
    method ReadIntegerUnlocked() returns (ret: int, value: int)
      modifies `stream
      ensures match ReadInteger(old(stream))
              case Value(v, rest) => ret == 0 && value == v && stream == rest
              case Malformed(rest) => ret == -EINVAL && stream == rest
              case Closed => ret == -EPIPE && stream == []
    {
      value := 0;
      var line;
      while true
        invariant ReadInteger(stream) == ReadInteger(old(stream))
        decreases |stream|
      {
        LineShortens(stream);
        ghost var s := stream;
        ret, line := ReadLineUnlocked();
        if ret < 0 {
          assert ReadLine(s).Closed?;
          return;
        }
        if line != [NEWLINE] {
          NotBlank(s);
          break;
        }
        BlankLine(s);
      }
      match Parse(line, stream) {
        case Value(v, _) => return 0, v;
        case Malformed(_) => return -EINVAL, 0;
      }
    }

    method ReadAll(n: nat) returns (ret: int, data: seq<byte>)
      modifies `stream
      ensures if n <= |old(stream)| then ret == n && data == old(stream)[..n] && stream == old(stream)[n..]
              else ret == -EPIPE && stream == []
    {
      if n > |stream| {
        data, stream := [], [];
        return -EPIPE, data;
      }
      data, stream := stream[..n], stream[n..];
      ret := n;
    }

    method ReadChunkUnlocked(left: nat, maskBytes: nat) returns (o: Outcome)
      modifies `stream
      ensures o == ReadChunk(old(stream), left, maskBytes) && stream == o.rest
    {
      var got, n := ReadIntegerUnlocked();
      if got < 0 {
        return Outcome(got, [], [], stream);
      }
      if n <= 0 {
        return Outcome(n, [], [], stream);
      }
      if n > left {
        return Outcome(-EOVERFLOW, [], [], stream);
      }
      ghost var s := stream;
      var mask, data := [], [];
      if maskBytes != 0 {
        got, mask := ReadAll(maskBytes);
        if got < 0 {
          return Outcome(got, [], [], stream);
        }
      }
      got, data := ReadAll(n);
      if got < 0 {
        return Outcome(got, [], [], stream);
      }
      o := Outcome(n, data, mask, stream);
    }

    /** `iiod_client_read_unlocked`, after the command is written. */
    method ReadUnlocked(len: nat, maskBytes: nat) returns (o: Outcome)
      requires 0 < len
      modifies `stream
      ensures o == ReadChunks(old(stream), len, maskBytes) && stream == o.rest
    {
      ghost var all := ReadChunks(stream, len, maskBytes);
      var left: nat, wanted: nat, data: seq<byte>, mask: seq<byte> := len, maskBytes, [], [];
      while true
        invariant 0 < left && |data| == len - left
        invariant all == Join(data, mask, ReadChunks(stream, left, wanted))
        decreases left
      {
        o := ReadChunkUnlocked(left, wanted);
        if o.ret < 0 {
          return;
        }
        if o.ret == 0 || o.ret == left {
          return Outcome(|data| + o.ret, data + o.data, mask + o.mask, stream);
        }
        JoinJoins(data, mask, o.data, o.mask, ReadChunks(stream, left - o.ret, 0));
        data, mask, left, wanted := data + o.data, mask + o.mask, left - o.ret, 0;
      }
    }
  }

  lemma JoinJoins(data: seq<byte>, mask: seq<byte>, data': seq<byte>, mask': seq<byte>, o: Outcome)
    ensures Join(data, mask, Join(data', mask', o)) == Join(data + data', mask + mask', o)
  {
    assert data + (data' + o.data) == data + data' + o.data;
    assert mask + (mask' + o.mask) == mask + mask' + o.mask;
  }

  lemma {:induction false} NoLine(s: seq<byte>)
    requires NEWLINE !in s
    ensures ReadLine(s).Closed?
    decreases |s|
  {
    if s != [] {
      NoLine(s[1..]);
    }
  }

  lemma BlankLine(s: seq<byte>)
    requires ReadLine(s).Value? && ReadLine(s).value == [NEWLINE]
    ensures s != [] && ReadInteger(s) == ReadInteger(s[1..]) && ReadLine(s).rest == s[1..]
  {
    assert ReadLine(s).value[0] == s[0];
  }

  lemma NotBlank(s: seq<byte>)
    requires ReadLine(s).Value? && ReadLine(s).value != [NEWLINE]
    ensures ReadInteger(s) == Parse(ReadLine(s).value, ReadLine(s).rest)
  {
  }

  // ---------------------------------------------------------------------------------------
  // Both sides stop at the same byte

  /** Every chunk sent has a size the client reads back as it was printed, and is not empty. Once
      passed over, the client is sent no more chunks. */
  predicate Clean(p: Phase, asked: nat, mask: seq<byte>, events: seq<Event>)
    requires !p.Done?
    decreases |events|
  {
    events == [] || p.Stalled? ||
    (var turn := Turn(p, asked, mask, events[0]);
     && (events[0].Refill? ==> events[0].data != [] && (p.nb <= INT_MAX || |events[0].data| <= INT_MAX))
     && (turn.phase.Waiting? ==> Clean(turn.phase, asked, mask, events[1..])))
  }

  predicate ErrorCodes(events: seq<Event>) {
    forall e :: e in events && Fails(e) ==> -INT_MAX <= e.error < 0
  }

  /** What the client should get: the samples sent, or the error that ended the request. */
  datatype Expected = Expected(ret: int, data: seq<byte>, mask: seq<byte>)

  function Prepend(data: seq<byte>, mask: seq<byte>, e: Expected): Expected {
    if e.ret < 0 then e else Expected(|data| + e.ret, data + e.data, mask + e.mask)
  }

  function Expect(p: Phase, asked: nat, mask: seq<byte>, events: seq<Event>): Expected
    requires !p.Done?
    decreases |events|
  {
    if events == [] then Expected(0, [], [])
    else
      var next := Turn(p, asked, mask, events[0]).phase;
      var later := if next.Done? then Expected(0, [], []) else Expect(next, asked, mask, events[1..]);
      if p.Waiting? && events[0].Refill? then
        Prepend(Sent(p.nb, events[0].data), if p.newClient then mask else [], later)
      else if next.Done? && Fails(events[0]) then Expected(events[0].error, [], [])
      else later
  }

  function Wanted(p: Phase, mask: seq<byte>): nat
    requires p.Waiting?
  {
    if p.newClient then |mask| else 0
  }

  ghost predicate Fair(p: Phase, asked: nat) {
    p.Waiting? && 1 <= p.sampleSize <= p.nb <= asked < INT_SPAN
  }

  lemma ReadLineBack(v: int, tail: seq<byte>, left: nat, maskBytes: nat)
    requires -INT_MAX <= v <= INT_MAX
    ensures v <= 0 ==> ReadChunk(Line(v) + tail, left, maskBytes) == Outcome(v, [], [], tail)
    ensures 0 < v <= left && maskBytes + v <= |tail| ==>
              ReadChunk(Line(v) + tail, left, maskBytes) ==
              Outcome(v, tail[maskBytes..maskBytes + v], tail[..maskBytes], tail[maskBytes + v..])
  {
    ReadBack(v, tail);
    SmallFits(v);
  }

  /** A chunk as it was sent is the chunk that is read. */
  lemma ChunkReadBack(data: seq<byte>, newClient: bool, mask: seq<byte>, tail: seq<byte>, left: nat)
    requires 0 < |data| <= left && |data| <= INT_MAX
    ensures var m := if newClient then mask else [];
            ReadChunk(Chunk(data, newClient, mask) + tail, left, |m|) == Outcome(|data|, data, m, tail)
  {
    var m := if newClient then mask else [];
    var after := m + data + tail;
    assert Chunk(data, newClient, mask) + tail == Line(|data|) + after;
    ReadLineBack(|data|, after, left, |m|);
    assert after[|m|..|m| + |data|] == data && after[..|m|] == m && after[|m| + |data|..] == tail;
  }

  /** While a client waits, the rest of a finished reply is never empty. */
  lemma {:induction false} FinishedWrites(p: Phase, asked: nat, mask: seq<byte>, events: seq<Event>)
    requires Fair(p, asked) && Serve(p, asked, mask, events).phase.Done?
    ensures Serve(p, asked, mask, events).out != []
    decreases |events|
  {
    var turn := Turn(p, asked, mask, events[0]);
    if turn.phase.Waiting? {
      FinishedWrites(turn.phase, asked, mask, events[1..]);
    } else if turn.phase.Stalled? {
      StallWrites(turn.phase, asked, mask, events[1..]);
    }
  }

  /** What ends a stall is one line. */
  lemma {:induction false} StallWrites(p: Phase, asked: nat, mask: seq<byte>, events: seq<Event>)
    requires p.Stalled? && 0 < p.nb && Serve(p, asked, mask, events).phase.Done?
    ensures Expect(p, asked, mask, events).data == [] && Expect(p, asked, mask, events).mask == []
    ensures Serve(p, asked, mask, events).out == Line(Expect(p, asked, mask, events).ret)
    ensures ErrorCodes(events) ==> -INT_MAX <= Expect(p, asked, mask, events).ret <= 0
    decreases |events|
  {
    var turn := Turn(p, asked, mask, events[0]);
    if !turn.phase.Done? {
      StallWrites(p, asked, mask, events[1..]);
    }
  }

  lemma LastChunk(p: Phase, asked: nat, mask: seq<byte>, data: seq<byte>, rest: seq<byte>)
    requires Fair(p, asked) && 0 < |Sent(p.nb, data)| <= INT_MAX
    requires p.nb - |Sent(p.nb, data)| < p.sampleSize
    ensures var out := Turn(p, asked, mask, Refill(data)).out;
            ReadChunks(out + rest, p.nb, Wanted(p, mask)) ==
            Outcome(|Sent(p.nb, data)|, Sent(p.nb, data), if p.newClient then mask else [], rest)
  {
    hide ReadChunk, ReadInteger;
    var sent := Sent(p.nb, data);
    var left := p.nb - |sent|;
    var tail := Closing(asked, left) + rest;
    var out := Turn(p, asked, mask, Refill(data)).out;
    assert out + rest == Chunk(sent, p.newClient, mask) + tail;
    ChunkReadBack(sent, p.newClient, mask, tail, p.nb);
    if left == 0 {
      assert tail == rest;
    } else {
      ReadLineBack(0, rest, left, 0);
    }
  }

  lemma MoreChunks(p: Phase, asked: nat, mask: seq<byte>, data: seq<byte>, later: seq<byte>, rest: seq<byte>)
    requires Fair(p, asked) && 0 < |Sent(p.nb, data)| <= INT_MAX
    requires p.nb - |Sent(p.nb, data)| >= p.sampleSize
    ensures var sent := Sent(p.nb, data);
            var out := Turn(p, asked, mask, Refill(data)).out;
            ReadChunks(out + later + rest, p.nb, Wanted(p, mask)) ==
            Join(sent, if p.newClient then mask else [], ReadChunks(later + rest, p.nb - |sent|, 0))
  {
    var sent := Sent(p.nb, data);
    var out := Turn(p, asked, mask, Refill(data)).out;
    assert out + later + rest == out + (later + rest);
    ChunkReadBack(sent, p.newClient, mask, later + rest, p.nb);
  }

  lemma ChunkThenAgrees(p: Phase, asked: nat, mask: seq<byte>, data: seq<byte>, later: seq<byte>, rest: seq<byte>,
                        e: Expected)
    requires Fair(p, asked) && 0 < |Sent(p.nb, data)| <= INT_MAX
    requires p.nb - |Sent(p.nb, data)| >= p.sampleSize
    requires ReadChunks(later + rest, p.nb - |Sent(p.nb, data)|, 0) == Outcome(e.ret, e.data, e.mask, rest)
    ensures var all := Prepend(Sent(p.nb, data), if p.newClient then mask else [], e);
            ReadChunks(Turn(p, asked, mask, Refill(data)).out + later + rest, p.nb, Wanted(p, mask)) ==
            Outcome(all.ret, all.data, all.mask, rest)
  {
    MoreChunks(p, asked, mask, data, later, rest);
  }

  lemma ChunkThenDisagrees(p: Phase, asked: nat, mask: seq<byte>, data: seq<byte>, later: seq<byte>, rest: seq<byte>)
    requires Fair(p, asked) && 0 < |Sent(p.nb, data)| <= INT_MAX
    requires p.nb - |Sent(p.nb, data)| >= p.sampleSize
    requires |ReadChunks(later + rest, p.nb - |Sent(p.nb, data)|, 0).rest| > |rest|
    ensures |ReadChunks(Turn(p, asked, mask, Refill(data)).out + later + rest, p.nb, Wanted(p, mask)).rest| > |rest|
  {
    MoreChunks(p, asked, mask, data, later, rest);
  }

  /** The client of a clean reply reads exactly the reply, and gets what was sent. */
  lemma {:induction false} CleanAgrees(p: Phase, asked: nat, mask: seq<byte>, events: seq<Event>, rest: seq<byte>)
    requires Fair(p, asked) && ErrorCodes(events) && Clean(p, asked, mask, events)
    requires Serve(p, asked, mask, events).phase.Done?
    ensures var e := Expect(p, asked, mask, events);
            ReadChunks(Serve(p, asked, mask, events).out + rest, p.nb, Wanted(p, mask)) ==
            Outcome(e.ret, e.data, e.mask, rest)
    decreases |events|
  {
    hide Turn, ReadChunks, Prepend, Wanted;
    var turn := Turn(p, asked, mask, events[0]);
    if events[0].Refill? && turn.phase.Waiting? {
      MoreTurns(p, asked, mask, events);
      CleanAgrees(turn.phase, asked, mask, events[1..], rest);
      ChunkThenAgrees(p, asked, mask, events[0].data, Serve(turn.phase, asked, mask, events[1..]).out, rest,
                      Expect(turn.phase, asked, mask, events[1..]));
    } else {
      LastTurnAgrees(p, asked, mask, events, rest);
    }
  }

  /** What a turn that leaves the client waiting means for the turns after it. */
  lemma MoreTurns(p: Phase, asked: nat, mask: seq<byte>, events: seq<Event>)
    requires Fair(p, asked) && ErrorCodes(events) && Clean(p, asked, mask, events)
    requires Serve(p, asked, mask, events).phase.Done? && events[0].Refill?
    requires Turn(p, asked, mask, events[0]).phase.Waiting?
    ensures var next, sent := Turn(p, asked, mask, events[0]).phase, Sent(p.nb, events[0].data);
            && Fair(next, asked) && ErrorCodes(events[1..]) && Clean(next, asked, mask, events[1..])
            && Serve(next, asked, mask, events[1..]).phase.Done?
            && next.nb == p.nb - |sent| >= p.sampleSize && 0 < |sent| <= INT_MAX && Wanted(next, mask) == 0
  {
  }

  lemma LastTurnAgrees(p: Phase, asked: nat, mask: seq<byte>, events: seq<Event>, rest: seq<byte>)
    requires Fair(p, asked) && ErrorCodes(events) && Clean(p, asked, mask, events)
    requires Serve(p, asked, mask, events).phase.Done?
    requires !(events[0].Refill? && Turn(p, asked, mask, events[0]).phase.Waiting?)
    ensures var e := Expect(p, asked, mask, events);
            ReadChunks(Serve(p, asked, mask, events).out + rest, p.nb, Wanted(p, mask)) ==
            Outcome(e.ret, e.data, e.mask, rest)
  {
    match events[0]
    case RefillFails(error) =>
      ReadLineBack(error, rest, p.nb, Wanted(p, mask));
    case WorkerEnds(error) =>
      ReadLineBack(error, rest, p.nb, Wanted(p, mask));
    case Reopen(sampleSize) =>
      if p.nb < sampleSize {
        StallAgrees(p, asked, mask, events, rest);
      } else {
        ReadLineBack(0, rest, p.nb, Wanted(p, mask));
      }
    case Refill(data) =>
      LastChunk(p, asked, mask, data, rest);
      OnlyChunk(p, asked, mask, events);
  }

  lemma StallAgrees(p: Phase, asked: nat, mask: seq<byte>, events: seq<Event>, rest: seq<byte>)
    requires Fair(p, asked) && ErrorCodes(events) && events != [] && events[0].Reopen? && p.nb < events[0].sampleSize
    requires Serve(p, asked, mask, events).phase.Done?
    ensures var e := Expect(p, asked, mask, events);
            ReadChunks(Serve(p, asked, mask, events).out + rest, p.nb, Wanted(p, mask)) ==
            Outcome(e.ret, e.data, e.mask, rest)
  {
    hide ReadChunk;
    var e := Expect(Stalled(p.nb), asked, mask, events[1..]);
    StallWrites(Stalled(p.nb), asked, mask, events[1..]);
    assert Serve(p, asked, mask, events).out == Line(e.ret);
    ReadLineBack(e.ret, rest, p.nb, Wanted(p, mask));
  }

  lemma OnlyChunk(p: Phase, asked: nat, mask: seq<byte>, events: seq<Event>)
    requires p.Waiting? && events != [] && events[0].Refill?
    requires Turn(p, asked, mask, events[0]).phase.Done?
    ensures var sent := Sent(p.nb, events[0].data);
            Expect(p, asked, mask, events) == Expected(|sent|, sent, if p.newClient then mask else [])
    ensures Serve(p, asked, mask, events) == Turn(p, asked, mask, events[0])
  {
    var sent := Sent(p.nb, events[0].data);
    assert sent + [] == sent && mask + [] == mask;
  }

  /** A chunk of no bytes, or of more than an int holds, stops the client while the server still
      has something to say. */
  lemma OddChunk(p: Phase, asked: nat, mask: seq<byte>, data: seq<byte>, later: seq<byte>, rest: seq<byte>)
    requires Fair(p, asked) && !(0 < |Sent(p.nb, data)| <= INT_MAX)
    requires |Sent(p.nb, data)| == 0 ==> later != []
    ensures var out := Chunk(Sent(p.nb, data), p.newClient, mask) + later;
            |ReadChunks(out + rest, p.nb, Wanted(p, mask)).rest| > |rest|
  {
    var sent := Sent(p.nb, data);
    var after := (if p.newClient then mask else []) + sent + later + rest;
    assert Chunk(sent, p.newClient, mask) + later + rest == Line(|sent|) + after;
    ReadBack(|sent|, after);
    if |sent| == 0 {
      SmallFits(0);
    } else {
      LargeWraps(|sent|);
    }
  }

  lemma {:induction false} UncleanDisagrees(p: Phase, asked: nat, mask: seq<byte>, events: seq<Event>, rest: seq<byte>)
    requires Fair(p, asked) && !Clean(p, asked, mask, events)
    requires Serve(p, asked, mask, events).phase.Done?
    ensures |ReadChunks(Serve(p, asked, mask, events).out + rest, p.nb, Wanted(p, mask)).rest| > |rest|
    decreases |events|
  {
    var data := events[0].data;
    if 0 < |Sent(p.nb, data)| <= INT_MAX {
      var next := Turn(p, asked, mask, events[0]).phase;
      UncleanDisagrees(next, asked, mask, events[1..], rest);
      ChunkThenDisagrees(p, asked, mask, data, Serve(next, asked, mask, events[1..]).out, rest);
    } else {
      OddFirstChunk(p, asked, mask, events, rest);
    }
  }

  lemma OddFirstChunk(p: Phase, asked: nat, mask: seq<byte>, events: seq<Event>, rest: seq<byte>)
    requires Fair(p, asked) && events != [] && events[0].Refill?
    requires !(0 < |Sent(p.nb, events[0].data)| <= INT_MAX)
    requires Serve(p, asked, mask, events).phase.Done?
    ensures |ReadChunks(Serve(p, asked, mask, events).out + rest, p.nb, Wanted(p, mask)).rest| > |rest|
  {
    var data := events[0].data;
    var turn := Turn(p, asked, mask, events[0]);
    if turn.phase.Waiting? {
      FinishedWrites(turn.phase, asked, mask, events[1..]);
      OddChunk(p, asked, mask, data, Serve(turn.phase, asked, mask, events[1..]).out, rest);
    } else {
      OddChunk(p, asked, mask, data, Closing(asked, p.nb - |Sent(p.nb, data)|), rest);
    }
  }

  /** For every request, refill sizes, reopenings and errors: when the reply is finished, the
      client stops at its last byte if and only if no chunk was empty or larger than an int; and
      then it has the samples and the mask that were sent, or the error. */
  lemma ReplyIsFramed(nb: nat, sampleSize: nat, mask: seq<byte>, events: seq<Event>, rest: seq<byte>)
    requires 0 < nb < INT_SPAN && 1 <= sampleSize && ErrorCodes(events)
    requires Reply(nb, sampleSize, mask, events).phase.Done?
    ensures var p := Waiting(nb, true, sampleSize);
            var o := ReadChunks(Reply(nb, sampleSize, mask, events).out + rest, nb, |mask|);
            if nb < sampleSize then o == Outcome(0, [], [], rest)
            else
              && (o.rest == rest <==> Clean(p, nb, mask, events))
              && (Clean(p, nb, mask, events) ==>
                    var e := Expect(p, nb, mask, events); o == Outcome(e.ret, e.data, e.mask, rest))
  {
    if nb < sampleSize {
      ReadLineBack(0, rest, nb, |mask|);
    } else {
      var p := Waiting(nb, true, sampleSize);
      if Clean(p, nb, mask, events) {
        CleanAgrees(p, nb, mask, events, rest);
      } else {
        UncleanDisagrees(p, nb, mask, events, rest);
      }
    }
  }

  /** An empty refill is enough: the server goes on, the client has stopped. */
  lemma EmptyRefillDesynchronises(mask: seq<byte>, sample: seq<byte>, rest: seq<byte>)
    requires |sample| == 4
    ensures var events := [Refill([]), Refill(sample)];
            var reply := Reply(4, 4, mask, events);
            reply.phase.Done? && ReadChunks(reply.out + rest, 4, |mask|).rest != rest
  {
    var events := [Refill([]), Refill(sample)];
    assert events[1..] == [Refill(sample)];
    assert Serve(Waiting(4, false, 4), 4, mask, events[1..]).phase.Done?;
    ReplyIsFramed(4, 4, mask, events, rest);
  }

  // ---------------------------------------------------------------------------------------
  // Which samples the client gets

  /** The data of all refills, one after the other. */
  function Refilled(events: seq<Event>): seq<byte> {
    if events == [] then [] else (if events[0].Refill? then events[0].data else []) + Refilled(events[1..])
  }

  /** How many bytes are sent of the `left` that are owed: refill after refill, as long as there is
      room for a sample, until something else happens. */
  function Served(left: nat, sampleSize: nat, events: seq<Event>): (n: nat)
    ensures n <= left
    decreases |events|
  {
    if events == [] || left < sampleSize || !events[0].Refill? then 0
    else
      var n := if |events[0].data| < left then |events[0].data| else left;
      n + Served(left - n, sampleSize, events[1..])
  }

  lemma {:induction false} ServedWithin(left: nat, sampleSize: nat, events: seq<Event>)
    ensures Served(left, sampleSize, events) <= |Refilled(events)|
    decreases |events|
  {
    if events != [] && left >= sampleSize && events[0].Refill? {
      var n := if |events[0].data| < left then |events[0].data| else left;
      ServedWithin(left - n, sampleSize, events[1..]);
    }
  }

  /** What is expected of a request that waits are the first bytes of the refills, as many as are
      served, unless it ends in an error. */
  lemma {:induction false} ExpectedData(p: Phase, asked: nat, mask: seq<byte>, events: seq<Event>)
    requires p.Waiting? && 1 <= p.sampleSize <= p.nb && ErrorCodes(events)
    requires Serve(p, asked, mask, events).phase.Done?
    ensures var e, n := Expect(p, asked, mask, events), Served(p.nb, p.sampleSize, events);
            e.ret >= 0 ==>
              && e.ret == n <= |Refilled(events)| && e.data == Refilled(events)[..n]
              && e.mask == (if events[0].Refill? && p.newClient then mask else [])
    decreases |events|
  {
    hide Closing, Line;
    ServedWithin(p.nb, p.sampleSize, events);
    var turn := Turn(p, asked, mask, events[0]);
    if events[0].Refill? && turn.phase.Waiting? {
      ExpectedData(turn.phase, asked, mask, events[1..]);
      MoreData(p, asked, mask, events);
    } else if events[0].Refill? {
      LastData(p, asked, mask, events);
    } else if turn.phase.Stalled? {
      StallWrites(turn.phase, asked, mask, events[1..]);
      StallEndsEmpty(turn.phase, asked, mask, events[1..]);
    }
  }

  lemma MoreData(p: Phase, asked: nat, mask: seq<byte>, events: seq<Event>)
    requires p.Waiting? && 1 <= p.sampleSize <= p.nb && events != [] && events[0].Refill?
    requires Turn(p, asked, mask, events[0]).phase.Waiting?
    requires var next := Turn(p, asked, mask, events[0]).phase;
             var e, n := Expect(next, asked, mask, events[1..]), Served(next.nb, p.sampleSize, events[1..]);
             e.ret >= 0 ==>
               e.ret == n <= |Refilled(events[1..])| && e.data == Refilled(events[1..])[..n] && e.mask == []
    ensures var e, n := Expect(p, asked, mask, events), Served(p.nb, p.sampleSize, events);
            e.ret >= 0 ==>
              && e.ret == n <= |Refilled(events)| && e.data == Refilled(events)[..n]
              && e.mask == (if p.newClient then mask else [])
  {
    hide Expect, Refilled, Served, Turn;
    MoreSent(p, asked, mask, events);
    var data := events[0].data;
    ServedWithin(p.nb - |data|, p.sampleSize, events[1..]);
    JoinTakes(data, Refilled(events[1..]), Served(p.nb - |data|, p.sampleSize, events[1..]));
  }

  lemma MoreSent(p: Phase, asked: nat, mask: seq<byte>, events: seq<Event>)
    requires p.Waiting? && 1 <= p.sampleSize <= p.nb && events != [] && events[0].Refill?
    requires Turn(p, asked, mask, events[0]).phase.Waiting?
    ensures var data, next := events[0].data, Turn(p, asked, mask, events[0]).phase;
            && |data| < p.nb && next == Waiting(p.nb - |data|, false, p.sampleSize)
            && Expect(p, asked, mask, events) ==
                 Prepend(data, if p.newClient then mask else [], Expect(next, asked, mask, events[1..]))
            && Served(p.nb, p.sampleSize, events) == |data| + Served(p.nb - |data|, p.sampleSize, events[1..])
            && Refilled(events) == data + Refilled(events[1..])
  {
    hide Closing, Chunk, Line, Prepend;
  }

  lemma LastData(p: Phase, asked: nat, mask: seq<byte>, events: seq<Event>)
    requires p.Waiting? && 1 <= p.sampleSize <= p.nb && events != [] && events[0].Refill?
    requires Turn(p, asked, mask, events[0]).phase.Done?
    ensures var e, n := Expect(p, asked, mask, events), Served(p.nb, p.sampleSize, events);
            && e.ret == n <= |Refilled(events)| && e.data == Refilled(events)[..n]
            && e.mask == (if p.newClient then mask else [])
  {
    OnlyChunk(p, asked, mask, events);
    hide Closing, Chunk, Line;
    var data := events[0].data;
    ServedWithin(p.nb, p.sampleSize, events);
    assert Refilled(events) == data + Refilled(events[1..]);
    assert (data + Refilled(events[1..]))[..Served(p.nb, p.sampleSize, events)] == Sent(p.nb, data);
  }

  lemma JoinTakes(a: seq<byte>, b: seq<byte>, n: nat)
    requires n <= |b|
    ensures (a + b)[..|a| + n] == a + b[..n]
  {
  }

  lemma {:induction false} StallEndsEmpty(p: Phase, asked: nat, mask: seq<byte>, events: seq<Event>)
    requires p.Stalled? && ErrorCodes(events)
    ensures Expect(p, asked, mask, events).ret <= 0
    decreases |events|
  {
    if events != [] && !Turn(p, asked, mask, events[0]).phase.Done? {
      StallEndsEmpty(p, asked, mask, events[1..]);
    }
  }

  /** For every clean reply that is no error: what the client reads are the first bytes of the refills,
      in their order, and no others; so many that less than a sample is left of what it asked for, or
      the device was reopened. The mask comes with the first refill. */
  lemma ReplyDelivers(nb: nat, sampleSize: nat, mask: seq<byte>, events: seq<Event>, rest: seq<byte>)
    requires 0 < nb < INT_SPAN && 1 <= sampleSize <= nb && ErrorCodes(events)
    requires Reply(nb, sampleSize, mask, events).phase.Done? && Clean(Waiting(nb, true, sampleSize), nb, mask, events)
    ensures var o := ReadChunks(Reply(nb, sampleSize, mask, events).out + rest, nb, |mask|);
            var n := Served(nb, sampleSize, events);
            && o.rest == rest
            && (o.ret >= 0 ==>
                  && o.ret == n <= |Refilled(events)| && o.data == Refilled(events)[..n]
                  && o.mask == (if events[0].Refill? then mask else []))
  {
    ReplyIsFramed(nb, sampleSize, mask, events, rest);
    ExpectedData(Waiting(nb, true, sampleSize), nb, mask, events);
  }

  /** A request for less than one sample is answered at once, with nothing. */
  lemma SmallRequestReadsNothing(nb: nat, sampleSize: nat, mask: seq<byte>, events: seq<Event>, rest: seq<byte>)
    requires 0 < nb < sampleSize
    ensures var reply := Reply(nb, sampleSize, mask, events);
            reply.phase.Done? && ReadChunks(reply.out + rest, nb, |mask|) == Outcome(0, [], [], rest)
  {
    ReadBack(0, rest);
  }

  /** What the client makes of the number in front of a chunk, whoever wrote it: an error or an end is
      returned; more than it asked for is -EOVERFLOW, and none of it is read; a stream that ends inside
      the chunk is -EPIPE. */
  lemma ChunkMeans(n: int, after: seq<byte>, left: nat, maskBytes: nat)
    requires -INT_MAX <= n <= INT_MAX
    ensures ReadChunk(Line(n) + after, left, maskBytes) ==
              if n <= 0 then Outcome(n, [], [], after)
              else if left < n then Outcome(-EOVERFLOW, [], [], after)
              else if |after| < maskBytes + n then Outcome(-EPIPE, [], [], [])
              else Outcome(n, after[maskBytes..maskBytes + n], after[..maskBytes], after[maskBytes + n..])
  {
    hide Line, CInt, ReadInteger;
    ReadBack(n, after);
    SmallFits(n);
  }

  /** A stream that ends before a line does is -EPIPE, and a line that is no number -EINVAL. */
  lemma NoNumber(s: seq<byte>, b: byte, after: seq<byte>, len: nat, maskBytes: nat)
    requires 0 < len && NEWLINE !in s && b != NEWLINE && b != MINUS && !TextLine.IsDigit(b)
    ensures ReadChunks(s, len, maskBytes) == Outcome(-EPIPE, [], [], [])
    ensures ReadChunks([b] + s + [NEWLINE] + after, len, maskBytes) == Outcome(-EINVAL, [], [], after)
  {
    Unended(s);
    LineEnds([b] + s, after);
  }

  // ---------------------------------------------------------------------------------------
  // Requests that wait for narrower samples

  /** No reopening is for samples of at most `nb` bytes, and the worker does not end. */
  predicate NothingFits(nb: nat, events: seq<Event>) {
    forall e :: e in events ==> !e.WorkerEnds? && (e.Reopen? ==> nb < e.sampleSize)
  }

  lemma {:induction false} StallLasts(p: Phase, asked: nat, mask: seq<byte>, events: seq<Event>)
    requires p.Stalled?
    ensures Serve(p, asked, mask, events).phase == if NothingFits(p.nb, events) then p else Done
    decreases |events|
  {
    if events != [] {
      StallLasts(p, asked, mask, events[1..]);
      assert events == [events[0]] + events[1..];
    }
  }

  /** After `n` events the request was pending, the next one reopened the device for samples wider
      than what is left of it, and nothing since was for narrower ones. */
  predicate StalledSince(p: Phase, asked: nat, mask: seq<byte>, events: seq<Event>, n: nat)
    requires p.Waiting?
  {
    n < |events| && events[n].Reopen? &&
    var before := Serve(p, asked, mask, events[..n]).phase;
    before.Waiting? && before.nb < events[n].sampleSize && NothingFits(before.nb, events[n + 1..])
  }

  /** A request is passed over exactly since such a reopening; nothing else leaves it unanswered, and
      the first reopening for narrow enough samples, or the end of the worker, answers it. */
  lemma {:induction false} PassedOverExactly(p: Phase, asked: nat, mask: seq<byte>, events: seq<Event>)
    requires p.Waiting?
    ensures Serve(p, asked, mask, events).phase.Stalled? <==>
            exists n: nat :: StalledSince(p, asked, mask, events, n)
    decreases |events|
  {
    if events != [] {
      var turn := Turn(p, asked, mask, events[0]);
      var rest := events[1..];
      if turn.phase.Stalled? {
        StallLasts(turn.phase, asked, mask, rest);
        assert events[..0] == [];
        assert StalledSince(p, asked, mask, events, 0) <==> NothingFits(p.nb, rest);
        forall n: nat | 0 < n < |events| ensures !StalledSince(p, asked, mask, events, n) {
          StepFirst(p, asked, mask, events, n);
        }
      } else if turn.phase.Waiting? {
        PassedOverExactly(turn.phase, asked, mask, rest);
        forall n: nat | 0 < n < |events|
          ensures StalledSince(p, asked, mask, events, n) <==> StalledSince(turn.phase, asked, mask, rest, n - 1)
        {
          StepFirst(p, asked, mask, events, n);
        }
        if n: nat :| StalledSince(turn.phase, asked, mask, rest, n) {
          assert StalledSince(p, asked, mask, events, n + 1);
        }
      } else {
        forall n: nat | 0 < n < |events| ensures !StalledSince(p, asked, mask, events, n) {
          StepFirst(p, asked, mask, events, n);
        }
      }
    }
  }

  lemma StepFirst(p: Phase, asked: nat, mask: seq<byte>, events: seq<Event>, n: nat)
    requires p.Waiting? && 0 < n < |events|
    ensures events[..n][1..] == events[1..][..n - 1] && events[1..][n - 1] == events[n]
    ensures events[1..][n - 1 + 1..] == events[n + 1..]
    ensures var next := Turn(p, asked, mask, events[0]).phase;
            Serve(p, asked, mask, events[..n]).phase ==
            if next.Done? then Done else Serve(next, asked, mask, events[1..][..n - 1]).phase
    ensures Turn(p, asked, mask, events[0]).phase.Stalled? ==>
              !Serve(p, asked, mask, events[..n]).phase.Waiting?
  {
    assert events[..n][1..] == events[1..][..n - 1] && events[..n][0] == events[0];
    var next := Turn(p, asked, mask, events[0]).phase;
    if next.Stalled? {
      StallLasts(next, asked, mask, events[1..][..n - 1]);
    }
  }

  /** Passed over by samples of 8 bytes, answered when those of 4 come back. */
  lemma NarrowerSamplesAnswer(mask: seq<byte>)
    ensures Reply(4, 4, mask, [Reopen(8)]).phase == Stalled(4)
    ensures Reply(4, 4, mask, [Reopen(8), Reopen(4)]) == Serving(Done, Line(0))
  {
    assert [Reopen(8), Reopen(4)][1..] == [Reopen(4)];
  }
}
