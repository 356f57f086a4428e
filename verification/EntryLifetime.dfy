/**
 The life of a device entry of the server: who holds references to it, and what happens to its
 buffer and to the blocks leased from that buffer, in every interleaving of clients that open and
 close, producers that run and exit, and the worker that serves them. Each step is a critical
 section, or part of one, under the lock of the entry's client list (or, for publishing, of the
 device list).
 */
module EntryLifetime {

  /** In its loop; out of it; with every lease returned; with the entry torn down; gone. */
  datatype Worker = Serving | Ending | Settled | Ended | Gone

  datatype Entry = Entry(
    /** Cyclic or with metadata: for one client only, the `owner`. */
    exclusive: bool, owner: nat,
    refs: int, frees: nat,
    worker: Worker, published: bool, closed: bool, updateMask: bool,
    /** Whether there is a buffer; whether the pointer to a destroyed one was kept; and how many buffers
        were created and not destroyed. */
    buf: bool, stale: bool, buffers: int,
    /** Blocks on lease: in the slots of a queue, and in the hands of producer threads, each of which
        has at most one; and blocks that were on lease when their buffer was destroyed. */
    queued: nat, inHand: nat, orphans: nat,
    /** Clients on the list; whose OPEN succeeded; with a reference; on their way out with it. */
    listed: set<nat>, granted: set<nat>, attached: set<nat>, leaving: set<nat>,
    /** The clients for whose channels the buffer was opened last. */
    masked: set<nat>,
    /** Clients that sent CLOSE; of these, who wait with a second reference; who were answered. */
    closing: set<nat>, waiting: set<nat>, acked: set<nat>,
    /** Producer threads that run, and that have said they exited but still hold their reference. */
    running: nat, exited: nat)

  /** `open_dev_helper`, for a device without an entry. */
  function Created(exclusive: bool, owner: nat): Entry {
    Entry(exclusive, owner, 2, 0, Serving, true, false, true, false, false, 0, 0, 0, 0,
          {owner}, {}, {owner}, {}, {}, {}, {}, {}, 0, 0)
  }

  /** `dev_entry_put`. */
  function Put(e: Entry): Entry {
    e.(refs := e.refs - 1, frees := if e.refs - 1 == 0 then e.frees + 1 else e.frees)
  }

  function Leases(e: Entry): nat {
    e.queued + e.inHand
  }

  /** `iio_buffer_destroy`, if there is a buffer. */
  function Destroy(e: Entry): Entry {
    if e.buf then e.(buf := false, buffers := e.buffers - 1, orphans := e.orphans + Leases(e)) else e
  }

  /** `iio_device_create_buffer`. */
  function Create(e: Entry): Entry {
    e.(buf := true, buffers := e.buffers + 1)
  }

  datatype Step =
    | Join(c: nat)            // another client opens the device
    | Reopen                  // the worker destroys the buffer, if any, and creates one for the new mask
    | ReopenFails(kept: bool) // it cannot: with or without a buffer left
    | ReopenRefused           // the plan of a burst or ring does not fit, noticed after destroying
    | Start(c: nat)           // a producer thread is started for a client
    | Lease                   // a producer acquires a block
    | File                    // and queues it,
    | HandBack                // or gives it back
    | Return                  // a queued block goes back: sent, dropped or spilled
    | Exit                    // a producer says that it exited, with nothing in its hand
    | ExitPut                 // and gives up its reference
    | End                     // the worker leaves its loop: no clients, no running producers
    | Settle                  // it has waited for all producers, and returns what the slots name
    | Finish                  // it destroys the buffer and lets the clients go
    | Unpublish
    | WorkerPut
    | BeginClose(c: nat)
    | Leave(c: nat)           // `remove_thd_entry`, up to giving up the reference
    | LeavePut(c: nat)
    | EndClose(c: nat)        // CLOSE is acknowledged

  predicate Enabled(e: Entry, s: Step) {
    match s
    case Join(c) => e.published && !e.exclusive && !e.closed && c !in e.attached && c !in e.granted && c !in e.closing
    case Reopen => e.worker == Serving && e.updateMask && e.listed != {}
    case ReopenFails(_) => e.worker == Serving && e.updateMask && e.listed != {}
    case ReopenRefused => e.worker == Serving && e.updateMask && e.listed != {} && e.exclusive
    case Start(c) => !e.closed && e.exclusive && e.buf && c in e.listed && c in e.granted
    case Lease => e.running > e.inHand
    case File => e.inHand > 0
    case HandBack => e.inHand > 0
    case Return => e.queued > 0 && (e.running > 0 || e.worker == Serving)
    case Exit => e.running > e.inHand
    case ExitPut => e.exited > 0
    case End => e.worker == Serving && e.listed == {} && e.running == 0
    case Settle => e.worker == Ending && e.running == 0
    case Finish => e.worker == Settled
    case Unpublish => e.worker == Ended && e.published
    case WorkerPut => e.worker == Ended && !e.published
    case BeginClose(c) => c in e.attached && c !in e.leaving && c in e.granted && c !in e.closing
    case Leave(c) => c in e.attached && c !in e.leaving
    case LeavePut(c) => c in e.leaving
    case EndClose(c) => c in e.closing && c !in e.attached && c !in e.acked && (c in e.waiting ==> e.closed)
  }

  function Next(e: Entry, s: Step): Entry
    requires Enabled(e, s)
  {
    match s
    case Join(c) => e.(refs := e.refs + 1, listed := e.listed + {c}, attached := e.attached + {c}, updateMask := true)
    case Reopen => Create(Destroy(e)).(updateMask := false, granted := e.granted + e.listed, masked := e.listed)
    case ReopenFails(kept) => (if kept then Create(Destroy(e)) else Destroy(e)).(worker := Ending)
    case ReopenRefused => Destroy(e).(buf := e.buf, stale := e.stale || e.buf, worker := Ending)
    case Start(c) => e.(refs := e.refs + 1, running := e.running + 1)
    case Lease => e.(inHand := e.inHand + 1)
    case File => e.(inHand := e.inHand - 1, queued := e.queued + 1)
    case HandBack => e.(inHand := e.inHand - 1)
    case Return => e.(queued := e.queued - 1)
    case Exit => e.(running := e.running - 1, exited := e.exited + 1)
    case ExitPut => Put(e.(exited := e.exited - 1))
    case End => e.(worker := Ending)
    case Settle => e.(queued := 0, worker := Settled)
    case Finish => Destroy(e).(listed := {}, closed := true, worker := Ended)
    case Unpublish => e.(published := false)
    case WorkerPut => Put(e.(worker := Gone))
    case BeginClose(c) =>
      var f := e.(closing := e.closing + {c});
      if e.exclusive && e.listed == {c} then f.(refs := e.refs + 1, waiting := e.waiting + {c}) else f
    case Leave(c) =>
      if e.closed then e.(leaving := e.leaving + {c})
      else e.(leaving := e.leaving + {c}, listed := e.listed - {c}, updateMask := true)
    case LeavePut(c) => Put(e.(attached := e.attached - {c}, leaving := e.leaving - {c}))
    case EndClose(c) =>
      var f := e.(acked := e.acked + {c}, waiting := e.waiting - {c});
      if c in e.waiting then Put(f) else f
  }

  // ---------------------------------------------------------------------------------------
  // What every step keeps

  function Holders(e: Entry): nat {
    (if e.worker == Gone then 0 else 1) + |e.attached| + |e.waiting| + e.running + e.exited
  }

  /** References are counted, and the entry is freed when the last one goes. */
  ghost predicate Counted(e: Entry) {
    e.refs == Holders(e) && e.frees == (if e.refs == 0 then 1 else 0)
  }

  ghost predicate ClientsFit(e: Entry) {
    && e.listed <= e.attached && e.leaving <= e.attached && e.listed !! e.leaving
    && (!e.closed ==> e.attached <= e.listed + e.leaving)
    && (e.exclusive ==> e.attached <= {e.owner} && e.granted <= {e.owner})
  }

  ghost predicate ClosersFit(e: Entry) {
    && e.waiting <= e.closing <= e.granted && e.waiting !! e.acked
    && (e.exclusive && e.acked != {} ==> e.closed)
    // CLOSE waits unless the entry is closed already.
    && (e.exclusive && !e.closed ==> e.closing <= e.waiting)
  }

  ghost predicate WorkerFits(e: Entry) {
    && (e.closed <==> e.worker == Ended || e.worker == Gone)
    && (e.published ==> e.worker != Gone)
    && (e.closed ==> !e.buf && e.listed == {} && e.running == 0)
    // A client of an exclusive entry can act only while the worker serves it.
    && (e.exclusive && (e.updateMask || e.worker == Ending || e.worker == Settled) ==> e.listed * e.granted == {})
  }

  ghost predicate BufferFits(e: Entry) {
    && (Leases(e) > 0 ==> e.buf && e.exclusive) && e.inHand <= e.running
    && (e.running > 0 ==> e.buf && e.exclusive)
    && (e.worker == Settled ==> Leases(e) == 0 && e.running == 0)
    && (e.exclusive && e.updateMask && e.listed != {} && e.worker == Serving ==> !e.buf)
    && !e.stale && e.orphans == 0
  }

  ghost predicate Sound(e: Entry) {
    Counted(e) && ClientsFit(e) && ClosersFit(e) && WorkerFits(e) && BufferFits(e)
  }

  lemma CreatedIsSound(exclusive: bool, owner: nat)
    ensures Sound(Created(exclusive, owner))
  {
  }

  lemma OneMore(s: set<nat>, c: nat)
    requires c !in s
    ensures |s + {c}| == |s| + 1
  {
  }

  lemma OneLess(s: set<nat>, c: nat)
    requires c in s
    ensures |s - {c}| == |s| - 1
  {
  }

  /** A step that a thread can take while it touches the entry finds it alive. */
  predicate Touches(e: Entry, s: Step) {
    s.EndClose? ==> s.c in e.waiting
  }

  lemma TouchedIsAlive(e: Entry, s: Step)
    requires Sound(e) && Enabled(e, s) && Touches(e, s)
    ensures e.refs > 0 && e.frees == 0
  {
    match s
    case Join(c) =>
    case Start(c) => assert c in e.attached;
    case BeginClose(c) => assert c in e.attached;
    case Leave(c) => assert c in e.attached;
    case LeavePut(c) => assert c in e.attached;
    case EndClose(c) => assert c in e.waiting;
    case _ =>
  }

  lemma CountsJoin(e: Entry, c: nat)
    requires Counted(e) && Enabled(e, Join(c)) && e.refs > 0
    ensures Counted(Next(e, Join(c)))
  {
    OneMore(e.attached, c);
  }

  lemma CountsBeginClose(e: Entry, c: nat)
    requires Counted(e) && Enabled(e, BeginClose(c)) && c !in e.waiting && e.refs > 0
    ensures Counted(Next(e, BeginClose(c)))
  {
    if e.exclusive && e.listed == {c} {
      OneMore(e.waiting, c);
      return;
    }
  }

  lemma CountsLeavePut(e: Entry, c: nat)
    requires Counted(e) && Enabled(e, LeavePut(c)) && c in e.attached && e.refs > 0
    ensures Counted(Next(e, LeavePut(c)))
  {
    OneLess(e.attached, c);
  }

  lemma CountsEndClose(e: Entry, c: nat)
    requires Counted(e) && Enabled(e, EndClose(c)) && (c in e.waiting ==> e.refs > 0)
    ensures Counted(Next(e, EndClose(c)))
  {
    if c in e.waiting {
      OneLess(e.waiting, c);
    } else {
      assert e.waiting - {c} == e.waiting;
    }
  }

  lemma CountsByWorker(e: Entry, s: Step)
    requires Counted(e) && WorkerFits(e) && Enabled(e, s) && e.refs > 0 && ByWorker(s)
    ensures Counted(Next(e, s))
  {
    if s.WorkerPut? {
      return;
    }
  }

  lemma CountsByProducer(e: Entry, s: Step)
    requires Counted(e) && Enabled(e, s) && e.refs > 0 && (ByProducer(s) || s.Leave?)
    ensures Counted(Next(e, s))
  {
    if s.ExitPut? {
      return;
    }
  }

  lemma KeepsCount(e: Entry, s: Step)
    requires Sound(e) && Enabled(e, s)
    ensures Counted(Next(e, s))
  {
    if Touches(e, s) {
      TouchedIsAlive(e, s);
    }
    match s
    case Join(c) => CountsJoin(e, c);
    case BeginClose(c) => CountsBeginClose(e, c);
    case LeavePut(c) => CountsLeavePut(e, c);
    case EndClose(c) => CountsEndClose(e, c);
    case _ =>
      if ByWorker(s) {
        CountsByWorker(e, s);
      } else {
        CountsByProducer(e, s);
      }
  }

  /** Steps of the worker, of producers, and of clients. */
  predicate ByWorker(s: Step) {
    s.Reopen? || s.ReopenFails? || s.ReopenRefused? || s.End? || s.Settle? || s.Finish? || s.Unpublish? || s.WorkerPut?
  }

  predicate ByProducer(s: Step) {
    s.Start? || s.Lease? || s.File? || s.HandBack? || s.Return? || s.Exit? || s.ExitPut?
  }

  lemma KeepsClientsByWorker(e: Entry, s: Step)
    requires ClientsFit(e) && ClosersFit(e) && WorkerFits(e) && Enabled(e, s) && ByWorker(s)
    ensures ClientsFit(Next(e, s))
  {
  }

  lemma KeepsClientsByProducer(e: Entry, s: Step)
    requires ClientsFit(e) && ClosersFit(e) && WorkerFits(e) && Enabled(e, s) && ByProducer(s)
    ensures ClientsFit(Next(e, s))
  {
  }

  lemma KeepsClientsByClient(e: Entry, s: Step)
    requires ClientsFit(e) && ClosersFit(e) && WorkerFits(e) && Enabled(e, s) && !ByWorker(s) && !ByProducer(s)
    ensures ClientsFit(Next(e, s))
  {
  }

  lemma KeepsClients(e: Entry, s: Step)
    requires ClientsFit(e) && ClosersFit(e) && WorkerFits(e) && Enabled(e, s)
    ensures ClientsFit(Next(e, s))
  {
    hide Next, ClientsFit, ClosersFit, WorkerFits, BufferFits;
    if ByWorker(s) {
      KeepsClientsByWorker(e, s);
    } else if ByProducer(s) {
      KeepsClientsByProducer(e, s);
    } else {
      KeepsClientsByClient(e, s);
    }
  }

  lemma ClosersAtBegin(e: Entry, c: nat)
    requires ClientsFit(e) && ClosersFit(e) && WorkerFits(e) && Enabled(e, BeginClose(c))
    ensures ClosersFit(Next(e, BeginClose(c)))
  {
    if e.exclusive && !e.closed {
      assert e.listed == {c};
    }
  }

  lemma ClosersAtEnd(e: Entry, c: nat)
    requires ClientsFit(e) && ClosersFit(e) && WorkerFits(e) && Enabled(e, EndClose(c))
    ensures ClosersFit(Next(e, EndClose(c)))
  {
  }

  lemma KeepsClosers(e: Entry, s: Step)
    requires ClientsFit(e) && ClosersFit(e) && WorkerFits(e) && Enabled(e, s)
    ensures ClosersFit(Next(e, s))
  {
    match s
    case BeginClose(c) => ClosersAtBegin(e, c);
    case EndClose(c) => ClosersAtEnd(e, c);
    case _ =>
  }

  lemma KeepsWorkerByWorker(e: Entry, s: Step)
    requires ClientsFit(e) && WorkerFits(e) && BufferFits(e) && Enabled(e, s) && ByWorker(s)
    ensures WorkerFits(Next(e, s))
  {
  }

  lemma KeepsWorkerByProducer(e: Entry, s: Step)
    requires ClientsFit(e) && WorkerFits(e) && BufferFits(e) && Enabled(e, s) && ByProducer(s)
    ensures WorkerFits(Next(e, s))
  {
  }

  lemma KeepsWorkerByClient(e: Entry, s: Step)
    requires ClientsFit(e) && WorkerFits(e) && BufferFits(e) && Enabled(e, s) && !ByWorker(s) && !ByProducer(s)
    ensures WorkerFits(Next(e, s))
  {
  }

  lemma KeepsWorker(e: Entry, s: Step)
    requires ClientsFit(e) && WorkerFits(e) && BufferFits(e) && Enabled(e, s)
    ensures WorkerFits(Next(e, s))
  {
    hide Next, ClientsFit, ClosersFit, WorkerFits, BufferFits;
    if ByWorker(s) {
      KeepsWorkerByWorker(e, s);
    } else if ByProducer(s) {
      KeepsWorkerByProducer(e, s);
    } else {
      KeepsWorkerByClient(e, s);
    }
  }

  lemma KeepsBufferByWorker(e: Entry, s: Step)
    requires ClientsFit(e) && WorkerFits(e) && BufferFits(e) && Enabled(e, s) && ByWorker(s)
    ensures BufferFits(Next(e, s))
  {
  }

  lemma KeepsBufferByProducer(e: Entry, s: Step)
    requires ClientsFit(e) && WorkerFits(e) && BufferFits(e) && Enabled(e, s) && ByProducer(s)
    ensures BufferFits(Next(e, s))
  {
    if s.Start? {
      assert s.c in e.listed * e.granted;
    }
  }

  lemma KeepsBufferByClient(e: Entry, s: Step)
    requires ClientsFit(e) && WorkerFits(e) && BufferFits(e) && Enabled(e, s) && !ByWorker(s) && !ByProducer(s)
    ensures BufferFits(Next(e, s))
  {
    hide ClientsFit, WorkerFits;
    if s.Leave? {
      BufferAtLeave(e, s.c);
    }
  }

  lemma BufferAtLeave(e: Entry, c: nat)
    requires ClientsFit(e) && BufferFits(e) && Enabled(e, Leave(c))
    ensures BufferFits(Next(e, Leave(c)))
  {
  }

  lemma KeepsBuffer(e: Entry, s: Step)
    requires ClientsFit(e) && WorkerFits(e) && BufferFits(e) && Enabled(e, s)
    ensures BufferFits(Next(e, s))
  {
    hide Next, ClientsFit, ClosersFit, WorkerFits, BufferFits;
    if ByWorker(s) {
      KeepsBufferByWorker(e, s);
    } else if ByProducer(s) {
      KeepsBufferByProducer(e, s);
    } else {
      KeepsBufferByClient(e, s);
    }
  }

  // ---------------------------------------------------------------------------------------
  // Whole lives

  predicate Possible(e: Entry, steps: seq<Step>)
    decreases |steps|
  {
    steps == [] || (Enabled(e, steps[0]) && Possible(Next(e, steps[0]), steps[1..]))
  }

  function Run(e: Entry, steps: seq<Step>): Entry
    requires Possible(e, steps)
    decreases |steps|
  {
    if steps == [] then e else Run(Next(e, steps[0]), steps[1..])
  }

  lemma {:induction false} RunIsSound(e: Entry, steps: seq<Step>)
    requires Sound(e) && Possible(e, steps)
    ensures Sound(Run(e, steps))
    decreases |steps|
  {
    if steps != [] {
      KeepsCount(e, steps[0]);
      KeepsClients(e, steps[0]);
      KeepsClosers(e, steps[0]);
      KeepsWorker(e, steps[0]);
      KeepsBuffer(e, steps[0]);
      RunIsSound(Next(e, steps[0]), steps[1..]);
    }
  }

  /** The references are the worker's, one for each attached client, for each producer thread and for
      each waiting closer; the entry is freed once, when none is left; no step touches it after that. */
  lemma FreedOnce(exclusive: bool, owner: nat, steps: seq<Step>, s: Step)
    requires Possible(Created(exclusive, owner), steps)
    ensures var e := Run(Created(exclusive, owner), steps);
            && e.refs == Holders(e) && e.frees <= 1 && (e.frees == 1 <==> Holders(e) == 0)
            && (e.frees == 1 && Enabled(e, s) ==> !Touches(e, s))
  {
    CreatedIsSound(exclusive, owner);
    RunIsSound(Created(exclusive, owner), steps);
    var e := Run(Created(exclusive, owner), steps);
    if Enabled(e, s) && Touches(e, s) {
      TouchedIsAlive(e, s);
    }
  }

  /** No buffer is destroyed while a block is on lease from it, none is used after that, and CLOSE of
      an exclusive buffer is answered only when buffer, leases and producers are gone. */
  lemma TornDownInOrder(exclusive: bool, owner: nat, steps: seq<Step>)
    requires Possible(Created(exclusive, owner), steps)
    ensures var e := Run(Created(exclusive, owner), steps);
            && e.orphans == 0 && !e.stale && (Leases(e) > 0 || e.running > 0 ==> e.buf)
            && (e.closed ==> !e.buf && Leases(e) == 0 && e.running == 0)
            && (exclusive && e.acked != {} ==> e.closed)
  {
    CreatedIsSound(exclusive, owner);
    RunIsSound(Created(exclusive, owner), steps);
    SameKind(Created(exclusive, owner), steps);
  }

  /** The buffer is open for the clients on the list, and all of them know; and there is no other. */
  ghost predicate MaskFits(e: Entry) {
    && (e.worker == Serving && !e.updateMask ==> e.buf && e.masked == e.listed && e.listed <= e.granted)
    && (e.stale || e.buffers == if e.buf then 1 else 0)
  }

  lemma KeepsMaskByWorker(e: Entry, s: Step)
    requires Enabled(e, s) && MaskFits(e) && ByWorker(s)
    ensures MaskFits(Next(e, s))
  {
  }

  lemma KeepsMaskByProducer(e: Entry, s: Step)
    requires Enabled(e, s) && MaskFits(e) && ByProducer(s)
    ensures MaskFits(Next(e, s))
  {
  }

  lemma KeepsMaskByNewcomer(e: Entry, s: Step)
    requires Enabled(e, s) && MaskFits(e) && (s.Join? || s.BeginClose?)
    ensures MaskFits(Next(e, s))
  {
  }

  lemma KeepsMaskByLeaver(e: Entry, s: Step)
    requires Enabled(e, s) && MaskFits(e) && s.Leave?
    ensures MaskFits(Next(e, s))
  {
  }

  lemma KeepsMaskByPut(e: Entry, s: Step)
    requires Enabled(e, s) && MaskFits(e) && (s.LeavePut? || s.EndClose?)
    ensures MaskFits(Next(e, s))
  {
  }

  lemma KeepsMask(e: Entry, s: Step)
    requires Enabled(e, s) && MaskFits(e)
    ensures MaskFits(Next(e, s))
  {
    hide Next, MaskFits, Enabled;
    if ByWorker(s) {
      KeepsMaskByWorker(e, s);
    } else if ByProducer(s) {
      KeepsMaskByProducer(e, s);
    } else if s.LeavePut? || s.EndClose? {
      KeepsMaskByPut(e, s);
    } else if s.Leave? {
      KeepsMaskByLeaver(e, s);
    } else {
      KeepsMaskByNewcomer(e, s);
    }
  }

  lemma {:induction false} RunKeepsMask(e: Entry, steps: seq<Step>)
    requires Possible(e, steps) && MaskFits(e)
    ensures MaskFits(Run(e, steps))
    decreases |steps|
  {
    hide Next, MaskFits;
    if steps != [] {
      KeepsMask(e, steps[0]);
      RunKeepsMask(Next(e, steps[0]), steps[1..]);
    }
  }

  /** While the worker serves and has nothing to reopen, the buffer has the channels of exactly the
      clients on the list, and each of them was told that it is open. */
  lemma MaskIsCurrent(exclusive: bool, owner: nat, steps: seq<Step>)
    requires Possible(Created(exclusive, owner), steps)
    ensures var e := Run(Created(exclusive, owner), steps);
            e.worker == Serving && !e.updateMask ==> e.buf && e.masked == e.listed <= e.granted
  {
    RunKeepsMask(Created(exclusive, owner), steps);
  }

  /** There is never a second buffer, and every buffer was destroyed when the entry is freed. */
  lemma BuffersDestroyed(exclusive: bool, owner: nat, steps: seq<Step>)
    requires Possible(Created(exclusive, owner), steps)
    ensures var e := Run(Created(exclusive, owner), steps);
            e.buffers == (if e.buf then 1 else 0) && (e.closed || e.frees > 0 ==> e.buffers == 0)
  {
    CreatedIsSound(exclusive, owner);
    RunIsSound(Created(exclusive, owner), steps);
    RunKeepsMask(Created(exclusive, owner), steps);
  }

  lemma KeepsKind(e: Entry, s: Step)
    requires Enabled(e, s)
    ensures Next(e, s).exclusive == e.exclusive
  {
    match s
    case Join(_) =>
    case Reopen =>
    case ReopenFails(_) =>
    case ReopenRefused =>
    case Start(_) =>
    case Lease =>
    case File =>
    case HandBack =>
    case Return =>
    case Exit =>
    case ExitPut =>
    case End =>
    case Settle =>
    case Finish =>
    case Unpublish =>
    case WorkerPut =>
    case BeginClose(_) =>
    case Leave(_) =>
    case LeavePut(_) =>
    case EndClose(_) =>
  }

  lemma {:induction false} SameKind(e: Entry, steps: seq<Step>)
    requires Possible(e, steps)
    ensures Run(e, steps).exclusive == e.exclusive
    decreases |steps|
  {
    hide Next;
    if steps != [] {
      KeepsKind(e, steps[0]);
      SameKind(Next(e, steps[0]), steps[1..]);
    }
  }
}
