/**
 * From the events a thread logs to the events read back from its trace files: the logger, the flush
 * queue, the writer and the reader put together.
 */
module EndToEnd {
  import opened Common
  import opened Bytes
  import opened TraceFormat
  import opened TraceFile
  import opened SliceBuffer
  import opened Records
  import opened FlushWrites
  import Q = FlushQueue
  import J = Journals

  /** A buffer in the queue and the thread whose events it holds. */
  datatype Parcel = Parcel(thread: nat, line: Line<Event>)

  /** The buffers queued by a run, in order; the place of each is its record's id. */
  ghost function Queued<B>(cfg: Q.Config, run: seq<Q.Action<B>>): seq<B> {
    if run == [] then []
    else
      var s, a := Q.Exec(cfg, Q.Start<B>(), run[..|run| - 1]), run[|run| - 1];
      Queued(cfg, run[..|run| - 1]) + QueuedBy(s, a)
  }

  /** Every record still holds the buffer it was queued with. */
  ghost predicate Kept<B>(b: Book<B>, queued: seq<B>) {
    match b
    case Book(queue, hand, _, _, nextId, _, _) =>
      && nextId == |queued|
      && (forall k :: 0 <= k < |queue| ==> Same(queue[k], queued))
      && (hand.Some? ==> Same(hand.value, queued))
  }

  ghost predicate Same<B>(r: Record<B>, queued: seq<B>) {
    r.id < |queued| && r.buffer == queued[r.id]
  }

  lemma {:induction false} StepKept<B>(cfg: Q.Config, s: Q.State<B>, a: Q.Action<B>, queued: seq<B>)
    requires Kept(s.book, queued)
    ensures Kept(Q.Step(cfg, s, a).book, queued + QueuedBy(s, a))
  {
    var next := Q.Step(cfg, s, a);
    if a.Work? {
      Q.WorkMoves(cfg, s, a.clock, a.ok);
      assert queued + [] == queued;
    } else if a.EnqueueCommit? && a.k < |s.entering| {
      var more := queued + [s.entering[a.k].1];
      assert forall r: Record<B> :: Same(r, queued) ==> Same(r, more);
    }
  }

  lemma {:induction false} RunKept<B>(cfg: Q.Config, run: seq<Q.Action<B>>)
    ensures Kept(Q.Exec(cfg, Q.Start<B>(), run).book, Queued(cfg, run))
  {
    if run != [] {
      RunKept(cfg, run[..|run| - 1]);
      StepKept(cfg, Q.Exec(cfg, Q.Start<B>(), run[..|run| - 1]), run[|run| - 1], Queued(cfg, run[..|run| - 1]));
    }
  }

  /** The buffers given to the writer by a run, in order. */
  ghost function Given<B>(cfg: Q.Config, run: seq<Q.Action<B>>): seq<B> {
    if run == [] then []
    else
      var s, a := Q.Exec(cfg, Q.Start<B>(), run[..|run| - 1]), run[|run| - 1];
      Given(cfg, run[..|run| - 1]) +
      if a.Work? && s.pc.Writing? && s.book.hand.Some? then [s.book.hand.value.buffer] else []
  }

  /** The buffer given to the writer is always the one the record was queued with. */
  ghost predicate Faithful<B>(writes: seq<Write>, given: seq<B>, queued: seq<B>) {
    |given| == |writes| && forall k :: 0 <= k < |writes| ==> writes[k].id < |queued| && given[k] == queued[writes[k].id]
  }

  lemma {:induction false} StepFaithful<B>(cfg: Q.Config, s: Q.State<B>, a: Q.Action<B>, given: seq<B>, queued: seq<B>)
    requires Kept(s.book, queued) && Faithful(s.book.writes, given, queued)
    ensures var more := queued + QueuedBy(s, a);
            var now := given + if a.Work? && s.pc.Writing? && s.book.hand.Some? then [s.book.hand.value.buffer] else [];
            Faithful(Q.Step(cfg, s, a).book.writes, now, more)
  {
    if a.Work? {
      WritesGrow(cfg, s, a.clock, a.ok);
    }
  }

  lemma {:induction false} WritesGrow<B>(cfg: Q.Config, s: Q.State<B>, clock: int, ok: bool)
    ensures Q.Step(cfg, s, Q.Work(clock, ok)).book.writes ==
            s.book.writes + if s.pc.Writing? && s.book.hand.Some? then [Write(s.book.hand.value.id, ok)] else []
  {
    Q.WorkBook(cfg, s, clock, ok);
  }

  lemma {:induction false} RunFaithful<B>(cfg: Q.Config, run: seq<Q.Action<B>>)
    ensures Faithful(Q.Exec(cfg, Q.Start<B>(), run).book.writes, Given(cfg, run), Queued(cfg, run))
  {
    if run != [] {
      var earlier := run[..|run| - 1];
      RunFaithful(cfg, earlier);
      RunKept(cfg, earlier);
      StepFaithful(cfg, Q.Exec(cfg, Q.Start<B>(), earlier), run[|run| - 1], Given(cfg, earlier), Queued(cfg, earlier));
    }
  }

  /**
   * With `flush_all_events`, only successful writes and no Clear, a run that leaves no record behind has
   * given the writer exactly the buffers queued, in the order they were queued.
   */
  lemma {:induction false} GivenIsQueued<B>(cfg: Q.Config, run: seq<Q.Action<B>>)
    requires cfg.flushAll
    requires forall k :: 0 <= k < |run| ==> !run[k].Clear? && (run[k].Work? ==> run[k].ok)
    requires Pending(Q.Exec(cfg, Q.Start<B>(), run).book) == []
    ensures Given(cfg, run) == Queued(cfg, run)
  {
    WriteOrderIsQueueOrder(cfg, run);
    RunKept(cfg, run);
    RunFaithful(cfg, run);
    AllWritten(Q.Exec(cfg, Q.Start<B>(), run), Given(cfg, run), Queued(cfg, run));
  }

  lemma {:induction false} AllWritten<B>(s: Q.State<B>, given: seq<B>, queued: seq<B>)
    requires Pending(s.book) == [] && Kept(s.book, queued) && Upto(Trail(s.book, s.pc), s.book.nextId)
    requires Faithful(s.book.writes, given, queued)
    ensures given == queued
  {
    assert s.book.queue == [] && s.book.hand.None?;
    var trail := Trail(s.book, s.pc);
    assert trail == WrittenIds(s.book.writes);
    assert forall k :: 0 <= k < |trail| ==> trail[k] == s.book.writes[k].id;
  }

  /** The buffers that a logger hands over. */
  ghost function Handed(limit: nat, ops: seq<J.Op<Event>>): seq<Line<Event>>
    requires forall op :: op in ops ==> J.Fair(op)
  {
    if ops == [] then []
    else
      var earlier, op := ops[..|ops| - 1], ops[|ops| - 1];
      Handed(limit, earlier) + HandedBy(J.After(limit, true, earlier), op)
  }

  ghost function HandedBy(j: J.Journal<Event>, op: J.Op<Event>): seq<Line<Event>>
    requires j.Valid() && J.Fair(op)
  {
    match op
    case Log(event, answer, accepted) =>
      var k := J.Pushed(j, event, answer);
      if k.Full() && k.line.memory != [] && accepted then [k.line] else []
    case Flush(accepted) => if j.line.memory != [] && accepted then [j.line] else []
  }

  ghost function Contents(lines: seq<Line<Event>>): seq<Event>
    requires forall k :: 0 <= k < |lines| ==> lines[k].Valid()
  {
    if lines == [] then []
    else
      assert lines[|lines| - 1].Valid();
      Contents(lines[..|lines| - 1]) + lines[|lines| - 1].Contents()
  }

  /** What a logger hands over holds what its journal counts as sent. */
  lemma {:induction false} HandedIsSent(limit: nat, ops: seq<J.Op<Event>>)
    requires forall op :: op in ops ==> J.Fair(op)
    ensures forall k :: 0 <= k < |Handed(limit, ops)| ==> Handed(limit, ops)[k].Valid()
    ensures Contents(Handed(limit, ops)) == J.After(limit, true, ops).sent
  {
    if ops != [] {
      var earlier, op := ops[..|ops| - 1], ops[|ops| - 1];
      assert op in ops && J.Fair(op);
      HandedIsSent(limit, earlier);
      HandedStep(J.After(limit, true, earlier), op, Handed(limit, earlier));
    }
  }

  lemma {:induction false} HandedStep(j: J.Journal<Event>, op: J.Op<Event>, lines: seq<Line<Event>>)
    requires j.Valid() && J.Fair(op)
    requires (forall k :: 0 <= k < |lines| ==> lines[k].Valid()) && Contents(lines) == j.sent
    ensures var more := lines + HandedBy(j, op);
            (forall k :: 0 <= k < |more| ==> more[k].Valid()) && Contents(more) == J.Apply(j, true, op).sent
  {
    if op.Log? {
      J.PushedValid(j, op.event, op.answer);
    }
    var extra := HandedBy(j, op);
    assert lines + [] == lines;
    if extra != [] {
      assert (lines + extra)[..|lines|] == lines;
    }
  }

  /** What a header says beside the events: session, process, thread and the two clocks. */
  datatype Stamp = Stamp(session: Uint64, process: Int64, thread: Uint64, system: Int64, steady: Int64)

  function FileFor(host: Endian, codec: Codec, strategy: Byte, events: seq<Event>, t: Stamp): seq<Byte> {
    TraceFile.Written(host, codec, strategy,
                      HeaderFor(host, t.session, t.process, t.thread, t.system, t.steady, |events|), events)
  }

  /** The bytes that the writer emits for a parcel, whatever the clocks show. */
  ghost predicate FileOf(host: Endian, codec: Codec, strategy: Byte, parcel: Parcel, file: seq<Byte>) {
    parcel.line.Valid() && exists t: Stamp :: file == FileFor(host, codec, strategy, parcel.line.Contents(), t)
  }

  lemma {:induction false} FileReads(host: Endian, snappy: Codec, strategy: Byte, parcel: Parcel, file: seq<Byte>)
    requires Inverts(snappy) && IsStrategy(strategy)
    requires FileOf(host, MakeCompressor(strategy, snappy).value, strategy, parcel, file)
    requires HEADER_SIZE < |file| && |parcel.line.memory| < 0x8000_0000
    ensures Readable(host, snappy, parcel, file)
  {
    var codec, events := MakeCompressor(strategy, snappy).value, parcel.line.Contents();
    var t: Stamp :| file == FileFor(host, codec, strategy, events, t);
    StampedFileReads(host, snappy, strategy, events, t);
  }

  lemma {:induction false} StampedFileReads(host: Endian, snappy: Codec, strategy: Byte, events: seq<Event>, t: Stamp)
    requires Inverts(snappy) && IsStrategy(strategy) && |events| < 0x8000_0000
    ensures var file := FileFor(host, MakeCompressor(strategy, snappy).value, strategy, events, t);
            |file| != HEADER_SIZE ==> Parsed(host, snappy, file).Ok? && Parsed(host, snappy, file).value.events == events
  {
    FlushedFileReads(host, snappy, strategy, t.session, t.process, t.thread, t.system, t.steady, events);
  }

  /** The lines of one thread's parcels, in order. */
  ghost function LinesOf(parcels: seq<Parcel>, thread: nat): seq<Line<Event>> {
    if parcels == [] then []
    else
      LinesOf(parcels[..|parcels| - 1], thread) +
      if parcels[|parcels| - 1].thread == thread then [parcels[|parcels| - 1].line] else []
  }

  /** The parcels of the Enqueue calls in progress. */
  ghost function InCalls(entering: seq<(int, Parcel)>): (r: seq<Parcel>)
    ensures |r| == |entering| && forall k :: 0 <= k < |r| ==> r[k] == entering[k].1
  {
    seq(|entering|, k requires 0 <= k < |entering| => entering[k].1)
  }

  /** The parcels that a run hands to the queue, in the order the queue lets the calls in. */
  ghost function Entered(cfg: Q.Config, run: seq<Q.Action<Parcel>>): seq<Parcel> {
    if run == [] then []
    else
      var s, a := Q.Exec(cfg, Q.Start<Parcel>(), run[..|run| - 1]), run[|run| - 1];
      Entered(cfg, run[..|run| - 1]) + EnteredBy(s, a)
  }

  /** A thread makes no Enqueue call before its last one has returned. */
  ghost predicate Orderly(cfg: Q.Config, run: seq<Q.Action<Parcel>>, thread: nat) {
    run != [] ==>
      && Orderly(cfg, run[..|run| - 1], thread)
      && (run[|run| - 1].EnqueueEnter? && run[|run| - 1].buffer.thread == thread ==>
            LinesOf(InCalls(Q.Exec(cfg, Q.Start<Parcel>(), run[..|run| - 1]).entering), thread) == [])
  }

  lemma {:induction false} LinesOfAppend(a: seq<Parcel>, b: seq<Parcel>, thread: nat)
    ensures LinesOf(a + b, thread) == LinesOf(a, thread) + LinesOf(b, thread)
    decreases |b|
  {
    if b == [] {
      assert a + b == a;
    } else {
      var n := |b| - 1;
      assert (a + b)[..|a + b| - 1] == a + b[..n];
      LinesOfAppend(a, b[..n], thread);
    }
  }

  ghost function Mine(p: Parcel, thread: nat): seq<Line<Event>> {
    if p.thread == thread then [p.line] else []
  }

  lemma {:induction false} LinesOfOne(p: Parcel, thread: nat)
    ensures LinesOf([p], thread) == Mine(p, thread)
  {
    assert [p][..0] == [];
  }

  lemma {:induction false} LinesOfSplit(s: seq<Parcel>, k: nat, thread: nat)
    requires k < |s|
    ensures LinesOf(s, thread) == LinesOf(s[..k], thread) + (Mine(s[k], thread) + LinesOf(s[k + 1..], thread))
    ensures LinesOf(s[..k] + s[k + 1..], thread) == LinesOf(s[..k], thread) + LinesOf(s[k + 1..], thread)
  {
    assert s == s[..k] + ([s[k]] + s[k + 1..]);
    LinesOfAppend(s[..k], [s[k]] + s[k + 1..], thread);
    LinesOfAppend([s[k]], s[k + 1..], thread);
    LinesOfOne(s[k], thread);
    LinesOfAppend(s[..k], s[k + 1..], thread);
  }

  /** What a thread has handed over is queued, in order, up to the call it is in. */
  ghost predicate InStep(entered: seq<Parcel>, queued: seq<Parcel>, calls: seq<Parcel>, thread: nat) {
    && |LinesOf(calls, thread)| <= 1
    && LinesOf(entered, thread) == LinesOf(queued, thread) + LinesOf(calls, thread)
  }

  lemma {:induction false} EnterInStep(entered: seq<Parcel>, queued: seq<Parcel>, calls: seq<Parcel>, p: Parcel, thread: nat)
    requires InStep(entered, queued, calls, thread) && (p.thread == thread ==> LinesOf(calls, thread) == [])
    ensures InStep(entered + [p], queued, calls + [p], thread)
  {
    LinesOfAppend(entered, [p], thread);
    LinesOfAppend(calls, [p], thread);
    LinesOfOne(p, thread);
  }

  lemma {:induction false} CommitInStep(entered: seq<Parcel>, queued: seq<Parcel>, calls: seq<Parcel>, k: nat, thread: nat)
    requires InStep(entered, queued, calls, thread) && k < |calls|
    ensures InStep(entered, queued + [calls[k]], calls[..k] + calls[k + 1..], thread)
  {
    LinesOfSplit(calls, k, thread);
    LinesOfAppend(queued, [calls[k]], thread);
    LinesOfOne(calls[k], thread);
    MoveLine(LinesOf(entered, thread), LinesOf(queued, thread), LinesOf(calls[..k], thread), Mine(calls[k], thread),
             LinesOf(calls[k + 1..], thread));
  }

  /** The only line of a thread among the calls goes from them to the queue. */
  lemma {:induction false} MoveLine(all: seq<Line<Event>>, queued: seq<Line<Event>>, a: seq<Line<Event>>, mine: seq<Line<Event>>,
                                    b: seq<Line<Event>>)
    requires all == queued + (a + (mine + b)) && |a| + |mine| + |b| <= 1
    ensures all == queued + mine + (a + b) && |a + b| <= 1
  {
    if mine != [] {
      assert a == [] && b == [];
    } else {
      assert mine + b == b;
    }
  }

  ghost function EnteredBy(s: Q.State<Parcel>, a: Q.Action<Parcel>): seq<Parcel> {
    if a.EnqueueEnter? && s.running && !s.draining then [a.buffer] else []
  }

  ghost function QueuedBy<B>(s: Q.State<B>, a: Q.Action<B>): seq<B> {
    if a.EnqueueCommit? && a.k < |s.entering| then [s.entering[a.k].1] else []
  }

  /** What a step does to the calls in progress. */
  lemma {:induction false} NextCalls(cfg: Q.Config, s: Q.State<Parcel>, a: Q.Action<Parcel>)
    ensures var calls, next := InCalls(s.entering), InCalls(Q.Step(cfg, s, a).entering);
            next == if EnteredBy(s, a) != [] then calls + [a.buffer]
                    else if QueuedBy(s, a) != [] then calls[..a.k] + calls[a.k + 1..]
                    else calls
  {
    if a.Work? {
      Q.WorkLeavesCalls(cfg, s, a.clock, a.ok);
    }
  }

  lemma {:induction false} StepInStep(cfg: Q.Config, s: Q.State<Parcel>, a: Q.Action<Parcel>,
                                      entered: seq<Parcel>, queued: seq<Parcel>, thread: nat)
    requires InStep(entered, queued, InCalls(s.entering), thread)
    requires a.EnqueueEnter? && a.buffer.thread == thread ==> LinesOf(InCalls(s.entering), thread) == []
    ensures InStep(entered + EnteredBy(s, a), queued + QueuedBy(s, a), InCalls(Q.Step(cfg, s, a).entering), thread)
  {
    NextCalls(cfg, s, a);
    MoveInStep(s, a, entered, queued, InCalls(s.entering), InCalls(Q.Step(cfg, s, a).entering), thread);
  }

  lemma {:induction false} MoveInStep(s: Q.State<Parcel>, a: Q.Action<Parcel>, entered: seq<Parcel>, queued: seq<Parcel>,
                                      calls: seq<Parcel>, next: seq<Parcel>, thread: nat)
    requires InStep(entered, queued, calls, thread) && calls == InCalls(s.entering)
    requires a.EnqueueEnter? && a.buffer.thread == thread ==> LinesOf(calls, thread) == []
    requires next == if EnteredBy(s, a) != [] then calls + [a.buffer]
                     else if QueuedBy(s, a) != [] then calls[..a.k] + calls[a.k + 1..]
                     else calls
    ensures InStep(entered + EnteredBy(s, a), queued + QueuedBy(s, a), next, thread)
  {
    assert entered + [] == entered && queued + [] == queued;
    if EnteredBy(s, a) != [] {
      EnterInStep(entered, queued, calls, a.buffer, thread);
    } else if QueuedBy(s, a) != [] {
      CommitInStep(entered, queued, calls, a.k, thread);
    }
  }

  /** The queue keeps a thread's buffers in the order the thread hands them over. */
  lemma {:induction false} OrderIsKept(cfg: Q.Config, run: seq<Q.Action<Parcel>>, thread: nat)
    requires Orderly(cfg, run, thread)
    ensures InStep(Entered(cfg, run), Queued(cfg, run), InCalls(Q.Exec(cfg, Q.Start<Parcel>(), run).entering), thread)
  {
    if run != [] {
      OrderIsKept(cfg, run[..|run| - 1], thread);
      StepInStep(cfg, Q.Exec(cfg, Q.Start<Parcel>(), run[..|run| - 1]), run[|run| - 1],
                 Entered(cfg, run[..|run| - 1]), Queued(cfg, run[..|run| - 1]), thread);
    }
  }

  /** A trace file that the reader accepts and that holds the events of a parcel. */
  ghost predicate Readable(host: Endian, snappy: Codec, parcel: Parcel, file: seq<Byte>) {
    && parcel.line.Valid()
    && Parsed(host, snappy, file).Ok? && Parsed(host, snappy, file).value.events == parcel.line.Contents()
  }

  /** The events read from the files of one thread, in the order the files were written. */
  ghost function ReadBack(host: Endian, snappy: Codec, parcels: seq<Parcel>, files: seq<seq<Byte>>, thread: nat): seq<Event>
    requires |files| == |parcels| && forall k :: 0 <= k < |files| ==> Readable(host, snappy, parcels[k], files[k])
  {
    if files == [] then []
    else
      var n := |files| - 1;
      assert Readable(host, snappy, parcels[n], files[n]);
      ReadBack(host, snappy, parcels[..n], files[..n], thread) +
      if parcels[n].thread == thread then Parsed(host, snappy, files[n]).value.events else []
  }

  lemma {:induction false} ReadBackIsContents(host: Endian, snappy: Codec, parcels: seq<Parcel>, files: seq<seq<Byte>>, thread: nat)
    requires |files| == |parcels| && forall k :: 0 <= k < |files| ==> Readable(host, snappy, parcels[k], files[k])
    ensures forall k :: 0 <= k < |LinesOf(parcels, thread)| ==>
              LinesOf(parcels, thread)[k].Valid()
    ensures ReadBack(host, snappy, parcels, files, thread) == Contents(LinesOf(parcels, thread))
  {
    if files != [] {
      var n := |files| - 1;
      ReadBackIsContents(host, snappy, parcels[..n], files[..n], thread);
      var lines := LinesOf(parcels[..n], thread);
      assert parcels[n].thread == thread ==> (lines + [parcels[n].line])[..|lines|] == lines;
      assert lines + [] == lines;
      assert Readable(host, snappy, parcels[n], files[n]);
    }
  }

  /** What the writer is given and what it leaves: one file for each write, none of them a bare header or too long. */
  ghost predicate Emitted(host: Endian, snappy: Codec, strategy: Byte, parcels: seq<Parcel>, files: seq<seq<Byte>>)
    requires IsStrategy(strategy)
  {
    && |files| == |parcels|
    && forall k :: 0 <= k < |files| ==>
         && FileOf(host, MakeCompressor(strategy, snappy).value, strategy, parcels[k], files[k])
         && HEADER_SIZE < |files[k]| && |parcels[k].line.memory| < 0x8000_0000
  }

  lemma {:induction false} EmittedReads(host: Endian, snappy: Codec, strategy: Byte, parcels: seq<Parcel>, files: seq<seq<Byte>>)
    requires Inverts(snappy) && IsStrategy(strategy) && Emitted(host, snappy, strategy, parcels, files)
    ensures forall k :: 0 <= k < |files| ==> Readable(host, snappy, parcels[k], files[k])
  {
    forall k | 0 <= k < |files|
      ensures Readable(host, snappy, parcels[k], files[k])
    {
      FileReads(host, snappy, strategy, parcels[k], files[k]);
    }
  }

  /**
   * A thread whose logger flushes when full, was refused nothing and has flushed its last buffer, and
   * that hands its buffers over one after another; a flush queue with `flush_all_events`, only successful
   * writes and no Clear, that has no record left: then the files of the thread, read in the order they
   * were written, give back exactly the events it logged, in order.
   */
  lemma {:induction false} TraceIsLossless(
    limit: nat, ops: seq<J.Op<Event>>, cfg: Q.Config, run: seq<Q.Action<Parcel>>, thread: nat,
    host: Endian, snappy: Codec, strategy: Byte, files: seq<seq<Byte>>)
    requires 0 < limit && forall op :: op in ops ==> J.Fair(op)
    requires var j := J.After(limit, true, ops); j.failures == 0 && j.rejected == 0 && j.line.memory == []
    requires cfg.flushAll && Pending(Q.Exec(cfg, Q.Start<Parcel>(), run).book) == []
    requires forall k :: 0 <= k < |run| ==> !run[k].Clear? && (run[k].Work? ==> run[k].ok)
    requires Orderly(cfg, run, thread) && LinesOf(Entered(cfg, run), thread) == Handed(limit, ops)
    requires LinesOf(InCalls(Q.Exec(cfg, Q.Start<Parcel>(), run).entering), thread) == []
    requires Inverts(snappy) && IsStrategy(strategy)
    requires Emitted(host, snappy, strategy, Given(cfg, run), files)
    ensures var parcels := Given(cfg, run);
            && |files| == |parcels| && (forall k :: 0 <= k < |files| ==> Readable(host, snappy, parcels[k], files[k]))
            && ReadBack(host, snappy, parcels, files, thread) == J.After(limit, true, ops).logged
  {
    GivenIsQueued(cfg, run);
    OrderIsKept(cfg, run, thread);
    AllQueued(Entered(cfg, run), Queued(cfg, run), InCalls(Q.Exec(cfg, Q.Start<Parcel>(), run).entering), thread);
    FilesReadBack(limit, ops, Given(cfg, run), thread, host, snappy, strategy, files);
  }

  lemma {:induction false} AllQueued(entered: seq<Parcel>, queued: seq<Parcel>, calls: seq<Parcel>, thread: nat)
    requires InStep(entered, queued, calls, thread) && LinesOf(calls, thread) == []
    ensures LinesOf(queued, thread) == LinesOf(entered, thread)
  {
  }

  lemma {:induction false} FilesReadBack(limit: nat, ops: seq<J.Op<Event>>, parcels: seq<Parcel>, thread: nat,
                                         host: Endian, snappy: Codec, strategy: Byte, files: seq<seq<Byte>>)
    requires 0 < limit && forall op :: op in ops ==> J.Fair(op)
    requires var j := J.After(limit, true, ops); j.failures == 0 && j.rejected == 0 && j.line.memory == []
    requires LinesOf(parcels, thread) == Handed(limit, ops)
    requires Inverts(snappy) && IsStrategy(strategy) && Emitted(host, snappy, strategy, parcels, files)
    ensures |files| == |parcels| && forall k :: 0 <= k < |files| ==> Readable(host, snappy, parcels[k], files[k])
    ensures ReadBack(host, snappy, parcels, files, thread) == J.After(limit, true, ops).logged
  {
    EmittedReads(host, snappy, strategy, parcels, files);
    ReadBackIsContents(host, snappy, parcels, files, thread);
    HandedIsSent(limit, ops);
    J.LosslessIff(limit, ops);
    var j := J.After(limit, true, ops);
    assert j.Kept() == j.sent + [] == j.sent;
  }
}
