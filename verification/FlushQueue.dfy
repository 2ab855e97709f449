/**
 * The disk flush queue (disk_flush_queue.cc) as a step machine: each lock section
 * and each access to an atomic is one step of the worker thread or of a caller, and
 * any interleaving of steps is a run. Clock readings and the results of writes are
 * inputs of the steps.
 */
module FlushQueue {
  import opened Common
  import opened Words
  import opened Records
  import opened Completions

  datatype Config = Config(retention: int, maxAttempts: int, flushAll: bool)

  /** Where the worker thread is in its loop. */
  datatype Pc =
    | Stopped
    | Top            // about to read `draining_`
    | SizeCheck      // about to read `queue_size_`
    | Pop            // about to take a record
    | Notify         // about to take the completion if nothing is tagged
    | Holding        // has a record, about to read the clock
    | Expiring       // about to drop the record
    | Deciding       // about to read `flush_timestamp_`
    | Requeuing      // about to put the record back, not due yet
    | Writing        // about to write the record
    | Retrying       // about to put the record back after a failed write
    | Finishing(ok: bool)  // about to forget the record after its last write
    | Lowering       // about to lower `draining_`
    | Leaving        // about to lower `running_`

  datatype State<B> = State(
    book: Book<B>,                 // `queue_`, `manual_flush_record_ids_`, `next_flush_info_id_`, the record in hand
    desk: Desk,                    // `flush_completion_` and the Flush calls past their check of `running_`
    flushStamp: int,
    queueSize: nat,
    running: bool,
    draining: bool,
    pc: Pc,
    entering: seq<(int, B)>,       // Enqueue calls past their check of `running_` and `draining_`
    overlapped: bool)              // whether the last Clear met a record in hand

  datatype Action<B> =
    | Run
    | Drain
    | EnqueueEnter(stamp: int, buffer: B)
    | EnqueueCommit(k: nat)
    | FlushEnter(now: int, notify: bool)
    | FlushCommit(k: nat)
    | Clear
    | Work(clock: int, ok: bool)

  function Start<B>(): State<B> {
    State(Book([], None, {}, map[], 0, [], {}), Desk(None, [], 0, map[], []), 0, 0, false, false, Stopped, [], false)
  }

  function Step<B>(cfg: Config, s: State<B>, a: Action<B>): State<B> {
    match a
    case Run => if s.running then s else s.(running := true, draining := false, pc := Top)
    case Drain => if s.running then s.(draining := true) else s
    case EnqueueEnter(stamp, buffer) =>
      if !s.running || s.draining then s else s.(entering := s.entering + [(stamp, buffer)])
    case EnqueueCommit(k) =>
      if |s.entering| <= k then s
      else
        s.(book := Append(s.book, s.entering[k].0, cfg.maxAttempts, s.entering[k].1),
           queueSize := Wrap(s.queueSize + 1),
           entering := Without(s.entering, k))
    case FlushEnter(now, notify) => s.(desk := Enter(s.desk, s.running, now, notify))
    case FlushCommit(k) =>
      if |s.desk.flushing| <= k then s
      else
        var due := Due(s.book.queue, s.desk.flushing[k].now);
        s.(book := Tag(s.book, due), desk := Commit(s.desk, k, s.book.manual + due), flushStamp := s.desk.flushing[k].now)
    case Clear => s.(book := Wipe(s.book), queueSize := 0, overlapped := s.book.hand.Some?)
    case Work(clock, ok) => if s.book.hand.Some? then RecordStep(cfg, s, clock, ok) else LoopStep(s)
  }

  /** A step of the worker while it has no record in hand. */
  function LoopStep<B>(s: State<B>): State<B> {
    match s.pc
    case Top => s.(pc := if s.draining then SizeCheck else Pop)
    case SizeCheck => s.(pc := if s.queueSize == 0 then Lowering else Pop)
    case Pop => if s.book.queue == [] then s.(pc := Notify) else s.(book := Take(s.book), pc := Holding)
    case Notify => s.(desk := if s.book.manual == {} then Release(s.desk) else s.desk, pc := Top)
    case Lowering => s.(draining := false, pc := Leaving)
    case Leaving => s.(running := false, pc := Stopped)
    case _ => s
  }

  /** A step of the worker with a record in hand; `clock` and `ok` are what the clock and the writer answer. */
  function RecordStep<B>(cfg: Config, s: State<B>, clock: int, ok: bool): State<B>
    requires s.book.hand.Some?
  {
    var r := s.book.hand.value;
    match s.pc
    case Holding =>
      var retain := clock < r.stamp + cfg.retention;
      s.(pc := if cfg.flushAll then Writing else if retain then Deciding else Expiring)
    case Expiring => s.(book := Forget(s.book, Expired), queueSize := Wrap(s.queueSize - 1), pc := Top)
    case Deciding => s.(pc := if r.stamp <= s.flushStamp then Writing else Requeuing)
    case Requeuing => s.(book := PutBack(s.book), pc := Top)
    case Writing =>
      s.(book := Attempt(s.book, ok), pc := if !ok && 0 < r.attempts - 1 then Retrying else Finishing(ok))
    case Retrying => s.(book := PutBack(s.book), pc := Notify)
    case Finishing(wrote) =>
      s.(book := Forget(s.book, if wrote then Written else Exhausted), queueSize := Wrap(s.queueSize - 1), pc := Notify)
    case _ => s
  }

  ghost function Exec<B>(cfg: Config, s: State<B>, run: seq<Action<B>>): State<B> {
    if run == [] then s else Step(cfg, Exec(cfg, s, run[..|run| - 1]), run[|run| - 1])
  }

  predicate HasRecord(pc: Pc) {
    pc.Holding? || pc.Expiring? || pc.Deciding? || pc.Requeuing? || pc.Writing? || pc.Retrying? || pc.Finishing?
  }

  /** The worker has a record exactly where its code has one in hand. */
  ghost predicate WorkerInv<B>(s: State<B>) {
    && (s.book.hand.Some? <==> HasRecord(s.pc))
    && (s.running <==> s.pc != Stopped)
  }

  ghost function Drift<B>(s: State<B>): int {
    if s.overlapped then 1 else 0
  }

  /** The size counter, modulo 2^64. */
  ghost predicate SizeInv<B>(s: State<B>) {
    s.queueSize == Wrap(Count(s.book) - Drift(s))
  }

  ghost predicate Inv<B>(s: State<B>) {
    WorkerInv(s) && Sound(s.book) && SizeInv(s) && Settled(s.desk, s.book.manual, Excused(s.book))
  }

  lemma {:induction false} StepKeepsWorker<B>(cfg: Config, s: State<B>, a: Action<B>)
    requires WorkerInv(s)
    ensures WorkerInv(Step(cfg, s, a))
  {
  }

  /** All that a step of the worker can do to the records. */
  lemma {:induction false} WorkMoves<B>(cfg: Config, s: State<B>, clock: int, ok: bool)
    ensures var next := Step(cfg, s, Work(clock, ok)); var b := s.book;
            if b.hand.Some? then
              next.desk == s.desk &&
              (next.book == b || next.book == PutBack(b) || next.book == Attempt(b, ok) ||
               exists fate :: next.book == Forget(b, fate))
            else
              && (next.book == b || (b.queue != [] && next.book == Take(b)))
              && (next.desk == s.desk || (b.manual == {} && next.book == b && next.desk == Release(s.desk)))
  {
    if s.book.hand.Some? {
      var next := RecordStep(cfg, s, clock, ok);
      assert s.pc.Expiring? ==> next.book == Forget(s.book, Expired);
      assert s.pc.Finishing? ==> next.book == Forget(s.book, if s.pc.ok then Written else Exhausted);
    }
  }

  lemma {:induction false} StepKeepsBook<B>(cfg: Config, s: State<B>, a: Action<B>)
    requires Sound(s.book)
    ensures Sound(Step(cfg, s, a).book)
  {
    match a
    case EnqueueCommit(k) =>
      if k < |s.entering| {
        AppendSound(s.book, s.entering[k].0, cfg.maxAttempts, s.entering[k].1);
      }
    case FlushCommit(k) =>
      if k < |s.desk.flushing| {
        TagSound(s.book, s.desk.flushing[k].now);
      }
    case Clear => WipeSound(s.book);
    case Work(clock, ok) =>
      WorkMoves(cfg, s, clock, ok);
      if s.book.hand.Some? {
        HandSound(s.book, ok);
      } else if s.book.queue != [] {
        TakeSound(s.book);
      }
    case _ =>
  }

  lemma {:induction false} StepKeepsSize<B>(cfg: Config, s: State<B>, a: Action<B>)
    requires WorkerInv(s) && SizeInv(s)
    ensures SizeInv(Step(cfg, s, a))
  {
    WrapAdd(Count(s.book) - Drift(s), 1);
    if a.Work? {
      WorkKeepsSize(cfg, s, a.clock, a.ok);
    }
  }

  lemma {:induction false} WorkKeepsSize<B>(cfg: Config, s: State<B>, clock: int, ok: bool)
    requires WorkerInv(s) && SizeInv(s)
    ensures SizeInv(Step(cfg, s, Work(clock, ok)))
  {
    if s.book.hand.Some? {
      RecordKeepsSize(cfg, s, clock, ok);
    } else {
      LoopKeepsSize(s);
    }
  }

  lemma {:induction false} OneGone<B>(s: State<B>, next: State<B>)
    requires SizeInv(s) && Drift(next) == Drift(s) && Count(next.book) == Count(s.book) - 1
    requires next.queueSize == Wrap(s.queueSize - 1)
    ensures SizeInv(next)
  {
    WrapAdd(Count(s.book) - Drift(s), -1);
  }

  lemma {:induction false} RecordKeepsSize<B>(cfg: Config, s: State<B>, clock: int, ok: bool)
    requires s.book.hand.Some? && SizeInv(s)
    ensures SizeInv(RecordStep(cfg, s, clock, ok))
  {
    var next := RecordStep(cfg, s, clock, ok);
    if s.pc.Expiring? || s.pc.Finishing? {
      OneGone(s, next);
    } else {
      assert next.queueSize == s.queueSize && Count(next.book) == Count(s.book) && next.overlapped == s.overlapped;
    }
  }

  lemma {:induction false} LoopKeepsSize<B>(s: State<B>)
    requires s.book.hand.None? && SizeInv(s)
    ensures SizeInv(LoopStep(s))
  {
    var next := LoopStep(s);
    assert next.queueSize == s.queueSize && Count(next.book) == Count(s.book) && next.overlapped == s.overlapped;
  }

  lemma {:induction false} StepKeepsDesk<B>(cfg: Config, s: State<B>, a: Action<B>)
    requires Sound(s.book) && Settled(s.desk, s.book.manual, Excused(s.book))
    ensures var next := Step(cfg, s, a); Settled(next.desk, next.book.manual, Excused(next.book))
  {
    match a
    case FlushEnter(now, notify) => EnterSettled(s.desk, s.book.manual, Excused(s.book), s.running, now, notify);
    case FlushCommit(k) =>
      if k < |s.desk.flushing| {
        var due := Due(s.book.queue, s.desk.flushing[k].now);
        CommitSettled(s.desk, s.book.manual, Excused(s.book), k, s.book.manual + due);
      }
    case Clear =>
      WipeExcuses(s.book);
      SettledGrows(s.desk, s.book.manual, Excused(s.book), {}, Excused(Wipe(s.book)));
    case Work(clock, ok) => WorkKeepsDesk(cfg, s, clock, ok);
    case _ =>
  }

  lemma {:induction false} WorkKeepsDesk<B>(cfg: Config, s: State<B>, clock: int, ok: bool)
    requires Settled(s.desk, s.book.manual, Excused(s.book))
    ensures var next := Step(cfg, s, Work(clock, ok)); Settled(next.desk, next.book.manual, Excused(next.book))
  {
    WorkMoves(cfg, s, clock, ok);
    var next := Step(cfg, s, Work(clock, ok));
    if s.book.hand.Some? {
      HandCovers(s.book, ok);
      assert Covers(s.book, next.book);
      SettledGrows(s.desk, s.book.manual, Excused(s.book), next.book.manual, Excused(next.book));
    } else if s.book.manual == {} {
      ReleaseSettled(s.desk, Excused(s.book));
    }
  }

  lemma {:induction false} StepKeepsInv<B>(cfg: Config, s: State<B>, a: Action<B>)
    requires Inv(s)
    ensures Inv(Step(cfg, s, a))
  {
    StepKeepsWorker(cfg, s, a);
    StepKeepsBook(cfg, s, a);
    StepKeepsSize(cfg, s, a);
    StepKeepsDesk(cfg, s, a);
  }

  /** Every run, from any state that keeps the invariant, keeps it. */
  lemma {:induction false} RunKeepsInv<B>(cfg: Config, s: State<B>, run: seq<Action<B>>)
    requires Inv(s)
    ensures Inv(Exec(cfg, s, run))
  {
    if run != [] {
      RunKeepsInv(cfg, s, run[..|run| - 1]);
      StepKeepsInv(cfg, Exec(cfg, s, run[..|run| - 1]), run[|run| - 1]);
    }
  }

  /** What the worker's next step does to the records. */
  function NextBook<B>(b: Book<B>, pc: Pc, ok: bool): Book<B> {
    if b.hand.None? then if pc.Pop? && b.queue != [] then Take(b) else b
    else
      match pc
      case Expiring => Forget(b, Expired)
      case Finishing(wrote) => Forget(b, if wrote then Written else Exhausted)
      case Requeuing | Retrying => PutBack(b)
      case Writing => Attempt(b, ok)
      case _ => b
  }

  lemma {:induction false} WorkBook<B>(cfg: Config, s: State<B>, clock: int, ok: bool)
    ensures Step(cfg, s, Work(clock, ok)).book == NextBook(s.book, s.pc, ok)
  {
    if s.book.hand.Some? {
      assert RecordStep(cfg, s, clock, ok).book == NextBook(s.book, s.pc, ok);
    } else {
      assert LoopStep(s).book == NextBook(s.book, s.pc, ok);
    }
  }

  /** The worker does not touch the calls in progress. */
  lemma {:induction false} WorkLeavesCalls<B>(cfg: Config, s: State<B>, clock: int, ok: bool)
    ensures var next := Step(cfg, s, Work(clock, ok));
            next.entering == s.entering && next.desk.flushing == s.desk.flushing && next.overlapped == s.overlapped
  {
    if s.book.hand.Some? {
      var next := RecordStep(cfg, s, clock, ok);
      assert next.entering == s.entering && next.desk == s.desk && next.overlapped == s.overlapped;
    } else {
      var next := LoopStep(s);
      assert next.entering == s.entering && next.desk.flushing == s.desk.flushing && next.overlapped == s.overlapped;
    }
  }
}
