/**
 * What whole runs of the flush queue guarantee: the size counter, the fate of every
 * record, completions, and the end of a drain; and what goes wrong when a Clear meets
 * a record in the worker's hand.
 */
module FlushDrain {
  import opened Common
  import opened Words
  import opened Records
  import opened Completions
  import opened FlushQueue
  import opened FlushWrites

  /** No Clear of the run comes while the worker has a record in hand. */
  ghost predicate OverlapFree<B>(cfg: Config, s: State<B>, run: seq<Action<B>>) {
    forall k :: 0 <= k < |run| && run[k].Clear? ==> Exec(cfg, s, run[..k]).book.hand.None?
  }

  lemma {:induction false} OverlapFreePrefix<B>(cfg: Config, s: State<B>, run: seq<Action<B>>)
    requires run != [] && OverlapFree(cfg, s, run)
    ensures OverlapFree(cfg, s, run[..|run| - 1])
    ensures run[|run| - 1].Clear? ==> Exec(cfg, s, run[..|run| - 1]).book.hand.None?
  {
    var earlier := run[..|run| - 1];
    forall k | 0 <= k < |earlier| && earlier[k].Clear?
      ensures Exec(cfg, s, earlier[..k]).book.hand.None?
    {
      assert earlier[..k] == run[..k] && run[k].Clear?;
    }
  }

  lemma {:induction false} OverlapFreeKeepsExact<B>(cfg: Config, s: State<B>, run: seq<Action<B>>)
    requires OverlapFree(cfg, s, run) && !s.overlapped && s.book.spared == {}
    ensures var t := Exec(cfg, s, run); !t.overlapped && t.book.spared == {}
  {
    if run != [] {
      var earlier, a := run[..|run| - 1], run[|run| - 1];
      OverlapFreePrefix(cfg, s, run);
      OverlapFreeKeepsExact(cfg, s, earlier);
      var before := Exec(cfg, s, earlier);
      if a.Work? {
        WorkMoves(cfg, before, a.clock, a.ok);
        assert Step(cfg, before, a).overlapped == before.overlapped;
      }
    }
  }

  /** The counter is the pending records less the drift, modulo 2^64, and equals them when nothing put it off. */
  ghost predicate Counts<B>(s: State<B>, free: bool) {
    match s
    case State(book, _, _, queueSize, _, _, _, _, _) =>
      && queueSize == Wrap(|book.queue| + (if book.hand.Some? then 1 else 0) - Drift(s))
      && (free && Count(book) < WORD ==> queueSize == Count(book))
  }

  lemma {:induction false} SizeOfState<B>(s: State<B>, free: bool)
    requires SizeInv(s) && (free ==> !s.overlapped)
    ensures Counts(s, free)
  {
  }

  /** The size counter over every run, and when it is exact. */
  lemma {:induction false} QueueSizeOverRuns<B>(cfg: Config, run: seq<Action<B>>)
    ensures Counts(Exec(cfg, Start<B>(), run), OverlapFree(cfg, Start<B>(), run))
  {
    var start := Start<B>();
    StartInv<B>();
    RunKeepsInv(cfg, start, run);
    if OverlapFree(cfg, start, run) {
      OverlapFreeKeepsExact(cfg, start, run);
    }
    SizeOfState(Exec(cfg, start, run), OverlapFree(cfg, start, run));
  }

  /** Over every run each id handed out is pending once or gone one way, and tags are on pending records. */
  lemma {:induction false} RecordsOverRuns<B>(cfg: Config, run: seq<Action<B>>, id: nat)
    ensures var b := Exec(cfg, Start<B>(), run).book;
            && (id < b.nextId <==> id in b.fates || id in Ids(Pending(b)))
            && !(id in b.fates && id in Ids(Pending(b)))
            && Distinct(Pending(b))
            && (id in b.manual ==> id in Ids(Pending(b)))
  {
    StartInv<B>();
    RunKeepsInv(cfg, Start<B>(), run);
  }

  /**
   * A completion runs at most once, and when it has run, every record its Flush tagged
   * is gone, save those whose tag a Clear dropped while they were in hand.
   */
  lemma {:induction false} CompletionsOverRuns<B>(cfg: Config, run: seq<Action<B>>)
    ensures var s := Exec(cfg, Start<B>(), run); var d := s.desk;
            && (forall i, j :: 0 <= i < j < |d.taken| ==> d.taken[i] != d.taken[j])
            && (forall t :: t in d.taken && t in d.owed ==> d.owed[t] <= s.book.fates.Keys + s.book.spared)
            && (OverlapFree(cfg, Start<B>(), run) ==>
                  forall t :: t in d.taken && t in d.owed ==> d.owed[t] <= s.book.fates.Keys)
  {
    StartInv<B>();
    RunKeepsInv(cfg, Start<B>(), run);
    if OverlapFree(cfg, Start<B>(), run) {
      OverlapFreeKeepsExact(cfg, Start<B>(), run);
    }
  }

  /** The state in which the worker took its last step, if it has taken one. */
  ghost function LastTurn<B>(cfg: Config, run: seq<Action<B>>): Option<State<B>> {
    if run == [] then None
    else if run[|run| - 1].Work? then Some(Exec(cfg, Start<B>(), run[..|run| - 1]))
    else LastTurn(cfg, run[..|run| - 1])
  }

  /** The record in hand is the one the worker tried to write last. */
  ghost predicate JustTried<B>(b: Book<B>) {
    match b
    case Book(_, hand, _, _, _, writes, _) => hand.Some? && writes != [] && writes[|writes| - 1].id == hand.value.id
  }

  /** The worker found nothing to do, or has dealt with a record it had tried to write. */
  ghost predicate Occasion<B>(before: Option<State<B>>) {
    match before
    case None => false
    case Some(s) => (s.book.hand.None? && s.book.queue == []) || JustTried(s.book)
  }

  ghost predicate Attentive<B>(s: State<B>, before: Option<State<B>>) {
    (s.pc.Retrying? || s.pc.Finishing? ==> JustTried(s.book)) && (s.pc.Notify? ==> Occasion(before))
  }

  lemma {:induction false} WorkAttentive<B>(cfg: Config, s: State<B>, before: Option<State<B>>, clock: int, ok: bool)
    requires WorkerInv(s) && Attentive(s, before)
    ensures Attentive(Step(cfg, s, Work(clock, ok)), Some(s))
  {
    if s.book.hand.Some? {
      var next := RecordStep(cfg, s, clock, ok);
      assert Step(cfg, s, Work(clock, ok)) == next;
    } else {
      var next := LoopStep(s);
      assert Step(cfg, s, Work(clock, ok)) == next;
    }
  }

  lemma {:induction false} CallAttentive<B>(cfg: Config, s: State<B>, before: Option<State<B>>, a: Action<B>)
    requires Attentive(s, before) && !a.Work?
    ensures Attentive(Step(cfg, s, a), before)
  {
    var next := Step(cfg, s, a);
    assert next.book.hand == s.book.hand && next.book.writes == s.book.writes;
    assert JustTried(next.book) == JustTried(s.book);
  }

  lemma {:induction false} RunAttentive<B>(cfg: Config, run: seq<Action<B>>)
    ensures Attentive(Exec(cfg, Start<B>(), run), LastTurn(cfg, run))
  {
    if run != [] {
      var earlier, a := run[..|run| - 1], run[|run| - 1];
      var s := Exec(cfg, Start<B>(), earlier);
      RunAttentive(cfg, earlier);
      StartInv<B>();
      RunKeepsInv(cfg, Start<B>(), earlier);
      if a.Work? {
        WorkAttentive(cfg, s, LastTurn(cfg, earlier), a.clock, a.ok);
      } else {
        CallAttentive(cfg, s, LastTurn(cfg, earlier), a);
      }
    }
  }

  /**
   * The worker takes a completion only when its step before found the queue empty or dealt with a record
   * that it had just tried to write: a record that expired or is not due is no occasion.
   */
  lemma {:induction false} CompletionsHaveOccasions<B>(cfg: Config, run: seq<Action<B>>, clock: int, ok: bool)
    ensures var s := Exec(cfg, Start<B>(), run);
            Step(cfg, s, Work(clock, ok)).desk != s.desk ==> Occasion(LastTurn(cfg, run)) && s.book.manual == {}
  {
    var s := Exec(cfg, Start<B>(), run);
    RunAttentive(cfg, run);
    if s.book.hand.Some? {
      assert RecordStep(cfg, s, clock, ok).desk == s.desk;
    } else {
      assert LoopStep(s).desk != s.desk ==> s.pc.Notify? && s.book.manual == {};
    }
  }

  /** The write attempts a record can still cost. */
  function Weight<B>(r: Record<B>): int {
    if r.attempts < 1 then 1 else r.attempts
  }

  /** The write calls that can still come: nothing is left of a record after its last write. */
  ghost function Load<B>(s: State<B>): int {
    SumBy(Weight<B>, s.book.queue) +
    if s.book.hand.Some? && !s.pc.Finishing? then Weight(s.book.hand.value) else 0
  }

  /** The worker's distance to the end of its loop while it drains. */
  function Rank(pc: Pc, idle: bool): nat {
    match pc
    case Stopped => 0
    case Leaving => 1
    case Lowering => 2
    case SizeCheck => if idle then 3 else 8
    case Top => if idle then 4 else 9
    case Notify => if idle then 5 else 10
    case Pop => if idle then 6 else 7
    case Writing => 5
    case Holding => 6
    case Retrying => 11
    case _ => 12
  }

  ghost function Measure<B>(s: State<B>): int {
    16 * Load(s) + Rank(s.pc, Load(s) == 0)
  }

  /** A worker on its way out: nothing is queued from the moment it sees the queue empty. */
  ghost predicate Draining<B>(s: State<B>) {
    match s.pc
    case Expiring | Deciding | Requeuing => false
    case Lowering => Exact(s) && s.draining && s.book.queue == []
    case Leaving | Stopped => Exact(s) && s.book.queue == []
    case _ => Exact(s) && s.draining
  }

  ghost predicate Exact<B>(s: State<B>) {
    Inv(s) && !s.overlapped && Count(s.book) < WORD
  }

  lemma {:induction false} LoadBounds<B>(s: State<B>)
    ensures 0 <= Load(s) && (Load(s) == 0 ==> s.book.queue == [])
  {
    SumByNonNegative(Weight<B>, s.book.queue);
    if s.book.queue != [] {
      assert Weight(s.book.queue[0]) <= SumBy(Weight<B>, s.book.queue);
    }
  }

  /** Each step of a draining worker brings it closer to the end, and each write costs load. */
  lemma {:induction false} WorkDescends<B>(cfg: Config, s: State<B>, clock: int, ok: bool)
    requires Draining(s) && !s.pc.Stopped? && (cfg.flushAll || Count(s.book) == 0)
    ensures var next := Step(cfg, s, Work(clock, ok));
            && Draining(next) && Count(next.book) <= Count(s.book)
            && Measure(next) < Measure(s)
            && |next.book.writes| + Load(next) <= |s.book.writes| + Load(s)
  {
    var a: Action<B> := Work(clock, ok);
    StepKeepsInv(cfg, s, a);
    var next := Step(cfg, s, a);
    LoadBounds(s);
    LoadBounds(next);
    if s.book.hand.Some? {
      RecordDescends(cfg, s, clock, ok);
    } else {
      LoopDescends(s);
    }
  }

  lemma {:induction false} RecordDescends<B>(cfg: Config, s: State<B>, clock: int, ok: bool)
    requires cfg.flushAll && s.book.hand.Some? && HasRecord(s.pc) && Ageless(s.pc) && 0 <= Load(s)
    ensures var next := RecordStep(cfg, s, clock, ok);
            && next.overlapped == s.overlapped && Count(next.book) <= Count(s.book) && next.draining == s.draining
            && s.book.queue <= next.book.queue
            && (next.pc.Notify? || next.pc.Writing? || next.pc.Retrying? || next.pc.Finishing?)
            && (0 <= Load(next) ==> Measure(next) < Measure(s))
            && |next.book.writes| + Load(next) <= |s.book.writes| + Load(s)
  {
    match s.pc
    case Holding => assert RecordStep(cfg, s, clock, ok) == s.(pc := Writing);
    case Writing => AttemptDescends(cfg, s, clock, ok);
    case Retrying => RetryDescends(cfg, s, clock, ok);
    case Finishing(_) => FinishDescends(cfg, s, clock, ok);
  }

  lemma {:induction false} AttemptDescends<B>(cfg: Config, s: State<B>, clock: int, ok: bool)
    requires s.book.hand.Some? && s.pc.Writing?
    ensures var next := RecordStep(cfg, s, clock, ok);
            && next == s.(book := Attempt(s.book, ok), pc := next.pc) && (next.pc.Retrying? || next.pc.Finishing?)
            && (0 <= Load(next) ==> Measure(next) < Measure(s)) && 1 + Load(next) <= Load(s)
  {
  }

  lemma {:induction false} RetryDescends<B>(cfg: Config, s: State<B>, clock: int, ok: bool)
    requires s.book.hand.Some? && s.pc.Retrying?
    ensures var next := RecordStep(cfg, s, clock, ok);
            && next == s.(book := PutBack(s.book), pc := Notify) && Load(next) == Load(s) && Measure(next) < Measure(s)
  {
    SumByPush(Weight<B>, s.book.queue, s.book.hand.value);
    assert RecordStep(cfg, s, clock, ok).book.queue == s.book.queue + [s.book.hand.value];
  }

  lemma {:induction false} FinishDescends<B>(cfg: Config, s: State<B>, clock: int, ok: bool)
    requires s.book.hand.Some? && s.pc.Finishing?
    ensures var next := RecordStep(cfg, s, clock, ok);
            && next == s.(book := next.book, queueSize := next.queueSize, pc := Notify)
            && next.book == Forget(s.book, if s.pc.ok then Written else Exhausted)
            && Load(next) == Load(s) && Measure(next) < Measure(s)
  {
  }

  lemma {:induction false} LoopDescends<B>(s: State<B>)
    requires Draining(s) && s.book.hand.None? && !s.pc.Stopped?
    requires 0 <= Load(s) && (Load(s) == 0 ==> s.book.queue == [])
    ensures var next := LoopStep(s);
            && !next.overlapped && Count(next.book) <= Count(s.book)
            && (next.draining || next.pc.Leaving? || next.pc.Stopped?)
            && (next.pc.Lowering? || next.pc.Leaving? || next.pc.Stopped? ==> next.book.queue == [])
            && Measure(next) < Measure(s)
            && next.book.writes == s.book.writes && Load(next) == Load(s)
  {
    if s.pc.Pop? && s.book.queue != [] {
      FrontLoad(s.book.queue);
    }
  }

  lemma {:induction false} FrontLoad<B>(queue: seq<Record<B>>)
    requires queue != []
    ensures SumBy(Weight<B>, queue) == Weight(queue[0]) + SumBy(Weight<B>, queue[1..])
  {
    SumBySplit(Weight<B>, queue, 0);
    assert queue[..0] == [];
  }

  /** What callers may do during a drain: anything but queue a record, restart, or clear over a record in hand. */
  ghost predicate Quiet<B>(cfg: Config, s: State<B>, run: seq<Action<B>>) {
    && OverlapFree(cfg, s, run)
    && forall k :: 0 <= k < |run| ==> !run[k].EnqueueCommit? && !run[k].Run?
  }

  /** The steps the worker takes before it stops. */
  ghost function Effort<B>(cfg: Config, s: State<B>, run: seq<Action<B>>): nat {
    if run == [] then 0
    else
      Effort(cfg, s, run[..|run| - 1]) +
      if run[|run| - 1].Work? && !Exec(cfg, s, run[..|run| - 1]).pc.Stopped? then 1 else 0
  }

  lemma {:induction false} CallDescends<B>(cfg: Config, s: State<B>, a: Action<B>)
    requires Draining(s) && !a.Work? && !a.EnqueueCommit? && !a.Run? && (a.Clear? ==> s.book.hand.None?)
    ensures var next := Step(cfg, s, a);
            Draining(next) && Measure(next) <= Measure(s) && next.book.writes == s.book.writes && Load(next) <= Load(s)
  {
    StepKeepsInv(cfg, s, a);
    var next := Step(cfg, s, a);
    if a.Clear? {
      ClearDescends(s, next);
    } else {
      SameLoad(s, next);
    }
  }

  /** A call that moves no record changes nothing for the worker. */
  lemma {:induction false} SameLoad<B>(s: State<B>, next: State<B>)
    requires Draining(s) && Inv(next) && next.pc == s.pc && !next.overlapped && (s.draining ==> next.draining)
    requires next.book.queue == s.book.queue && next.book.hand == s.book.hand
    ensures Draining(next) && Measure(next) == Measure(s) && Load(next) == Load(s)
  {
  }

  lemma {:induction false} ClearDescends<B>(s: State<B>, next: State<B>)
    requires Draining(s) && Inv(next) && next.pc == s.pc && !next.overlapped && (s.draining ==> next.draining)
    requires s.book.hand.None? && next.book.queue == [] && next.book.hand.None?
    ensures Draining(next) && Measure(next) <= Measure(s) && Load(next) <= Load(s)
  {
    LoadBounds(s);
  }

  lemma {:induction false} StepDescends<B>(cfg: Config, s: State<B>, a: Action<B>)
    requires cfg.flushAll && Draining(s)
    requires !a.EnqueueCommit? && !a.Run? && (a.Clear? ==> s.book.hand.None?)
    ensures var next := Step(cfg, s, a);
            && Draining(next)
            && (if a.Work? && !s.pc.Stopped? then 1 else 0) + Measure(next) <= Measure(s)
            && |next.book.writes| + Load(next) <= |s.book.writes| + Load(s)
  {
    if !a.Work? {
      CallDescends(cfg, s, a);
    } else if s.pc.Stopped? {
      assert Step(cfg, s, a) == s;
    } else {
      WorkDescends(cfg, s, a.clock, a.ok);
    }
  }

  /**
   * A drain ends: whatever callers do meanwhile, the worker takes at most Measure(s)
   * steps and makes at most Load(s) write calls, and when it has stopped no record is left.
   */
  lemma {:induction false} DrainEnds<B>(cfg: Config, s: State<B>, run: seq<Action<B>>)
    requires cfg.flushAll && Draining(s) && Quiet(cfg, s, run)
    ensures var t := Exec(cfg, s, run);
            && Draining(t)
            && Effort(cfg, s, run) + Measure(t) <= Measure(s)
            && |t.book.writes| + Load(t) <= |s.book.writes| + Load(s)
            && 0 <= Load(t) && 0 <= Measure(t)
            && (Effort(cfg, s, run) == Measure(s) ==> t.pc.Stopped?)
            && (t.pc.Stopped? ==> Pending(t.book) == [])
  {
    LoadBounds(Exec(cfg, s, run));
    if run != [] {
      var earlier, a := run[..|run| - 1], run[|run| - 1];
      OverlapFreePrefix(cfg, s, run);
      assert Quiet(cfg, s, earlier);
      DrainEnds(cfg, s, earlier);
      assert !run[|run| - 1].EnqueueCommit? && !run[|run| - 1].Run?;
      StepDescends(cfg, Exec(cfg, s, earlier), a);
    }
  }

  /** The worker sees an empty queue exactly when as many records wait as the counter is off by. */
  lemma ExitCondition<B>(cfg: Config, s: State<B>, clock: int, ok: bool)
    requires Inv(s) && s.pc.SizeCheck? && |s.book.queue| + 1 < WORD
    ensures Step(cfg, s, Work(clock, ok)).pc.Lowering? <==> |s.book.queue| == Drift(s)
  {
  }

  /** A draining worker with nothing to do whose counter a Clear has put off by one. */
  ghost predicate Stuck<B>(s: State<B>) {
    && Inv(s)
    && s.overlapped && Count(s.book) == 0 && s.draining
    && (s.pc.Top? || s.pc.SizeCheck? || s.pc.Pop? || s.pc.Notify?)
  }

  lemma {:induction false} StuckStep<B>(cfg: Config, s: State<B>, a: Action<B>)
    requires Stuck(s) && !a.EnqueueCommit? && !a.Clear?
    ensures Stuck(Step(cfg, s, a))
  {
    StepKeepsInv(cfg, s, a);
    assert s.queueSize == WORD - 1;
  }

  /** Such a worker never stops, unless a record is queued or the queue is cleared again. */
  lemma {:induction false} StuckForever<B>(cfg: Config, s: State<B>, run: seq<Action<B>>)
    requires Stuck(s)
    requires forall k :: 0 <= k < |run| ==> !run[k].EnqueueCommit? && !run[k].Clear?
    ensures Stuck(Exec(cfg, s, run)) && Exec(cfg, s, run).queueSize == WORD - 1
  {
    if run != [] {
      var earlier, a := run[..|run| - 1], run[|run| - 1];
      StuckForever(cfg, s, earlier);
      assert !run[|run| - 1].EnqueueCommit? && !run[|run| - 1].Clear?;
      StuckStep(cfg, Exec(cfg, s, earlier), a);
    }
  }

  /** With `flush_all_events` the worker never weighs a record's age. */
  predicate Ageless(pc: Pc) {
    !pc.Expiring? && !pc.Deciding? && !pc.Requeuing?
  }

  lemma {:induction false} AgelessStep<B>(cfg: Config, s: State<B>, a: Action<B>)
    requires cfg.flushAll && Ageless(s.pc)
    ensures Ageless(Step(cfg, s, a).pc)
  {
    if a.Work? {
      assert s.book.hand.Some? ==> Ageless(RecordStep(cfg, s, a.clock, a.ok).pc);
      assert Ageless(LoopStep(s).pc);
    }
  }

  lemma {:induction false} AgelessRun<B>(cfg: Config, run: seq<Action<B>>)
    requires cfg.flushAll
    ensures Ageless(Exec(cfg, Start<B>(), run).pc)
  {
    if run != [] {
      AgelessRun(cfg, run[..|run| - 1]);
      AgelessStep(cfg, Exec(cfg, Start<B>(), run[..|run| - 1]), run[|run| - 1]);
    }
  }

  /** DrainAndStop, called while the worker is in its loop, starts a drain. */
  lemma {:induction false} DrainBegins<B>(cfg: Config, run: seq<Action<B>>)
    requires cfg.flushAll && OverlapFree(cfg, Start<B>(), run)
    requires var s := Exec(cfg, Start<B>(), run);
             s.running && !s.pc.Lowering? && !s.pc.Leaving? && Count(s.book) < WORD
    ensures Draining(Step(cfg, Exec(cfg, Start<B>(), run), Drain))
  {
    StartInv<B>();
    RunKeepsInv(cfg, Start<B>(), run);
    OverlapFreeKeepsExact(cfg, Start<B>(), run);
    AgelessRun(cfg, run);
    DrainFrom(cfg, Exec(cfg, Start<B>(), run));
  }

  lemma {:induction false} DrainFrom<B>(cfg: Config, s: State<B>)
    requires Inv(s) && Ageless(s.pc) && !s.overlapped && Count(s.book) < WORD
    requires s.running && !s.pc.Lowering? && !s.pc.Leaving?
    ensures Draining(Step(cfg, s, Drain))
  {
    StepKeepsInv(cfg, s, Drain);
  }

  /** Plays one more action after `run`, which led to `s`. */
  lemma {:induction false} Play(cfg: Config, run: seq<Action<int>>, s: State<int>, a: Action<int>)
    returns (more: seq<Action<int>>, next: State<int>)
    requires s == Exec(cfg, Start<int>(), run)
    ensures more == run + [a] && next == Step(cfg, s, a) == Exec(cfg, Start<int>(), more)
  {
    more, next := run + [a], Step(cfg, s, a);
    assert more[..|run|] == run;
  }

  /** A run that starts the worker and queues one record. */
  lemma {:induction false} RecordQueued(cfg: Config) returns (run: seq<Action<int>>, s: State<int>)
    ensures s == Exec(cfg, Start<int>(), run)
    ensures s == State(Book([Record(0, 0, cfg.maxAttempts, 7)], None, {}, map[], 1, [], {}),
                       Desk(None, [], 0, map[], []), 0, 1, true, false, Top, [], false)
  {
    run, s := [], Start<int>();
    run, s := Play(cfg, run, s, Run);
    run, s := Play(cfg, run, s, EnqueueEnter(0, 7));
    run, s := Play(cfg, run, s, EnqueueCommit(0));
  }

  /** A run that queues one record and stops with the record in the worker's hand. */
  lemma {:induction false} RecordInHand(cfg: Config) returns (run: seq<Action<int>>, s: State<int>)
    ensures s == Exec(cfg, Start<int>(), run)
    ensures s == State(Book([], Some(Record(0, 0, cfg.maxAttempts, 7)), {}, map[], 1, [], {}),
                       Desk(None, [], 0, map[], []), 0, 1, true, false, Holding, [], false)
  {
    run, s := RecordQueued(cfg);
    run, s := Play(cfg, run, s, Work(0, true));
    run, s := Play(cfg, run, s, Work(0, true));
    assert s.book.queue == [];
  }

  /** The worker writes the record in hand in vain and puts it back. */
  lemma {:induction false} FailedAttempt(cfg: Config, run0: seq<Action<int>>, s0: State<int>)
    returns (run: seq<Action<int>>, s: State<int>)
    requires cfg.flushAll && s0 == Exec(cfg, Start<int>(), run0)
    requires s0.pc == Holding && s0.book.hand.Some? && 1 < s0.book.hand.value.attempts
    ensures s == Exec(cfg, Start<int>(), run)
    ensures s == s0.(book := PutBack(Attempt(s0.book, false)), pc := Notify)
  {
    run, s := Play(cfg, run0, s0, Work(0, false));
    assert s == s0.(pc := Writing);
    run, s := Play(cfg, run, s, Work(0, false));
    assert s == s0.(book := Attempt(s0.book, false), pc := Retrying);
    run, s := Play(cfg, run, s, Work(0, false));
  }

  /** A Clear that meets a record in hand makes a later drain hang. */
  lemma {:induction false} OverlappingClearHangs() returns (run: seq<Action<int>>)
    ensures Stuck(Exec(Config(0, 1, true), Start<int>(), run))
  {
    var cfg := Config(0, 1, true);
    var s;
    run, s := RecordInHand(cfg);
    run, s := Play(cfg, run, s, Clear);
    assert Count(s.book) == 1 && s.overlapped;
    run, s := Play(cfg, run, s, Work(0, true));
    run, s := Play(cfg, run, s, Work(0, true));
    run, s := Play(cfg, run, s, Work(0, true));
    assert s.pc == Notify && Count(s.book) == 0 && s.overlapped;
    run, s := Play(cfg, run, s, Drain);
    StartInv<int>();
    RunKeepsInv(cfg, Start<int>(), run);
  }

  /** A Clear that meets a record in hand can also make the worker stop with that record still queued. */
  lemma {:induction false} OverlappingClearStrands() returns (run: seq<Action<int>>)
    ensures var s := Exec(Config(0, 2, true), Start<int>(), run); s.pc.Stopped? && |s.book.queue| == 1
  {
    var cfg := Config(0, 2, true);
    var s;
    run, s := RecordInHand(cfg);
    run, s := Play(cfg, run, s, Clear);
    run, s := FailedAttempt(cfg, run, s);
    var b := s.book;
    assert |b.queue| == 1 && b.hand.None? && s.queueSize == 0;
    run, s := Play(cfg, run, s, Drain);
    run, s := Play(cfg, run, s, Work(0, false));
    assert s.book == b && s.pc == Top;
    run, s := LeaveAtOnce(cfg, run, s);
  }

  /** A draining worker that reads a zero counter stops without another look at the queue. */
  lemma {:induction false} LeaveAtOnce(cfg: Config, run0: seq<Action<int>>, s0: State<int>)
    returns (run: seq<Action<int>>, s: State<int>)
    requires s0 == Exec(cfg, Start<int>(), run0)
    requires s0.pc == Top && s0.draining && s0.queueSize == 0 && s0.book.hand.None?
    ensures s == Exec(cfg, Start<int>(), run)
    ensures s == s0.(draining := false, running := false, pc := Stopped)
  {
    run, s := Play(cfg, run0, s0, Work(0, true));
    assert s == s0.(pc := SizeCheck);
    run, s := Play(cfg, run, s, Work(0, true));
    assert s == s0.(pc := Lowering);
    run, s := Play(cfg, run, s, Work(0, true));
    assert s == s0.(draining := false, pc := Leaving);
    run, s := Play(cfg, run, s, Work(0, true));
  }

  /** A Flush does not wait for a record in hand: its completion runs while that record waits to be written. */
  lemma {:induction false} FlushMissesRecordInHand() returns (run: seq<Action<int>>)
    ensures var s := Exec(Config(0, 2, true), Start<int>(), run);
            s.desk.taken == [0] && |s.book.queue| == 1 && s.book.queue[0].stamp < s.flushStamp
  {
    var cfg := Config(0, 2, true);
    var s;
    run, s := RecordInHand(cfg);
    run, s := Play(cfg, run, s, FlushEnter(1, true));
    assert s.desk == Desk(None, [FlushCall(1, Some(0))], 1, map[], []);
    run, s := Play(cfg, run, s, FlushCommit(0));
    assert s.book.manual == {} && s.desk.completion == Some(0) && s.desk.taken == [] && s.flushStamp == 1;
    run, s := FailedAttempt(cfg, run, s);
    run, s := Play(cfg, run, s, Work(0, false));
  }

  /** A run in which a Flush tags a queued record. */
  lemma {:induction false} RecordTagged(cfg: Config) returns (run: seq<Action<int>>, s: State<int>)
    ensures s == Exec(cfg, Start<int>(), run) && s.pc == Top && !s.draining
    ensures s.book == Book([Record(0, 0, cfg.maxAttempts, 7)], None, {0}, map[], 1, [], {})
    ensures s.desk == Desk(Some(0), [], 1, map[0 := {0}], [])
  {
    var r: Record<int> := Record(0, 0, cfg.maxAttempts, 7);
    run, s := RecordQueued(cfg);
    run, s := Play(cfg, run, s, FlushEnter(1, true));
    assert s.desk == Desk(None, [FlushCall(1, Some(0))], 1, map[], []);
    assert Due([r], 1) == {0} by {
      assert [r][0].id == 0;
    }
    run, s := Play(cfg, run, s, FlushCommit(0));
  }

  /** A Clear drops the tag of a record in hand, and then the completion no longer waits for it. */
  lemma {:induction false} ClearDropsTag() returns (run: seq<Action<int>>)
    ensures var s := Exec(Config(0, 2, true), Start<int>(), run);
            && s.desk.taken == [0] && s.desk.owed == map[0 := {0}]
            && |s.book.queue| == 1 && s.book.queue[0].id == 0 && s.book.fates == map[]
  {
    var cfg := Config(0, 2, true);
    var s;
    run, s := RecordTagged(cfg);
    run, s := PopAndClear(cfg, run, s, Record(0, 0, 2, 7));
    run, s := FailedAttempt(cfg, run, s);
    assert s.book.manual == {} && s.book.hand.None? && s.desk.completion == Some(0);
    run, s := Play(cfg, run, s, Work(0, false));
  }

  lemma {:induction false} PopAndClear(cfg: Config, run0: seq<Action<int>>, s0: State<int>, r: Record<int>)
    returns (run: seq<Action<int>>, s: State<int>)
    requires s0 == Exec(cfg, Start<int>(), run0) && s0.pc == Top && !s0.draining
    requires s0.book == Book([r], None, {r.id}, map[], 1, [], {})
    ensures s == Exec(cfg, Start<int>(), run) && s.pc == Holding && s.desk == s0.desk
    ensures s.book == Book([], Some(r), {}, map[], 1, [], {r.id})
  {
    run, s := Play(cfg, run0, s0, Work(0, true));
    run, s := Play(cfg, run, s, Work(0, true));
    assert s.book == Book([], Some(r), {r.id}, map[], 1, [], {});
    run, s := Play(cfg, run, s, Clear);
    assert Ids<int>([]) == {};
  }

  /** The worker's distance to its next look at the completion with nothing left to do. */
  function Wait(pc: Pc, idle: bool): nat {
    if !idle then Rank(pc, false)
    else
      match pc
      case Top => 4
      case Pop => 3
      case Notify => 2
      case _ => Rank(pc, true)
  }

  ghost function Patience<B>(s: State<B>): int {
    16 * Load(s) + Wait(s.pc, Load(s) == 0)
  }

  /** A worker in its loop, and a completion installed. */
  ghost predicate Awaits<B>(s: State<B>, t: nat) {
    match s
    case State(_, desk, _, _, running, draining, pc, _, _) =>
      && Inv(s) && Ageless(pc) && running && !draining && desk.completion == Some(t)
      && !pc.SizeCheck? && !pc.Lowering? && !pc.Leaving?
  }

  lemma {:induction false} PopAwaits<B>(s: State<B>)
    requires s.book.hand.None? && s.pc.Pop?
    ensures var next := LoopStep(s);
            next == s.(book := next.book, pc := if s.book.queue == [] then Notify else Holding) && Patience(next) < Patience(s)
  {
    LoadBounds(s);
    if s.book.queue != [] {
      FrontLoad(s.book.queue);
      assert LoopStep(s).book == Take(s.book);
      assert Load(LoopStep(s)) == Load(s) && 0 < Load(s);
    } else {
      assert LoopStep(s) == s.(pc := Notify) && Load(s) == 0;
    }
  }

  lemma {:induction false} NotifyAwaits<B>(s: State<B>)
    requires Sound(s.book) && s.book.hand.None? && s.pc.Notify? && s.book.manual != {}
    ensures LoopStep(s) == s.(pc := Top) && Patience(LoopStep(s)) < Patience(s)
  {
    LoadBounds(s);
    PendingIds(s.book);
    assert s.book.queue != [];
    assert SumBy(Weight<B>, s.book.queue) != 0 by {
      SumByNonNegative(Weight<B>, s.book.queue);
      assert Weight(s.book.queue[0]) <= SumBy(Weight<B>, s.book.queue);
    }
  }

  lemma {:induction false} LoopAwaits<B>(s: State<B>, t: nat)
    requires Awaits(s, t) && s.book.hand.None? && !(s.pc.Notify? && s.book.manual == {})
    ensures var next := LoopStep(s);
            && next.desk == s.desk && next.running && !next.draining && (next.pc.Top? || next.pc.Pop? || next.pc.Notify? || next.pc.Holding?)
            && Patience(next) < Patience(s)
  {
    assert !HasRecord(s.pc);
    if s.pc.Pop? {
      PopAwaits(s);
    } else if s.pc.Notify? {
      NotifyAwaits(s);
    } else {
      assert s.pc.Top? && LoopStep(s) == s.(pc := Pop);
    }
  }

  lemma {:induction false} RecordAwaits<B>(cfg: Config, s: State<B>, t: nat, clock: int, ok: bool)
    requires cfg.flushAll && Awaits(s, t) && s.book.hand.Some?
    ensures var next := RecordStep(cfg, s, clock, ok);
            && next.desk == s.desk && next.running && !next.draining
            && (next.pc.Notify? || next.pc.Writing? || next.pc.Retrying? || next.pc.Finishing?)
            && Patience(next) < Patience(s)
  {
    var next := RecordStep(cfg, s, clock, ok);
    LoadBounds(s);
    LoadBounds(next);
    RecordDescends(cfg, s, clock, ok);
    assert next.desk == s.desk && next.running == s.running;
    WaitIsRank(s.pc, Load(s) == 0);
    assert Wait(next.pc, Load(next) == 0) <= Rank(next.pc, Load(next) == 0);
  }

  lemma {:induction false} WaitIsRank(pc: Pc, idle: bool)
    requires HasRecord(pc)
    ensures Wait(pc, idle) == Rank(pc, idle)
  {
  }

  lemma {:induction false} StepAwaits<B>(cfg: Config, s: State<B>, t: nat, clock: int, ok: bool)
    requires cfg.flushAll && Awaits(s, t)
    ensures var next := Step(cfg, s, Work(clock, ok));
            t in next.desk.taken || (Awaits(next, t) && Patience(next) < Patience(s))
  {
    var next := Step(cfg, s, Work(clock, ok));
    StepKeepsInv(cfg, s, Work(clock, ok));
    if s.book.hand.Some? {
      RecordAwaits(cfg, s, t, clock, ok);
      StillAwaits(s, next, t);
    } else if s.pc.Notify? && s.book.manual == {} {
      assert next.desk == Release(s.desk);
    } else {
      LoopAwaits(s, t);
      StillAwaits(s, next, t);
    }
  }

  lemma {:induction false} StillAwaits<B>(s: State<B>, next: State<B>, t: nat)
    requires Awaits(s, t) && Inv(next) && next.desk == s.desk && next.running && !next.draining
    requires Ageless(next.pc) && !next.pc.SizeCheck? && !next.pc.Lowering? && !next.pc.Leaving?
    ensures Awaits(next, t)
  {
  }

  /**
   * The completion of a Flush does run: with `flush_all_events` the worker takes the installed completion
   * within Patience(s) of its steps, whatever the clock and the writer answer.
   */
  lemma {:induction false} CompletionRuns<B>(cfg: Config, s: State<B>, t: nat, run: seq<Action<B>>)
    requires cfg.flushAll && Awaits(s, t) && forall k :: 0 <= k < |run| ==> run[k].Work?
    ensures var e := Exec(cfg, s, run); t in e.desk.taken || (Awaits(e, t) && |run| + Patience(e) <= Patience(s))
    ensures Patience(s) < |run| ==> t in Exec(cfg, s, run).desk.taken
  {
    LoadBounds(Exec(cfg, s, run));
    if run != [] {
      var earlier, a := run[..|run| - 1], run[|run| - 1];
      CompletionRuns(cfg, s, t, earlier);
      var e := Exec(cfg, s, earlier);
      assert a.Work?;
      if t in e.desk.taken {
        WorkMoves(cfg, e, a.clock, a.ok);
      } else {
        StepAwaits(cfg, e, t, a.clock, a.ok);
      }
    }
  }
}
