/**
 * Write attempts over whole runs of the flush queue: no record is written twice or
 * attempted more often than configured, and records are written in the order they came.
 */
module FlushWrites {
  import opened Common
  import opened Records
  import opened FlushQueue

  ghost function Tries(writes: seq<Write>, id: nat): nat {
    if writes == [] then 0
    else Tries(writes[..|writes| - 1], id) + if writes[|writes| - 1].id == id then 1 else 0
  }

  ghost function Successes(writes: seq<Write>, id: nat): nat {
    if writes == [] then 0
    else Successes(writes[..|writes| - 1], id) + if writes[|writes| - 1] == Write(id, true) then 1 else 0
  }

  lemma {:induction false} CountsGrow(writes: seq<Write>, w: Write)
    ensures forall id: nat :: Tries(writes + [w], id) == Tries(writes, id) + if w.id == id then 1 else 0
    ensures forall id: nat ::
              Successes(writes + [w], id) == Successes(writes, id) + if w == Write(id, true) then 1 else 0
  {
    assert (writes + [w])[..|writes|] == writes;
  }

  function Limit(max: int): int {
    if max < 1 then 1 else max
  }

  /** A record still to be written has spent the attempts it no longer has, all in vain. */
  ghost predicate Open<B>(max: int, writes: seq<Write>, r: Record<B>) {
    && Tries(writes, r.id) == max - r.attempts
    && Successes(writes, r.id) == 0
    && (r.attempts == max || 0 < r.attempts)
  }

  /** A record after its last write. */
  ghost predicate Closed(max: int, writes: seq<Write>, id: nat, fate: Fate) {
    && 0 <= Tries(writes, id) <= Limit(max)
    && Successes(writes, id) == (if fate.Written? then 1 else 0)
    && (fate.Exhausted? ==> Tries(writes, id) == Limit(max))
  }

  function Outcome(pc: Pc): Option<Fate> {
    if pc.Finishing? then Some(if pc.ok then Written else Exhausted) else None
  }

  ghost predicate Tallied<B>(max: int, b: Book<B>, outcome: Option<Fate>) {
    match b
    case Book(queue, hand, manual, fates, nextId, writes, _) =>
      && (forall k :: 0 <= k < |queue| ==> Open(max, writes, queue[k]))
      && (hand.Some? && outcome.None? ==> Open(max, writes, hand.value))
      && (hand.Some? && outcome.Some? ==> Closed(max, writes, hand.value.id, outcome.value))
      && (forall id :: id in fates ==> Closed(max, writes, id, fates[id]))
      && (forall id: nat :: nextId <= id ==> Tries(writes, id) == 0 && Successes(writes, id) == 0)
  }

  lemma {:induction false} WipeTallied<B>(max: int, b: Book<B>, outcome: Option<Fate>)
    requires Tallied(max, b, outcome)
    ensures Tallied(max, Wipe(b), outcome)
  {
    var c := Wipe(b);
    forall id | id in c.fates
      ensures Closed(max, c.writes, id, c.fates[id])
    {
      if id in Ids(b.queue) {
        var k :| 0 <= k < |b.queue| && b.queue[k].id == id;
        assert Open(max, b.writes, b.queue[k]);
      }
    }
  }

  lemma {:induction false} AttemptTallied<B>(max: int, b: Book<B>, ok: bool)
    requires Sound(b) && Tallied(max, b, None) && b.hand.Some?
    ensures var left := b.hand.value.attempts - 1;
            Tallied(max, Attempt(b, ok),
                    if !ok && 0 < left then None else Some(if ok then Written else Exhausted))
  {
    var r := b.hand.value;
    PendingIds(b);
    CountsGrow(b.writes, Write(r.id, ok));
    assert r.id in Ids(Pending(b));
    forall k | 0 <= k < |b.queue|
      ensures b.queue[k].id != r.id
    {
      assert b.queue[k].id in Ids(b.queue);
    }
  }

  lemma {:induction false} StepKeepsTally<B>(cfg: Config, s: State<B>, a: Action<B>)
    requires WorkerInv(s) && Sound(s.book) && Tallied(cfg.maxAttempts, s.book, Outcome(s.pc))
    ensures var next := Step(cfg, s, a); Tallied(cfg.maxAttempts, next.book, Outcome(next.pc))
  {
    if a.Clear? {
      WipeTallied(cfg.maxAttempts, s.book, Outcome(s.pc));
    } else if a.Work? {
      WorkKeepsTally(cfg, s, a.clock, a.ok);
    }
  }

  lemma {:induction false} WorkKeepsTally<B>(cfg: Config, s: State<B>, clock: int, ok: bool)
    requires WorkerInv(s) && Sound(s.book) && Tallied(cfg.maxAttempts, s.book, Outcome(s.pc))
    ensures var next := Step(cfg, s, Work(clock, ok)); Tallied(cfg.maxAttempts, next.book, Outcome(next.pc))
  {
    if s.pc.Writing? {
      AttemptTallied(cfg.maxAttempts, s.book, ok);
    } else if s.book.hand.Some? {
      RestKeepsTally(cfg, s, clock, ok);
    }
  }

  lemma {:induction false} RestKeepsTally<B>(cfg: Config, s: State<B>, clock: int, ok: bool)
    requires WorkerInv(s) && s.book.hand.Some? && !s.pc.Writing?
    requires Tallied(cfg.maxAttempts, s.book, Outcome(s.pc))
    ensures var next := RecordStep(cfg, s, clock, ok); Tallied(cfg.maxAttempts, next.book, Outcome(next.pc))
  {
  }

  /** What no run can do to a record: write it twice, or try it more often than configured. */
  lemma {:induction false} WritesAreLimited<B>(cfg: Config, run: seq<Action<B>>, id: nat)
    ensures var b := Exec(cfg, Start<B>(), run).book;
            && Tries(b.writes, id) <= Limit(cfg.maxAttempts)
            && Successes(b.writes, id) <= 1
            && (Successes(b.writes, id) == 1 && id in b.fates ==> b.fates[id] == Written)
            && (id in b.fates && b.fates[id] == Written ==> Successes(b.writes, id) == 1)
            && (id in b.fates && b.fates[id] == Exhausted ==> Tries(b.writes, id) == Limit(cfg.maxAttempts))
  {
    RunTallies(cfg, run);
    StartInv<B>();
    RunKeepsInv(cfg, Start<B>(), run);
    TallyMeans(cfg, Exec(cfg, Start<B>(), run), id);
  }

  lemma {:induction false} TallyMeans<B>(cfg: Config, s: State<B>, id: nat)
    requires Inv(s) && Tallied(cfg.maxAttempts, s.book, Outcome(s.pc))
    ensures var b := s.book;
            && Tries(b.writes, id) <= Limit(cfg.maxAttempts)
            && Successes(b.writes, id) <= 1
            && (Successes(b.writes, id) == 1 && id in b.fates ==> b.fates[id] == Written)
            && (id in b.fates && b.fates[id] == Written ==> Successes(b.writes, id) == 1)
            && (id in b.fates && b.fates[id] == Exhausted ==> Tries(b.writes, id) == Limit(cfg.maxAttempts))
  {
    PendingIds(s.book);
    if id !in s.book.fates && id < s.book.nextId {
      assert id in Ids(Pending(s.book));
      if id in Ids(s.book.queue) {
        var k :| 0 <= k < |s.book.queue| && s.book.queue[k].id == id;
        assert Open(cfg.maxAttempts, s.book.writes, s.book.queue[k]);
      }
    }
  }

  lemma {:induction false} RunTallies<B>(cfg: Config, run: seq<Action<B>>)
    ensures var s := Exec(cfg, Start<B>(), run); Tallied(cfg.maxAttempts, s.book, Outcome(s.pc))
  {
    if run != [] {
      var earlier, a := run[..|run| - 1], run[|run| - 1];
      RunTallies(cfg, earlier);
      StartInv<B>();
      RunKeepsInv(cfg, Start<B>(), earlier);
      StepKeepsTally(cfg, Exec(cfg, Start<B>(), earlier), a);
    }
  }

  /** The ids written, in order. */
  ghost function WrittenIds(writes: seq<Write>): seq<nat> {
    seq(|writes|, k requires 0 <= k < |writes| => writes[k].id)
  }

  ghost function QueuedIds<B>(records: seq<Record<B>>): seq<nat> {
    seq(|records|, k requires 0 <= k < |records| => records[k].id)
  }

  /** What was written, what is about to be, and what waits, in that order. */
  ghost function Trail<B>(b: Book<B>, pc: Pc): seq<nat> {
    WrittenIds(b.writes) + (if b.hand.Some? && !pc.Finishing? then [b.hand.value.id] else []) + QueuedIds(b.queue)
  }

  ghost predicate Increasing(ids: seq<nat>, bound: nat) {
    && (forall i, j :: 0 <= i < j < |ids| ==> ids[i] < ids[j])
    && forall i :: 0 <= i < |ids| ==> ids[i] < bound
  }

  ghost predicate Upto(ids: seq<nat>, bound: nat) {
    |ids| == bound && forall i :: 0 <= i < |ids| ==> ids[i] == i
  }

  /** Where the worker can be when every record is written at once and every write succeeds. */
  predicate Smooth(pc: Pc) {
    !pc.Expiring? && !pc.Deciding? && !pc.Requeuing? && !pc.Retrying?
  }

  lemma {:induction false} StepTrail<B>(cfg: Config, s: State<B>, a: Action<B>)
    requires cfg.flushAll && WorkerInv(s) && Smooth(s.pc) && (a.Work? ==> a.ok)
    ensures var next := Step(cfg, s, a); var was, now := Trail(s.book, s.pc), Trail(next.book, next.pc);
            && Smooth(next.pc)
            && (|| (now == was && next.book.nextId == s.book.nextId)
                || (now == was + [s.book.nextId] && next.book.nextId == s.book.nextId + 1)
                || (a.Clear? && now <= was && next.book.nextId == s.book.nextId))
  {
    var next := Step(cfg, s, a);
    if a.EnqueueCommit? && a.k < |s.entering| {
      var q := next.book.queue;
      assert QueuedIds(q) == QueuedIds(s.book.queue) + [s.book.nextId];
    } else if a.Clear? {
      assert Trail(next.book, next.pc) <= Trail(s.book, s.pc);
    } else if a.Work? {
      WorkTrail(cfg, s, a.clock);
    }
  }

  lemma {:induction false} WorkTrail<B>(cfg: Config, s: State<B>, clock: int)
    requires cfg.flushAll && WorkerInv(s) && Smooth(s.pc)
    ensures var next := Step(cfg, s, Work(clock, true));
            && Smooth(next.pc)
            && Trail(next.book, next.pc) == Trail(s.book, s.pc)
            && next.book.nextId == s.book.nextId
  {
    var next := Step(cfg, s, Work(clock, true));
    if s.pc.Pop? && s.book.queue != [] {
      assert QueuedIds(s.book.queue) == [s.book.queue[0].id] + QueuedIds(next.book.queue);
    } else if s.pc.Writing? {
      assert WrittenIds(next.book.writes) == WrittenIds(s.book.writes) + [s.book.hand.value.id];
    }
  }

  /** Ids in order, and all of them as long as nothing was cleared. */
  ghost predicate InOrder<B>(s: State<B>, cleared: bool) {
    match s
    case State(book, _, _, _, _, _, pc, _, _) =>
      Smooth(pc) && Increasing(Trail(book, pc), book.nextId) && (!cleared ==> Upto(Trail(book, pc), book.nextId))
  }

  lemma {:induction false} StepInOrder<B>(cfg: Config, s: State<B>, cleared: bool, a: Action<B>)
    requires cfg.flushAll && WorkerInv(s) && InOrder(s, cleared) && (a.Work? ==> a.ok)
    ensures InOrder(Step(cfg, s, a), cleared || a.Clear?)
  {
    StepTrail(cfg, s, a);
  }

  ghost predicate HasClear<B>(run: seq<Action<B>>) {
    run != [] && (HasClear(run[..|run| - 1]) || run[|run| - 1].Clear?)
  }

  lemma {:induction false} NoClear<B>(run: seq<Action<B>>)
    requires forall k :: 0 <= k < |run| ==> !run[k].Clear?
    ensures !HasClear(run)
  {
    if run != [] {
      NoClear(run[..|run| - 1]);
    }
  }

  ghost predicate AllOk<B>(run: seq<Action<B>>) {
    forall k :: 0 <= k < |run| && run[k].Work? ==> run[k].ok
  }

  lemma {:induction false} AllOkInit<B>(run: seq<Action<B>>)
    requires AllOk(run) && run != []
    ensures AllOk(run[..|run| - 1]) && (run[|run| - 1].Work? ==> run[|run| - 1].ok)
  {
  }

  lemma {:induction false} RunInOrder<B>(cfg: Config, run: seq<Action<B>>)
    requires cfg.flushAll && AllOk(run)
    ensures InOrder(Exec(cfg, Start<B>(), run), HasClear(run))
  {
    if run == [] {
      StartInOrder<B>();
    } else {
      AllOkInit(run);
      RunInOrder(cfg, run[..|run| - 1]);
      StartInv<B>();
      RunKeepsInv(cfg, Start<B>(), run[..|run| - 1]);
      StepInOrder(cfg, Exec(cfg, Start<B>(), run[..|run| - 1]), HasClear(run[..|run| - 1]), run[|run| - 1]);
    }
  }

  lemma {:induction false} StartInOrder<B>()
    ensures InOrder(Start<B>(), false)
  {
    var s := Start<B>();
    assert Trail(s.book, s.pc) == [];
  }

  /**
   * With `flush_all_events` and only successful writes, records are written in the
   * order they were queued; without a Clear, what was written and what is left are
   * exactly the records queued, each once.
   */
  lemma {:induction false} WriteOrderIsQueueOrder<B>(cfg: Config, run: seq<Action<B>>)
    requires cfg.flushAll
    requires forall k :: 0 <= k < |run| && run[k].Work? ==> run[k].ok
    ensures var s := Exec(cfg, Start<B>(), run); var trail := Trail(s.book, s.pc);
            && Increasing(trail, s.book.nextId)
            && ((forall k :: 0 <= k < |run| ==> !run[k].Clear?) ==> Upto(trail, s.book.nextId))
  {
    RunInOrder(cfg, run);
    if forall k :: 0 <= k < |run| ==> !run[k].Clear? {
      NoClear(run);
    }
  }

  lemma {:induction false} StartInv<B>()
    ensures Inv(Start<B>())
  {
    assert Pending(Start<B>().book) == [];
  }
}
