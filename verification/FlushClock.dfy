/**
 * Runs of the flush queue with a steady clock. The worker reads the clock within its step; Flush reads it
 * after its check of `running_` and before it takes the lock; Enqueue reads it before its check, so that
 * other readings may come between the stamp and the call's first step.
 */
module FlushClock {
  import opened Common
  import opened Records
  import opened Completions
  import opened FlushQueue

  /** A step of a worker or of a Flush does not read the clock below `from`; a buffer's stamp may be older. */
  predicate Forward<B>(a: Action<B>, from: int) {
    match a
    case Work(clock, _) => from <= clock
    case FlushEnter(now, _) => from <= now
    case _ => true
  }

  /** The latest reading after a step, or a run, that begins at `from`, but for Flushes, which may read later. */
  function Next<B>(a: Action<B>, from: int): int {
    match a
    case Work(clock, _) => clock
    case EnqueueEnter(stamp, _) => if from < stamp then stamp else from
    case _ => from
  }

  function Latest<B>(run: seq<Action<B>>, from: int): int {
    if run == [] then from else Next(run[|run| - 1], Latest(run[..|run| - 1], from))
  }

  ghost predicate Steady<B>(run: seq<Action<B>>, from: int) {
    run != [] ==> Steady(run[..|run| - 1], from) && Forward(run[|run| - 1], Latest(run[..|run| - 1], from))
  }

  ghost predicate Stamped<B>(b: Book<B>, clock: int) {
    match b
    case Book(queue, hand, _, _, _, _, _) =>
      && (forall k :: 0 <= k < |queue| ==> queue[k].stamp <= clock)
      && (hand.Some? ==> hand.value.stamp <= clock)
  }

  /** Nothing in the queue is stamped after the latest reading, and a record found fresh had time to live. */
  ghost predicate Timely<B>(cfg: Config, s: State<B>, clock: int) {
    match s
    case State(book, _, _, _, _, _, pc, entering, _) =>
      && Stamped(book, clock)
      && (forall k :: 0 <= k < |entering| ==> entering[k].0 <= clock)
      && (pc.Deciding? || pc.Requeuing? ==> 0 < cfg.retention)
  }

  lemma {:induction false} StepTimely<B>(cfg: Config, s: State<B>, a: Action<B>, clock: int)
    requires Timely(cfg, s, clock) && Forward(a, clock)
    ensures Timely(cfg, Step(cfg, s, a), Next(a, clock))
  {
    match a
    case Work(now, ok) => WorkTimely(cfg, s, clock, now, ok);
    case EnqueueCommit(k) =>
      if k < |s.entering| {
        var rest := Without(s.entering, k);
        assert forall j :: 0 <= j < |rest| ==> rest[j] == s.entering[if j < k then j else j + 1];
      }
    case _ =>
  }

  lemma {:induction false} WorkTimely<B>(cfg: Config, s: State<B>, clock: int, now: int, ok: bool)
    requires Timely(cfg, s, clock) && clock <= now
    ensures Timely(cfg, Step(cfg, s, Work(now, ok)), now)
  {
    WorkBook(cfg, s, now, ok);
    WorkLeavesCalls(cfg, s, now, ok);
    NextStamped(s.book, s.pc, ok, clock, now);
    WorkRetains(cfg, s, clock, now, ok);
  }

  lemma {:induction false} NextStamped<B>(b: Book<B>, pc: Pc, ok: bool, clock: int, now: int)
    requires Stamped(b, clock) && clock <= now
    ensures Stamped(NextBook(b, pc, ok), now)
  {
  }

  lemma {:induction false} WorkRetains<B>(cfg: Config, s: State<B>, clock: int, now: int, ok: bool)
    requires Timely(cfg, s, clock) && clock <= now
    ensures var pc := Step(cfg, s, Work(now, ok)).pc; pc.Deciding? || pc.Requeuing? ==> 0 < cfg.retention
  {
    if s.book.hand.Some? {
      var pc := RecordStep(cfg, s, now, ok).pc;
      assert pc.Deciding? || pc.Requeuing? ==> 0 < cfg.retention;
    } else {
      var pc := LoopStep(s).pc;
      assert pc.Deciding? || pc.Requeuing? ==> pc == s.pc;
    }
  }

  lemma {:induction false} RunTimely<B>(cfg: Config, s: State<B>, run: seq<Action<B>>, clock: int)
    requires Timely(cfg, s, clock) && Steady(run, clock)
    ensures Timely(cfg, Exec(cfg, s, run), Latest(run, clock))
  {
    if run != [] {
      RunTimely(cfg, s, run[..|run| - 1], clock);
      StepTimely(cfg, Exec(cfg, s, run[..|run| - 1]), run[|run| - 1], Latest(run[..|run| - 1], clock));
    }
  }

  /** Every state of a run with a steady clock is timely. */
  lemma {:induction false} SteadyRunsAreTimely<B>(cfg: Config, run: seq<Action<B>>, from: int)
    requires Steady(run, from)
    ensures Timely(cfg, Exec(cfg, Start<B>(), run), Latest(run, from))
  {
    RunTimely(cfg, Start<B>(), run, from);
  }
}
