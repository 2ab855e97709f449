/**
 * Drains with Enqueue calls that were past their check when the drain began: each of them can lengthen
 * the drain or leave a record behind.
 */
module FlushClosing {
  import opened Common
  import opened Words
  import opened Records
  import opened Completions
  import opened FlushQueue
  import opened FlushWrites
  import opened FlushDrain

  /** The worker has seen its counter at 0 and is leaving. */
  predicate Late(pc: Pc) {
    pc.Lowering? || pc.Leaving? || pc.Stopped?
  }

  /** What one more record costs a draining worker. */
  function Price(cfg: Config): nat {
    16 * Limit(cfg.maxAttempts) + 8
  }

  /** The worker's distance to the end of its loop, with all that may still be queued. */
  ghost function Distance<B>(cfg: Config, s: State<B>): int {
    if Late(s.pc) then Rank(s.pc, true) else Measure(s) + |s.entering| * Price(cfg)
  }

  /** The write calls made, and those that may still come. */
  ghost function Spent<B>(cfg: Config, s: State<B>): int {
    |s.book.writes| + if Late(s.pc) then 0 else Load(s) + |s.entering| * Limit(cfg.maxAttempts)
  }

  /** A drain under way, or a worker that has left or is leaving. */
  ghost predicate Shutting<B>(s: State<B>) {
    match s
    case State(book, _, _, _, _, draining, pc, entering, overlapped) =>
      && Inv(s) && !overlapped && Ageless(pc)
      && (!Late(pc) ==> draining && Count(book) + |entering| < WORD)
  }

  /** The records committed since the worker began to leave. */
  ghost function Latecomers<B>(cfg: Config, s: State<B>, run: seq<Action<B>>): seq<Record<B>> {
    if run == [] then []
    else
      var earlier := run[..|run| - 1];
      LateBy(cfg, Exec(cfg, s, earlier), run[|run| - 1], Latecomers(cfg, s, earlier))
  }

  ghost function LateBy<B>(cfg: Config, s: State<B>, a: Action<B>, left: seq<Record<B>>): seq<Record<B>> {
    if a.Clear? then []
    else if a.EnqueueCommit? && a.k < |s.entering| && Late(s.pc)
    then left + [Record(s.book.nextId, s.entering[a.k].0, cfg.maxAttempts, s.entering[a.k].1)]
    else left
  }

  lemma {:induction false} ShuttingIsDraining<B>(s: State<B>)
    requires Shutting(s) && !Late(s.pc)
    ensures Draining(s)
  {
  }

  lemma {:induction false} WorkCloses<B>(cfg: Config, s: State<B>, clock: int, ok: bool)
    requires cfg.flushAll && Shutting(s) && !Late(s.pc)
    ensures var next := Step(cfg, s, Work(clock, ok));
            && Shutting(next) && Distance(cfg, next) < Distance(cfg, s) && Spent(cfg, next) <= Spent(cfg, s)
            && (Late(next.pc) ==> next.book.queue == [])
  {
    var next := Step(cfg, s, Work(clock, ok));
    ShuttingIsDraining(s);
    WorkDescends(cfg, s, clock, ok);
    WorkLeavesCalls(cfg, s, clock, ok);
    AgelessStep(cfg, s, Work(clock, ok));
    LoadBounds(next);
    LoadBounds(s);
    LateRank(s, next);
  }

  lemma {:induction false} LateRank<B>(s: State<B>, next: State<B>)
    requires Draining(next) && !Late(s.pc) && 0 <= Load(s)
    ensures Late(next.pc) ==> next.book.queue == [] && Rank(next.pc, true) < Measure(s)
  {
  }

  lemma {:induction false} LeavingWork<B>(cfg: Config, s: State<B>, clock: int, ok: bool)
    requires Shutting(s) && Late(s.pc) && !s.pc.Stopped?
    ensures var next := Step(cfg, s, Work(clock, ok));
            && Shutting(next) && Late(next.pc) && next.book == s.book && Distance(cfg, next) < Distance(cfg, s)
  {
    StepKeepsInv(cfg, s, Work(clock, ok));
    assert s.book.hand.None?;
  }

  lemma {:induction false} OneMore<B>(s: State<B>, next: State<B>, r: Record<B>)
    requires next.book.queue == s.book.queue + [r] && next.book.hand == s.book.hand && next.pc == s.pc
    ensures Load(next) == Load(s) + Weight(r) && Measure(next) <= Measure(s) + 16 * Weight(r) + 8
  {
    SumByPush(Weight<B>, s.book.queue, r);
    LoadBounds(s);
    LoadBounds(next);
  }

  /** A call past its check that commits while the worker is in its loop lengthens the drain by no more than its price. */
  lemma {:induction false} CommitCloses<B>(cfg: Config, s: State<B>, k: nat)
    requires Shutting(s) && k < |s.entering|
    ensures var next := Step(cfg, s, EnqueueCommit(k));
            && Shutting(next) && next.pc == s.pc && Distance(cfg, next) <= Distance(cfg, s)
            && Spent(cfg, next) <= Spent(cfg, s) && next.book.hand == s.book.hand
            && next.book.queue == s.book.queue + [Record(s.book.nextId, s.entering[k].0, cfg.maxAttempts, s.entering[k].1)]
  {
    var next := Step(cfg, s, EnqueueCommit(k));
    StepKeepsInv(cfg, s, EnqueueCommit(k));
    OneMore(s, next, Record(s.book.nextId, s.entering[k].0, cfg.maxAttempts, s.entering[k].1));
    OneFewer(|s.entering|, Price(cfg));
    OneFewer(|s.entering|, Limit(cfg.maxAttempts));
  }

  lemma {:induction false} OneFewer(n: nat, price: int)
    requires 0 < n
    ensures (n - 1) * price == n * price - price
  {
  }

  /** Any other call brings a drain no further from its end. */
  lemma {:induction false} CallCloses<B>(cfg: Config, s: State<B>, a: Action<B>)
    requires Shutting(s) && !a.Work? && !a.EnqueueCommit? && !a.Run? && (a.Clear? ==> s.book.hand.None?)
    ensures var next := Step(cfg, s, a);
            && Shutting(next) && next.pc == s.pc && Distance(cfg, next) <= Distance(cfg, s) && Spent(cfg, next) <= Spent(cfg, s)
            && next.book.hand == s.book.hand && next.book.queue == if a.Clear? then [] else s.book.queue
  {
    StepKeepsInv(cfg, s, a);
    CallLeaves(cfg, s, a);
    if !Late(s.pc) {
      ShuttingIsDraining(s);
      CallDescends(cfg, s, a);
    }
  }

  /** What such a call leaves alone. */
  lemma {:induction false} CallLeaves<B>(cfg: Config, s: State<B>, a: Action<B>)
    requires !a.Work? && !a.EnqueueCommit? && !a.Run? && (a.Clear? ==> s.book.hand.None?)
    ensures var next := Step(cfg, s, a);
            && next.pc == s.pc && next.book.hand == s.book.hand && next.book.queue == (if a.Clear? then [] else s.book.queue)
            && next.book.writes == s.book.writes && (!s.overlapped ==> !next.overlapped)
            && (s.draining ==> next.draining && next.entering == s.entering)
  {
  }

  /** What every step of a drain keeps. */
  ghost predicate Closing<B>(cfg: Config, s: State<B>, left: seq<Record<B>>) {
    match s
    case State(book, _, _, _, _, _, pc, _, _) =>
      Shutting(s) && (if Late(pc) then book.hand.None? && book.queue == left else left == [])
  }

  lemma {:induction false} StepCloses<B>(cfg: Config, s: State<B>, a: Action<B>, left: seq<Record<B>>)
    requires cfg.flushAll && Closing(cfg, s, left) && !a.Run? && (a.Clear? ==> s.book.hand.None?)
    ensures var next := Step(cfg, s, a);
            && Closing(cfg, next, LateBy(cfg, s, a, left))
            && (if a.Work? && !s.pc.Stopped? then 1 else 0) + Distance(cfg, next) <= Distance(cfg, s)
            && Spent(cfg, next) <= Spent(cfg, s)
  {
    match a
    case Work(clock, ok) =>
      if s.pc.Stopped? {
        assert Step(cfg, s, a) == s;
      } else if Late(s.pc) {
        LeavingWork(cfg, s, clock, ok);
      } else {
        WorkCloses(cfg, s, clock, ok);
        StepKeepsWorker(cfg, s, a);
      }
    case EnqueueCommit(k) =>
      if k < |s.entering| {
        CommitCloses(cfg, s, k);
      }
    case _ => CallCloses(cfg, s, a);
  }

  /** What callers may do: anything but start the worker again or clear the queue over a record in hand. */
  ghost predicate Polite<B>(cfg: Config, s: State<B>, run: seq<Action<B>>) {
    OverlapFree(cfg, s, run) && forall k :: 0 <= k < |run| ==> !run[k].Run?
  }

  /**
   * A drain ends although Enqueue calls past their check go on: each adds at most its price to the
   * worker's steps and its attempts to the write calls, and the records left when the worker has
   * stopped are exactly those committed after it saw its counter at 0.
   */
  lemma {:induction false} DrainEndsWithCalls<B>(cfg: Config, s: State<B>, run: seq<Action<B>>)
    requires cfg.flushAll && Shutting(s) && !Late(s.pc) && Polite(cfg, s, run)
    ensures var t := Exec(cfg, s, run);
            && Closing(cfg, t, Latecomers(cfg, s, run))
            && Effort(cfg, s, run) + Distance(cfg, t) <= Distance(cfg, s)
            && |t.book.writes| <= Spent(cfg, t) <= |s.book.writes| + Load(s) + |s.entering| * Limit(cfg.maxAttempts)
            && (Effort(cfg, s, run) == Distance(cfg, s) ==> t.pc.Stopped?)
            && (t.pc.Stopped? ==> Pending(t.book) == Latecomers(cfg, s, run))
  {
    DistanceBounds(cfg, Exec(cfg, s, run));
    if run != [] {
      var earlier, a := run[..|run| - 1], run[|run| - 1];
      OverlapFreePrefix(cfg, s, run);
      assert !run[|run| - 1].Run?;
      assert Polite(cfg, s, earlier);
      DrainEndsWithCalls(cfg, s, earlier);
      StepCloses(cfg, Exec(cfg, s, earlier), a, Latecomers(cfg, s, earlier));
    }
  }

  lemma {:induction false} DistanceBounds<B>(cfg: Config, s: State<B>)
    ensures 0 <= Distance(cfg, s) && |s.book.writes| <= Spent(cfg, s)
    ensures Distance(cfg, s) == 0 ==> s.pc.Stopped?
  {
    LoadBounds(s);
  }
}
