/**
 * Drains of a queue whose counter a Clear has put off by one: when they end, and what they leave.
 */
module FlushStray {
  import opened Common
  import opened Words
  import opened Records
  import opened FlushQueue
  import opened FlushDrain

  /** A draining worker whose counter is off by one and that will see it at 0 with a record left. */
  ghost predicate Astray<B>(s: State<B>) {
    match s.pc
    case Expiring | Deciding | Requeuing => false
    case Pop => Off(s) && s.draining && 2 <= |s.book.queue|
    case Lowering => Off(s) && s.draining && |s.book.queue| == 1
    case Leaving | Stopped => Off(s) && |s.book.queue| == 1
    case _ => Off(s) && s.draining && s.book.queue != []
  }

  ghost predicate Off<B>(s: State<B>) {
    Inv(s) && s.overlapped && Count(s.book) < WORD
  }

  lemma {:induction false} LoopStrays<B>(s: State<B>)
    requires Astray(s) && s.book.hand.None? && !s.pc.Stopped? && 0 < Load(s)
    ensures var next := LoopStep(s);
            && next.overlapped && Count(next.book) <= Count(s.book) && Load(next) == Load(s)
            && Measure(next) < Measure(s) && next.book.writes == s.book.writes
            && Onward(next.pc, |next.book.queue|, next.draining)
  {
    if s.pc.SizeCheck? && s.queueSize == 0 {
      OneLeft(|s.book.queue|);
    } else if s.pc.SizeCheck? {
      assert |s.book.queue| != 1 by {
        assert s.queueSize == Wrap(|s.book.queue| - 1);
      }
    }
    if s.pc.Pop? {
      FrontLoad(s.book.queue);
    }
  }

  lemma {:induction false} OneLeft(n: nat)
    requires 0 < n < WORD && Wrap(n - 1) == 0
    ensures n == 1
  {
  }

  /** What Astray asks of the queue's length at each place. */
  predicate Onward(pc: Pc, n: nat, draining: bool) {
    match pc
    case Expiring | Deciding | Requeuing => false
    case Pop => draining && 2 <= n
    case Lowering => draining && n == 1
    case Leaving | Stopped => n == 1
    case _ => draining && 1 <= n
  }

  /** Each step keeps such a worker astray and brings it closer to the end. */
  lemma {:induction false} StrayDescends<B>(cfg: Config, s: State<B>, clock: int, ok: bool)
    requires cfg.flushAll && Astray(s) && !s.pc.Stopped?
    ensures var next := Step(cfg, s, Work(clock, ok));
            && Astray(next) && Measure(next) < Measure(s)
            && |next.book.writes| + Load(next) <= |s.book.writes| + Load(s)
  {
    StepKeepsInv(cfg, s, Work(clock, ok));
    LoadBounds(s);
    LoadBounds(Step(cfg, s, Work(clock, ok)));
    if s.book.hand.Some? {
      RecordDescends(cfg, s, clock, ok);
    } else {
      LoopStrays(s);
    }
  }

  lemma {:induction false} CallStrays<B>(cfg: Config, s: State<B>, a: Action<B>)
    requires Astray(s) && !a.Work? && !a.EnqueueCommit? && !a.Run? && !a.Clear?
    ensures var next := Step(cfg, s, a);
            Astray(next) && Measure(next) == Measure(s) && next.book.writes == s.book.writes && Load(next) == Load(s)
  {
    StepKeepsInv(cfg, s, a);
  }

  /** What callers may do: anything but queue a record, clear the queue or start the worker again. */
  ghost predicate Calm<B>(run: seq<Action<B>>) {
    forall k :: 0 <= k < |run| ==> !run[k].EnqueueCommit? && !run[k].Run? && !run[k].Clear?
  }

  /** Such a drain ends, within the same bounds as an exact one, and leaves exactly one record queued. */
  lemma {:induction false} StrayEnds<B>(cfg: Config, s: State<B>, run: seq<Action<B>>)
    requires cfg.flushAll && Astray(s) && Calm(run)
    ensures var t := Exec(cfg, s, run);
            && Astray(t)
            && Effort(cfg, s, run) + Measure(t) <= Measure(s)
            && |t.book.writes| + Load(t) <= |s.book.writes| + Load(s)
            && (Effort(cfg, s, run) == Measure(s) ==> t.pc.Stopped?)
            && (t.pc.Stopped? ==> |Pending(t.book)| == 1)
  {
    LoadBounds(Exec(cfg, s, run));
    if run != [] {
      var earlier, a := run[..|run| - 1], run[|run| - 1];
      assert forall k :: 0 <= k < |earlier| ==> earlier[k] == run[k];
      StrayEnds(cfg, s, earlier);
      assert !run[|run| - 1].EnqueueCommit?;
      StrayStep(cfg, Exec(cfg, s, earlier), a);
    }
  }

  lemma {:induction false} StrayStep<B>(cfg: Config, s: State<B>, a: Action<B>)
    requires cfg.flushAll && Astray(s) && !a.EnqueueCommit? && !a.Run? && !a.Clear?
    ensures var next := Step(cfg, s, a);
            && Astray(next)
            && (if a.Work? && !s.pc.Stopped? then 1 else 0) + Measure(next) <= Measure(s)
            && |next.book.writes| + Load(next) <= |s.book.writes| + Load(s)
  {
    if !a.Work? {
      CallStrays(cfg, s, a);
    } else if s.pc.Stopped? {
      assert Step(cfg, s, a) == s;
    } else {
      StrayDescends(cfg, s, a.clock, a.ok);
    }
  }

  /** The queue after `n` steps of the worker, whose answers are `answers`. */
  ghost function WorkFor<B>(cfg: Config, s: State<B>, answers: nat -> (int, bool), n: nat): State<B> {
    if n == 0 then s else Step(cfg, WorkFor(cfg, s, answers, n - 1), Work(answers(n - 1).0, answers(n - 1).1))
  }

  /** A worker that gets to the end within `steps`, leaving as many records as its counter is off by. */
  ghost predicate Ends<B>(s: State<B>, off: bool, steps: int) {
    match s
    case State(_, _, _, _, _, _, pc, _, overlapped) =>
      && overlapped == off && (pc.Stopped? || Measure(s) <= steps)
      && (if off then Astray(s) else Draining(s))
  }

  lemma {:induction false} EndsStep<B>(cfg: Config, s: State<B>, off: bool, steps: int, clock: int, ok: bool)
    requires cfg.flushAll && Ends(s, off, steps)
    ensures Ends(Step(cfg, s, Work(clock, ok)), off, steps - 1)
  {
    if s.pc.Stopped? {
      assert s.book.hand.None?;
    } else if off {
      StrayDescends(cfg, s, clock, ok);
    } else {
      WorkDescends(cfg, s, clock, ok);
    }
  }

  lemma {:induction false} EndsIn<B>(cfg: Config, s: State<B>, off: bool, steps: int, answers: nat -> (int, bool), n: nat)
    requires cfg.flushAll && Ends(s, off, steps)
    ensures Ends(WorkFor(cfg, s, answers, n), off, steps - n)
  {
    if n != 0 {
      EndsIn(cfg, s, off, steps, answers, n - 1);
      EndsStep(cfg, WorkFor(cfg, s, answers, n - 1), off, steps - (n - 1), answers(n - 1).0, answers(n - 1).1);
    }
  }

  lemma {:induction false} EndsWith<B>(s: State<B>, off: bool, steps: int)
    requires Ends(s, off, steps)
    ensures steps <= 0 ==> s.pc.Stopped?
    ensures s.pc.Stopped? ==> |Pending(s.book)| == |s.book.queue| == (if off then 1 else 0)
  {
    LoadBounds(s);
  }

  lemma {:induction false} StuckFor<B>(cfg: Config, s: State<B>, answers: nat -> (int, bool), n: nat)
    requires Stuck(s)
    ensures Stuck(WorkFor(cfg, s, answers, n))
  {
    if n != 0 {
      StuckFor(cfg, s, answers, n - 1);
      StuckStep(cfg, WorkFor(cfg, s, answers, n - 1), Work(answers(n - 1).0, answers(n - 1).1));
    }
  }

  ghost predicate Stops<B>(cfg: Config, s: State<B>, answers: nat -> (int, bool)) {
    exists n: nat :: WorkFor(cfg, s, answers, n).pc.Stopped?
  }

  /**
   * When a drain ends, decided at the size check: exactly if the counter is exact or a record is queued
   * there; and then the worker leaves as many records as the counter is off by.
   */
  lemma {:induction false} DrainEndsIff<B>(cfg: Config, s: State<B>, answers: nat -> (int, bool))
    requires cfg.flushAll && Inv(s) && s.draining && s.pc.SizeCheck? && Count(s.book) < WORD
    ensures Stops(cfg, s, answers) <==> !s.overlapped || s.book.queue != []
    ensures forall n: nat :: var t := WorkFor(cfg, s, answers, n); t.pc.Stopped? ==> |Pending(t.book)| == Drift(s)
  {
    if s.overlapped && s.book.queue == [] {
      forall n: nat
        ensures !WorkFor(cfg, s, answers, n).pc.Stopped?
      {
        StuckFor(cfg, s, answers, n);
      }
    } else {
      var steps := Measure(s);
      forall n: nat
        ensures var t := WorkFor(cfg, s, answers, n); t.pc.Stopped? ==> |Pending(t.book)| == Drift(s)
      {
        EndsIn(cfg, s, s.overlapped, steps, answers, n);
        EndsWith(WorkFor(cfg, s, answers, n), s.overlapped, steps - n);
      }
      LoadBounds(s);
      EndsIn(cfg, s, s.overlapped, steps, answers, steps);
      EndsWith(WorkFor(cfg, s, answers, steps), s.overlapped, 0);
      assert Stops(cfg, s, answers);
    }
  }
}
