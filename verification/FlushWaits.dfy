/**
 * Which records the completion of a Flush waits for, when the clock is steady: all that were queued or
 * tagged by then, but the record in the worker's hand, when it has no tag, only if the worker can no
 * longer put it back.
 */
module FlushWaits {
  import opened Common
  import opened Records
  import opened Completions
  import opened FlushQueue
  import opened FlushDrain
  import opened FlushClock

  /** A record that the worker may still find unexpired. */
  predicate Unexpired<B>(cfg: Config, r: Record<B>, clock: int) {
    clock < r.stamp + cfg.retention
  }

  /** A Flush without a completion that read the clock before record r was stamped, done or in progress. */
  predicate Older<B>(s: State<B>, r: Record<B>) {
    s.flushStamp < r.stamp || exists k :: 0 <= k < |s.desk.flushing| && Earlier(s.desk.flushing[k], r.stamp)
  }

  predicate Earlier(call: FlushCall, stamp: int) {
    call.now < stamp && call.ticket.None?
  }

  /** The worker does not let go of the record in hand before the record is gone. */
  predicate Doomed<B>(cfg: Config, s: State<B>, clock: int) {
    match s.book.hand
    case None => false
    case Some(r) =>
      (match s.pc
       case Expiring => true
       case Finishing(_) => true
       case Writing => r.attempts <= 1
       case Holding =>
         if cfg.flushAll then r.attempts <= 1 else !Unexpired(cfg, r, clock) || (r.attempts <= 1 && !Older(s, r))
       case Deciding => r.attempts <= 1 && !Older(s, r)
       case _ => false)
  }

  /** The worker can put the record in hand back and look at the completion while it is queued. */
  predicate Loose<B>(cfg: Config, s: State<B>, clock: int) {
    match s.book.hand
    case None => false
    case Some(r) =>
      (match s.pc
       case Retrying => true
       case Writing => 1 < r.attempts
       case Holding =>
         if cfg.flushAll then 1 < r.attempts else Unexpired(cfg, r, clock) && (1 < r.attempts || Older(s, r))
       case Deciding => 1 < r.attempts || (Older(s, r) && (!s.draining || Unexpired(cfg, r, clock)))
       case Requeuing => !s.draining || (Unexpired(cfg, r, clock) && (1 < r.attempts || Older(s, r)))
       case _ => false)
  }

  /** Unless a drain meets a record on its way back to the queue, a record in hand is one or the other. */
  lemma {:induction false} DoomedOrLoose<B>(cfg: Config, s: State<B>, clock: int)
    requires WorkerInv(s) && s.book.hand.Some?
    ensures !(Doomed(cfg, s, clock) && Loose(cfg, s, clock))
    ensures Doomed(cfg, s, clock) || Loose(cfg, s, clock) || (s.draining && (s.pc.Deciding? || s.pc.Requeuing?))
  {
    assert HasRecord(s.pc);
  }

  /** The tagged records in hand whose tags the Clears of a run drop. */
  ghost function Dropped<B>(cfg: Config, s: State<B>, run: seq<Action<B>>): set<nat> {
    if run == [] then {}
    else
      var before := Exec(cfg, s, run[..|run| - 1]);
      Dropped(cfg, s, run[..|run| - 1]) +
      if run[|run| - 1].Clear? && before.book.hand.Some? then before.book.manual * {before.book.hand.value.id} else {}
  }

  ghost predicate InDoomedHand<B>(cfg: Config, s: State<B>, id: nat, clock: int) {
    s.book.hand.Some? && s.book.hand.value.id == id && Doomed(cfg, s, clock)
  }

  lemma {:induction false} OlderLater<B>(s: State<B>, r: Record<B>, next: State<B>, clock: int, call: FlushCall)
    requires !Older(s, r) && r.stamp <= clock <= call.now
    requires next.flushStamp == s.flushStamp && next.desk.flushing == s.desk.flushing + [call]
    ensures !Older(next, r)
  {
  }

  lemma {:induction false} OlderDone<B>(s: State<B>, r: Record<B>, k: nat, next: State<B>)
    requires !Older(s, r) && k < |s.desk.flushing| && s.desk.flushing[k].ticket.None?
    requires next.flushStamp == s.desk.flushing[k].now && next.desk.flushing == Without(s.desk.flushing, k)
    ensures !Older(next, r)
  {
    assert !Earlier(s.desk.flushing[k], r.stamp);
    forall j | 0 <= j < |next.desk.flushing|
      ensures !Earlier(next.desk.flushing[j], r.stamp)
    {
      assert next.desk.flushing[j] == s.desk.flushing[if j < k then j else j + 1];
    }
  }

  /** A worker's step leads a doomed record closer to its end. */
  lemma {:induction false} DoomedStep<B>(cfg: Config, s: State<B>, clock: int, now: int, ok: bool)
    requires Doomed(cfg, s, clock) && clock <= now
    ensures var next, id := Step(cfg, s, Work(now, ok)), s.book.hand.value.id;
            next.desk == s.desk && (id in next.book.fates || InDoomedHand(cfg, next, id, now))
  {
    var next := RecordStep(cfg, s, now, ok);
    assert Step(cfg, s, Work(now, ok)) == next;
    if s.pc.Holding? || s.pc.Deciding? {
      assert next == s.(pc := next.pc);
      assert Older(next, s.book.hand.value) == Older(s, s.book.hand.value);
    }
  }

  /** A doomed record stays so whatever callers do, as long as they do not replace the completion. */
  lemma {:induction false} DoomedCall<B>(cfg: Config, s: State<B>, a: Action<B>, clock: int)
    requires Doomed(cfg, s, clock) && Timely(cfg, s, clock) && !a.Work? && Forward(a, clock) && WorkerInv(s)
    requires a.FlushCommit? && a.k < |s.desk.flushing| ==> s.desk.flushing[a.k].ticket.None?
    ensures InDoomedHand(cfg, Step(cfg, s, a), s.book.hand.value.id, Next(a, clock))
  {
    var next, r := Step(cfg, s, a), s.book.hand.value;
    assert next.book.hand == s.book.hand && next.pc == s.pc;
    if (s.pc.Holding? || s.pc.Deciding?) && !Older(s, r) {
      if a.FlushEnter? {
        OlderLater(s, r, next, clock, next.desk.flushing[|s.desk.flushing|]);
      } else if a.FlushCommit? && a.k < |s.desk.flushing| {
        OlderDone(s, r, a.k, next);
      } else {
        assert next.flushStamp == s.flushStamp && next.desk == s.desk;
      }
    }
  }

  /** The completion t has not been taken, and cannot be taken or is kept from it by record `id`. */
  ghost predicate Barred<B>(cfg: Config, s: State<B>, t: nat, id: nat, clock: int) {
    && t !in s.desk.taken
    && (s.desk.completion != Some(t) || id in s.book.manual || InDoomedHand(cfg, s, id, clock))
  }

  lemma {:induction false} WorkBarred<B>(cfg: Config, s: State<B>, clock: int, now: int, ok: bool, t: nat, id: nat)
    requires Inv(s) && Barred(cfg, s, t, id, clock) && clock <= now
    ensures var next := Step(cfg, s, Work(now, ok)); id in next.book.fates || Barred(cfg, next, t, id, now)
  {
    WorkMoves(cfg, s, now, ok);
    if s.desk.completion == Some(t) && id !in s.book.manual {
      DoomedStep(cfg, s, clock, now, ok);
    }
  }

  /** A record stops barring a completion only when it is gone or its tag is dropped. */
  lemma {:induction false} StepBarred<B>(cfg: Config, s: State<B>, a: Action<B>, t: nat, id: nat, clock: int)
    requires Inv(s) && t in s.desk.owed && Timely(cfg, s, clock) && Forward(a, clock) && Barred(cfg, s, t, id, clock)
    ensures var next := Step(cfg, s, a);
            || id in next.book.fates || Barred(cfg, next, t, id, Next(a, clock))
            || (a.Clear? && s.book.hand.Some? && id in s.book.manual * {s.book.hand.value.id})
  {
    match a
    case Work(now, ok) => WorkBarred(cfg, s, clock, now, ok, t, id);
    case Clear =>
      PendingIds(s.book);
      if InDoomedHand(cfg, s, id, clock) {
        DoomedCall(cfg, s, a, clock);
      }
    case FlushCommit(k) =>
      if k < |s.desk.flushing| && s.desk.flushing[k].ticket.Some? {
        assert Unused(s.desk, s.desk.flushing[k].ticket.value);
      } else if InDoomedHand(cfg, s, id, clock) {
        DoomedCall(cfg, s, a, clock);
      }
    case _ =>
      if InDoomedHand(cfg, s, id, clock) {
        DoomedCall(cfg, s, a, clock);
      }
  }

  /** Gone records stay gone, and a completion installed once stays on the desk's books. */
  lemma {:induction false} StepKeepsFates<B>(cfg: Config, s: State<B>, a: Action<B>)
    ensures var next := Step(cfg, s, a); s.book.fates.Keys <= next.book.fates.Keys && s.desk.owed.Keys <= next.desk.owed.Keys
  {
    if a.Work? {
      WorkMoves(cfg, s, a.clock, a.ok);
    }
  }

  /** What holds of a completion from the moment it is installed. */
  ghost predicate Waits<B>(cfg: Config, s: State<B>, t: nat, ids: set<nat>, dropped: set<nat>, clock: int) {
    && Inv(s) && Timely(cfg, s, clock) && t in s.desk.owed
    && forall id :: id in ids ==> id in s.book.fates || id in dropped || Barred(cfg, s, t, id, clock)
  }

  lemma {:induction false} StepWaits<B>(cfg: Config, s: State<B>, a: Action<B>, t: nat, ids: set<nat>, dropped: set<nat>,
                                        more: set<nat>, clock: int)
    requires Waits(cfg, s, t, ids, dropped, clock) && Forward(a, clock) && dropped <= more
    requires a.Clear? && s.book.hand.Some? ==> s.book.manual * {s.book.hand.value.id} <= more
    ensures Waits(cfg, Step(cfg, s, a), t, ids, more, Next(a, clock))
  {
    StepKeepsInv(cfg, s, a);
    StepTimely(cfg, s, a, clock);
    StepKeepsFates(cfg, s, a);
    forall id | id in ids && id !in s.book.fates && id !in dropped
      ensures id in Step(cfg, s, a).book.fates || id in more || Barred(cfg, Step(cfg, s, a), t, id, Next(a, clock))
    {
      StepBarred(cfg, s, a, t, id, clock);
    }
  }

  lemma {:induction false} RunWaits<B>(cfg: Config, s: State<B>, later: seq<Action<B>>, t: nat, ids: set<nat>, clock: int)
    requires Waits(cfg, s, t, ids, {}, clock) && Steady(later, clock)
    ensures Waits(cfg, Exec(cfg, s, later), t, ids, Dropped(cfg, s, later), Latest(later, clock))
  {
    if later != [] {
      var earlier := later[..|later| - 1];
      RunWaits(cfg, s, earlier, t, ids, clock);
      StepWaits(cfg, Exec(cfg, s, earlier), later[|later| - 1], t, ids, Dropped(cfg, s, earlier), Dropped(cfg, s, later),
                Latest(earlier, clock));
    }
  }

  /** The records a Flush at `now` is to cover. */
  function Covered<B>(b: Book<B>, now: int): set<nat> {
    b.manual + (set k | 0 <= k < |b.queue| && b.queue[k].stamp <= now :: b.queue[k].id)
    + if b.hand.Some? && b.hand.value.stamp <= now then {b.hand.value.id} else {}
  }

  /** A record in hand that a Flush at `now`, whose outcome is `s`, is to cover but has not tagged. */
  predicate Untagged<B>(s: State<B>, now: int) {
    s.book.hand.Some? && s.book.hand.value.stamp <= now && s.book.hand.value.id !in s.book.manual
  }

  lemma {:induction false} CommitWaits<B>(cfg: Config, s: State<B>, k: nat, clock: int)
    requires Inv(s) && Timely(cfg, s, clock) && k < |s.desk.flushing| && s.desk.flushing[k].ticket.Some?
    requires var s0 := Step(cfg, s, FlushCommit(k));
             Untagged(s0, s.desk.flushing[k].now) ==> Doomed(cfg, s0, clock)
    ensures Waits(cfg, Step(cfg, s, FlushCommit(k)), s.desk.flushing[k].ticket.value,
                  Covered(s.book, s.desk.flushing[k].now), {}, clock)
  {
    StepKeepsInv(cfg, s, FlushCommit(k));
    StepTimely(cfg, s, FlushCommit(k), clock);
    assert Unused(s.desk, s.desk.flushing[k].ticket.value);
  }

  /**
   * When the completion of a Flush has run, every record that had a tag, or was queued or in hand and
   * stamped by then, is gone or has had its tag dropped by a Clear since, unless the record in hand was
   * untagged and not doomed.
   */
  lemma {:induction false} FlushWaits<B>(cfg: Config, s: State<B>, k: nat, later: seq<Action<B>>, clock: int)
    requires Inv(s) && Timely(cfg, s, clock) && Steady(later, clock)
    requires k < |s.desk.flushing| && s.desk.flushing[k].ticket.Some?
    requires var s0 := Step(cfg, s, FlushCommit(k));
             Untagged(s0, s.desk.flushing[k].now) ==> Doomed(cfg, s0, clock)
    ensures var s0 := Step(cfg, s, FlushCommit(k)); var end := Exec(cfg, s0, later);
            s.desk.flushing[k].ticket.value in end.desk.taken ==>
              Covered(s.book, s.desk.flushing[k].now) <= end.book.fates.Keys + Dropped(cfg, s0, later)
  {
    CommitWaits(cfg, s, k, clock);
    RunWaits(cfg, Step(cfg, s, FlushCommit(k)), later, s.desk.flushing[k].ticket.value,
             Covered(s.book, s.desk.flushing[k].now), clock);
  }

  /** The record is gone, or the completion t cannot be taken or is kept from it by an untagged doomed record. */
  ghost predicate Bound<B>(cfg: Config, s: State<B>, t: nat, id: nat, clock: int) {
    match s
    case State(book, desk, _, _, _, _, _, _, _) =>
      || id in book.fates
      || (t !in desk.taken && desk.completion != Some(t))
      || (t !in desk.taken && id !in book.manual && InDoomedHand(cfg, s, id, clock))
  }

  /** An untagged doomed record is gone before the completion t is taken. */
  ghost predicate Sealed<B>(cfg: Config, s: State<B>, t: nat, id: nat, clock: int) {
    match s
    case State(_, desk, _, _, _, _, _, _, _) => Inv(s) && Timely(cfg, s, clock) && t in desk.owed && Bound(cfg, s, t, id, clock)
  }

  lemma {:induction false} StepBound<B>(cfg: Config, s: State<B>, a: Action<B>, t: nat, id: nat, clock: int)
    requires Sealed(cfg, s, t, id, clock) && Forward(a, clock)
    ensures Bound(cfg, Step(cfg, s, a), t, id, Next(a, clock))
  {
    if id in s.book.fates {
      StepKeepsFates(cfg, s, a);
    } else if s.desk.completion != Some(t) {
      StaysReplaced(cfg, s, a, t);
    } else {
      StepBarred(cfg, s, a, t, id, clock);
      StaysUntagged(cfg, s, a, id);
    }
  }

  /** A completion that another has replaced is never taken. */
  lemma {:induction false} StaysReplaced<B>(cfg: Config, s: State<B>, a: Action<B>, t: nat)
    requires Inv(s) && t in s.desk.owed && t !in s.desk.taken && s.desk.completion != Some(t)
    ensures var next := Step(cfg, s, a); t !in next.desk.taken && next.desk.completion != Some(t)
  {
    match a
    case Work(now, ok) => WorkMoves(cfg, s, now, ok);
    case FlushCommit(k) =>
      if k < |s.desk.flushing| && s.desk.flushing[k].ticket.Some? {
        assert Unused(s.desk, s.desk.flushing[k].ticket.value);
      }
    case _ =>
  }

  lemma {:induction false} StepSealed<B>(cfg: Config, s: State<B>, a: Action<B>, t: nat, id: nat, clock: int)
    requires Sealed(cfg, s, t, id, clock) && Forward(a, clock)
    ensures Sealed(cfg, Step(cfg, s, a), t, id, Next(a, clock))
  {
    StepKeepsInv(cfg, s, a);
    StepTimely(cfg, s, a, clock);
    StepKeepsFates(cfg, s, a);
    StepBound(cfg, s, a, t, id, clock);
  }

  /** A record in hand gets no tag. */
  lemma {:induction false} StaysUntagged<B>(cfg: Config, s: State<B>, a: Action<B>, id: nat)
    requires Inv(s)
    ensures s.book.hand.Some? && s.book.hand.value.id == id && id !in s.book.manual ==> id !in Step(cfg, s, a).book.manual
  {
    PendingIds(s.book);
    if a.Work? {
      WorkMoves(cfg, s, a.clock, a.ok);
    }
  }

  lemma {:induction false} RunSealed<B>(cfg: Config, s: State<B>, later: seq<Action<B>>, t: nat, id: nat, clock: int)
    requires Sealed(cfg, s, t, id, clock) && Steady(later, clock)
    ensures Sealed(cfg, Exec(cfg, s, later), t, id, Latest(later, clock))
  {
    if later != [] {
      RunSealed(cfg, s, later[..|later| - 1], t, id, clock);
      StepSealed(cfg, Exec(cfg, s, later[..|later| - 1]), later[|later| - 1], t, id, Latest(later[..|later| - 1], clock));
    }
  }

  /** Over a doomed record in hand a Clear does no harm: the record is gone when the completion installed has run. */
  lemma {:induction false} ClearWaits<B>(cfg: Config, s: State<B>, later: seq<Action<B>>, clock: int)
    requires Inv(s) && Timely(cfg, s, clock) && Steady(later, clock)
    requires s.desk.completion.Some? && Doomed(cfg, s, clock)
    ensures var end := Exec(cfg, Step(cfg, s, Clear), later);
            s.desk.completion.value in end.desk.taken ==> s.book.hand.value.id in end.book.fates
  {
    var t := s.desk.completion.value;
    StepKeepsInv(cfg, s, Clear);
    StepTimely(cfg, s, Clear, clock);
    DoomedCall(cfg, s, Clear, clock);
    assert Installed(s.desk, t, s.book.manual + Excused(s.book));
    RunSealed(cfg, Step(cfg, s, Clear), later, t, s.book.hand.value.id, clock);
  }
}
