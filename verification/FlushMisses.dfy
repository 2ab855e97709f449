/**
 * How the completion of a Flush runs while the record that was in the worker's hand is queued: runs,
 * with a steady clock, from every state in which the worker can put that record back.
 */
module FlushMisses {
  import opened Common
  import opened Records
  import opened Completions
  import opened FlushQueue
  import opened FlushDrain
  import opened FlushClock
  import opened FlushWaits

  /** A step that does not read the clock, or reads `clock`. */
  predicate Reads<B>(a: Action<B>, clock: int) {
    match a
    case FlushEnter(now, _) => now == clock
    case EnqueueEnter(stamp, _) => stamp == clock
    case Work(now, _) => now == clock
    case _ => true
  }

  /** Every reading of the clock in a run shows `clock`. */
  ghost predicate Level<B>(run: seq<Action<B>>, clock: int) {
    forall k :: 0 <= k < |run| ==> Reads(run[k], clock)
  }

  lemma {:induction false} LevelIsSteady<B>(run: seq<Action<B>>, clock: int)
    requires Level(run, clock)
    ensures Steady(run, clock) && Latest(run, clock) == clock
  {
    if run != [] {
      LevelIsSteady(run[..|run| - 1], clock);
    }
  }

  /** `run` leads to `s`, reads the clock at `clock` only, and drops no tag of record `id`. */
  ghost predicate Course<B>(cfg: Config, s0: State<B>, run: seq<Action<B>>, s: State<B>, id: nat, clock: int) {
    match s
    case State(_, _, _, _, _, _, _, _, _) => s == Exec(cfg, s0, run) && Level(run, clock) && id !in Dropped(cfg, s0, run)
  }

  /** Plays one more action after `run`. */
  lemma {:induction false} Play<B>(cfg: Config, s0: State<B>, run: seq<Action<B>>, s: State<B>, id: nat, clock: int, a: Action<B>)
    returns (more: seq<Action<B>>, next: State<B>)
    requires Course(cfg, s0, run, s, id, clock) && id !in s.book.manual && Reads(a, clock)
    ensures next == Step(cfg, s, a) && Course(cfg, s0, more, next, id, clock)
  {
    more, next := run + [a], Step(cfg, s, a);
    assert more[..|run|] == run;
  }

  /** The completion t is installed and record `id` is neither gone nor tagged. */
  ghost predicate Open<B>(s: State<B>, t: nat, id: nat) {
    match s
    case State(book, desk, _, _, running, _, _, _, _) =>
      running && desk.completion == Some(t) && id !in book.fates && id !in book.manual && id < book.nextId
  }

  /** The completion has been taken while record `id` is queued. */
  ghost predicate Missed<B>(s: State<B>, t: nat, id: nat) {
    t in s.desk.taken && id in Ids(s.book.queue) && id !in s.book.fates
  }

  /** Where everything is. */
  ghost predicate Scene<B>(s: State<B>, queue: seq<Record<B>>, hand: Option<Record<B>>, pc: Pc, manual: set<nat>) {
    match s
    case State(book, _, _, _, _, _, at, _, _) =>
      book.queue == queue && book.hand == hand && at == pc && book.manual == manual
  }

  lemma {:induction false} Wiped<B>(cfg: Config, s: State<B>, t: nat, r: Record<B>)
    requires Open(s, t, r.id) && Sound(s.book) && s.book.hand == Some(r)
    ensures var next := Step(cfg, s, Clear);
            && Open(next, t, r.id) && Scene(next, [], Some(r), s.pc, {})
            && next == s.(book := next.book, queueSize := 0, overlapped := true)
  {
    PendingIds(s.book);
  }

  /** With nothing tagged the completion is taken. */
  lemma {:induction false} Released<B>(cfg: Config, s0: State<B>, run0: seq<Action<B>>, s1: State<B>, t: nat, r: Record<B>, clock: int)
    returns (run: seq<Action<B>>, s: State<B>)
    requires Course(cfg, s0, run0, s1, r.id, clock) && Open(s1, t, r.id) && Scene(s1, [r], None, Notify, {})
    ensures Course(cfg, s0, run, s, r.id, clock) && Missed(s, t, r.id)
  {
    run, s := Play(cfg, s0, run0, s1, r.id, clock, Work(clock, true));
    SingleId(r);
  }

  /** A record that is put back after a failed write is queued when the completion is taken. */
  lemma {:induction false} FromRetrying<B>(cfg: Config, s0: State<B>, run0: seq<Action<B>>, s1: State<B>, t: nat, r: Record<B>, clock: int)
    returns (run: seq<Action<B>>, s: State<B>)
    requires Course(cfg, s0, run0, s1, r.id, clock) && Open(s1, t, r.id) && Sound(s1.book)
    requires s1.book.hand == Some(r) && s1.pc == Retrying
    ensures Course(cfg, s0, run, s, r.id, clock) && Missed(s, t, r.id)
  {
    Wiped(cfg, s1, t, r);
    run, s := Play(cfg, s0, run0, s1, r.id, clock, Clear);
    run, s := Play(cfg, s0, run, s, r.id, clock, Work(clock, true));
    assert Scene(s, [r], None, Notify, {}) && Open(s, t, r.id);
    run, s := Released(cfg, s0, run, s, t, r, clock);
  }

  lemma {:induction false} FromWriting<B>(cfg: Config, s0: State<B>, run0: seq<Action<B>>, s1: State<B>, t: nat, r: Record<B>, clock: int)
    returns (run: seq<Action<B>>, s: State<B>)
    requires Course(cfg, s0, run0, s1, r.id, clock) && Open(s1, t, r.id) && Sound(s1.book)
    requires s1.book.hand == Some(r) && s1.pc == Writing && 1 < r.attempts
    ensures Course(cfg, s0, run, s, r.id, clock) && Missed(s, t, r.id)
  {
    HandSound(s1.book, false);
    run, s := Play(cfg, s0, run0, s1, r.id, clock, Work(clock, false));
    assert s == s1.(book := Attempt(s1.book, false), pc := Retrying);
    assert Open(s, t, r.id);
    run, s := FromRetrying(cfg, s0, run, s, t, r.(attempts := r.attempts - 1), clock);
  }

  /** A Flush without a completion, from beginning to end, while record `id` is in hand. */
  lemma {:induction false} FlushNow<B>(cfg: Config, s0: State<B>, run0: seq<Action<B>>, s1: State<B>, t: nat, id: nat, clock: int)
    returns (run: seq<Action<B>>, s: State<B>)
    requires Course(cfg, s0, run0, s1, id, clock) && Open(s1, t, id) && id !in Due(s1.book.queue, clock)
    ensures Course(cfg, s0, run, s, id, clock) && Open(s, t, id)
    ensures s == s1.(book := Tag(s1.book, Due(s1.book.queue, clock)), flushStamp := clock)
  {
    var n, calls := |s1.desk.flushing|, s1.desk.flushing;
    run, s := Play(cfg, s0, run0, s1, id, clock, FlushEnter(clock, false));
    assert s == s1.(desk := s1.desk.(flushing := calls + [FlushCall(clock, None)]));
    assert Without(calls + [FlushCall(clock, None)], n) == calls;
    run, s := Play(cfg, s0, run, s, id, clock, FlushCommit(n));
  }

  lemma {:induction false} HandNotDue<B>(b: Book<B>, now: int)
    requires Sound(b) && b.hand.Some?
    ensures b.hand.value.id !in Due(b.queue, now)
  {
    PendingIds(b);
    assert Due(b.queue, now) <= Ids(b.queue);
  }

  /** A record with attempts left that is due is written in vain. */
  lemma {:induction false} FromDecidingTries<B>(cfg: Config, s0: State<B>, run0: seq<Action<B>>, s1: State<B>, t: nat, r: Record<B>, clock: int)
    returns (run: seq<Action<B>>, s: State<B>)
    requires Course(cfg, s0, run0, s1, r.id, clock) && Open(s1, t, r.id) && Sound(s1.book)
    requires s1.book.hand == Some(r) && s1.pc == Deciding && 1 < r.attempts && r.stamp <= clock
    ensures Course(cfg, s0, run, s, r.id, clock) && Missed(s, t, r.id)
  {
    HandNotDue(s1.book, clock);
    TagSound(s1.book, clock);
    run, s := FlushNow(cfg, s0, run0, s1, t, r.id, clock);
    var due := s;
    run, s := Play(cfg, s0, run, s, r.id, clock, Work(clock, true));
    assert s == due.(pc := Writing);
    run, s := FromWriting(cfg, s0, run, s, t, r, clock);
  }

  /** An earlier Flush makes the record not due, so that it is on its way back. */
  lemma {:induction false} NotDue<B>(cfg: Config, s0: State<B>, run0: seq<Action<B>>, s1: State<B>, t: nat, r: Record<B>, clock: int)
    returns (run: seq<Action<B>>, s: State<B>)
    requires Course(cfg, s0, run0, s1, r.id, clock) && Open(s1, t, r.id) && Sound(s1.book)
    requires s1.book.hand == Some(r) && Older(s1, r)
    ensures Course(cfg, s0, run, s, r.id, clock) && Open(s, t, r.id) && Sound(s.book) && s.flushStamp < r.stamp
    ensures s == s1.(book := Tag(s1.book, s.book.manual), desk := s.desk, flushStamp := s.flushStamp)
  {
    run, s := run0, s1;
    assert Tag(s1.book, s1.book.manual) == s1.book;
    if r.stamp <= s1.flushStamp {
      var k :| 0 <= k < |s1.desk.flushing| && Earlier(s1.desk.flushing[k], r.stamp);
      HandNotDue(s1.book, s1.desk.flushing[k].now);
      TagSound(s1.book, s1.desk.flushing[k].now);
      run, s := Play(cfg, s0, run0, s1, r.id, clock, FlushCommit(k));
      assert s.book.manual == s1.book.manual + Due(s1.book.queue, s1.desk.flushing[k].now);
      assert Tag(s1.book, s.book.manual) == s.book;
    }
  }

  /** While record r is in hand, a second one is queued, and tagged by a Flush. */
  lemma {:induction false} Second<B>(cfg: Config, s0: State<B>, run0: seq<Action<B>>, s1: State<B>, t: nat, r: Record<B>, clock: int)
    returns (run: seq<Action<B>>, s: State<B>, z: Record<B>)
    requires Course(cfg, s0, run0, s1, r.id, clock) && Open(s1, t, r.id) && Scene(s1, [], Some(r), Requeuing, {}) && !s1.draining
    ensures Course(cfg, s0, run, s, r.id, clock) && Open(s, t, r.id) && Scene(s, [z], Some(r), Requeuing, {z.id})
    ensures z.id != r.id && z.stamp == clock == s.flushStamp && !s.draining
  {
    var n := |s1.entering|;
    z := Record(s1.book.nextId, clock, cfg.maxAttempts, r.buffer);
    run, s := Play(cfg, s0, run0, s1, r.id, clock, EnqueueEnter(clock, r.buffer));
    assert s == s1.(entering := s1.entering + [(clock, r.buffer)]);
    assert s.entering[n] == (clock, r.buffer);
    run, s := Play(cfg, s0, run, s, r.id, clock, EnqueueCommit(n));
    assert Open(s, t, r.id) && Scene(s, [z], Some(r), Requeuing, {}) && !s.draining;
    DueOne(z, clock);
    run, s := FlushNow(cfg, s0, run, s, t, r.id, clock);
  }

  lemma {:induction false} DueOne<B>(z: Record<B>, now: int)
    requires z.stamp <= now
    ensures Due([z], now) == {z.id}
  {
    assert [z][0] == z;
  }

  /** Record r goes back behind a second record, which is written and was the only one tagged. */
  lemma {:induction false} FromRequeuingLive<B>(cfg: Config, s0: State<B>, run0: seq<Action<B>>, s1: State<B>, t: nat, r: Record<B>, clock: int)
    returns (run: seq<Action<B>>, s: State<B>)
    requires Course(cfg, s0, run0, s1, r.id, clock) && Open(s1, t, r.id) && Sound(s1.book) && !cfg.flushAll && 0 < cfg.retention
    requires s1.book.hand == Some(r) && s1.pc == Requeuing && !s1.draining
    ensures Course(cfg, s0, run, s, r.id, clock) && Missed(s, t, r.id)
  {
    var z;
    Wiped(cfg, s1, t, r);
    run, s := Play(cfg, s0, run0, s1, r.id, clock, Clear);
    run, s, z := Second(cfg, s0, run, s, t, r, clock);
    var before := s;
    run, s := Play(cfg, s0, run, s, r.id, clock, Work(clock, true));
    assert s.book.queue == [z, r];
    assert Scene(s, [z, r], None, Top, {z.id}) && Open(s, t, r.id) && s.flushStamp == clock && !s.draining;
    run, s := TakesFirst(cfg, s0, run, s, t, r.id, z, r, {z.id}, clock);
    run, s := WritesSecond(cfg, s0, run, s, t, r, z, clock);
  }

  /** The worker takes the first record. */
  lemma {:induction false} TakesFirst<B>(cfg: Config, s0: State<B>, run0: seq<Action<B>>, s1: State<B>, t: nat, id: nat,
                                         x: Record<B>, y: Record<B>, manual: set<nat>, clock: int)
    returns (run: seq<Action<B>>, s: State<B>)
    requires Course(cfg, s0, run0, s1, id, clock) && Open(s1, t, id) && Scene(s1, [x, y], None, Top, manual) && !s1.draining
    ensures Course(cfg, s0, run, s, id, clock) && Open(s, t, id) && Scene(s, [y], Some(x), Holding, manual)
    ensures s.flushStamp == s1.flushStamp && !s.draining
  {
    run, s := Play(cfg, s0, run0, s1, id, clock, Work(clock, true));
    assert s == s1.(pc := Pop);
    run, s := Play(cfg, s0, run, s, id, clock, Work(clock, true));
    assert [x, y][1..] == [y];
  }

  lemma {:induction false} WritesSecond<B>(cfg: Config, s0: State<B>, run0: seq<Action<B>>, s1: State<B>, t: nat, r: Record<B>,
                                           z: Record<B>, clock: int)
    returns (run: seq<Action<B>>, s: State<B>)
    requires Course(cfg, s0, run0, s1, r.id, clock) && Open(s1, t, r.id) && Scene(s1, [r], Some(z), Holding, {z.id})
    requires z.id != r.id && z.stamp == clock == s1.flushStamp && !cfg.flushAll && 0 < cfg.retention
    ensures Course(cfg, s0, run, s, r.id, clock) && Missed(s, t, r.id)
  {
    run, s := Play(cfg, s0, run0, s1, r.id, clock, Work(clock, true));
    assert s == s1.(pc := Deciding);
    run, s := Play(cfg, s0, run, s, r.id, clock, Work(clock, true));
    assert s == s1.(pc := Writing);
    assert Open(s, t, r.id) && Scene(s, [r], Some(z), Writing, {z.id});
    run, s := WriteEnds(cfg, s0, run, s, t, r, z, clock);
    run, s := Released(cfg, s0, run, s, t, r, clock);
  }

  lemma {:induction false} WriteEnds<B>(cfg: Config, s0: State<B>, run0: seq<Action<B>>, s1: State<B>, t: nat, r: Record<B>,
                                        z: Record<B>, clock: int)
    returns (run: seq<Action<B>>, s: State<B>)
    requires Course(cfg, s0, run0, s1, r.id, clock) && Open(s1, t, r.id) && Scene(s1, [r], Some(z), Writing, {z.id})
    requires z.id != r.id
    ensures Course(cfg, s0, run, s, r.id, clock) && Open(s, t, r.id) && Scene(s, [r], None, Notify, {})
  {
    run, s := Play(cfg, s0, run0, s1, r.id, clock, Work(clock, true));
    assert s == s1.(book := Attempt(s1.book, true), pc := Finishing(true));
    var was := s;
    run, s := Play(cfg, s0, run, s, r.id, clock, Work(clock, true));
    assert s.book == Forget(was.book, Written) && s.pc == Notify && s.desk == s1.desk && s.running == s1.running;
  }

  /** A draining worker whose queue is cleared stops, is started again, and takes record r once more. */
  lemma {:induction false} GoRound<B>(cfg: Config, s0: State<B>, run0: seq<Action<B>>, s1: State<B>, t: nat, r: Record<B>, clock: int)
    returns (run: seq<Action<B>>, s: State<B>)
    requires Course(cfg, s0, run0, s1, r.id, clock) && Open(s1, t, r.id) && Sound(s1.book) && !cfg.flushAll
    requires s1.book.hand == Some(r) && s1.pc == Requeuing && s1.draining && Unexpired(cfg, r, clock)
    ensures Course(cfg, s0, run, s, r.id, clock) && Open(s, t, r.id) && Sound(s.book)
    ensures s.book.hand == Some(r) && s.pc == Deciding && !s.draining && s.flushStamp == s1.flushStamp && s.desk == s1.desk
  {
    Wiped(cfg, s1, t, r);
    WipeSound(s1.book);
    run, s := Play(cfg, s0, run0, s1, r.id, clock, Clear);
    HandSound(s.book, true);
    run, s := Play(cfg, s0, run, s, r.id, clock, Work(clock, true));
    assert Open(s, t, r.id) && Scene(s, [r], None, Top, {}) && s.queueSize == 0 && Sound(s.book);
    run, s := Restart(cfg, s0, run, s, t, r, clock);
    run, s := TakesOnly(cfg, s0, run, s, t, r, clock);
  }

  /** A draining worker that reads a zero counter stops, and can be started again. */
  lemma {:induction false} Restart<B>(cfg: Config, s0: State<B>, run0: seq<Action<B>>, s1: State<B>, t: nat, r: Record<B>, clock: int)
    returns (run: seq<Action<B>>, s: State<B>)
    requires Course(cfg, s0, run0, s1, r.id, clock) && Open(s1, t, r.id) && Scene(s1, [r], None, Top, {})
    requires s1.queueSize == 0 && s1.draining
    ensures Course(cfg, s0, run, s, r.id, clock) && s == s1.(draining := false) && Open(s, t, r.id) && Scene(s, [r], None, Top, {})
  {
    run, s := Play(cfg, s0, run0, s1, r.id, clock, Work(clock, true));
    assert s == s1.(pc := SizeCheck);
    run, s := Play(cfg, s0, run, s, r.id, clock, Work(clock, true));
    assert s == s1.(pc := Lowering);
    run, s := Leaves(cfg, s0, run, s, r.id, clock);
    run, s := Play(cfg, s0, run, s, r.id, clock, Run);
    assert s == s1.(draining := false);
  }

  lemma {:induction false} Leaves<B>(cfg: Config, s0: State<B>, run0: seq<Action<B>>, s1: State<B>, id: nat, clock: int)
    returns (run: seq<Action<B>>, s: State<B>)
    requires Course(cfg, s0, run0, s1, id, clock) && s1.pc == Lowering && s1.book.hand.None? && id !in s1.book.manual
    ensures Course(cfg, s0, run, s, id, clock) && s == s1.(draining := false, running := false, pc := Stopped)
  {
    run, s := Play(cfg, s0, run0, s1, id, clock, Work(clock, true));
    assert s == s1.(draining := false, pc := Leaving);
    run, s := Play(cfg, s0, run, s, id, clock, Work(clock, true));
  }

  lemma {:induction false} TakesOnly<B>(cfg: Config, s0: State<B>, run0: seq<Action<B>>, s1: State<B>, t: nat, r: Record<B>, clock: int)
    returns (run: seq<Action<B>>, s: State<B>)
    requires Course(cfg, s0, run0, s1, r.id, clock) && Open(s1, t, r.id) && Scene(s1, [r], None, Top, {}) && Sound(s1.book)
    requires !s1.draining && !cfg.flushAll && Unexpired(cfg, r, clock)
    ensures Course(cfg, s0, run, s, r.id, clock) && Open(s, t, r.id) && Sound(s.book)
    ensures s.book.hand == Some(r) && s.pc == Deciding && !s.draining && s.flushStamp == s1.flushStamp && s.desk == s1.desk
  {
    TakeSound(s1.book);
    run, s := Play(cfg, s0, run0, s1, r.id, clock, Work(clock, true));
    assert s == s1.(pc := Pop);
    run, s := Play(cfg, s0, run, s, r.id, clock, Work(clock, true));
    assert s == s1.(book := Take(s1.book), pc := Holding);
    run, s := Play(cfg, s0, run, s, r.id, clock, Work(clock, true));
    assert s == s1.(book := Take(s1.book), pc := Deciding);
  }

  /** A record that is not due goes back. */
  lemma {:induction false} GoesBack<B>(cfg: Config, s0: State<B>, run0: seq<Action<B>>, s1: State<B>, t: nat, r: Record<B>, clock: int)
    returns (run: seq<Action<B>>, s: State<B>)
    requires Course(cfg, s0, run0, s1, r.id, clock) && Open(s1, t, r.id) && Sound(s1.book)
    requires s1.book.hand == Some(r) && s1.pc == Deciding && Older(s1, r)
    ensures Course(cfg, s0, run, s, r.id, clock) && Open(s, t, r.id) && Sound(s.book)
    ensures s.book.hand == Some(r) && s.pc == Requeuing && s.flushStamp < r.stamp && s.draining == s1.draining
  {
    run, s := NotDue(cfg, s0, run0, s1, t, r, clock);
    var was := s;
    run, s := Play(cfg, s0, run, s, r.id, clock, Work(clock, true));
    assert s == was.(pc := Requeuing);
  }

  lemma {:induction false} FromDecidingLive<B>(cfg: Config, s0: State<B>, run0: seq<Action<B>>, s1: State<B>, t: nat, r: Record<B>, clock: int)
    returns (run: seq<Action<B>>, s: State<B>)
    requires Course(cfg, s0, run0, s1, r.id, clock) && Open(s1, t, r.id) && Sound(s1.book) && !cfg.flushAll && 0 < cfg.retention
    requires s1.book.hand == Some(r) && s1.pc == Deciding && !s1.draining && r.stamp <= clock && (1 < r.attempts || Older(s1, r))
    ensures Course(cfg, s0, run, s, r.id, clock) && Missed(s, t, r.id)
  {
    if 1 < r.attempts {
      run, s := FromDecidingTries(cfg, s0, run0, s1, t, r, clock);
    } else {
      run, s := GoesBack(cfg, s0, run0, s1, t, r, clock);
      run, s := FromRequeuingLive(cfg, s0, run, s, t, r, clock);
    }
  }

  lemma {:induction false} FromRequeuing<B>(cfg: Config, s0: State<B>, run0: seq<Action<B>>, s1: State<B>, t: nat, r: Record<B>, clock: int)
    returns (run: seq<Action<B>>, s: State<B>)
    requires Course(cfg, s0, run0, s1, r.id, clock) && Open(s1, t, r.id) && Sound(s1.book) && !cfg.flushAll && 0 < cfg.retention
    requires s1.book.hand == Some(r) && s1.pc == Requeuing && r.stamp <= clock && Loose(cfg, s1, clock)
    ensures Course(cfg, s0, run, s, r.id, clock) && Missed(s, t, r.id)
  {
    if !s1.draining {
      run, s := FromRequeuingLive(cfg, s0, run0, s1, t, r, clock);
    } else {
      run, s := GoRound(cfg, s0, run0, s1, t, r, clock);
      run, s := FromDecidingLive(cfg, s0, run, s, t, r, clock);
    }
  }

  lemma {:induction false} FromDeciding<B>(cfg: Config, s0: State<B>, run0: seq<Action<B>>, s1: State<B>, t: nat, r: Record<B>, clock: int)
    returns (run: seq<Action<B>>, s: State<B>)
    requires Course(cfg, s0, run0, s1, r.id, clock) && Open(s1, t, r.id) && Sound(s1.book) && !cfg.flushAll && 0 < cfg.retention
    requires s1.book.hand == Some(r) && s1.pc == Deciding && r.stamp <= clock && Loose(cfg, s1, clock)
    ensures Course(cfg, s0, run, s, r.id, clock) && Missed(s, t, r.id)
  {
    if 1 < r.attempts {
      run, s := FromDecidingTries(cfg, s0, run0, s1, t, r, clock);
    } else {
      run, s := GoesBack(cfg, s0, run0, s1, t, r, clock);
      run, s := FromRequeuing(cfg, s0, run, s, t, r, clock);
    }
  }

  /** From any state with a loose record in hand and a completion that does not wait for it. */
  lemma {:induction false} FromHere<B>(cfg: Config, s0: State<B>, t: nat, r: Record<B>, clock: int)
    returns (run: seq<Action<B>>, s: State<B>)
    requires Inv(s0) && Timely(cfg, s0, clock) && (cfg.flushAll ==> Ageless(s0.pc))
    requires Open(s0, t, r.id) && s0.book.hand == Some(r) && Loose(cfg, s0, clock)
    ensures Course(cfg, s0, run, s, r.id, clock) && Missed(s, t, r.id)
  {
    run, s := [], s0;
    assert Course(cfg, s0, [], s0, r.id, clock);
    if s.pc.Holding? {
      run, s := Play(cfg, s0, [], s0, r.id, clock, Work(clock, true));
      assert s == s0.(pc := if cfg.flushAll then Writing else Deciding);
      assert Older(s, r) == Older(s0, r);
    }
    if s.pc.Writing? {
      run, s := FromWriting(cfg, s0, run, s, t, r, clock);
    } else if s.pc.Deciding? {
      run, s := FromDeciding(cfg, s0, run, s, t, r, clock);
    } else if s.pc.Requeuing? {
      run, s := FromRequeuing(cfg, s0, run, s, t, r, clock);
    } else {
      run, s := FromRetrying(cfg, s0, run, s, t, r, clock);
    }
  }

  lemma {:induction false} OpenAfter<B>(cfg: Config, s: State<B>, k: nat)
    requires Inv(s) && k < |s.desk.flushing| && s.desk.flushing[k].ticket.Some?
    requires Untagged(Step(cfg, s, FlushCommit(k)), s.desk.flushing[k].now)
    ensures Open(Step(cfg, s, FlushCommit(k)), s.desk.flushing[k].ticket.value, s.book.hand.value.id)
  {
    PendingIds(s.book);
    assert s.book.hand.value.id in Ids(Pending(s.book));
  }

  /**
   * When the record in hand is untagged and loose after a Flush, there are runs with a steady clock in
   * which the completion is taken while the record is queued and no Clear has dropped a tag of it.
   */
  lemma {:induction false} FlushMisses<B>(cfg: Config, s: State<B>, k: nat, clock: int) returns (later: seq<Action<B>>)
    requires Inv(s) && Timely(cfg, s, clock) && (cfg.flushAll ==> Ageless(s.pc))
    requires k < |s.desk.flushing| && s.desk.flushing[k].ticket.Some? && s.desk.flushing[k].now <= clock
    requires var s0 := Step(cfg, s, FlushCommit(k)); Untagged(s0, s.desk.flushing[k].now) && Loose(cfg, s0, clock)
    ensures Steady(later, clock) && Level(later, clock)
    ensures var s0 := Step(cfg, s, FlushCommit(k)); var end, id := Exec(cfg, s0, later), s.book.hand.value.id;
            && Missed(end, s.desk.flushing[k].ticket.value, id) && id !in Dropped(cfg, s0, later)
  {
    var s0, t, r := Step(cfg, s, FlushCommit(k)), s.desk.flushing[k].ticket.value, s.book.hand.value;
    StepKeepsInv(cfg, s, FlushCommit(k));
    StepTimely(cfg, s, FlushCommit(k), clock);
    OpenAfter(cfg, s, k);
    var end;
    later, end := FromHere(cfg, s0, t, r, clock);
    LevelIsSteady(later, clock);
  }

  /** A Clear over a loose record in hand: the completion installed can run while the record is queued. */
  lemma {:induction false} ClearMisses<B>(cfg: Config, s: State<B>, clock: int) returns (later: seq<Action<B>>)
    requires Inv(s) && Timely(cfg, s, clock) && (cfg.flushAll ==> Ageless(s.pc))
    requires s.desk.completion.Some? && Loose(cfg, s, clock)
    ensures Steady(later, clock) && Level(later, clock)
    ensures Missed(Exec(cfg, Step(cfg, s, Clear), later), s.desk.completion.value, s.book.hand.value.id)
  {
    var r, s0 := s.book.hand.value, Step(cfg, s, Clear);
    StepKeepsInv(cfg, s, Clear);
    StepTimely(cfg, s, Clear, clock);
    PendingIds(s.book);
    assert r.id in Ids(Pending(s.book));
    assert Open(s0, s.desk.completion.value, r.id);
    assert Older(s0, r) == Older(s, r);
    var end;
    later, end := FromHere(cfg, s0, s.desk.completion.value, r, clock);
    LevelIsSteady(later, clock);
  }
}
