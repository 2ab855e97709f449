/**
 * The flush queue of buffers, between two calls into it, and the slices its records hold: every
 * slice that leaves the queue with a record that is destroyed goes back to the pool.
 */
module DiskFlushQueue {
  import opened Common
  import opened Words
  import opened SliceBuffer
  import opened CombinedPool
  import opened Records
  import opened Completions
  import opened FlushQueue
  import opened FlushWrites
  import opened FlushDrain
  import opened FlushStray

  /** All the slices held by the elements of `s`. */
  ghost function BagOf<A>(leases: A -> seq<Lease>, s: seq<A>): multiset<Lease> {
    if s == [] then multiset{} else BagOf(leases, s[..|s| - 1]) + multiset(leases(s[|s| - 1]))
  }

  lemma {:induction false} BagAppend<A>(leases: A -> seq<Lease>, a: seq<A>, b: seq<A>)
    ensures BagOf(leases, a + b) == BagOf(leases, a) + BagOf(leases, b)
    decreases |b|
  {
    if b == [] {
      assert a + b == a;
    } else {
      var n := |b| - 1;
      assert (a + b)[..|a + b| - 1] == a + b[..n];
      BagAppend(leases, a, b[..n]);
    }
  }

  lemma {:induction false} BagSingle<A>(leases: A -> seq<Lease>, x: A)
    ensures BagOf(leases, [x]) == multiset(leases(x))
  {
    assert [x][..0] == [];
  }

  lemma {:induction false} BagSplit<A>(leases: A -> seq<Lease>, s: seq<A>, k: nat)
    requires k < |s|
    ensures BagOf(leases, s) == BagOf(leases, s[..k]) + multiset(leases(s[k])) + BagOf(leases, s[k + 1..])
  {
    assert s == s[..k] + ([s[k]] + s[k + 1..]);
    BagAppend(leases, s[..k], [s[k]] + s[k + 1..]);
    BagAppend(leases, [s[k]], s[k + 1..]);
    BagSingle(leases, s[k]);
  }

  function RecordLeases<T>(r: Record<Line<T>>): seq<Lease> {
    r.buffer.leases
  }

  ghost function HandBag<T>(hand: Option<Record<Line<T>>>): multiset<Lease> {
    if hand.Some? then multiset(hand.value.buffer.leases) else multiset{}
  }

  /** The slices of the records that are queued or in the worker's hand. */
  ghost function Custody<T>(b: Book<Line<T>>): multiset<Lease> {
    BagOf(RecordLeases<T>, b.queue) + HandBag(b.hand)
  }

  /** Whether the worker's next step destroys the record in hand. */
  predicate Dropping(pc: Pc) {
    pc.Expiring? || pc.Finishing?
  }

  /** The step from `b` to `c` lets go of the slices `dropped` and no others. */
  ghost predicate Conserves<T>(b: Book<Line<T>>, c: Book<Line<T>>, dropped: multiset<Lease>) {
    match b
    case Book(_, _, _, _, _, _, _) => Custody(c) + dropped == Custody(b)
  }

  lemma {:induction false} AppendCustody<T>(b: Book<Line<T>>, stamp: int, attempts: int, buffer: Line<T>)
    ensures Custody(Append(b, stamp, attempts, buffer)) == Custody(b) + multiset(buffer.leases)
  {
    var r: Record<Line<T>> := Record(b.nextId, stamp, attempts, buffer);
    BagAppend(RecordLeases<T>, b.queue, [r]);
    BagSingle(RecordLeases<T>, r);
  }

  lemma {:induction false} TakeCustody<T>(b: Book<Line<T>>)
    requires b.hand.None? && b.queue != []
    ensures Conserves(b, Take(b), multiset{})
  {
    BagSplit(RecordLeases<T>, b.queue, 0);
    assert b.queue[..0] == [];
  }

  lemma {:induction false} HandCustody<T>(b: Book<Line<T>>, ok: bool, fate: Fate)
    requires b.hand.Some?
    ensures Conserves(b, PutBack(b), multiset{}) && Conserves(b, Attempt(b, ok), multiset{})
    ensures Conserves(b, Forget(b, fate), HandBag(b.hand))
  {
    BagAppend(RecordLeases<T>, b.queue, [b.hand.value]);
    BagSingle(RecordLeases<T>, b.hand.value);
  }

  lemma {:induction false} DropCustody<T>(b: Book<Line<T>>, pc: Pc, ok: bool)
    requires b.hand.Some? && Dropping(pc)
    ensures Conserves(b, NextBook(b, pc, ok), HandBag(b.hand))
  {
    var fate := if pc.Expiring? then Expired else if pc.ok then Written else Exhausted;
    assert NextBook(b, pc, ok) == Forget(b, fate);
    HandCustody(b, ok, fate);
  }

  lemma {:induction false} KeepCustody<T>(b: Book<Line<T>>, pc: Pc, ok: bool)
    requires !Dropping(pc)
    ensures Conserves(b, NextBook(b, pc, ok), multiset{})
  {
    Unmoved(b);
    if b.hand.Some? {
      assert NextBook(b, pc, ok) in {b, PutBack(b), Attempt(b, ok)};
      HandCustody(b, ok, Written);
    } else if b.queue != [] {
      assert NextBook(b, pc, ok) in {b, Take(b)};
      TakeCustody(b);
    }
  }

  lemma {:induction false} Unmoved<T>(b: Book<Line<T>>)
    ensures Conserves(b, b, multiset{})
  {
  }

  /** A step of the worker keeps every slice in custody except those of a record it destroys. */
  lemma {:induction false} WorkCustody<T>(cfg: Config, s: State<Line<T>>, clock: int, ok: bool)
    requires WorkerInv(s)
    ensures Dropping(s.pc) ==> Conserves(s.book, Step(cfg, s, Work(clock, ok)).book, HandBag(s.book.hand))
    ensures !Dropping(s.pc) ==> Conserves(s.book, Step(cfg, s, Work(clock, ok)).book, multiset{})
  {
    WorkBook(cfg, s, clock, ok);
    if Dropping(s.pc) {
      DropCustody(s.book, s.pc, ok);
    } else {
      KeepCustody(s.book, s.pc, ok);
    }
  }

  /** No call is half done. */
  ghost predicate Tidy<B>(cfg: Config, s: State<B>) {
    match s
    case State(_, desk, _, _, _, _, pc, entering, _) =>
      Inv(s) && entering == [] && desk.flushing == [] && (cfg.flushAll ==> Ageless(pc))
  }

  lemma {:induction false} WorkTidy<B>(cfg: Config, s: State<B>, clock: int, ok: bool)
    requires Tidy(cfg, s)
    ensures Tidy(cfg, Step(cfg, s, Work(clock, ok)))
  {
    StepKeepsInv(cfg, s, Work(clock, ok));
    WorkLeavesCalls(cfg, s, clock, ok);
    if cfg.flushAll {
      AgelessStep(cfg, s, Work(clock, ok));
    }
  }

  /** A step of the worker, and the slices of the record it destroys, if it destroys one. */
  method WorkOn<T(!new)>(cfg: Config, s: State<Line<T>>, clock: int, ok: bool)
    returns (next: State<Line<T>>, dropped: seq<Lease>)
    requires Tidy(cfg, s)
    ensures next == Step(cfg, s, Work(clock, ok)) && Tidy(cfg, next) && Conserves(s.book, next.book, multiset(dropped))
  {
    WorkTidy(cfg, s, clock, ok);
    WorkCustody(cfg, s, clock, ok);
    dropped := if s.book.hand.Some? && Dropping(s.pc) then s.book.hand.value.buffer.leases else [];
    next := Step(cfg, s, Work(clock, ok));
  }

  lemma {:induction false} EnqueueSteps<T>(cfg: Config, s: State<Line<T>>, stamp: int, buffer: Line<T>)
    requires Tidy(cfg, s) && s.running && !s.draining
    ensures var next := Step(cfg, Step(cfg, s, EnqueueEnter(stamp, buffer)), EnqueueCommit(0));
            && Tidy(cfg, next)
            && next == Queued(s, cfg, stamp, buffer)
  {
    var entered := Step(cfg, s, EnqueueEnter(stamp, buffer));
    assert entered == s.(entering := [(stamp, buffer)]);
    StepKeepsInv(cfg, s, EnqueueEnter(stamp, buffer));
    StepKeepsInv(cfg, entered, EnqueueCommit(0));
  }

  /** The queue with one more record. */
  function Queued<B>(s: State<B>, cfg: Config, stamp: int, buffer: B): State<B> {
    s.(book := Append(s.book, stamp, cfg.maxAttempts, buffer), queueSize := Wrap(s.queueSize + 1))
  }

  /** The desk with a new completion installed, which is owed the records tagged. */
  function Awaiting(d: Desk, tagged: set<nat>): Desk {
    d.(completion := Some(d.tickets), tickets := d.tickets + 1, owed := d.owed[d.tickets := tagged])
  }

  lemma {:induction false} FlushSteps<B>(cfg: Config, s: State<B>, now: int, notify: bool)
    requires Tidy(cfg, s) && s.running
    ensures var next := Step(cfg, Step(cfg, s, FlushEnter(now, notify)), FlushCommit(0));
            && Tidy(cfg, next)
            && next == s.(book := Tag(s.book, Due(s.book.queue, now)), desk := next.desk, flushStamp := now)
            && next.desk == if notify then Awaiting(s.desk, s.book.manual + Due(s.book.queue, now)) else s.desk
  {
    var entered := Step(cfg, s, FlushEnter(now, notify));
    assert |entered.desk.flushing| == 1 && entered.desk.flushing[0].now == now;
    StepKeepsInv(cfg, s, FlushEnter(now, notify));
    StepKeepsInv(cfg, entered, FlushCommit(0));
  }

  lemma {:induction false} ClearSteps<T>(cfg: Config, s: State<Line<T>>)
    requires Tidy(cfg, s)
    ensures var next := Step(cfg, s, FlushQueue.Clear);
            && Tidy(cfg, next)
            && next == s.(book := Wipe(s.book), queueSize := 0, overlapped := s.book.hand.Some?)
            && Custody(next.book) + BagOf(RecordLeases<T>, s.book.queue) == Custody(s.book)
  {
    StepKeepsInv(cfg, s, FlushQueue.Clear);
  }

  class DiskFlushQueue<T(!new)> {
    const cfg: Config
    var s: State<Line<T>>

    /** Between two calls. */
    ghost predicate Valid()
      reads this
    {
      Tidy(cfg, s)
    }

    ghost predicate Serving()
      reads this
    {
      s.running && !s.draining && !s.pc.Lowering? && !s.pc.Leaving?
    }

    constructor (cfg: Config)
      ensures this.cfg == cfg && Valid() && s == Start<Line<T>>()
    {
      this.cfg, s := cfg, Start<Line<T>>();
      StartInv<Line<T>>();
    }

    /** Starts a worker unless one is running; a queue just started takes buffers. */
    method Run()
      requires Valid()
      modifies this
      ensures Valid()
      ensures s == if old(s.running) then old(s) else old(s).(running := true, draining := false, pc := Top)
      ensures !old(s.running) ==> Serving()
    {
      StepKeepsInv(cfg, s, FlushQueue.Run);
      s := Step(cfg, s, FlushQueue.Run);
    }

    /** Takes over a buffer and its slices unless the queue is not running or draining. */
    method Enqueue(stamp: int, buffer: Line<T>) returns (accepted: bool)
      requires Valid()
      modifies this
      ensures Valid() && (accepted <==> old(s.running && !s.draining))
      ensures s == if accepted then Queued(old(s), cfg, stamp, buffer) else old(s)
      ensures Custody(s.book) == old(Custody(s.book)) + if accepted then multiset(buffer.leases) else multiset{}
    {
      if !s.running || s.draining {
        return false;
      }
      EnqueueSteps(cfg, s, stamp, buffer);
      AppendCustody(s.book, stamp, cfg.maxAttempts, buffer);
      s := Step(cfg, Step(cfg, s, EnqueueEnter(stamp, buffer)), EnqueueCommit(0));
      accepted := true;
    }

    /** Tags the records queued by now and installs the completion; without a worker the completion runs at once. */
    method Flush(now: int, notify: bool)
      requires Valid()
      modifies this
      ensures Valid()
      ensures s == if old(s.running)
                   then old(s).(book := Tag(old(s.book), Due(old(s.book.queue), now)), desk := s.desk, flushStamp := now)
                   else old(s).(desk := s.desk)
      ensures !notify ==> s.desk == old(s.desk)
      ensures notify && old(s.running) ==> s.desk == Awaiting(old(s.desk), s.book.manual)
      ensures notify && !old(s.running) ==>
                s.desk == old(s.desk).(tickets := s.desk.tickets, taken := old(s.desk.taken) + [old(s.desk.tickets)])
      ensures Custody(s.book) == old(Custody(s.book))
    {
      if s.running {
        FlushSteps(cfg, s, now, notify);
        s := Step(cfg, Step(cfg, s, FlushEnter(now, notify)), FlushCommit(0));
      } else {
        StepKeepsInv(cfg, s, FlushEnter(now, notify));
        s := Step(cfg, s, FlushEnter(now, notify));
      }
    }

    /** Destroys the queued records; the one in hand stays, and puts the counter off if there is one. */
    method Clear(pool: CombinedBufferSlicePool<T>)
      requires Valid() && pool.Valid() && Custody(s.book) <= pool.lent
      modifies this, pool
      ensures Valid() && pool.Valid()
      ensures s == old(s).(book := Wipe(old(s.book)), queueSize := 0, overlapped := old(s.book.hand.Some?))
      ensures Custody(s.book) <= pool.lent && pool.lent - Custody(s.book) == old(pool.lent - Custody(s.book))
    {
      var records := s.book.queue;
      ClearSteps(cfg, s);
      s := Step(cfg, s, FlushQueue.Clear);
      ReturnRecords(pool, records);
      Balance(old(Custody(s.book)), Custody(s.book), BagOf(RecordLeases<T>, records), old(pool.lent), pool.lent);
    }

    /** One step of the worker thread; a record that is done with gives its slices back. */
    method Work(pool: CombinedBufferSlicePool<T>, clock: int, ok: bool)
      requires Valid() && pool.Valid() && Custody(s.book) <= pool.lent
      modifies this, pool
      ensures Valid() && pool.Valid() && s == Step(cfg, old(s), FlushQueue.Work(clock, ok))
      ensures Custody(s.book) <= pool.lent && pool.lent - Custody(s.book) == old(pool.lent - Custody(s.book))
    {
      var dropped;
      s, dropped := WorkOn(cfg, s, clock, ok);
      ConservesWithin(old(s.book), s.book, dropped, pool.lent);
      ReturnSlices(pool, dropped);
      ConservesAfter(old(s.book), s.book, dropped, old(pool.lent), pool.lent);
    }

    /**
     * Raises `draining_` and waits for the worker, whose clock readings and write results are `answers`;
     * a queue that is not running or already draining is left alone. It ends with as many records left
     * as the counter was off by, and every slice but theirs is back in the pool.
     */
    method DrainAndStop(pool: CombinedBufferSlicePool<T>, answers: nat -> (int, bool))
      requires Valid() && pool.Valid() && Custody(s.book) <= pool.lent
      requires s.running && !s.draining ==> Finite(cfg, s)
      modifies this, pool
      ensures Valid() && pool.Valid() && s.overlapped == old(s.overlapped)
      ensures Custody(s.book) <= pool.lent && pool.lent - Custody(s.book) == old(pool.lent - Custody(s.book))
      ensures old(!s.running || s.draining) ==> s == old(s)
      ensures old(s.running && !s.draining) ==>
                && !s.running && Count(s.book) == Drift(s) && |s.book.writes| <= Cost(old(s))
                && (!s.overlapped ==> Custody(s.book) == multiset{})
    {
      if !s.running || s.draining {
        return;
      }
      DrainStarts(cfg, s);
      s := Step(cfg, s, Drain);
      var turn := 0;
      while !s.pc.Stopped?
        invariant Valid() && pool.Valid() && WayOut(cfg, s) && s.overlapped == old(s.overlapped)
        invariant Custody(s.book) <= pool.lent && pool.lent - Custody(s.book) == old(pool.lent - Custody(s.book))
        invariant Cost(s) <= Cost(old(s))
        decreases Measure(s)
      {
        Turn(pool, answers(turn).0, answers(turn).1);
        turn := turn + 1;
      }
      DriftLeft(cfg, s);
    }

    /** A step of the worker while it drains. */
    method Turn(pool: CombinedBufferSlicePool<T>, clock: int, ok: bool)
      requires Valid() && pool.Valid() && Custody(s.book) <= pool.lent && WayOut(cfg, s) && !s.pc.Stopped?
      modifies this, pool
      ensures Valid() && pool.Valid() && WayOut(cfg, s) && s.overlapped == old(s.overlapped)
      ensures Custody(s.book) <= pool.lent && pool.lent - Custody(s.book) == old(pool.lent - Custody(s.book))
      ensures Cost(s) <= Cost(old(s)) && 0 <= Measure(s) < Measure(old(s))
    {
      TurnDescends(cfg, s, clock, ok);
      Work(pool, clock, ok);
    }
  }

  /** A draining worker that gets to the end, whether its counter is exact or off by one. */
  ghost predicate WayOut<B>(cfg: Config, s: State<B>) {
    match s
    case State(book, _, _, _, _, _, _, _, overlapped) =>
      if overlapped then cfg.flushAll && Astray(s) else Draining(s) && (cfg.flushAll || Count(book) == 0)
  }

  /** A queue whose drain ends for all answers: exact, or off by one with records enough to notice. */
  predicate Finite<B>(cfg: Config, s: State<B>) {
    match s
    case State(book, _, _, _, _, _, pc, _, overlapped) =>
      && Count(book) < WORD
      && if overlapped then cfg.flushAll && Onward(pc, |book.queue|, true)
         else (cfg.flushAll || Count(book) == 0) && (pc.Lowering? || pc.Leaving? ==> book.queue == [])
  }

  /** The write calls made, and those that may still come. */
  ghost function Cost<B>(s: State<B>): int {
    |s.book.writes| + Load(s)
  }

  lemma {:induction false} TurnDescends<B>(cfg: Config, s: State<B>, clock: int, ok: bool)
    requires WayOut(cfg, s) && !s.pc.Stopped?
    ensures var next := Step(cfg, s, Work(clock, ok));
            WayOut(cfg, next) && Cost(next) <= Cost(s) && 0 <= Measure(next) < Measure(s) && next.overlapped == s.overlapped
  {
    if s.overlapped {
      StrayDescends(cfg, s, clock, ok);
    } else {
      WorkDescends(cfg, s, clock, ok);
    }
    LoadBounds(Step(cfg, s, Work(clock, ok)));
  }

  lemma {:induction false} DrainStarts<B>(cfg: Config, s: State<B>)
    requires Tidy(cfg, s) && s.running && !s.draining && Finite(cfg, s)
    ensures var next := Step(cfg, s, Drain);
            && Tidy(cfg, next) && WayOut(cfg, next) && Cost(next) == Cost(s)
            && next.book == s.book && next.overlapped == s.overlapped
  {
    StepKeepsInv(cfg, s, Drain);
  }

  lemma {:induction false} DriftLeft<T>(cfg: Config, s: State<Line<T>>)
    requires WayOut(cfg, s) && s.pc.Stopped?
    ensures Count(s.book) == Drift(s) && |s.book.writes| <= Cost(s) && !s.running
    ensures !s.overlapped ==> Custody(s.book) == multiset{}
  {
    LoadBounds(s);
  }

  lemma {:induction false} ConservesWithin<T>(b: Book<Line<T>>, c: Book<Line<T>>, dropped: seq<Lease>, lent: multiset<Lease>)
    requires Conserves(b, c, multiset(dropped)) && Custody(b) <= lent
    ensures multiset(dropped) <= lent
  {
  }

  lemma {:induction false} ConservesAfter<T>(b: Book<Line<T>>, c: Book<Line<T>>, dropped: seq<Lease>,
                                             lent: multiset<Lease>, left: multiset<Lease>)
    requires Conserves(b, c, multiset(dropped)) && Custody(b) <= lent && left + multiset(dropped) == lent
    ensures Custody(c) <= left && left - Custody(c) == lent - Custody(b)
  {
    Balance(Custody(b), Custody(c), multiset(dropped), lent, left);
  }

  lemma {:induction false} Balance(b: multiset<Lease>, c: multiset<Lease>, x: multiset<Lease>,
                                   lent: multiset<Lease>, left: multiset<Lease>)
    requires c + x == b && b <= lent && left + x == lent
    ensures c <= left && left - c == lent - b
  {
    forall l: Lease
      ensures c[l] <= left[l]
    {
      assert b[l] <= lent[l] && b[l] == c[l] + x[l] && lent[l] == left[l] + x[l];
    }
  }

  lemma {:induction false} Part(lent: multiset<Lease>, back: multiset<Lease>, x: multiset<Lease>, all: multiset<Lease>)
    requires lent + back == all && back + x <= all
    ensures x <= lent
  {
    forall l: Lease
      ensures x[l] <= lent[l]
    {
      assert (back + x)[l] <= all[l];
    }
  }

  lemma {:induction false} Rejoin(left: multiset<Lease>, x: multiset<Lease>, lent: multiset<Lease>,
                                  back: multiset<Lease>, all: multiset<Lease>)
    requires left + x == lent && lent + back == all
    ensures left + (back + x) == all
  {
  }

  /** Destroys records, one after another. */
  method ReturnRecords<T(!new)>(pool: CombinedBufferSlicePool<T>, records: seq<Record<Line<T>>>)
    requires pool.Valid() && BagOf(RecordLeases<T>, records) <= pool.lent
    modifies pool
    ensures pool.Valid() && pool.lent + BagOf(RecordLeases<T>, records) == old(pool.lent)
  {
    for k := 0 to |records|
      invariant pool.Valid() && pool.lent + BagOf(RecordLeases<T>, records[..k]) == old(pool.lent)
    {
      var slices := records[k].buffer.leases;
      ghost var lent, back := pool.lent, BagOf(RecordLeases<T>, records[..k]);
      BagPrefix(RecordLeases<T>, records, k);
      Part(lent, back, multiset(slices), old(pool.lent));
      ReturnSlices(pool, slices);
      Rejoin(pool.lent, multiset(slices), lent, back, old(pool.lent));
    }
    assert records[..|records|] == records;
  }

  lemma {:induction false} BagPrefix<A>(leases: A -> seq<Lease>, s: seq<A>, k: nat)
    requires k < |s|
    ensures BagOf(leases, s[..k + 1]) == BagOf(leases, s[..k]) + multiset(leases(s[k]))
    ensures BagOf(leases, s[..k + 1]) <= BagOf(leases, s)
  {
    assert s[..k + 1][..k] == s[..k];
    BagAppend(leases, s[..k + 1], s[k + 1..]);
    assert s[..k + 1] + s[k + 1..] == s;
  }
}
