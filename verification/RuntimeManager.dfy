/**
 * The whole runtime (runtime_manager.cc): loggers, pool, flush queue and worker. Each call, each
 * logger's part of a loop over loggers, and each step of the flush queue is one step, so a run
 * interleaves them in any order. Application threads are quiet from Deinitialize on.
 */
module RuntimeManager {
  import opened Common
  import opened Words
  import opened SliceBuffer
  import opened Records
  import Q = FlushQueue
  import W = FlushWrites
  import opened FlushDrain
  import opened DiskFlushQueue

  datatype Stage =
    | Idle        // no Deinitialize in progress
    | Detaching   // loggers lose their pool and the queue gets what they hold
    | Draining    // DrainAndStop waits for the worker
    | Aborted     // the pool was destroyed before it was full

  datatype Runtime<T> = Runtime(
    pool: bool,                         // whether there is a pool
    lent: multiset<Lease>,              // what the pool has lent
    loggers: seq<Option<Line<T>>>,      // the buffers of the subscribed loggers
    queue: Q.State<Line<T>>,
    initialized: bool,
    enabled: bool,
    stage: Stage)

  datatype Action<T> =
    | Initialize
    | Enable
    | Disable
    | Subscribe
    | Unsubscribe(i: nat, stamp: int)
    | Log(i: nat, event: T, answer: Option<Lease>, stamp: int)
    | FlushLogger(i: nat, stamp: int)
    | ClearLogger(i: nat)
    | Queue(a: Q.Action<Line<T>>)
    | Deinitialize
    | Detach(i: nat, stamp: int)
    | DrainAndStop
    | DestroyPool

  function Start<T>(): Runtime<T> {
    Runtime(false, multiset{}, [], Q.Start<Line<T>>(), false, false, Idle)
  }

  /** The slices of a logger's buffer, and of a buffer in an Enqueue call. */
  function BufferLeases<T>(buffer: Option<Line<T>>): seq<Lease> {
    if buffer.Some? then buffer.value.leases else []
  }

  function CallLeases<T>(call: (int, Line<T>)): seq<Lease> {
    call.1.leases
  }

  /** How often a slice is among them. */
  ghost function InBuffer<T>(l: Lease): Option<Line<T>> -> int {
    (b: Option<Line<T>>) => multiset(BufferLeases(b))[l]
  }

  ghost function InCall<T>(l: Lease): ((int, Line<T>)) -> int {
    (c: (int, Line<T>)) => multiset(CallLeases(c))[l]
  }

  /** What a step of the queue destroys. */
  ghost function Released<T>(s: Q.State<Line<T>>, a: Q.Action<Line<T>>): multiset<Lease> {
    match a
    case Clear => BagOf(RecordLeases<T>, s.book.queue)
    case Work(_, _) => if Dropping(s.pc) then HandBag(s.book.hand) else multiset{}
    case _ => multiset{}
  }

  /** A buffer with something in it goes to the queue, or is destroyed when the queue refuses it. */
  ghost function FlushAt<T>(cfg: Q.Config, rt: Runtime<T>, i: nat, stamp: int): Runtime<T>
    requires i < |rt.loggers|
  {
    if rt.loggers[i].None? || rt.loggers[i].value.memory == [] then rt
    else
      var line := rt.loggers[i].value;
      var accepts := rt.queue.running && !rt.queue.draining;
      rt.(loggers := rt.loggers[i := Some(EmptyLine(line.limit))],
          queue := Q.Step(cfg, rt.queue, Q.EnqueueEnter(stamp, line)),
          lent := if accepts then rt.lent else rt.lent - multiset(line.leases))
  }

  ghost function PushAt<T>(rt: Runtime<T>, i: nat, event: T, answer: Option<Lease>): Runtime<T>
    requires i < |rt.loggers| && rt.loggers[i].Some?
  {
    var line := rt.loggers[i].value;
    var got := if line.Wants() then answer else None;
    rt.(loggers := rt.loggers[i := Some(line.Push(event, got))],
        lent := rt.lent + if got.Some? then multiset{got.value} else multiset{})
  }

  ghost function ClearAt<T>(rt: Runtime<T>, i: nat, buffer: Option<Line<T>>): Runtime<T>
    requires i < |rt.loggers|
  {
    rt.(loggers := rt.loggers[i := buffer], lent := rt.lent - multiset(BufferLeases(rt.loggers[i])))
  }

  /** A pool lends only slices that can hold something and are not out. */
  ghost predicate Grantable(lent: multiset<Lease>, answer: Option<Lease>) {
    Lendable(answer) && (answer.Some? ==> answer.value !in lent)
  }

  /** What the queue may be asked to do at each stage; handing it buffers, starting and draining are apart. */
  predicate Admits<T>(stage: Stage, a: Q.Action<Line<T>>) {
    match a
    case Work(_, _) => stage != Aborted
    case EnqueueCommit(_) => stage == Idle || stage == Detaching
    case FlushEnter(_, _) => stage == Idle || stage == Detaching
    case FlushCommit(_) => stage == Idle || stage == Detaching
    case Clear => stage == Idle || stage == Detaching
    case _ => false
  }

  /** A step of the queue; what it destroys goes back to the pool. */
  ghost function Relay<T>(cfg: Q.Config, rt: Runtime<T>, a: Q.Action<Line<T>>): Runtime<T> {
    rt.(queue := Q.Step(cfg, rt.queue, a), lent := rt.lent - Released(rt.queue, a))
  }

  /** One step; a step that is not enabled leaves the runtime as it is. */
  ghost function Step<T>(cfg: Q.Config, capacity: nat, rt: Runtime<T>, a: Action<T>): Runtime<T> {
    match a
    case Initialize =>
      if rt.stage != Idle || rt.initialized then rt
      else
        rt.(pool := true, lent := multiset{}, initialized := true, queue := Q.Step(cfg, rt.queue, Q.Run),
            loggers := seq(|rt.loggers|, _ => Some(EmptyLine(capacity))))
    case Enable => if rt.stage == Idle && rt.initialized then rt.(enabled := true) else rt
    case Disable => if rt.stage == Idle then rt.(enabled := false) else rt
    case Subscribe =>
      if rt.stage != Idle then rt
      else rt.(loggers := rt.loggers + [if rt.pool then Some(EmptyLine(capacity)) else None])
    case Unsubscribe(i, stamp) =>
      if rt.stage != Idle || |rt.loggers| <= i then rt
      else
        var next := FlushAt(cfg, rt, i, stamp);
        next.(loggers := next.loggers[..i] + next.loggers[i + 1..])
    case Log(i, event, answer, stamp) =>
      if rt.stage != Idle || !rt.enabled || |rt.loggers| <= i || rt.loggers[i].None? || !Grantable(rt.lent, answer) then rt
      else
        var next := PushAt(rt, i, event, answer);
        if cfg.flushAll && capacity <= |next.loggers[i].value.memory| then FlushAt(cfg, next, i, stamp) else next
    case FlushLogger(i, stamp) =>
      if (rt.stage != Idle && rt.stage != Detaching) || |rt.loggers| <= i then rt else FlushAt(cfg, rt, i, stamp)
    case ClearLogger(i) =>
      if (rt.stage != Idle && rt.stage != Detaching) || |rt.loggers| <= i || rt.loggers[i].None? then rt
      else ClearAt(rt, i, Some(EmptyLine(capacity)))
    case Queue(q) => if Admits(rt.stage, q) then Relay(cfg, rt, q) else rt
    case Deinitialize =>
      if rt.stage != Idle then rt
      else if !rt.initialized then rt.(enabled := false)
      else rt.(enabled := false, initialized := false, stage := Detaching)
    case Detach(i, stamp) =>
      if rt.stage != Detaching || |rt.loggers| <= i then rt
      else ClearAt(FlushAt(cfg, rt, i, stamp), i, None)
    case DrainAndStop =>
      if rt.stage != Detaching || rt.queue.entering != [] || exists i :: 0 <= i < |rt.loggers| && rt.loggers[i].Some? then rt
      else rt.(queue := Q.Step(cfg, rt.queue, Q.Drain), stage := Draining)
    case DestroyPool =>
      if rt.stage != Draining || !rt.queue.pc.Stopped? then rt
      else if rt.lent == multiset{} then rt.(pool := false, stage := Idle)
      else rt.(pool := false, stage := Aborted)
  }

  ghost function Exec<T>(cfg: Q.Config, capacity: nat, run: seq<Action<T>>): Runtime<T> {
    if run == [] then Start<T>() else Step(cfg, capacity, Exec(cfg, capacity, run[..|run| - 1]), run[|run| - 1])
  }

  /** Every slice lent is in exactly one place. */
  ghost predicate Balanced<T>(rt: Runtime<T>) {
    forall l: Lease :: Accounted(rt, l)
  }

  ghost predicate Accounted<T>(rt: Runtime<T>, l: Lease) {
    match rt
    case Runtime(_, lent, loggers, queue, _, _, _) => lent[l] == SumBy(InBuffer<T>(l), loggers) + InQueue(queue, l)
  }

  /** How often a slice is in the queue or on its way there. */
  ghost function InQueue<T>(s: Q.State<Line<T>>, l: Lease): int {
    SumBy(InCall<T>(l), s.entering) + Custody(s.book)[l]
  }

  /** Every buffer on its way to the writer holds slices. */
  ghost predicate Loaded<T>(s: Q.State<Line<T>>) {
    match s
    case State(book, _, _, _, _, _, _, entering, _) =>
      && (forall k :: 0 <= k < |book.queue| ==> book.queue[k].buffer.leases != [])
      && (book.hand.Some? ==> book.hand.value.buffer.leases != [])
      && (forall k :: 0 <= k < |entering| ==> CallLeases(entering[k]) != [])
  }

  ghost predicate Buffers<T>(loggers: seq<Option<Line<T>>>, capacity: nat, pool: bool) {
    forall i :: 0 <= i < |loggers| ==> Buffer(loggers[i], capacity) && (!pool ==> loggers[i].None?)
  }

  ghost predicate Buffer<T>(b: Option<Line<T>>, capacity: nat) {
    b.Some? ==> b.value.Valid() && b.value.limit == capacity
  }

  ghost predicate Detached<T>(loggers: seq<Option<Line<T>>>) {
    forall i :: 0 <= i < |loggers| ==> loggers[i].None?
  }

  /** The worker is in its loop and has not been told to stop. */
  ghost predicate Serving<B>(s: Q.State<B>) {
    match s
    case State(_, _, _, _, running, draining, pc, _, _) => running && !draining && !pc.SizeCheck? && !pc.Lowering? && !pc.Leaving?
  }

  /** The worker has been told to stop; once it has seen its counter at 0, one record is left for each it is off by. */
  ghost predicate Ending<B>(s: Q.State<B>) {
    match s
    case State(book, _, _, _, _, draining, pc, entering, _) =>
      && entering == []
      && (pc.Lowering? || pc.Leaving? || pc.Stopped? ==> |book.queue| == Q.Drift(s))
      && (draining || pc.Leaving? || pc.Stopped?)
  }

  ghost predicate Staged<T>(rt: Runtime<T>) {
    match rt.stage
    case Idle =>
      if rt.initialized then rt.pool && Serving(rt.queue)
      else !rt.pool && rt.queue.pc.Stopped? && rt.queue.entering == [] && Count(rt.queue.book) == 0
    case Detaching => rt.pool && !rt.initialized && Serving(rt.queue)
    case Draining => rt.pool && !rt.initialized && Detached(rt.loggers) && Ending(rt.queue)
    case Aborted => rt.lent != multiset{} && rt.queue.overlapped
  }

  /** What every step keeps, whatever the stage. */
  ghost predicate Core<T>(rt: Runtime<T>, capacity: nat) {
    match rt
    case Runtime(pool, _, loggers, queue, _, _, _) =>
      Q.Inv(queue) && Balanced(rt) && Loaded(queue) && Buffers(loggers, capacity, pool)
  }

  function Backlog<B>(s: Q.State<B>): nat {
    Count(s.book) + |s.entering|
  }

  /** The invariant of the runs of at most `n` steps. */
  ghost predicate Inv<T>(cfg: Q.Config, rt: Runtime<T>, capacity: nat, n: nat) {
    match rt
    case Runtime(_, _, _, queue, _, _, _) =>
      Core(rt, capacity) && Staged(rt) && Backlog(queue) <= n && (cfg.flushAll ==> Ageless(queue.pc))
  }

  lemma {:induction false} ClearAtAccounted<T>(rt: Runtime<T>, i: nat, buffer: Option<Line<T>>, l: Lease)
    requires Accounted(rt, l) && i < |rt.loggers| && BufferLeases(buffer) == []
    ensures Accounted(ClearAt(rt, i, buffer), l)
  {
    SumByUpdate(InBuffer<T>(l), rt.loggers, i, buffer);
    SumByNonNegative(InBuffer<T>(l), rt.loggers);
    InQueueNonNegative(rt.queue, l);
    assert InBuffer<T>(l)(rt.loggers[i]) <= SumBy(InBuffer<T>(l), rt.loggers);
  }

  lemma {:induction false} InQueueNonNegative<T>(s: Q.State<Line<T>>, l: Lease)
    ensures 0 <= InQueue(s, l)
  {
    SumByNonNegative(InCall<T>(l), s.entering);
  }

  lemma {:induction false} ClearAtKeeps<T>(rt: Runtime<T>, capacity: nat, i: nat, buffer: Option<Line<T>>)
    requires Core(rt, capacity) && i < |rt.loggers| && BufferLeases(buffer) == []
    requires Buffer(buffer, capacity) && (!rt.pool ==> buffer.None?)
    ensures Core(ClearAt(rt, i, buffer), capacity)
  {
    forall l: Lease
      ensures Accounted(ClearAt(rt, i, buffer), l)
    {
      assert Accounted(rt, l);
      ClearAtAccounted(rt, i, buffer, l);
    }
  }

  lemma {:induction false} PushCounts<T>(line: Line<T>, event: T, got: Option<Lease>, l: Lease)
    requires got.Some? ==> line.Wants()
    ensures multiset(line.Push(event, got).leases)[l] == multiset(line.leases)[l] + if got == Some(l) then 1 else 0
  {
    assert line.Push(event, got).leases == line.leases + if got.Some? then [got.value] else [];
  }

  /** A slice that the pool lends goes into the buffer that asked for it. */
  lemma {:induction false} PushAtAccounted<T>(rt: Runtime<T>, i: nat, event: T, answer: Option<Lease>, l: Lease)
    requires Accounted(rt, l) && i < |rt.loggers| && rt.loggers[i].Some?
    ensures Accounted(PushAt(rt, i, event, answer), l)
  {
    var line := rt.loggers[i].value;
    var got := if line.Wants() then answer else None;
    PushCounts(line, event, got, l);
    Put(rt, i, Some(line.Push(event, got)), rt.lent + if got.Some? then multiset{got.value} else multiset{}, rt.queue, l);
  }

  /** A new buffer at one place, while the pool and the queue take up the difference. */
  lemma {:induction false} Put<T>(rt: Runtime<T>, i: nat, buffer: Option<Line<T>>, lent: multiset<Lease>,
                                  queue: Q.State<Line<T>>, l: Lease)
    requires Accounted(rt, l) && i < |rt.loggers|
    requires multiset(BufferLeases(buffer))[l] - multiset(BufferLeases(rt.loggers[i]))[l] as int ==
             (lent[l] - rt.lent[l] as int) - (InQueue(queue, l) - InQueue(rt.queue, l))
    ensures Accounted(rt.(loggers := rt.loggers[i := buffer], lent := lent, queue := queue), l)
  {
    SumByUpdate(InBuffer<T>(l), rt.loggers, i, buffer);
  }

  lemma {:induction false} PushAtKeeps<T>(rt: Runtime<T>, capacity: nat, i: nat, event: T, answer: Option<Lease>)
    requires Core(rt, capacity) && i < |rt.loggers| && rt.loggers[i].Some? && Lendable(answer)
    ensures Core(PushAt(rt, i, event, answer), capacity)
  {
    forall l: Lease
      ensures Accounted(PushAt(rt, i, event, answer), l)
    {
      assert Accounted(rt, l);
      PushAtAccounted(rt, i, event, answer, l);
    }
    assert Buffer(rt.loggers[i], capacity);
    PushValid(rt.loggers[i].value, event, if rt.loggers[i].value.Wants() then answer else None);
  }

  /** A buffer that the queue accepts takes its slices along. */
  lemma {:induction false} FlushAtAccounted<T>(cfg: Q.Config, rt: Runtime<T>, i: nat, stamp: int, l: Lease)
    requires Accounted(rt, l) && i < |rt.loggers|
    ensures Accounted(FlushAt(cfg, rt, i, stamp), l)
  {
    if rt.loggers[i].Some? && rt.loggers[i].value.memory != [] {
      var line := rt.loggers[i].value;
      var renewed: Option<Line<T>> := Some(EmptyLine(line.limit));
      if rt.queue.running && !rt.queue.draining {
        EnterBag(cfg, rt.queue, stamp, line, l);
        Put(rt, i, renewed, rt.lent, Q.Step(cfg, rt.queue, Q.EnqueueEnter(stamp, line)), l);
      } else {
        ClearAtAccounted(rt, i, renewed, l);
        assert FlushAt(cfg, rt, i, stamp) == ClearAt(rt, i, renewed);
      }
    }
  }

  lemma {:induction false} EnterBag<T>(cfg: Q.Config, s: Q.State<Line<T>>, stamp: int, line: Line<T>, l: Lease)
    requires s.running && !s.draining
    ensures InQueue(Q.Step(cfg, s, Q.EnqueueEnter(stamp, line)), l) == InQueue(s, l) + multiset(line.leases)[l]
  {
    SumByPush(InCall<T>(l), s.entering, (stamp, line));
  }

  lemma {:induction false} FlushAtShape<T>(cfg: Q.Config, rt: Runtime<T>, capacity: nat, i: nat, stamp: int)
    requires Buffers(rt.loggers, capacity, rt.pool) && i < |rt.loggers|
    ensures var next := FlushAt(cfg, rt, i, stamp);
            && Buffers(next.loggers, capacity, next.pool)
            && |next.loggers| == |rt.loggers| && BufferLeases(next.loggers[i]) == []
            && next == rt.(loggers := next.loggers, queue := rt.queue.(entering := next.queue.entering), lent := next.lent)
            && |next.queue.entering| <= |rt.queue.entering| + 1
            && (next.queue == rt.queue || (rt.queue.running && !rt.queue.draining))
  {
    assert Buffer(rt.loggers[i], capacity);
  }

  lemma {:induction false} FlushAtKeeps<T>(cfg: Q.Config, rt: Runtime<T>, capacity: nat, i: nat, stamp: int)
    requires Core(rt, capacity) && i < |rt.loggers|
    ensures Core(FlushAt(cfg, rt, i, stamp), capacity)
  {
    var next := FlushAt(cfg, rt, i, stamp);
    forall l: Lease
      ensures Accounted(next, l)
    {
      assert Accounted(rt, l);
      FlushAtAccounted(cfg, rt, i, stamp, l);
    }
    FlushAtShape(cfg, rt, capacity, i, stamp);
    if rt.loggers[i].Some? && rt.loggers[i].value.memory != [] {
      var line := rt.loggers[i].value;
      assert Buffer(rt.loggers[i], capacity);
      Q.StepKeepsInv(cfg, rt.queue, Q.EnqueueEnter(stamp, line));
      EnterLoaded(cfg, rt.queue, stamp, line);
    }
  }

  lemma {:induction false} EnterLoaded<T>(cfg: Q.Config, s: Q.State<Line<T>>, stamp: int, line: Line<T>)
    requires Loaded(s) && line.Valid() && line.memory != []
    ensures Loaded(Q.Step(cfg, s, Q.EnqueueEnter(stamp, line)))
  {
  }

  lemma {:induction false} QueueBag<T>(cfg: Q.Config, s: Q.State<Line<T>>, a: Q.Action<Line<T>>, stage: Stage, l: Lease)
    requires Q.WorkerInv(s) && Admits(stage, a)
    ensures InQueue(Q.Step(cfg, s, a), l) + Released(s, a)[l] == InQueue(s, l)
  {
    match a
    case Work(clock, ok) => WorkBag(cfg, s, clock, ok, l);
    case EnqueueCommit(k) => CommitBag(cfg, s, k, l);
    case Clear => ClearBag(cfg, s, l);
    case FlushEnter(_, _) => FlushBag(cfg, s, a, l);
    case FlushCommit(_) => FlushBag(cfg, s, a, l);
  }

  lemma {:induction false} FlushBag<T>(cfg: Q.Config, s: Q.State<Line<T>>, a: Q.Action<Line<T>>, l: Lease)
    requires a.FlushEnter? || a.FlushCommit?
    ensures InQueue(Q.Step(cfg, s, a), l) + Released(s, a)[l] == InQueue(s, l)
  {
    var next := Q.Step(cfg, s, a);
    assert next.entering == s.entering && next.book.queue == s.book.queue && next.book.hand == s.book.hand;
  }

  lemma {:induction false} WorkBag<T>(cfg: Q.Config, s: Q.State<Line<T>>, clock: int, ok: bool, l: Lease)
    requires Q.WorkerInv(s)
    ensures InQueue(Q.Step(cfg, s, Q.Work(clock, ok)), l) + Released(s, Q.Work(clock, ok))[l] == InQueue(s, l)
  {
    WorkCustody(cfg, s, clock, ok);
    Q.WorkLeavesCalls(cfg, s, clock, ok);
    CustodyCount(s.book, Q.Step(cfg, s, Q.Work(clock, ok)).book, Released(s, Q.Work(clock, ok)), l);
  }

  lemma {:induction false} CustodyCount<T>(b: Book<Line<T>>, c: Book<Line<T>>, dropped: multiset<Lease>, l: Lease)
    requires Conserves(b, c, dropped)
    ensures Custody(c)[l] + dropped[l] == Custody(b)[l]
  {
  }

  lemma {:induction false} ClearBag<T>(cfg: Q.Config, s: Q.State<Line<T>>, l: Lease)
    ensures InQueue(Q.Step(cfg, s, Q.Clear), l) + Released(s, Q.Clear)[l] == InQueue(s, l)
  {
  }

  lemma {:induction false} CommitBag<T>(cfg: Q.Config, s: Q.State<Line<T>>, k: nat, l: Lease)
    ensures InQueue(Q.Step(cfg, s, Q.EnqueueCommit(k)), l) == InQueue(s, l)
  {
    if k < |s.entering| {
      var call := s.entering[k];
      SumByRemove(InCall<T>(l), s.entering, k);
      AppendCustody(s.book, call.0, cfg.maxAttempts, call.1);
    }
  }

  lemma {:induction false} QueueAccounted<T>(cfg: Q.Config, rt: Runtime<T>, a: Q.Action<Line<T>>, l: Lease)
    requires Accounted(rt, l) && Q.WorkerInv(rt.queue) && Admits(rt.stage, a)
    ensures Accounted(Relay(cfg, rt, a), l)
  {
    QueueBag(cfg, rt.queue, a, rt.stage, l);
    var next, gone := Q.Step(cfg, rt.queue, a), Released(rt.queue, a);
    InQueueNonNegative(next, l);
    SumByNonNegative(InBuffer<T>(l), rt.loggers);
    assert (rt.lent - gone)[l] == rt.lent[l] - gone[l];
  }

  lemma {:induction false} QueueLoaded<T>(cfg: Q.Config, s: Q.State<Line<T>>, a: Q.Action<Line<T>>, stage: Stage)
    requires Loaded(s) && Admits(stage, a)
    ensures Loaded(Q.Step(cfg, s, a)) && Backlog(Q.Step(cfg, s, a)) <= Backlog(s)
  {
    match a
    case Work(clock, ok) =>
      Q.WorkBook(cfg, s, clock, ok);
      Q.WorkLeavesCalls(cfg, s, clock, ok);
      NextLoaded(s, ok);
    case _ =>
  }

  lemma {:induction false} NextLoaded<T>(s: Q.State<Line<T>>, ok: bool)
    requires Loaded(s)
    ensures Loaded(s.(book := Q.NextBook(s.book, s.pc, ok))) && Count(Q.NextBook(s.book, s.pc, ok)) <= Count(s.book)
  {
  }

  lemma {:induction false} QueueKeeps<T>(cfg: Q.Config, rt: Runtime<T>, capacity: nat, a: Q.Action<Line<T>>)
    requires Core(rt, capacity) && Admits(rt.stage, a)
    ensures var next := Relay(cfg, rt, a); Core(next, capacity) && Backlog(next.queue) <= Backlog(rt.queue)
  {
    var next := Relay(cfg, rt, a);
    forall l: Lease
      ensures Accounted(next, l)
    {
      assert Accounted(rt, l);
      QueueAccounted(cfg, rt, a, l);
    }
    Q.StepKeepsInv(cfg, rt.queue, a);
    QueueLoaded(cfg, rt.queue, a, rt.stage);
  }

  lemma {:induction false} ServingStays<B>(cfg: Q.Config, s: Q.State<B>, clock: int, ok: bool)
    requires Serving(s) && Q.WorkerInv(s)
    ensures Serving(Q.Step(cfg, s, Q.Work(clock, ok)))
  {
    if s.book.hand.Some? {
      assert Serving(Q.RecordStep(cfg, s, clock, ok));
    } else {
      assert Serving(Q.LoopStep(s));
    }
  }

  /** A worker that leaves its loop leaves behind just the records its counter is off by. */
  lemma {:induction false} EndingStays<B>(cfg: Q.Config, s: Q.State<B>, clock: int, ok: bool)
    requires Ending(s) && Q.Inv(s) && Count(s.book) < WORD
    ensures Ending(Q.Step(cfg, s, Q.Work(clock, ok)))
  {
    if s.book.hand.Some? {
      RecordEnds(cfg, s, clock, ok);
    } else {
      LoopEnds(s);
    }
  }

  lemma {:induction false} RecordEnds<B>(cfg: Q.Config, s: Q.State<B>, clock: int, ok: bool)
    requires Ending(s) && Q.WorkerInv(s) && s.book.hand.Some?
    ensures Ending(Q.RecordStep(cfg, s, clock, ok))
  {
  }

  lemma {:induction false} LoopEnds<B>(s: Q.State<B>)
    requires Ending(s) && Q.SizeInv(s) && s.book.hand.None? && Count(s.book) < WORD
    ensures Ending(Q.LoopStep(s))
  {
    if s.pc.SizeCheck? && s.queueSize == 0 {
      CounterAtZero(|s.book.queue|, Q.Drift(s));
    }
  }

  lemma {:induction false} CounterAtZero(n: nat, drift: int)
    requires n < WORD && 0 <= drift <= 1 && Wrap(n - drift) == 0
    ensures n == drift
  {
    if n < drift {
      WrapShift(n - drift, 1);
    }
  }

  lemma {:induction false} FlushKeepsInv<T>(cfg: Q.Config, rt: Runtime<T>, capacity: nat, n: nat, i: nat, stamp: int)
    requires Inv(cfg, rt, capacity, n) && i < |rt.loggers| && (rt.stage == Idle || rt.stage == Detaching)
    ensures Inv(cfg, FlushAt(cfg, rt, i, stamp), capacity, n + 1)
  {
    FlushAtKeeps(cfg, rt, capacity, i, stamp);
    FlushAtShape(cfg, rt, capacity, i, stamp);
  }

  lemma {:induction false} ClearKeepsInv<T>(cfg: Q.Config, rt: Runtime<T>, capacity: nat, n: nat, i: nat, buffer: Option<Line<T>>)
    requires Inv(cfg, rt, capacity, n) && i < |rt.loggers| && (rt.stage == Idle || rt.stage == Detaching)
    requires BufferLeases(buffer) == [] && Buffer(buffer, capacity) && (!rt.pool ==> buffer.None?)
    ensures Inv(cfg, ClearAt(rt, i, buffer), capacity, n)
  {
    ClearAtKeeps(rt, capacity, i, buffer);
  }

  /** Loggers without slices come and go without a change in the balance. */
  lemma {:induction false} RosterKeeps<T>(rt: Runtime<T>, capacity: nat, loggers: seq<Option<Line<T>>>)
    requires Core(rt, capacity) && Buffers(loggers, capacity, rt.pool)
    requires forall l: Lease :: SumBy(InBuffer<T>(l), loggers) == SumBy(InBuffer<T>(l), rt.loggers)
    ensures Core(rt.(loggers := loggers), capacity)
  {
    var next := rt.(loggers := loggers);
    forall l: Lease
      ensures Accounted(next, l)
    {
      assert Accounted(rt, l);
      assert SumBy(InBuffer<T>(l), loggers) == SumBy(InBuffer<T>(l), rt.loggers);
    }
  }

  lemma {:induction false} RemoveKeeps<T>(rt: Runtime<T>, capacity: nat, i: nat)
    requires Core(rt, capacity) && i < |rt.loggers| && BufferLeases(rt.loggers[i]) == []
    ensures Core(rt.(loggers := rt.loggers[..i] + rt.loggers[i + 1..]), capacity)
  {
    var rest := rt.loggers[..i] + rt.loggers[i + 1..];
    forall l: Lease
      ensures SumBy(InBuffer<T>(l), rest) == SumBy(InBuffer<T>(l), rt.loggers)
    {
      SumByRemove(InBuffer<T>(l), rt.loggers, i);
    }
    assert Buffers(rest, capacity, rt.pool);
    RosterKeeps(rt, capacity, rest);
  }

  lemma {:induction false} SubscribeKeeps<T>(rt: Runtime<T>, capacity: nat, buffer: Option<Line<T>>)
    requires Core(rt, capacity) && BufferLeases(buffer) == [] && Buffer(buffer, capacity) && (!rt.pool ==> buffer.None?)
    ensures Core(rt.(loggers := rt.loggers + [buffer]), capacity)
  {
    forall l: Lease
      ensures SumBy(InBuffer<T>(l), rt.loggers + [buffer]) == SumBy(InBuffer<T>(l), rt.loggers)
    {
      SumByPush(InBuffer<T>(l), rt.loggers, buffer);
    }
    assert Buffers(rt.loggers + [buffer], capacity, rt.pool);
    RosterKeeps(rt, capacity, rt.loggers + [buffer]);
  }

  /** Without slices in the queue or in a buffer, none is lent. */
  lemma {:induction false} NothingLent<T>(rt: Runtime<T>)
    requires forall i :: 0 <= i < |rt.loggers| ==> BufferLeases(rt.loggers[i]) == []
    requires rt.queue.entering == [] && Count(rt.queue.book) == 0
    ensures Balanced(rt) <==> rt.lent == multiset{}
  {
    forall l: Lease
      ensures Accounted(rt, l) <==> rt.lent[l] == 0
    {
      SumByZero(InBuffer<T>(l), rt.loggers);
    }
    if Balanced(rt) {
      forall l: Lease
        ensures rt.lent[l] == 0
      {
        assert Accounted(rt, l);
      }
    }
  }

  lemma {:induction false} InitializeKeeps<T>(cfg: Q.Config, rt: Runtime<T>, capacity: nat, n: nat)
    requires Inv(cfg, rt, capacity, n) && rt.stage == Idle && !rt.initialized
    ensures Inv(cfg, Step(cfg, capacity, rt, Initialize), capacity, n)
  {
    var next := Step(cfg, capacity, rt, Initialize);
    Q.StepKeepsInv(cfg, rt.queue, Q.Run);
    NothingLent(next);
    assert Loaded(next.queue);
  }

  /** A record that is left keeps a slice from the pool. */
  lemma {:induction false} RecordKeepsSlice<T>(rt: Runtime<T>, capacity: nat)
    requires Core(rt, capacity) && rt.queue.book.queue != []
    ensures rt.lent != multiset{}
  {
    var queue := rt.queue.book.queue;
    assert queue[0].buffer.leases != [];
    var l := queue[0].buffer.leases[0];
    BagSplit(RecordLeases<T>, queue, 0);
    assert multiset(RecordLeases(queue[0]))[l] > 0 && BagOf(RecordLeases<T>, queue)[l] > 0;
    SumByNonNegative(InCall<T>(l), rt.queue.entering);
    SumByNonNegative(InBuffer<T>(l), rt.loggers);
    assert Accounted(rt, l);
  }

  /** When the worker has stopped, the pool is full exactly if the counter was not off. */
  lemma {:induction false} FullAtTheEnd<T>(cfg: Q.Config, rt: Runtime<T>, capacity: nat, n: nat)
    requires Inv(cfg, rt, capacity, n) && rt.stage == Draining && rt.queue.pc.Stopped?
    ensures rt.lent == multiset{} <==> !rt.queue.overlapped
    ensures rt.lent == multiset{} ==> Count(rt.queue.book) == 0
  {
    if rt.queue.overlapped {
      RecordKeepsSlice(rt, capacity);
    } else {
      NothingLent(rt);
    }
  }

  lemma {:induction false} DestroyKeeps<T>(cfg: Q.Config, rt: Runtime<T>, capacity: nat, n: nat)
    requires Inv(cfg, rt, capacity, n) && rt.stage == Draining && rt.queue.pc.Stopped?
    ensures Inv(cfg, Step(cfg, capacity, rt, DestroyPool), capacity, n)
  {
    FullAtTheEnd(cfg, rt, capacity, n);
    var next := Step(cfg, capacity, rt, DestroyPool);
    forall l: Lease
      ensures Accounted(next, l)
    {
      assert Accounted(rt, l);
    }
  }

  lemma {:induction false} QueueKeepsInv<T>(cfg: Q.Config, rt: Runtime<T>, capacity: nat, n: nat, a: Q.Action<Line<T>>)
    requires Inv(cfg, rt, capacity, n) && n < WORD && Admits(rt.stage, a)
    ensures Inv(cfg, Step(cfg, capacity, rt, Queue(a)), capacity, n)
  {
    QueueKeeps(cfg, rt, capacity, a);
    if cfg.flushAll {
      AgelessStep(cfg, rt.queue, a);
    }
    QueueStaged(cfg, rt, n, a);
  }

  lemma {:induction false} QueueStaged<T>(cfg: Q.Config, rt: Runtime<T>, n: nat, a: Q.Action<Line<T>>)
    requires Staged(rt) && Q.Inv(rt.queue) && Backlog(rt.queue) <= n < WORD && Admits(rt.stage, a)
    ensures Staged(Relay(cfg, rt, a))
  {
    if a.Work? {
      if rt.stage == Draining {
        EndingStays(cfg, rt.queue, a.clock, a.ok);
      } else if Serving(rt.queue) {
        ServingStays(cfg, rt.queue, a.clock, a.ok);
      }
    }
  }

  lemma {:induction false} LogKeepsInv<T>(cfg: Q.Config, rt: Runtime<T>, capacity: nat, n: nat,
                                          i: nat, event: T, answer: Option<Lease>, stamp: int)
    requires Inv(cfg, rt, capacity, n)
    ensures Inv(cfg, Step(cfg, capacity, rt, Log(i, event, answer, stamp)), capacity, n + 1)
  {
    if rt.stage == Idle && rt.enabled && i < |rt.loggers| && rt.loggers[i].Some? && Grantable(rt.lent, answer) {
      var next := PushAt(rt, i, event, answer);
      PushAtKeeps(rt, capacity, i, event, answer);
      assert Inv(cfg, next, capacity, n);
      FlushKeepsInv(cfg, next, capacity, n, i, stamp);
    }
  }

  lemma {:induction false} UnsubscribeKeepsInv<T>(cfg: Q.Config, rt: Runtime<T>, capacity: nat, n: nat, i: nat, stamp: int)
    requires Inv(cfg, rt, capacity, n)
    ensures Inv(cfg, Step(cfg, capacity, rt, Unsubscribe(i, stamp)), capacity, n + 1)
  {
    if rt.stage == Idle && i < |rt.loggers| {
      FlushKeepsInv(cfg, rt, capacity, n, i, stamp);
      FlushAtShape(cfg, rt, capacity, i, stamp);
      RemoveKeeps(FlushAt(cfg, rt, i, stamp), capacity, i);
    }
  }

  lemma {:induction false} DetachKeepsInv<T>(cfg: Q.Config, rt: Runtime<T>, capacity: nat, n: nat, i: nat, stamp: int)
    requires Inv(cfg, rt, capacity, n)
    ensures Inv(cfg, Step(cfg, capacity, rt, Detach(i, stamp)), capacity, n + 1)
  {
    if rt.stage == Detaching && i < |rt.loggers| {
      FlushKeepsInv(cfg, rt, capacity, n, i, stamp);
      FlushAtShape(cfg, rt, capacity, i, stamp);
      ClearKeepsInv(cfg, FlushAt(cfg, rt, i, stamp), capacity, n + 1, i, None);
    }
  }

  lemma {:induction false} DrainKeepsInv<T>(cfg: Q.Config, rt: Runtime<T>, capacity: nat, n: nat)
    requires Inv(cfg, rt, capacity, n)
    ensures Inv(cfg, Step(cfg, capacity, rt, DrainAndStop), capacity, n)
  {
    var next := Step(cfg, capacity, rt, DrainAndStop);
    if next.stage != rt.stage {
      Q.StepKeepsInv(cfg, rt.queue, Q.Drain);
      assert next.queue == rt.queue.(draining := true);
      forall l: Lease
        ensures Accounted(next, l)
      {
        assert Accounted(rt, l);
      }
      assert Loaded(next.queue) && Detached(next.loggers);
    }
  }

  lemma {:induction false} SubscribeKeepsInv<T>(cfg: Q.Config, rt: Runtime<T>, capacity: nat, n: nat)
    requires Inv(cfg, rt, capacity, n)
    ensures Inv(cfg, Step(cfg, capacity, rt, Subscribe), capacity, n)
  {
    if rt.stage == Idle {
      SubscribeKeeps(rt, capacity, if rt.pool then Some(EmptyLine(capacity)) else None);
    }
  }

  /** Switching modes moves no slice. */
  lemma {:induction false} ModeKeepsInv<T>(cfg: Q.Config, rt: Runtime<T>, capacity: nat, n: nat, a: Action<T>)
    requires Inv(cfg, rt, capacity, n) && (a.Enable? || a.Disable? || a.Deinitialize?)
    ensures Inv(cfg, Step(cfg, capacity, rt, a), capacity, n)
  {
    var next := Step(cfg, capacity, rt, a);
    assert next == rt.(enabled := next.enabled, initialized := next.initialized, stage := next.stage);
    SameCore(rt, next, capacity);
    ModeStaged(cfg, capacity, rt, a);
  }

  lemma {:induction false} SameCore<T>(rt: Runtime<T>, next: Runtime<T>, capacity: nat)
    requires Core(rt, capacity)
    requires next == rt.(enabled := next.enabled, initialized := next.initialized, stage := next.stage)
    ensures Core(next, capacity)
  {
    forall l: Lease
      ensures Accounted(next, l)
    {
      assert Accounted(rt, l);
    }
  }

  lemma {:induction false} ModeStaged<T>(cfg: Q.Config, capacity: nat, rt: Runtime<T>, a: Action<T>)
    requires Staged(rt) && (a.Enable? || a.Disable? || a.Deinitialize?)
    ensures Staged(Step(cfg, capacity, rt, a))
  {
  }

  lemma {:induction false} Weaken<T>(cfg: Q.Config, rt: Runtime<T>, capacity: nat, n: nat)
    requires Inv(cfg, rt, capacity, n)
    ensures Inv(cfg, rt, capacity, n + 1)
  {
  }

  lemma {:induction false} StepKeepsInv<T>(cfg: Q.Config, rt: Runtime<T>, capacity: nat, n: nat, a: Action<T>)
    requires Inv(cfg, rt, capacity, n) && n < WORD
    ensures Inv(cfg, Step(cfg, capacity, rt, a), capacity, n + 1)
  {
    var next := Step(cfg, capacity, rt, a);
    if next == rt {
      Weaken(cfg, rt, capacity, n);
    } else {
      match a
      case Log(i, event, answer, stamp) => LogKeepsInv(cfg, rt, capacity, n, i, event, answer, stamp);
      case Unsubscribe(i, stamp) => UnsubscribeKeepsInv(cfg, rt, capacity, n, i, stamp);
      case Detach(i, stamp) => DetachKeepsInv(cfg, rt, capacity, n, i, stamp);
      case FlushLogger(i, stamp) => FlushKeepsInv(cfg, rt, capacity, n, i, stamp);
      case _ => OtherKeepsInv(cfg, rt, capacity, n, a); Weaken(cfg, next, capacity, n);
    }
  }

  lemma {:induction false} OtherKeepsInv<T>(cfg: Q.Config, rt: Runtime<T>, capacity: nat, n: nat, a: Action<T>)
    requires Inv(cfg, rt, capacity, n) && n < WORD && Step(cfg, capacity, rt, a) != rt
    requires !a.Log? && !a.Unsubscribe? && !a.Detach? && !a.FlushLogger?
    ensures Inv(cfg, Step(cfg, capacity, rt, a), capacity, n)
  {
    match a
    case Initialize => InitializeKeeps(cfg, rt, capacity, n);
    case Subscribe => SubscribeKeepsInv(cfg, rt, capacity, n);
    case ClearLogger(i) => ClearKeepsInv(cfg, rt, capacity, n, i, Some(EmptyLine(capacity)));
    case Queue(q) => QueueKeepsInv(cfg, rt, capacity, n, q);
    case DrainAndStop => DrainKeepsInv(cfg, rt, capacity, n);
    case DestroyPool => DestroyKeeps(cfg, rt, capacity, n);
    case _ => ModeKeepsInv(cfg, rt, capacity, n, a);
  }

  lemma {:induction false} StartKeepsInv<T>(cfg: Q.Config, capacity: nat)
    ensures Inv(cfg, Start<T>(), capacity, 0)
  {
    W.StartInv<Line<T>>();
    BlankKeepsInv(cfg, Start<T>(), capacity);
  }

  /** A runtime that nothing has happened to. */
  ghost predicate Blank<T>(rt: Runtime<T>) {
    match rt
    case Runtime(pool, lent, loggers, queue, initialized, _, stage) =>
      && !pool && lent == multiset{} && loggers == [] && !initialized && stage == Idle
      && queue.pc.Stopped? && queue.entering == [] && Count(queue.book) == 0
  }

  lemma {:induction false} BlankBalanced<T>(rt: Runtime<T>)
    requires Blank(rt)
    ensures Balanced(rt)
  {
    forall l: Lease
      ensures Accounted(rt, l)
    {
      BlankAccounted(rt, l);
    }
  }

  lemma {:induction false} BlankAccounted<T>(rt: Runtime<T>, l: Lease)
    requires Blank(rt)
    ensures Accounted(rt, l)
  {
    assert rt.queue.book.queue == [] && rt.queue.book.hand.None?;
  }

  lemma {:induction false} BlankLoaded<T>(rt: Runtime<T>)
    requires Blank(rt)
    ensures Loaded(rt.queue)
  {
  }

  lemma {:induction false} BlankStaged<T>(rt: Runtime<T>, capacity: nat)
    requires Blank(rt)
    ensures Staged(rt) && Buffers(rt.loggers, capacity, rt.pool) && Backlog(rt.queue) == 0 && Ageless(rt.queue.pc)
  {
  }

  lemma {:induction false} BlankKeepsInv<T>(cfg: Q.Config, rt: Runtime<T>, capacity: nat)
    requires Blank(rt) && Q.Inv(rt.queue)
    ensures Inv(cfg, rt, capacity, 0)
  {
    BlankBalanced(rt);
    BlankLoaded(rt);
    BlankStaged(rt, capacity);
  }

  lemma {:induction false} RunKeepsInv<T>(cfg: Q.Config, capacity: nat, run: seq<Action<T>>)
    requires |run| < WORD
    ensures Inv(cfg, Exec(cfg, capacity, run), capacity, |run|)
  {
    if run == [] {
      StartKeepsInv<T>(cfg, capacity);
    } else {
      var earlier := run[..|run| - 1];
      RunKeepsInv(cfg, capacity, earlier);
      StepKeepsInv(cfg, Exec(cfg, capacity, earlier), capacity, |earlier|, run[|run| - 1]);
    }
  }

  /** No slice is lent twice. */
  ghost predicate Once(lent: multiset<Lease>) {
    forall l: Lease :: lent[l] <= 1
  }

  lemma {:induction false} FlushOnce<T>(cfg: Q.Config, rt: Runtime<T>, i: nat, stamp: int)
    requires Once(rt.lent) && i < |rt.loggers|
    ensures Once(FlushAt(cfg, rt, i, stamp).lent) && |FlushAt(cfg, rt, i, stamp).loggers| == |rt.loggers|
  {
  }

  lemma {:induction false} LogOnce<T>(cfg: Q.Config, capacity: nat, rt: Runtime<T>, a: Action<T>)
    requires Once(rt.lent) && a.Log?
    ensures Once(Step(cfg, capacity, rt, a).lent)
  {
    if a.i < |rt.loggers| && rt.loggers[a.i].Some? && Grantable(rt.lent, a.answer) {
      PushOnce(rt, a.i, a.event, a.answer);
      FlushOnce(cfg, PushAt(rt, a.i, a.event, a.answer), a.i, a.stamp);
    }
  }

  lemma {:induction false} HandOnce<T>(cfg: Q.Config, capacity: nat, rt: Runtime<T>, a: Action<T>)
    requires Once(rt.lent) && (a.Unsubscribe? || a.FlushLogger? || a.Detach?)
    ensures Once(Step(cfg, capacity, rt, a).lent)
  {
    if Step(cfg, capacity, rt, a) != rt {
      var next := FlushAt(cfg, rt, a.i, a.stamp);
      FlushOnce(cfg, rt, a.i, a.stamp);
      FewerOnce(next.lent, multiset(BufferLeases(next.loggers[a.i])));
      assert Step(cfg, capacity, rt, a).lent == if a.Detach? then ClearAt(next, a.i, None).lent else next.lent;
    }
  }

  lemma {:induction false} StepOnce<T>(cfg: Q.Config, capacity: nat, rt: Runtime<T>, a: Action<T>)
    requires Once(rt.lent)
    ensures Once(Step(cfg, capacity, rt, a).lent)
  {
    if a.Log? {
      LogOnce(cfg, capacity, rt, a);
    } else if a.Unsubscribe? || a.FlushLogger? || a.Detach? {
      HandOnce(cfg, capacity, rt, a);
    } else if a.ClearLogger? && a.i < |rt.loggers| {
      FewerOnce(rt.lent, multiset(BufferLeases(rt.loggers[a.i])));
    } else if a.Queue? {
      FewerOnce(rt.lent, Released(rt.queue, a.a));
    }
  }

  lemma {:induction false} FewerOnce(lent: multiset<Lease>, gone: multiset<Lease>)
    requires Once(lent)
    ensures Once(lent - gone)
  {
  }

  lemma {:induction false} PushOnce<T>(rt: Runtime<T>, i: nat, event: T, answer: Option<Lease>)
    requires Once(rt.lent) && i < |rt.loggers| && rt.loggers[i].Some? && Grantable(rt.lent, answer)
    ensures Once(PushAt(rt, i, event, answer).lent) && |PushAt(rt, i, event, answer).loggers| == |rt.loggers|
  {
  }

  lemma {:induction false} RunOnce<T>(cfg: Q.Config, capacity: nat, run: seq<Action<T>>)
    ensures Once(Exec(cfg, capacity, run).lent)
  {
    if run != [] {
      RunOnce(cfg, capacity, run[..|run| - 1]);
      StepOnce(cfg, capacity, Exec(cfg, capacity, run[..|run| - 1]), run[|run| - 1]);
    }
  }

  /** The slices of every buffer there is: those of loggers, of calls, of queued records and of the record in hand. */
  ghost function Holdings<T>(rt: Runtime<T>): seq<seq<Lease>> {
    Map(BufferLeases<T>, rt.loggers) + Map(CallLeases<T>, rt.queue.entering) +
    Map(RecordLeases<T>, rt.queue.book.queue) + Map(RecordLeases<T>, Hand(rt.queue.book))
  }

  ghost function Map<A, B>(f: A -> B, s: seq<A>): seq<B> {
    if s == [] then [] else Map(f, s[..|s| - 1]) + [f(s[|s| - 1])]
  }

  ghost function Times(l: Lease): seq<Lease> -> int {
    (leases: seq<Lease>) => multiset(leases)[l]
  }

  lemma {:induction false} SumByMap<A>(w: A -> int, leases: A -> seq<Lease>, s: seq<A>, l: Lease)
    requires forall x :: w(x) == multiset(leases(x))[l]
    ensures SumBy(Times(l), Map(leases, s)) == SumBy(w, s)
  {
    if s != [] {
      SumByMap(w, leases, s[..|s| - 1], l);
      SumByPush(Times(l), Map(leases, s[..|s| - 1]), leases(s[|s| - 1]));
    }
  }

  lemma {:induction false} SumByBag<A>(leases: A -> seq<Lease>, s: seq<A>, l: Lease)
    ensures SumBy(Times(l), Map(leases, s)) == BagOf(leases, s)[l]
  {
    if s != [] {
      SumByBag(leases, s[..|s| - 1], l);
      SumByPush(Times(l), Map(leases, s[..|s| - 1]), leases(s[|s| - 1]));
    }
  }

  lemma {:induction false} HoldingsCount<T>(rt: Runtime<T>, l: Lease)
    requires Accounted(rt, l)
    ensures rt.lent[l] == SumBy(Times(l), Holdings(rt))
  {
    var a, b := Map(BufferLeases<T>, rt.loggers), Map(CallLeases<T>, rt.queue.entering);
    var c, d := Map(RecordLeases<T>, rt.queue.book.queue), Map(RecordLeases<T>, Hand(rt.queue.book));
    SumByMap(InBuffer<T>(l), BufferLeases<T>, rt.loggers, l);
    SumByMap(InCall<T>(l), CallLeases<T>, rt.queue.entering, l);
    CustodyByRecord(rt.queue.book, l);
    SumByFour(l, a, b, c, d);
  }

  lemma {:induction false} SumByFour(l: Lease, a: seq<seq<Lease>>, b: seq<seq<Lease>>, c: seq<seq<Lease>>, d: seq<seq<Lease>>)
    ensures SumBy(Times(l), a + b + c + d) ==
            SumBy(Times(l), a) + SumBy(Times(l), b) + SumBy(Times(l), c) + SumBy(Times(l), d)
  {
    SumByAppend(Times(l), a + b + c, d);
    SumByAppend(Times(l), a + b, c);
    SumByAppend(Times(l), a, b);
  }

  lemma {:induction false} CustodyByRecord<T>(b: Book<Line<T>>, l: Lease)
    ensures Custody(b)[l] ==
            SumBy(Times(l), Map(RecordLeases<T>, b.queue)) + SumBy(Times(l), Map(RecordLeases<T>, Hand(b)))
  {
    SumByBag(RecordLeases<T>, b.queue, l);
    SumByBag(RecordLeases<T>, Hand(b), l);
    HandIsBag(b);
  }

  lemma {:induction false} HandIsBag<T>(b: Book<Line<T>>)
    ensures BagOf(RecordLeases<T>, Hand(b)) == HandBag(b.hand)
  {
    if b.hand.Some? {
      BagSingle(RecordLeases<T>, b.hand.value);
    }
  }

  /** Counts that add up to at most 1: at most one of them is positive. */
  lemma {:induction false} OnePlace(l: Lease, s: seq<seq<Lease>>, j: nat, k: nat)
    requires j < k < |s| && SumBy(Times(l), s) <= 1
    ensures !(l in s[j] && l in s[k])
  {
    SumBySplit(Times(l), s, k);
    SumByNonNegative(Times(l), s[..k]);
    SumByNonNegative(Times(l), s[k + 1..]);
    assert s[..k][j] == s[j];
    assert Times(l)(s[j]) > 0 <==> l in s[j];
  }

  lemma {:induction false} SomePlace(l: Lease, s: seq<seq<Lease>>)
    ensures SumBy(Times(l), s) > 0 <==> exists k :: 0 <= k < |s| && l in s[k]
  {
    SumByNonNegative(Times(l), s);
    if forall k :: 0 <= k < |s| ==> l !in s[k] {
      SumByZero(Times(l), s);
    } else {
      var k :| 0 <= k < |s| && l in s[k];
      assert Times(l)(s[k]) > 0;
    }
  }

  /**
   * In every run a slice that the pool has lent is in exactly one buffer, once: that of a logger, one
   * on its way into the queue, or that of a record. A slice that is not lent is in none, and without a
   * pool no slice is out.
   */
  lemma {:induction false} SlicesOverRuns<T>(cfg: Q.Config, capacity: nat, run: seq<Action<T>>, l: Lease)
    requires |run| < WORD
    ensures var rt := Exec(cfg, capacity, run); var s := Holdings(rt);
            && (l in rt.lent <==> exists k :: 0 <= k < |s| && l in s[k])
            && (forall j, k :: 0 <= j < k < |s| ==> !(l in s[j] && l in s[k]))
            && (forall k :: 0 <= k < |s| ==> multiset(s[k])[l] <= 1)
            && rt.lent[l] <= 1
            && (rt.stage == Idle && !rt.initialized ==> rt.lent == multiset{})
  {
    var rt := Exec(cfg, capacity, run);
    var s := Holdings(rt);
    RunKeepsInv(cfg, capacity, run);
    RunOnce(cfg, capacity, run);
    assert Accounted(rt, l);
    HoldingsCount(rt, l);
    SomePlace(l, s);
    forall j, k | 0 <= j < k < |s|
      ensures !(l in s[j] && l in s[k])
    {
      OnePlace(l, s, j, k);
    }
    SumByNonNegative(Times(l), s);
    forall k | 0 <= k < |s|
      ensures multiset(s[k])[l] <= 1
    {
      assert Times(l)(s[k]) <= 1;
    }
    if rt.stage == Idle && !rt.initialized {
      NothingLent(rt);
    }
  }

  /** The pool that Deinitialize destroys is full exactly if the last Clear met no record in the worker's hand. */
  lemma {:induction false} FullWhenDestroyed<T>(cfg: Q.Config, capacity: nat, run: seq<Action<T>>)
    requires |run| < WORD
    requires var rt := Exec(cfg, capacity, run); rt.stage == Draining && rt.queue.pc.Stopped?
    ensures var rt := Exec(cfg, capacity, run);
            && (rt.lent == multiset{} <==> !rt.queue.overlapped)
            && (Step(cfg, capacity, rt, DestroyPool).stage == if rt.queue.overlapped then Aborted else Idle)
  {
    RunKeepsInv(cfg, capacity, run);
    FullAtTheEnd(cfg, Exec(cfg, capacity, run), capacity, |run|);
  }

  /** No Clear of the queue comes while the worker has a record in hand. */
  ghost predicate Unobtrusive<T>(cfg: Q.Config, capacity: nat, run: seq<Action<T>>) {
    forall k :: 0 <= k < |run| && run[k] == Queue(Q.Clear) ==> Exec(cfg, capacity, run[..k]).queue.book.hand.None?
  }

  lemma {:induction false} QueueOverlap<B>(cfg: Q.Config, s: Q.State<B>, a: Q.Action<B>)
    requires !s.overlapped && (a == Q.Clear ==> s.book.hand.None?)
    ensures !Q.Step(cfg, s, a).overlapped
  {
    if a.Work? {
      Q.WorkLeavesCalls(cfg, s, a.clock, a.ok);
    }
  }

  lemma {:induction false} FlushOverlap<T>(cfg: Q.Config, rt: Runtime<T>, i: nat, stamp: int)
    requires i < |rt.loggers|
    ensures FlushAt(cfg, rt, i, stamp).queue.overlapped == rt.queue.overlapped
    ensures |FlushAt(cfg, rt, i, stamp).loggers| == |rt.loggers|
  {
  }

  lemma {:induction false} LogOverlap<T>(cfg: Q.Config, capacity: nat, rt: Runtime<T>, a: Action<T>)
    requires a.Log?
    ensures Step(cfg, capacity, rt, a).queue.overlapped == rt.queue.overlapped
  {
    if a.i < |rt.loggers| && rt.loggers[a.i].Some? {
      FlushOverlap(cfg, PushAt(rt, a.i, a.event, a.answer), a.i, a.stamp);
    }
  }

  lemma {:induction false} HandOverlap<T>(cfg: Q.Config, capacity: nat, rt: Runtime<T>, a: Action<T>)
    requires a.Unsubscribe? || a.FlushLogger? || a.Detach?
    ensures Step(cfg, capacity, rt, a).queue.overlapped == rt.queue.overlapped
  {
    if Step(cfg, capacity, rt, a) != rt {
      var next := FlushAt(cfg, rt, a.i, a.stamp);
      FlushOverlap(cfg, rt, a.i, a.stamp);
      assert Step(cfg, capacity, rt, a).queue == next.queue;
    }
  }

  lemma {:induction false} StepOverlap<T>(cfg: Q.Config, capacity: nat, rt: Runtime<T>, a: Action<T>)
    requires !rt.queue.overlapped && (a == Queue(Q.Clear) ==> rt.queue.book.hand.None?)
    ensures !Step(cfg, capacity, rt, a).queue.overlapped
  {
    if a.Queue? {
      QueueOverlap(cfg, rt.queue, a.a);
    } else if a.Log? {
      LogOverlap(cfg, capacity, rt, a);
    } else if a.Unsubscribe? || a.FlushLogger? || a.Detach? {
      HandOverlap(cfg, capacity, rt, a);
    } else {
      QueueOverlap(cfg, rt.queue, Q.Run);
      QueueOverlap(cfg, rt.queue, Q.Drain);
    }
  }

  lemma {:induction false} UnobtrusivePrefix<T>(cfg: Q.Config, capacity: nat, run: seq<Action<T>>)
    requires run != [] && Unobtrusive(cfg, capacity, run)
    ensures Unobtrusive(cfg, capacity, run[..|run| - 1])
    ensures run[|run| - 1] == Queue(Q.Clear) ==> Exec(cfg, capacity, run[..|run| - 1]).queue.book.hand.None?
  {
    var earlier := run[..|run| - 1];
    forall k | 0 <= k < |earlier| && earlier[k] == Queue(Q.Clear)
      ensures Exec(cfg, capacity, earlier[..k]).queue.book.hand.None?
    {
      assert earlier[..k] == run[..k] && run[k] == Queue(Q.Clear);
    }
  }

  lemma {:induction false} NeverOverlapped<T>(cfg: Q.Config, capacity: nat, run: seq<Action<T>>)
    requires Unobtrusive(cfg, capacity, run)
    ensures !Exec(cfg, capacity, run).queue.overlapped
  {
    if run != [] {
      UnobtrusivePrefix(cfg, capacity, run);
      NeverOverlapped(cfg, capacity, run[..|run| - 1]);
      StepOverlap(cfg, capacity, Exec(cfg, capacity, run[..|run| - 1]), run[|run| - 1]);
    }
  }

  /** Such runs never destroy a pool that is not full, however often the runtime starts and stops. */
  lemma {:induction false} NeverAborts<T>(cfg: Q.Config, capacity: nat, run: seq<Action<T>>)
    requires |run| < WORD && Unobtrusive(cfg, capacity, run)
    ensures Exec(cfg, capacity, run).stage != Aborted
  {
    RunKeepsInv(cfg, capacity, run);
    NeverOverlapped(cfg, capacity, run);
  }

  /** The next `n` steps of the worker, whose answers are `answers`. */
  function Turns<T>(answers: nat -> (int, bool), n: nat): seq<Action<T>> {
    if n == 0 then [] else Turns(answers, n - 1) + [Queue(Q.Work(answers(n - 1).0, answers(n - 1).1))]
  }

  /** The queue of a runtime that drains, and is not off its count, is on its way out. */
  lemma {:induction false} DrainingIsWayOut<T>(cfg: Q.Config, capacity: nat, rt: Runtime<T>, n: nat)
    requires Inv(cfg, rt, capacity, n) && n < WORD && rt.stage == Draining && !rt.queue.overlapped
    requires cfg.flushAll || Count(rt.queue.book) == 0
    ensures WayOut(cfg, rt.queue)
  {
  }

  /** One that is off its count is on its way out when a record is queued at the size check. */
  lemma {:induction false} StrayIsWayOut<T>(cfg: Q.Config, capacity: nat, rt: Runtime<T>, n: nat)
    requires Inv(cfg, rt, capacity, n) && n < WORD && rt.stage == Draining && rt.queue.overlapped
    requires cfg.flushAll && rt.queue.pc.SizeCheck? && rt.queue.book.queue != []
    ensures WayOut(cfg, rt.queue)
  {
  }

  /** DrainAndStop waits for a worker that gets to the end. */
  ghost predicate Awaits<T>(cfg: Q.Config, rt: Runtime<T>, off: bool, steps: int) {
    match rt
    case Runtime(_, _, _, queue, _, _, stage) =>
      && stage == Draining && WayOut(cfg, queue) && queue.overlapped == off
      && (queue.pc.Stopped? || Measure(queue) <= steps)
  }

  lemma {:induction false} TurnAwaits<T>(cfg: Q.Config, rt: Runtime<T>, off: bool, steps: int, clock: int, ok: bool)
    requires Awaits(cfg, rt, off, steps)
    ensures Awaits(cfg, Relay(cfg, rt, Q.Work(clock, ok)), off, steps - 1)
  {
    if rt.queue.pc.Stopped? {
      assert rt.queue.book.hand.None?;
      assert Q.Step(cfg, rt.queue, Q.Work(clock, ok)) == rt.queue;
    } else {
      TurnDescends(cfg, rt.queue, clock, ok);
    }
  }

  lemma {:induction false} TurnsAreWork<T>(answers: nat -> (int, bool), n: nat)
    ensures |Turns<T>(answers, n)| == n
    ensures forall k :: 0 <= k < n ==> IsWork(Turns<T>(answers, n)[k])
  {
    if n != 0 {
      TurnsAreWork<T>(answers, n - 1);
    }
  }

  predicate IsWork<T>(a: Action<T>) {
    a.Queue? && a.a.Work?
  }

  lemma {:induction false} WorkAwaits<T>(cfg: Q.Config, capacity: nat, rt: Runtime<T>, off: bool, steps: int, a: Action<T>)
    requires Awaits(cfg, rt, off, steps) && IsWork(a)
    ensures Awaits(cfg, Step(cfg, capacity, rt, a), off, steps - 1)
  {
    assert Step(cfg, capacity, rt, a) == Relay(cfg, rt, a.a);
    TurnAwaits(cfg, rt, off, steps, a.a.clock, a.a.ok);
  }

  /** A run whose actions from the n-th on are the worker's. */
  lemma {:induction false} RunAwaits<T>(cfg: Q.Config, capacity: nat, run: seq<Action<T>>, n: nat, off: bool, steps: int)
    requires n <= |run| && Awaits(cfg, Exec(cfg, capacity, run[..n]), off, steps)
    requires forall k :: n <= k < |run| ==> IsWork(run[k])
    ensures Awaits(cfg, Exec(cfg, capacity, run), off, steps - (|run| - n))
  {
    if n == |run| {
      assert run[..n] == run;
    } else {
      var earlier := run[..|run| - 1];
      assert earlier[..n] == run[..n];
      RunAwaits(cfg, capacity, earlier, n, off, steps);
      WorkAwaits(cfg, capacity, Exec(cfg, capacity, earlier), off, steps - (|earlier| - n), run[|run| - 1]);
    }
  }

  lemma {:induction false} ExecMore<T>(cfg: Q.Config, capacity: nat, run: seq<Action<T>>, a: Action<T>)
    ensures Exec(cfg, capacity, run + [a]) == Step(cfg, capacity, Exec(cfg, capacity, run), a)
  {
    assert (run + [a])[..|run + [a]| - 1] == run;
  }

  /**
   * Deinitialize ends: whatever the clock and the writer answer, after at most Measure more steps of
   * the worker the pool is full and destroyed, with every record gone.
   */
  lemma {:induction false} DeinitializeEnds<T>(cfg: Q.Config, capacity: nat, run: seq<Action<T>>, answers: nat -> (int, bool))
    returns (n: nat)
    requires |run| < WORD && Unobtrusive(cfg, capacity, run) && Exec(cfg, capacity, run).stage == Draining
    requires cfg.flushAll || Count(Exec(cfg, capacity, run).queue.book) == 0
    requires |run| + Measure(Exec(cfg, capacity, run).queue) < WORD
    ensures n <= Measure(Exec(cfg, capacity, run).queue)
    ensures var rt := Exec(cfg, capacity, run + Turns(answers, n) + [DestroyPool]);
            rt.stage == Idle && !rt.pool && rt.lent == multiset{} && Count(rt.queue.book) == 0
  {
    RunKeepsInv(cfg, capacity, run);
    NeverOverlapped(cfg, capacity, run);
    DrainingIsWayOut(cfg, capacity, Exec(cfg, capacity, run), |run|);
    n := StopsInTime(cfg, capacity, run, answers);
    var longer := run + Turns<T>(answers, n);
    var last := Exec(cfg, capacity, longer);
    RunKeepsInv(cfg, capacity, longer);
    FullAtTheEnd(cfg, last, capacity, |longer|);
    Destroys(cfg, capacity, last);
    ExecMore(cfg, capacity, longer, DestroyPool);
  }

  /**
   * A drain that is off its count and has a record queued at the size check ends too, within the same
   * bound, but the record keeps its slices, and the pool is destroyed while it is not full.
   */
  lemma {:induction false} DeinitializeAborts<T>(cfg: Q.Config, capacity: nat, run: seq<Action<T>>, answers: nat -> (int, bool))
    returns (n: nat)
    requires |run| < WORD && Exec(cfg, capacity, run).stage == Draining && cfg.flushAll
    requires var s := Exec(cfg, capacity, run).queue; s.overlapped && s.pc.SizeCheck? && s.book.queue != []
    requires |run| + Measure(Exec(cfg, capacity, run).queue) < WORD
    ensures n <= Measure(Exec(cfg, capacity, run).queue)
    ensures var rt := Exec(cfg, capacity, run + Turns(answers, n) + [DestroyPool]);
            rt.stage == Aborted && rt.lent != multiset{}
  {
    RunKeepsInv(cfg, capacity, run);
    StrayIsWayOut(cfg, capacity, Exec(cfg, capacity, run), |run|);
    n := StopsInTime(cfg, capacity, run, answers);
    var longer := run + Turns<T>(answers, n);
    var last := Exec(cfg, capacity, longer);
    RunKeepsInv(cfg, capacity, longer);
    FullAtTheEnd(cfg, last, capacity, |longer|);
    Destroys(cfg, capacity, last);
    ExecMore(cfg, capacity, longer, DestroyPool);
  }

  /** With none queued there Deinitialize never returns, whatever else is called. */
  lemma {:induction false} DeinitializeHangs<T>(cfg: Q.Config, capacity: nat, run: seq<Action<T>>, later: seq<Action<T>>)
    requires |run| < WORD && Exec(cfg, capacity, run).stage == Draining
    requires var s := Exec(cfg, capacity, run).queue; s.overlapped && s.pc.SizeCheck? && s.book.queue == []
    ensures var rt := Exec(cfg, capacity, run + later); rt.stage == Draining && !rt.queue.pc.Stopped?
  {
    RunKeepsInv(cfg, capacity, run);
    StuckAtCheck(cfg, capacity, Exec(cfg, capacity, run), |run|);
    assert (run + later)[..|run|] == run;
    StaysHung(cfg, capacity, run + later, |run|);
  }

  ghost predicate Hung<T>(rt: Runtime<T>) {
    match rt
    case Runtime(_, _, _, queue, _, _, stage) => stage == Draining && Stuck(queue)
  }

  lemma {:induction false} StuckAtCheck<T>(cfg: Q.Config, capacity: nat, rt: Runtime<T>, n: nat)
    requires Inv(cfg, rt, capacity, n) && rt.stage == Draining
    requires rt.queue.overlapped && rt.queue.pc.SizeCheck? && rt.queue.book.queue == []
    ensures Hung(rt)
  {
  }

  lemma {:induction false} HungStep<T>(cfg: Q.Config, capacity: nat, rt: Runtime<T>, a: Action<T>)
    requires Hung(rt)
    ensures Hung(Step(cfg, capacity, rt, a))
  {
    if a.Queue? && a.a.Work? {
      StuckStep(cfg, rt.queue, a.a);
    } else {
      assert Step(cfg, capacity, rt, a) == rt;
    }
  }

  lemma {:induction false} StaysHung<T>(cfg: Q.Config, capacity: nat, run: seq<Action<T>>, n: nat)
    requires n <= |run| && Hung(Exec(cfg, capacity, run[..n]))
    ensures Hung(Exec(cfg, capacity, run))
  {
    if n == |run| {
      assert run[..n] == run;
    } else {
      var earlier := run[..|run| - 1];
      assert earlier[..n] == run[..n];
      StaysHung(cfg, capacity, earlier, n);
      HungStep(cfg, capacity, Exec(cfg, capacity, earlier), run[|run| - 1]);
    }
  }

  lemma {:induction false} Destroys<T>(cfg: Q.Config, capacity: nat, rt: Runtime<T>)
    requires rt.stage == Draining && rt.queue.pc.Stopped?
    ensures Step(cfg, capacity, rt, DestroyPool) ==
            rt.(pool := false, stage := if rt.lent == multiset{} then Idle else Aborted)
  {
  }

  lemma {:induction false} StopsInTime<T>(cfg: Q.Config, capacity: nat, run: seq<Action<T>>, answers: nat -> (int, bool))
    returns (n: nat)
    requires Exec(cfg, capacity, run).stage == Draining && WayOut(cfg, Exec(cfg, capacity, run).queue)
    ensures n <= Measure(Exec(cfg, capacity, run).queue) && |run + Turns<T>(answers, n)| == |run| + n
    ensures var rt := Exec(cfg, capacity, run + Turns(answers, n));
            rt.stage == Draining && rt.queue.pc.Stopped? && rt.queue.overlapped == Exec(cfg, capacity, run).queue.overlapped
  {
    var rt := Exec(cfg, capacity, run);
    LoadBounds(rt.queue);
    n := Measure(rt.queue);
    TurnsAreWork<T>(answers, n);
    var longer := run + Turns<T>(answers, n);
    assert longer[..|run|] == run;
    assert forall k :: |run| <= k < |longer| ==> longer[k] == Turns<T>(answers, n)[k - |run|];
    RunAwaits(cfg, capacity, longer, |run|, rt.queue.overlapped, n);
    AwaitsNoMore(cfg, Exec(cfg, capacity, longer), rt.queue.overlapped);
  }

  lemma {:induction false} AwaitsNoMore<T>(cfg: Q.Config, rt: Runtime<T>, off: bool)
    requires Awaits(cfg, rt, off, 0)
    ensures rt.stage == Draining && rt.queue.pc.Stopped? && rt.queue.overlapped == off
  {
    LoadBounds(rt.queue);
  }
}
