/** A run of the whole runtime in which a Clear at the wrong moment ends with the pool destroyed before it is full. */
module RuntimeRuns {
  import opened Common
  import opened SliceBuffer
  import opened Records
  import Completions
  import Q = FlushQueue
  import opened FlushDrain
  import opened DiskFlushQueue
  import opened RuntimeManager

  const CFG := Q.Config(0, 2, true)
  const LEASE := Lease(Dynamic, 0, 1)

  /** The buffer that holds the one event logged, and its record with `attempts` left. */
  const LINE: Line<int> := Line(1, [LEASE], [7], 1)

  function Rec(attempts: int): Record<Line<int>> {
    Record(0, 0, attempts, LINE)
  }

  lemma {:induction false} Play(run: seq<Action<int>>, rt: Runtime<int>, a: Action<int>)
    returns (more: seq<Action<int>>, next: Runtime<int>)
    requires rt == Exec(CFG, 1, run)
    ensures more == run + [a] && next == Step(CFG, 1, rt, a) == Exec(CFG, 1, more)
  {
    more, next := run + [a], Step(CFG, 1, rt, a);
    ExecMore(CFG, 1, run, a);
  }

  /** The queue at place `pc` with the records given; `size` is its counter. */
  function At(pc: Q.Pc, queue: seq<Record<Line<int>>>, hand: Option<Record<Line<int>>>, writes: seq<Write>,
              size: nat, draining: bool, overlapped: bool): Q.State<Line<int>>
  {
    Q.State(Book(queue, hand, {}, map[], 1, writes, {}), Completions.Desk(None, [], 0, map[], []), 0, size, true, draining,
            pc, [], overlapped)
  }

  /** A runtime with one logger. */
  lemma {:induction false} Ready() returns (run: seq<Action<int>>, rt: Runtime<int>)
    ensures rt == Exec(CFG, 1, run) && |run| == 3
    ensures rt == Runtime(true, multiset{}, [Some(EmptyLine(1))],
                          Q.Start<Line<int>>().(running := true, pc := Q.Top), true, true, Idle)
  {
    run, rt := [], Start<int>();
    run, rt := Play(run, rt, Initialize);
    assert rt == Start<int>().(pool := true, initialized := true, queue := Q.Start<Line<int>>().(running := true, pc := Q.Top));
    run, rt := Play(run, rt, Enable);
    run, rt := Play(run, rt, Subscribe);
  }

  /** One event is logged and its buffer goes to the queue. */
  lemma {:induction false} EventLogged() returns (run: seq<Action<int>>, rt: Runtime<int>)
    ensures rt == Exec(CFG, 1, run) && |run| == 5
    ensures rt == Runtime(true, multiset{LEASE}, [Some(EmptyLine(1))],
                          At(Q.Top, [Rec(2)], None, [], 1, false, false), true, true, Idle)
  {
    run, rt := Ready();
    LogOnce(rt);
    run, rt := Play(run, rt, Log(0, 7, Some(LEASE), 0));
    CommitOne(rt.queue);
    run, rt := Play(run, rt, Queue(Q.EnqueueCommit(0)));
  }

  lemma {:induction false} CommitOne(s: Q.State<Line<int>>)
    requires s == Q.Start<Line<int>>().(running := true, pc := Q.Top, entering := [(0, LINE)])
    ensures Q.Step(CFG, s, Q.EnqueueCommit(0)) == At(Q.Top, [Rec(2)], None, [], 1, false, false)
  {
    assert Completions.Without(s.entering, 0) == [];
  }

  lemma {:induction false} LogOnce(rt: Runtime<int>)
    requires rt.stage == Idle && rt.enabled && rt.loggers == [Some(EmptyLine(1))] && rt.lent == multiset{}
    requires rt.queue.running && !rt.queue.draining && rt.queue.entering == []
    ensures Step(CFG, 1, rt, Log(0, 7, Some(LEASE), 0)) ==
            rt.(lent := multiset{LEASE}, queue := rt.queue.(entering := [(0, LINE)]))
  {
    assert EmptyLine<int>(1).Push(7, Some(LEASE)) == LINE;
    assert PushAt(rt, 0, 7, Some(LEASE)).loggers == [Some(LINE)];
  }

  /** A step of the worker that destroys no record. */
  lemma {:induction false} PlayWork(run: seq<Action<int>>, rt: Runtime<int>, s: Q.State<Line<int>>)
    returns (more: seq<Action<int>>, next: Runtime<int>)
    requires rt == Exec(CFG, 1, run) && rt.stage != Aborted && !Dropping(rt.queue.pc)
    requires s == Q.Step(CFG, rt.queue, Q.Work(0, false))
    ensures next == Exec(CFG, 1, more) && |more| == |run| + 1 && next == rt.(queue := s)
  {
    more, next := Play(run, rt, Queue(Q.Work(0, false)));
  }

  /** The worker takes the record and the queue is cleared. */
  lemma {:induction false} ClearedInHand() returns (run: seq<Action<int>>, rt: Runtime<int>)
    ensures rt == Exec(CFG, 1, run) && |run| == 8
    ensures rt == Runtime(true, multiset{LEASE}, [Some(EmptyLine(1))],
                          At(Q.Holding, [], Some(Rec(2)), [], 0, false, true), true, true, Idle)
  {
    run, rt := EventLogged();
    run, rt := PlayWork(run, rt, At(Q.Pop, [Rec(2)], None, [], 1, false, false));
    assert [Rec(2)][1..] == [];
    run, rt := PlayWork(run, rt, At(Q.Holding, [], Some(Rec(2)), [], 1, false, false));
    assert Wipe(rt.queue.book) == rt.queue.book by {
      assert Ids<Line<int>>([]) == {};
    }
    run, rt := Play(run, rt, Queue(Q.Clear));
  }

  /** The write fails and the record is queued again. */
  lemma {:induction false} QueuedAgain() returns (run: seq<Action<int>>, rt: Runtime<int>)
    ensures rt == Exec(CFG, 1, run) && |run| == 11
    ensures rt == Runtime(true, multiset{LEASE}, [Some(EmptyLine(1))],
                          At(Q.Notify, [Rec(1)], None, [Write(0, false)], 0, false, true), true, true, Idle)
  {
    run, rt := ClearedInHand();
    run, rt := PlayWork(run, rt, At(Q.Writing, [], Some(Rec(2)), [], 0, false, true));
    run, rt := PlayWork(run, rt, At(Q.Retrying, [], Some(Rec(1)), [Write(0, false)], 0, false, true));
    run, rt := PlayWork(run, rt, At(Q.Notify, [Rec(1)], None, [Write(0, false)], 0, false, true));
  }

  /** Deinitialize takes the logger's pool away and waits for the worker. */
  lemma {:induction false} Waiting() returns (run: seq<Action<int>>, rt: Runtime<int>)
    ensures rt == Exec(CFG, 1, run) && |run| == 14 && rt.stage == Draining
    ensures rt.queue == At(Q.Notify, [Rec(1)], None, [Write(0, false)], 0, true, true)
  {
    run, rt := QueuedAgain();
    var was := rt;
    run, rt := Play(run, rt, Deinitialize);
    assert rt == was.(enabled := false, initialized := false, stage := Detaching);
    DetachEmpty(rt);
    run, rt := Play(run, rt, Detach(0, 0));
    StartsDrain(rt);
    run, rt := Play(run, rt, DrainAndStop);
  }

  lemma {:induction false} StartsDrain(rt: Runtime<int>)
    requires rt.stage == Detaching && rt.loggers == [None] && rt.queue.entering == [] && rt.queue.running
    ensures Step(CFG, 1, rt, DrainAndStop) == rt.(queue := rt.queue.(draining := true), stage := Draining)
  {
  }

  lemma {:induction false} DetachEmpty(rt: Runtime<int>)
    requires rt.stage == Detaching && rt.loggers == [Some(EmptyLine(1))]
    ensures Step(CFG, 1, rt, Detach(0, 0)) == rt.(loggers := [None])
  {
    assert FlushAt(CFG, rt, 0, 0) == rt;
    assert rt.lent - multiset([]) == rt.lent;
  }

  /** The worker is about to look at its counter, which is 0. */
  lemma {:induction false} AtTheCheck() returns (run: seq<Action<int>>, rt: Runtime<int>)
    ensures rt == Exec(CFG, 1, run) && |run| == 16 && rt.stage == Draining
    ensures rt.queue == At(Q.SizeCheck, [Rec(1)], None, [Write(0, false)], 0, true, true)
  {
    run, rt := Waiting();
    run, rt := PlayWork(run, rt, At(Q.Top, [Rec(1)], None, [Write(0, false)], 0, true, true));
    run, rt := PlayWork(run, rt, At(Q.SizeCheck, [Rec(1)], None, [Write(0, false)], 0, true, true));
  }

  /** The pool is destroyed while a slice is out. */
  lemma {:induction false} DestroyedNotFull() returns (run: seq<Action<int>>)
    ensures var rt := Exec(CFG, 1, run); rt.stage == Aborted && rt.lent != multiset{}
  {
    var rt;
    run, rt := AtTheCheck();
    SumBySingle(Weight<Line<int>>, Rec(1));
    assert Measure(rt.queue) == 24;
    var n := DeinitializeAborts(CFG, 1, run, _ => (0, false));
    run := run + Turns<int>(_ => (0, false), n) + [DestroyPool];
  }
}
