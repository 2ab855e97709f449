/**
 * What becomes of the events that applications log, over whole runs of the runtime: each logger's events
 * are in the buffers that have come to the queue and in its present buffer, in order.
 */
module RuntimeEvents {
  import opened Common
  import opened Words
  import opened SliceBuffer
  import opened Records
  import Q = FlushQueue
  import J = Journals
  import E = EndToEnd
  import opened RuntimeManager

  /** The story of one logger, since it was last cleared. */
  datatype Tale<T> = Tale(
    logged: seq<T>,           // every event logged through it
    entered: seq<Line<T>>,    // its buffers that have come to the queue, in order
    mark: nat,                // how many events were logged before its present buffer
    refused: nat)             // the slices it asked for in vain

  datatype Chronicle<T> = Chronicle(tales: seq<Tale<T>>, departed: seq<Tale<T>>)

  function Fresh<T>(): Tale<T> {
    Tale([], [], 0, 0)
  }

  /** The buffers that a step brings to the queue. */
  ghost function Arrived<T>(before: Q.State<Line<T>>, after: Q.State<Line<T>>): seq<Line<T>> {
    if |before.entering| < |after.entering| then [after.entering[|before.entering|].1] else []
  }

  function Brought<T>(tale: Tale<T>, lines: seq<Line<T>>): Tale<T> {
    tale.(entered := tale.entered + lines, mark := if lines == [] then tale.mark else |tale.logged|)
  }

  function Spoken<T>(tale: Tale<T>, event: T, vain: bool): Tale<T> {
    tale.(logged := tale.logged + [event], refused := tale.refused + if vain then 1 else 0)
  }

  ghost predicate Ready<T>(rt: Runtime<T>) {
    rt.stage == Idle && rt.initialized
  }

  ghost predicate Revokes<T>(rt: Runtime<T>, a: Action<T>) {
    rt.stage == Idle && (a.Disable? || a.Deinitialize?)
  }

  /** Some step of a run has enabled an initialized runtime, and no later one has revoked that. */
  ghost predicate Granted<T>(cfg: Q.Config, capacity: nat, run: seq<Action<T>>) {
    run != [] &&
    var rt, a := Exec(cfg, capacity, run[..|run| - 1]), run[|run| - 1];
    (Ready(rt) && a.Enable?) || (Granted(cfg, capacity, run[..|run| - 1]) && !Revokes(rt, a))
  }

  /** The runtime is enabled exactly if an Enable after Initialize has not been revoked since. */
  lemma {:induction false} EnabledIff<T>(cfg: Q.Config, capacity: nat, run: seq<Action<T>>)
    ensures Exec(cfg, capacity, run).enabled <==> Granted(cfg, capacity, run)
    ensures Exec(cfg, capacity, run).enabled ==> Ready(Exec(cfg, capacity, run))
  {
    if run != [] {
      EnabledIff(cfg, capacity, run[..|run| - 1]);
      EnabledStep(cfg, capacity, Exec(cfg, capacity, run[..|run| - 1]), run[|run| - 1]);
    }
  }

  lemma {:induction false} EnabledStep<T>(cfg: Q.Config, capacity: nat, rt: Runtime<T>, a: Action<T>)
    requires rt.enabled ==> Ready(rt)
    ensures var next := Step(cfg, capacity, rt, a);
            && (next.enabled <==>
                  (Ready(rt) && a.Enable?) || (rt.enabled && !Revokes(rt, a)))
            && (next.enabled ==> Ready(next))
  {
  }

  /** A logger takes an event while the runtime is enabled and it has a buffer. */
  ghost predicate Heard<T>(rt: Runtime<T>, i: nat, answer: Option<Lease>) {
    rt.stage == Idle && rt.enabled && i < |rt.loggers| && rt.loggers[i].Some? && Grantable(rt.lent, answer)
  }

  /** The chronicle after a step: what was logged, and what was seen to come to the queue. */
  ghost function Noted<T>(cfg: Q.Config, capacity: nat, rt: Runtime<T>, a: Action<T>, c: Chronicle<T>): Chronicle<T> {
    var next := Step(cfg, capacity, rt, a);
    var lines := Arrived(rt.queue, next.queue);
    match a
    case Subscribe => if |rt.loggers| < |next.loggers| then c.(tales := c.tales + [Fresh()]) else c
    case Unsubscribe(i, _) =>
      if i < |c.tales| && |next.loggers| < |rt.loggers|
      then Chronicle(c.tales[..i] + c.tales[i + 1..], c.departed + [Brought(c.tales[i], lines)]) else c
    case Log(i, event, answer, _) =>
      if i < |c.tales| && Heard(rt, i, answer)
      then
        var vain := rt.loggers[i].value.Wants() && answer.None?;
        c.(tales := c.tales[i := Brought(Spoken(c.tales[i], event, vain), lines)])
      else c
    case FlushLogger(i, _) => if i < |c.tales| then c.(tales := c.tales[i := Brought(c.tales[i], lines)]) else c
    case Detach(i, _) => if i < |c.tales| then c.(tales := c.tales[i := Brought(c.tales[i], lines)]) else c
    case ClearLogger(i) =>
      if i < |c.tales| && i < |rt.loggers| && rt.loggers[i].Some? && (rt.stage == Idle || rt.stage == Detaching)
      then c.(tales := c.tales[i := Fresh()]) else c
    case _ => c
  }

  ghost function History<T>(cfg: Q.Config, capacity: nat, run: seq<Action<T>>): Chronicle<T> {
    if run == [] then Chronicle([], [])
    else Noted(cfg, capacity, Exec(cfg, capacity, run[..|run| - 1]), run[|run| - 1], History(cfg, capacity, run[..|run| - 1]))
  }

  /** The events in some buffers, in order. */
  function Spelled<T>(lines: seq<Line<T>>): seq<T> {
    if lines == [] then []
    else Spelled(lines[..|lines| - 1]) + Events(Some(lines[|lines| - 1]))
  }

  function Events<T>(buffer: Option<Line<T>>): seq<T> {
    if buffer.Some? && buffer.value.pos <= |buffer.value.memory| then buffer.value.Contents() else []
  }

  function LineOf<T>(buffer: Option<Line<T>>, capacity: nat): Line<T> {
    if buffer.Some? then buffer.value else EmptyLine(capacity)
  }

  ghost function JournalOf<T>(tale: Tale<T>, line: Line<T>): J.Journal<T> {
    J.Journal(line, tale.logged, Spelled(tale.entered), tale.mark, tale.refused, 0)
  }

  /** A tale and the present buffer make a journal to which nothing was lost on the way to the queue. */
  ghost predicate Recounts<T>(cfg: Q.Config, capacity: nat, tale: Tale<T>, line: Line<T>) {
    match tale
    case Tale(_, _, _, _) =>
      J.Intact(JournalOf(tale, line)) || (JournalOf(tale, line).Valid() && (cfg.flushAll ==> capacity == 0))
  }

  ghost predicate Each<T>(cfg: Q.Config, capacity: nat, tales: seq<Tale<T>>, loggers: seq<Option<Line<T>>>) {
    |tales| == |loggers| && forall i :: 0 <= i < |tales| ==> Recounts(cfg, capacity, tales[i], LineOf(loggers[i], capacity))
  }

  ghost predicate Closed<T>(cfg: Q.Config, capacity: nat, tales: seq<Tale<T>>) {
    forall i :: 0 <= i < |tales| ==> Recounts(cfg, capacity, tales[i], EmptyLine(capacity))
  }

  ghost predicate Recorded<T>(cfg: Q.Config, capacity: nat, loggers: seq<Option<Line<T>>>, c: Chronicle<T>) {
    match c
    case Chronicle(tales, departed) => Each(cfg, capacity, tales, loggers) && Closed(cfg, capacity, departed)
  }

  lemma {:induction false} FreshRecounts<T>(cfg: Q.Config, capacity: nat)
    ensures Recounts(cfg, capacity, Fresh<T>(), EmptyLine(capacity))
  {
    assert JournalOf(Fresh<T>(), EmptyLine(capacity)) == J.Opened<T>(capacity);
  }

  lemma {:induction false} SpelledPush<T>(lines: seq<Line<T>>, line: Line<T>)
    ensures Spelled(lines + [line]) == Spelled(lines) + Events(Some(line))
  {
    assert (lines + [line])[..|lines|] == lines;
  }

  /** A buffer that comes to the queue. */
  lemma {:induction false} FlushRecounts<T>(cfg: Q.Config, capacity: nat, tale: Tale<T>, line: Line<T>)
    requires Recounts(cfg, capacity, tale, line) && line.limit == capacity && line.memory != []
    ensures Recounts(cfg, capacity, Brought(tale, [line]), EmptyLine(capacity))
  {
    var j := JournalOf(tale, line);
    SpelledPush(tale.entered, line);
    assert JournalOf(Brought(tale, [line]), EmptyLine(capacity)) == J.Flushed(j, true);
    J.FlushedValid(j, true);
    if J.Intact(j) {
      J.FlushedIntact(j, true);
    }
  }

  lemma {:induction false} NothingBrought<T>(tale: Tale<T>)
    ensures Brought(tale, []) == tale
  {
    assert tale.entered + [] == tale.entered;
  }

  /** An event that is logged, in a buffer that goes on if it is full. */
  lemma {:induction false} LogRecounts<T>(cfg: Q.Config, capacity: nat, tale: Tale<T>, line: Line<T>, event: T, got: Option<Lease>)
    requires Recounts(cfg, capacity, tale, line) && line.limit == capacity && Lendable(got)
    ensures var told, pushed := Spoken(tale, event, line.Wants() && got.None?), line.Push(event, got);
            if cfg.flushAll && capacity <= |pushed.memory| && pushed.memory != []
            then Recounts(cfg, capacity, Brought(told, [pushed]), EmptyLine(capacity))
            else Recounts(cfg, capacity, told, pushed)
  {
    var j, told, pushed := JournalOf(tale, line), Spoken(tale, event, line.Wants() && got.None?), line.Push(event, got);
    assert JournalOf(told, pushed) == J.Pushed(j, event, got);
    J.LoggedValid(j, event, got, cfg.flushAll, true);
    J.PushedValid(j, event, got);
    if cfg.flushAll && 0 < capacity {
      J.LoggedIntact(j, event, got, true);
    }
    assert pushed.limit == capacity;
    if cfg.flushAll && capacity <= |pushed.memory| && pushed.memory != [] {
      SpelledPush(told.entered, pushed);
      assert JournalOf(Brought(told, [pushed]), EmptyLine(capacity)) == J.Flushed(J.Pushed(j, event, got), true);
    }
  }

  lemma {:induction false} EmptyIsEmpty<T>(line: Line<T>)
    requires line.Valid() && line.memory == []
    ensures line == EmptyLine(line.limit)
  {
  }

  /** A logger has a buffer only while the queue takes buffers: none is ever refused. */
  lemma {:induction false} QueueTakes<T>(cfg: Q.Config, rt: Runtime<T>, capacity: nat, n: nat, i: nat)
    requires Inv(cfg, rt, capacity, n) && i < |rt.loggers| && rt.loggers[i].Some? && rt.stage != Aborted
    ensures rt.queue.running && !rt.queue.draining && rt.loggers[i].value.Valid() && rt.loggers[i].value.limit == capacity
  {
    assert Buffer(rt.loggers[i], capacity);
    assert !Detached(rt.loggers);
  }

  lemma {:induction false} FlushArrives<T>(cfg: Q.Config, rt: Runtime<T>, i: nat, stamp: int)
    requires i < |rt.loggers| && (rt.loggers[i].Some? ==> rt.queue.running && !rt.queue.draining)
    ensures var next, b := FlushAt(cfg, rt, i, stamp), rt.loggers[i];
            if b.Some? && b.value.memory != []
            then Arrived(rt.queue, next.queue) == [b.value] && next.loggers == rt.loggers[i := Some(EmptyLine(b.value.limit))]
            else Arrived(rt.queue, next.queue) == [] && next.loggers == rt.loggers
  {
  }

  /** Logger i hands its buffer over; `gone` tells whether it loses its pool then. */
  lemma {:induction false} HandOverRecorded<T>(cfg: Q.Config, rt: Runtime<T>, capacity: nat, n: nat, i: nat, stamp: int, c: Chronicle<T>)
    requires Inv(cfg, rt, capacity, n) && i < |rt.loggers| && rt.stage != Aborted && Recorded(cfg, capacity, rt.loggers, c)
    ensures var next := FlushAt(cfg, rt, i, stamp);
            && Recounts(cfg, capacity, Brought(c.tales[i], Arrived(rt.queue, next.queue)), EmptyLine(capacity))
            && |next.loggers| == |rt.loggers| && LineOf(next.loggers[i], capacity) == EmptyLine(capacity)
            && forall j :: 0 <= j < |rt.loggers| && j != i ==> next.loggers[j] == rt.loggers[j]
  {
    var b, tale := rt.loggers[i], c.tales[i];
    assert Recounts(cfg, capacity, tale, LineOf(b, capacity));
    if b.Some? {
      QueueTakes(cfg, rt, capacity, n, i);
    }
    FlushArrives(cfg, rt, i, stamp);
    if b.Some? && b.value.memory != [] {
      FlushRecounts(cfg, capacity, tale, b.value);
    } else {
      NothingBrought(tale);
      if b.Some? {
        EmptyIsEmpty(b.value);
      }
    }
  }

  /** One tale changes, and the buffer it is about. */
  lemma {:induction false} OneTale<T>(cfg: Q.Config, capacity: nat, loggers: seq<Option<Line<T>>>, tales: seq<Tale<T>>, i: nat,
                                      tale: Tale<T>, next: seq<Option<Line<T>>>)
    requires Each(cfg, capacity, tales, loggers) && i < |loggers| == |next|
    requires Recounts(cfg, capacity, tale, LineOf(next[i], capacity))
    requires forall j :: 0 <= j < |loggers| && j != i ==> next[j] == loggers[j]
    ensures Each(cfg, capacity, tales[i := tale], next)
  {
  }

  lemma {:induction false} TaleLeaves<T>(cfg: Q.Config, capacity: nat, loggers: seq<Option<Line<T>>>, tales: seq<Tale<T>>, i: nat)
    requires Each(cfg, capacity, tales, loggers) && i < |loggers|
    ensures Each(cfg, capacity, tales[..i] + tales[i + 1..], loggers[..i] + loggers[i + 1..])
  {
    var fewer, rest := tales[..i] + tales[i + 1..], loggers[..i] + loggers[i + 1..];
    forall j | 0 <= j < |fewer|
      ensures Recounts(cfg, capacity, fewer[j], LineOf(rest[j], capacity))
    {
      LeftOut(tales, i, j);
      LeftOut(loggers, i, j);
    }
  }

  lemma {:induction false} LeftOut<A>(s: seq<A>, i: nat, j: nat)
    requires i < |s| && j < |s| - 1
    ensures (s[..i] + s[i + 1..])[j] == s[if j < i then j else j + 1]
  {
  }

  lemma {:induction false} OneClosed<T>(cfg: Q.Config, capacity: nat, departed: seq<Tale<T>>, tale: Tale<T>)
    requires Closed(cfg, capacity, departed) && Recounts(cfg, capacity, tale, EmptyLine(capacity))
    ensures Closed(cfg, capacity, departed + [tale])
  {
  }

  lemma {:induction false} TaleBegins<T>(cfg: Q.Config, capacity: nat, loggers: seq<Option<Line<T>>>, tales: seq<Tale<T>>, b: Option<Line<T>>)
    requires Each(cfg, capacity, tales, loggers) && LineOf(b, capacity) == EmptyLine(capacity)
    ensures Each(cfg, capacity, tales + [Fresh()], loggers + [b])
  {
    FreshRecounts<T>(cfg, capacity);
  }

  /** What a step with an event that is heard does to the loggers, and what it brings to the queue. */
  lemma {:induction false} LogArrives<T>(cfg: Q.Config, rt: Runtime<T>, capacity: nat, a: Action<T>)
    requires a.Log? && Heard(rt, a.i, a.answer) && rt.queue.running && !rt.queue.draining
    requires rt.loggers[a.i].value.limit == capacity
    ensures var next, line := Step(cfg, capacity, rt, a), rt.loggers[a.i].value;
            var pushed := line.Push(a.event, if line.Wants() then a.answer else None);
            if cfg.flushAll && capacity <= |pushed.memory| && pushed.memory != []
            then Arrived(rt.queue, next.queue) == [pushed] && next.loggers == rt.loggers[a.i := Some(EmptyLine(capacity))]
            else Arrived(rt.queue, next.queue) == [] && next.loggers == rt.loggers[a.i := Some(pushed)]
  {
    var next, pushed := Step(cfg, capacity, rt, a), PushAt(rt, a.i, a.event, a.answer);
    FlushArrives(cfg, pushed, a.i, a.stamp);
    assert next == if cfg.flushAll && capacity <= |pushed.loggers[a.i].value.memory| then FlushAt(cfg, pushed, a.i, a.stamp) else pushed;
  }

  lemma {:induction false} LogNoted<T>(cfg: Q.Config, rt: Runtime<T>, capacity: nat, a: Action<T>, c: Chronicle<T>)
    requires a.Log? && Heard(rt, a.i, a.answer) && a.i < |c.tales|
    ensures var vain, next := rt.loggers[a.i].value.Wants() && a.answer.None?, Step(cfg, capacity, rt, a);
            Noted(cfg, capacity, rt, a, c) ==
              c.(tales := c.tales[a.i := Brought(Spoken(c.tales[a.i], a.event, vain), Arrived(rt.queue, next.queue))])
  {
  }

  /** The loggers and the chronicle after an event, in terms of the buffer it was pushed to. */
  lemma {:induction false} LogRetold<T>(cfg: Q.Config, capacity: nat, loggers: seq<Option<Line<T>>>, c: Chronicle<T>, i: nat, event: T,
                                        answer: Option<Lease>, lines: seq<Line<T>>, next: seq<Option<Line<T>>>)
    requires Recorded(cfg, capacity, loggers, c) && i < |loggers| && loggers[i].Some?
    requires loggers[i].value.limit == capacity && Lendable(answer)
    requires var line := loggers[i].value;
             var pushed := line.Push(event, if line.Wants() then answer else None);
             if cfg.flushAll && capacity <= |pushed.memory| && pushed.memory != []
             then lines == [pushed] && next == loggers[i := Some(EmptyLine(capacity))]
             else lines == [] && next == loggers[i := Some(pushed)]
    ensures var told := Spoken(c.tales[i], event, loggers[i].value.Wants() && answer.None?);
            Recorded(cfg, capacity, next, c.(tales := c.tales[i := Brought(told, lines)]))
  {
    var line := loggers[i].value;
    assert Recounts(cfg, capacity, c.tales[i], LineOf(loggers[i], capacity));
    LogRecounts(cfg, capacity, c.tales[i], line, event, if line.Wants() then answer else None);
    var told := Spoken(c.tales[i], event, line.Wants() && answer.None?);
    NothingBrought(told);
    OneTale(cfg, capacity, loggers, c.tales, i, Brought(told, lines), next);
  }

  lemma {:induction false} LogRecorded<T>(cfg: Q.Config, rt: Runtime<T>, capacity: nat, n: nat, a: Action<T>, c: Chronicle<T>)
    requires Inv(cfg, rt, capacity, n) && Recorded(cfg, capacity, rt.loggers, c) && a.Log? && Heard(rt, a.i, a.answer)
    ensures Recorded(cfg, capacity, Step(cfg, capacity, rt, a).loggers, Noted(cfg, capacity, rt, a, c))
  {
    var next := Step(cfg, capacity, rt, a);
    QueueTakes(cfg, rt, capacity, n, a.i);
    LogArrives(cfg, rt, capacity, a);
    LogNoted(cfg, rt, capacity, a, c);
    LogRetold(cfg, capacity, rt.loggers, c, a.i, a.event, a.answer, Arrived(rt.queue, next.queue), next.loggers);
  }

  lemma {:induction false} UnsubscribeRecorded<T>(cfg: Q.Config, rt: Runtime<T>, capacity: nat, n: nat, a: Action<T>, c: Chronicle<T>)
    requires Inv(cfg, rt, capacity, n) && Recorded(cfg, capacity, rt.loggers, c) && a.Unsubscribe?
    ensures Recorded(cfg, capacity, Step(cfg, capacity, rt, a).loggers, Noted(cfg, capacity, rt, a, c))
  {
    var next := Step(cfg, capacity, rt, a);
    if rt.stage == Idle && a.i < |rt.loggers| {
      var handed := FlushAt(cfg, rt, a.i, a.stamp);
      HandOverRecorded(cfg, rt, capacity, n, a.i, a.stamp, c);
      assert next == handed.(loggers := handed.loggers[..a.i] + handed.loggers[a.i + 1..]);
      TaleLeaves(cfg, capacity, rt.loggers, c.tales, a.i);
      OneClosed(cfg, capacity, c.departed, Brought(c.tales[a.i], Arrived(rt.queue, handed.queue)));
      assert next.loggers == rt.loggers[..a.i] + rt.loggers[a.i + 1..];
    }
  }

  /** FlushLogger and Detach. */
  lemma {:induction false} HandRecorded<T>(cfg: Q.Config, rt: Runtime<T>, capacity: nat, n: nat, a: Action<T>, c: Chronicle<T>)
    requires Inv(cfg, rt, capacity, n) && Recorded(cfg, capacity, rt.loggers, c) && (a.FlushLogger? || a.Detach?)
    ensures Recorded(cfg, capacity, Step(cfg, capacity, rt, a).loggers, Noted(cfg, capacity, rt, a, c))
  {
    HandSteps(cfg, capacity, rt, a, c);
    if a.i < |rt.loggers| {
      if rt.stage == Detaching || (rt.stage == Idle && a.FlushLogger?) {
        var next, handed := Step(cfg, capacity, rt, a), FlushAt(cfg, rt, a.i, a.stamp);
        HandOverRecorded(cfg, rt, capacity, n, a.i, a.stamp, c);
        OneTale(cfg, capacity, rt.loggers, c.tales, a.i, Brought(c.tales[a.i], Arrived(rt.queue, handed.queue)), next.loggers);
      } else {
        NothingBrought(c.tales[a.i]);
        assert c.tales[a.i := c.tales[a.i]] == c.tales;
      }
    }
  }

  lemma {:induction false} HandSteps<T>(cfg: Q.Config, capacity: nat, rt: Runtime<T>, a: Action<T>, c: Chronicle<T>)
    requires (a.FlushLogger? || a.Detach?) && |c.tales| == |rt.loggers|
    ensures var next := Step(cfg, capacity, rt, a);
            if a.i < |rt.loggers| && (rt.stage == Detaching || (rt.stage == Idle && a.FlushLogger?)) then
              var handed := FlushAt(cfg, rt, a.i, a.stamp);
              && next.queue == handed.queue && next.loggers == (if a.Detach? then handed.loggers[a.i := None] else handed.loggers)
              && Noted(cfg, capacity, rt, a, c) == c.(tales := c.tales[a.i := Brought(c.tales[a.i], Arrived(rt.queue, handed.queue))])
            else
              next == rt && Noted(cfg, capacity, rt, a, c) ==
                if a.i < |c.tales| then c.(tales := c.tales[a.i := Brought(c.tales[a.i], [])]) else c
  {
  }

  lemma {:induction false} RosterRecorded<T>(cfg: Q.Config, rt: Runtime<T>, capacity: nat, n: nat, a: Action<T>, c: Chronicle<T>)
    requires Inv(cfg, rt, capacity, n) && Recorded(cfg, capacity, rt.loggers, c)
    requires a.Subscribe? || a.ClearLogger? || a.Initialize?
    ensures Recorded(cfg, capacity, Step(cfg, capacity, rt, a).loggers, Noted(cfg, capacity, rt, a, c))
  {
    var next := Step(cfg, capacity, rt, a);
    if a.Subscribe? {
      if rt.stage == Idle {
        TaleBegins(cfg, capacity, rt.loggers, c.tales, if rt.pool then Some(EmptyLine(capacity)) else None);
      }
    } else if a.ClearLogger? {
      if a.i < |rt.loggers| && rt.loggers[a.i].Some? && (rt.stage == Idle || rt.stage == Detaching) {
        FreshRecounts<T>(cfg, capacity);
        OneTale(cfg, capacity, rt.loggers, c.tales, a.i, Fresh(), next.loggers);
      }
    } else if rt.stage == Idle && !rt.initialized {
      assert forall i :: 0 <= i < |rt.loggers| ==> rt.loggers[i].None?;
    }
  }

  lemma {:induction false} StepRecorded<T>(cfg: Q.Config, rt: Runtime<T>, capacity: nat, n: nat, a: Action<T>, c: Chronicle<T>)
    requires Inv(cfg, rt, capacity, n) && Recorded(cfg, capacity, rt.loggers, c)
    ensures Recorded(cfg, capacity, Step(cfg, capacity, rt, a).loggers, Noted(cfg, capacity, rt, a, c))
  {
    if a.Log? {
      if Heard(rt, a.i, a.answer) {
        LogRecorded(cfg, rt, capacity, n, a, c);
      } else {
        assert Step(cfg, capacity, rt, a) == rt;
      }
    } else if a.Unsubscribe? {
      UnsubscribeRecorded(cfg, rt, capacity, n, a, c);
    } else if a.FlushLogger? || a.Detach? {
      HandRecorded(cfg, rt, capacity, n, a, c);
    } else if a.Subscribe? || a.ClearLogger? || a.Initialize? {
      RosterRecorded(cfg, rt, capacity, n, a, c);
    } else {
      assert Step(cfg, capacity, rt, a).loggers == rt.loggers;
    }
  }

  lemma {:induction false} RunRecorded<T>(cfg: Q.Config, capacity: nat, run: seq<Action<T>>)
    requires |run| < WORD
    ensures Recorded(cfg, capacity, Exec(cfg, capacity, run).loggers, History(cfg, capacity, run))
  {
    if run != [] {
      var earlier := run[..|run| - 1];
      RunRecorded(cfg, capacity, earlier);
      RunKeepsInv(cfg, capacity, earlier);
      StepRecorded(cfg, Exec(cfg, capacity, earlier), capacity, |earlier|, run[|run| - 1], History(cfg, capacity, earlier));
    }
  }

  /** What a tale and the present buffer tell of a logger's events. */
  lemma {:induction false} TaleMeans<T>(cfg: Q.Config, capacity: nat, tale: Tale<T>, buffer: Option<Line<T>>)
    requires Recounts(cfg, capacity, tale, LineOf(buffer, capacity))
    ensures J.Subsequence(Spelled(tale.entered) + Events(buffer), tale.logged)
    ensures cfg.flushAll && 0 < capacity ==> (Spelled(tale.entered) + Events(buffer) == tale.logged <==> tale.refused == 0)
  {
    var line := LineOf(buffer, capacity);
    var j := JournalOf(tale, line);
    assert Events(buffer) == line.Contents();
    J.SubsequenceNewest(j.sent, j.logged, j.mark);
  }

  /**
   * In every run, of each logger: the events in its buffers that have come to the queue, followed by
   * those in its present buffer, are some of the events logged through it, in order; and with
   * `flush_all_events` they are all of them exactly if no slice was refused to it. A logger that has
   * unsubscribed has left nothing behind.
   */
  lemma {:induction false} EventsOverRuns<T>(cfg: Q.Config, capacity: nat, run: seq<Action<T>>)
    requires |run| < WORD
    ensures var rt, c := Exec(cfg, capacity, run), History(cfg, capacity, run);
            && |c.tales| == |rt.loggers|
            && (forall i :: 0 <= i < |c.tales| ==> Told(cfg, capacity, c.tales[i], rt.loggers[i]))
            && (forall i :: 0 <= i < |c.departed| ==> Told(cfg, capacity, c.departed[i], None))
  {
    var rt, c := Exec(cfg, capacity, run), History(cfg, capacity, run);
    RunRecorded(cfg, capacity, run);
    forall i | 0 <= i < |c.tales|
      ensures Told(cfg, capacity, c.tales[i], rt.loggers[i])
    {
      TaleMeans(cfg, capacity, c.tales[i], rt.loggers[i]);
    }
    forall i | 0 <= i < |c.departed|
      ensures Told(cfg, capacity, c.departed[i], None)
    {
      TaleMeans(cfg, capacity, c.departed[i], None);
    }
  }

  ghost predicate Told<T>(cfg: Q.Config, capacity: nat, tale: Tale<T>, buffer: Option<Line<T>>) {
    var reached := Spelled(tale.entered) + Events(buffer);
    && J.Subsequence(reached, tale.logged)
    && (cfg.flushAll && 0 < capacity ==> (reached == tale.logged <==> tale.refused == 0))
  }

  /** When Deinitialize drains the queue, every event logged has come to it, for every logger there ever was. */
  lemma {:induction false} EventsReachQueue<T>(cfg: Q.Config, capacity: nat, run: seq<Action<T>>, tale: Tale<T>)
    requires |run| < WORD && cfg.flushAll && 0 < capacity && Exec(cfg, capacity, run).stage == Draining
    requires var c := History(cfg, capacity, run); tale in c.tales || tale in c.departed
    ensures Spelled(tale.entered) == tale.logged <==> tale.refused == 0
  {
    var rt, c := Exec(cfg, capacity, run), History(cfg, capacity, run);
    EventsOverRuns(cfg, capacity, run);
    RunKeepsInv(cfg, capacity, run);
    assert Detached(rt.loggers);
    if tale in c.tales {
      var i :| 0 <= i < |c.tales| && c.tales[i] == tale;
      assert Told(cfg, capacity, tale, rt.loggers[i]) && rt.loggers[i].None?;
    } else {
      var i :| 0 <= i < |c.departed| && c.departed[i] == tale;
      assert Told(cfg, capacity, tale, None);
    }
    assert Spelled(tale.entered) + [] == Spelled(tale.entered);
  }

  ghost predicate Supplied<T>(loggers: seq<Option<Line<T>>>) {
    forall i :: 0 <= i < |loggers| ==> loggers[i].Some?
  }

  lemma {:induction false} FlushSupplied<T>(cfg: Q.Config, rt: Runtime<T>, i: nat, stamp: int)
    requires i < |rt.loggers| && Supplied(rt.loggers)
    ensures var next := FlushAt(cfg, rt, i, stamp); |next.loggers| == |rt.loggers| && Supplied(next.loggers)
  {
  }

  lemma {:induction false} LogSupplied<T>(cfg: Q.Config, capacity: nat, rt: Runtime<T>, a: Action<T>)
    requires a.Log? && Supplied(rt.loggers)
    ensures Supplied(Step(cfg, capacity, rt, a).loggers)
  {
    if Step(cfg, capacity, rt, a) != rt {
      FlushSupplied(cfg, PushAt(rt, a.i, a.event, a.answer), a.i, a.stamp);
    }
  }

  lemma {:induction false} HandSupplied<T>(cfg: Q.Config, capacity: nat, rt: Runtime<T>, a: Action<T>)
    requires (a.Unsubscribe? || a.FlushLogger?) && Supplied(rt.loggers)
    ensures Supplied(Step(cfg, capacity, rt, a).loggers)
  {
    if Step(cfg, capacity, rt, a) != rt {
      var handed := FlushAt(cfg, rt, a.i, a.stamp);
      FlushSupplied(cfg, rt, a.i, a.stamp);
      assert Supplied(handed.loggers[..a.i] + handed.loggers[a.i + 1..]);
      assert Step(cfg, capacity, rt, a).loggers ==
             if a.Unsubscribe? then handed.loggers[..a.i] + handed.loggers[a.i + 1..] else handed.loggers;
    }
  }

  lemma {:induction false} StepSupplied<T>(cfg: Q.Config, capacity: nat, rt: Runtime<T>, a: Action<T>)
    requires (Ready(rt) ==> rt.pool && Supplied(rt.loggers)) && (rt.stage == Draining ==> !rt.initialized)
    ensures var next := Step(cfg, capacity, rt, a); Ready(next) ==> Supplied(next.loggers)
  {
    if Ready(rt) {
      if a.Log? {
        LogSupplied(cfg, capacity, rt, a);
      } else if a.Unsubscribe? || a.FlushLogger? {
        HandSupplied(cfg, capacity, rt, a);
      }
    } else {
      ReadySteps(cfg, capacity, rt, a);
    }
  }

  lemma {:induction false} ReadySteps<T>(cfg: Q.Config, capacity: nat, rt: Runtime<T>, a: Action<T>)
    requires !Ready(rt) && (rt.stage == Draining ==> !rt.initialized)
    ensures var next := Step(cfg, capacity, rt, a); Ready(next) ==> a.Initialize? && Supplied(next.loggers)
  {
  }

  /** While the runtime is initialized every logger has a buffer, so that none misses an event once it is enabled. */
  lemma {:induction false} LoggersAreSupplied<T>(cfg: Q.Config, capacity: nat, run: seq<Action<T>>)
    requires |run| < WORD
    ensures Ready(Exec(cfg, capacity, run)) ==> Supplied(Exec(cfg, capacity, run).loggers)
  {
    if run != [] {
      var earlier := run[..|run| - 1];
      LoggersAreSupplied(cfg, capacity, earlier);
      RunKeepsInv(cfg, capacity, earlier);
      StepSupplied(cfg, capacity, Exec(cfg, capacity, earlier), run[|run| - 1]);
    }
  }

  /** A Flush of a logger leaves nothing in its buffer: every event logged has come to the queue. */
  lemma {:induction false} FlushReachesQueue<T>(cfg: Q.Config, capacity: nat, run: seq<Action<T>>, i: nat, stamp: int)
    requires |run| + 1 < WORD && (Exec(cfg, capacity, run).stage == Idle || Exec(cfg, capacity, run).stage == Detaching)
    requires i < |Exec(cfg, capacity, run).loggers|
    ensures var longer := run + [FlushLogger(i, stamp)];
            var rt, c := Exec(cfg, capacity, longer), History(cfg, capacity, longer);
            && i < |c.tales| == |rt.loggers| && Events(rt.loggers[i]) == []
            && J.Subsequence(Spelled(c.tales[i].entered), c.tales[i].logged)
            && (cfg.flushAll && 0 < capacity ==> (Spelled(c.tales[i].entered) == c.tales[i].logged <==> c.tales[i].refused == 0))
  {
    var longer, rt := run + [FlushLogger(i, stamp)], Exec(cfg, capacity, run);
    ExecMore(cfg, capacity, run, FlushLogger(i, stamp));
    RunKeepsInv(cfg, capacity, run);
    EventsOverRuns(cfg, capacity, longer);
    FlushEmpties(cfg, rt, capacity, |run|, i, stamp);
    var tale := History(cfg, capacity, longer).tales[i];
    assert Told(cfg, capacity, tale, Exec(cfg, capacity, longer).loggers[i]);
    assert Spelled(tale.entered) + [] == Spelled(tale.entered);
  }

  lemma {:induction false} FlushEmpties<T>(cfg: Q.Config, rt: Runtime<T>, capacity: nat, n: nat, i: nat, stamp: int)
    requires Inv(cfg, rt, capacity, n) && i < |rt.loggers| && (rt.stage == Idle || rt.stage == Detaching)
    ensures var next := Step(cfg, capacity, rt, FlushLogger(i, stamp)); |next.loggers| == |rt.loggers| && Events(next.loggers[i]) == []
  {
    if rt.loggers[i].Some? {
      QueueTakes(cfg, rt, capacity, n, i);
    }
    FlushArrives(cfg, rt, i, stamp);
    assert Step(cfg, capacity, rt, FlushLogger(i, stamp)) == FlushAt(cfg, rt, i, stamp);
  }

  /** The step of the queue that a step of the runtime takes, if any. */
  ghost function QueueStep<T>(cfg: Q.Config, capacity: nat, rt: Runtime<T>, a: Action<T>): seq<Q.Action<Line<T>>> {
    match a
    case Initialize => if rt.stage != Idle || rt.initialized then [] else [Q.Run]
    case Queue(q) => if Admits(rt.stage, q) then [q] else []
    case DrainAndStop => if Step(cfg, capacity, rt, a).stage == Draining && rt.stage != Draining then [Q.Drain] else []
    case Log(_, _, _, stamp) => Handing(rt.queue, Step(cfg, capacity, rt, a).queue, stamp)
    case Unsubscribe(_, stamp) => Handing(rt.queue, Step(cfg, capacity, rt, a).queue, stamp)
    case FlushLogger(_, stamp) => Handing(rt.queue, Step(cfg, capacity, rt, a).queue, stamp)
    case Detach(_, stamp) => Handing(rt.queue, Step(cfg, capacity, rt, a).queue, stamp)
    case _ => []
  }

  ghost function Handing<T>(before: Q.State<Line<T>>, after: Q.State<Line<T>>, stamp: int): seq<Q.Action<Line<T>>> {
    var lines := Arrived(before, after);
    if lines == [] then [] else [Q.EnqueueEnter(stamp, lines[0])]
  }

  /** The run of the flush queue inside a run of the runtime. */
  ghost function QueueRun<T>(cfg: Q.Config, capacity: nat, run: seq<Action<T>>): seq<Q.Action<Line<T>>> {
    if run == [] then []
    else
      QueueRun(cfg, capacity, run[..|run| - 1]) +
      QueueStep(cfg, capacity, Exec(cfg, capacity, run[..|run| - 1]), run[|run| - 1])
  }

  lemma {:induction false} HandingFollows<T>(cfg: Q.Config, rt: Runtime<T>, i: nat, stamp: int)
    requires i < |rt.loggers|
    ensures var next := FlushAt(cfg, rt, i, stamp).queue;
            var steps := Handing(rt.queue, next, stamp);
            if steps == [] then next == rt.queue else |steps| == 1 && next == Q.Step(cfg, rt.queue, steps[0])
  {
  }

  /** A step of the runtime is at most one step of its queue. */
  lemma {:induction false} StepFollows<T>(cfg: Q.Config, capacity: nat, rt: Runtime<T>, a: Action<T>)
    ensures var next, steps := Step(cfg, capacity, rt, a).queue, QueueStep(cfg, capacity, rt, a);
            if steps == [] then next == rt.queue else |steps| == 1 && next == Q.Step(cfg, rt.queue, steps[0])
  {
    if a.Log? {
      LogFollows(cfg, capacity, rt, a);
    } else if a.Unsubscribe? || a.FlushLogger? || a.Detach? {
      HandFollows(cfg, capacity, rt, a);
    }
  }

  lemma {:induction false} HandFollows<T>(cfg: Q.Config, capacity: nat, rt: Runtime<T>, a: Action<T>)
    requires a.Unsubscribe? || a.FlushLogger? || a.Detach?
    ensures var next, steps := Step(cfg, capacity, rt, a).queue, QueueStep(cfg, capacity, rt, a);
            if steps == [] then next == rt.queue else |steps| == 1 && next == Q.Step(cfg, rt.queue, steps[0])
  {
    if Step(cfg, capacity, rt, a) != rt {
      HandingFollows(cfg, rt, a.i, a.stamp);
      assert Step(cfg, capacity, rt, a).queue == FlushAt(cfg, rt, a.i, a.stamp).queue;
    }
  }

  lemma {:induction false} LogFollows<T>(cfg: Q.Config, capacity: nat, rt: Runtime<T>, a: Action<T>)
    requires a.Log?
    ensures var next, steps := Step(cfg, capacity, rt, a).queue, QueueStep(cfg, capacity, rt, a);
            if steps == [] then next == rt.queue else |steps| == 1 && next == Q.Step(cfg, rt.queue, steps[0])
  {
    if Step(cfg, capacity, rt, a) != rt {
      var pushed := PushAt(rt, a.i, a.event, a.answer);
      HandingFollows(cfg, pushed, a.i, a.stamp);
      assert Step(cfg, capacity, rt, a).queue == pushed.queue ||
             Step(cfg, capacity, rt, a).queue == FlushAt(cfg, pushed, a.i, a.stamp).queue;
    }
  }

  /** The queue inside the runtime does what the flush queue does. */
  lemma {:induction false} QueueFollows<T>(cfg: Q.Config, capacity: nat, run: seq<Action<T>>)
    ensures Exec(cfg, capacity, run).queue == Q.Exec(cfg, Q.Start<Line<T>>(), QueueRun(cfg, capacity, run))
  {
    if run != [] {
      var earlier := run[..|run| - 1];
      QueueFollows(cfg, capacity, earlier);
      StepFollows(cfg, capacity, Exec(cfg, capacity, earlier), run[|run| - 1]);
      OneMoreStep(cfg, QueueRun(cfg, capacity, earlier), QueueStep(cfg, capacity, Exec(cfg, capacity, earlier), run[|run| - 1]));
    }
  }

  lemma {:induction false} OneMoreStep<B>(cfg: Q.Config, run: seq<Q.Action<B>>, steps: seq<Q.Action<B>>)
    requires |steps| <= 1
    ensures steps == [] ==> run + steps == run
    ensures steps != [] ==>
              var s := Q.Exec(cfg, Q.Start<B>(), run);
              && Q.Exec(cfg, Q.Start<B>(), run + steps) == Q.Step(cfg, s, steps[0])
              && E.Queued(cfg, run + steps) == E.Queued(cfg, run) + E.QueuedBy(s, steps[0])
  {
    if steps != [] {
      assert (run + steps)[..|run|] == run;
    }
  }

  /** A buffer that the chronicle has seen come to the queue. */
  ghost predicate Mentions<T>(c: Chronicle<T>, line: Line<T>) {
    (exists i :: 0 <= i < |c.tales| && line in c.tales[i].entered) ||
    (exists i :: 0 <= i < |c.departed| && line in c.departed[i].entered)
  }

  /** Such a buffer is queued, or in a call. */
  ghost predicate Known<T>(line: Line<T>, queued: seq<Line<T>>, entering: seq<(int, Line<T>)>) {
    line in queued || exists k :: 0 <= k < |entering| && entering[k].1 == line
  }

  lemma {:induction false} TaleMentions<T>(c: Chronicle<T>, i: nat, tale: Tale<T>, lines: seq<Line<T>>, line: Line<T>)
    requires i < |c.tales| && (tale.entered == [] || tale.entered == c.tales[i].entered + lines)
    requires Mentions(c.(tales := c.tales[i := tale]), line)
    ensures Mentions(c, line) || line in lines
  {
    var tales := c.tales[i := tale];
    if j :| 0 <= j < |tales| && line in tales[j].entered {
      assert j != i ==> tales[j] == c.tales[j];
    }
  }

  lemma {:induction false} LeavingMentions<T>(c: Chronicle<T>, i: nat, lines: seq<Line<T>>, line: Line<T>)
    requires i < |c.tales|
    requires Mentions(Chronicle(c.tales[..i] + c.tales[i + 1..], c.departed + [Brought(c.tales[i], lines)]), line)
    ensures Mentions(c, line) || line in lines
  {
    var tales, departed := c.tales[..i] + c.tales[i + 1..], c.departed + [Brought(c.tales[i], lines)];
    if j :| 0 <= j < |tales| && line in tales[j].entered {
      LeftOut(c.tales, i, j);
    } else {
      var j :| 0 <= j < |departed| && line in departed[j].entered;
      assert j < |c.departed| ==> departed[j] == c.departed[j];
    }
  }

  lemma {:induction false} BeginningMentions<T>(c: Chronicle<T>, line: Line<T>)
    requires Mentions(c.(tales := c.tales + [Fresh()]), line)
    ensures Mentions(c, line)
  {
    var tales := c.tales + [Fresh()];
    if j :| 0 <= j < |tales| && line in tales[j].entered {
      assert j < |c.tales| && tales[j] == c.tales[j];
    }
  }

  lemma {:induction false} StepMentions<T>(cfg: Q.Config, capacity: nat, rt: Runtime<T>, a: Action<T>, c: Chronicle<T>, line: Line<T>)
    requires Mentions(Noted(cfg, capacity, rt, a, c), line)
    ensures Mentions(c, line) || line in Arrived(rt.queue, Step(cfg, capacity, rt, a).queue)
  {
    var next := Noted(cfg, capacity, rt, a, c);
    var lines := Arrived(rt.queue, Step(cfg, capacity, rt, a).queue);
    if next != c {
      if a.Subscribe? {
        BeginningMentions(c, line);
      } else if a.Unsubscribe? {
        LeavingMentions(c, a.i, lines, line);
      } else {
        TaleMentions(c, a.i, next.tales[a.i], lines, line);
      }
    }
  }

  lemma {:induction false} StepKnown<T>(cfg: Q.Config, s: Q.State<Line<T>>, a: Q.Action<Line<T>>, queued: seq<Line<T>>, line: Line<T>)
    requires Known(line, queued, s.entering) || line in Arrived(s, Q.Step(cfg, s, a))
    ensures Known(line, queued + E.QueuedBy(s, a), Q.Step(cfg, s, a).entering)
  {
    var next := Q.Step(cfg, s, a);
    if line in Arrived(s, next) {
      assert next.entering[|s.entering|].1 == line;
    } else if a.EnqueueCommit? && a.k < |s.entering| {
      CommitKnown(line, queued, s.entering, a.k);
    } else {
      CallsStay(cfg, s, a);
      if line !in queued {
        var k :| 0 <= k < |s.entering| && s.entering[k].1 == line;
        assert next.entering[k] == s.entering[k];
      }
    }
  }

  lemma {:induction false} CallsStay<B>(cfg: Q.Config, s: Q.State<B>, a: Q.Action<B>)
    requires !(a.EnqueueCommit? && a.k < |s.entering|)
    ensures s.entering <= Q.Step(cfg, s, a).entering
  {
    if a.Work? {
      Q.WorkLeavesCalls(cfg, s, a.clock, a.ok);
    }
  }

  lemma {:induction false} CommitKnown<T>(line: Line<T>, queued: seq<Line<T>>, entering: seq<(int, Line<T>)>, k: nat)
    requires Known(line, queued, entering) && k < |entering|
    ensures Known(line, queued + [entering[k].1], entering[..k] + entering[k + 1..])
  {
    if line !in queued && line != entering[k].1 {
      var j :| 0 <= j < |entering| && entering[j].1 == line;
      LeftOut(entering, k, if j < k then j else j - 1);
    }
  }

  lemma {:induction false} RunKnown<T>(cfg: Q.Config, capacity: nat, run: seq<Action<T>>, line: Line<T>)
    requires Mentions(History(cfg, capacity, run), line)
    ensures Known(line, E.Queued(cfg, QueueRun(cfg, capacity, run)), Exec(cfg, capacity, run).queue.entering)
  {
    if run != [] {
      var earlier, a := run[..|run| - 1], run[|run| - 1];
      var rt, steps := Exec(cfg, capacity, earlier), QueueStep(cfg, capacity, Exec(cfg, capacity, earlier), a);
      StepMentions(cfg, capacity, rt, a, History(cfg, capacity, earlier), line);
      if Mentions(History(cfg, capacity, earlier), line) {
        RunKnown(cfg, capacity, earlier, line);
      }
      StepFollows(cfg, capacity, rt, a);
      QueueFollows(cfg, capacity, earlier);
      OneMoreStep(cfg, QueueRun(cfg, capacity, earlier), steps);
      if steps != [] {
        StepKnown(cfg, rt.queue, steps[0], E.Queued(cfg, QueueRun(cfg, capacity, earlier)), line);
      }
    }
  }

  /** Neither a Clear nor a write that fails. */
  predicate Gentle<B>(q: Q.Action<B>) {
    !q.Clear? && (q.Work? ==> q.ok)
  }

  ghost predicate AllGentle<B>(run: seq<Q.Action<B>>) {
    forall k :: 0 <= k < |run| ==> Gentle(run[k])
  }

  ghost predicate Smooth<T>(run: seq<Action<T>>) {
    forall k :: 0 <= k < |run| && run[k].Queue? ==> Gentle(run[k].a)
  }

  lemma {:induction false} GentleStep<T>(cfg: Q.Config, capacity: nat, rt: Runtime<T>, a: Action<T>)
    requires a.Queue? ==> Gentle(a.a)
    ensures AllGentle(QueueStep(cfg, capacity, rt, a))
  {
  }

  lemma {:induction false} GentleBoth<B>(a: seq<Q.Action<B>>, b: seq<Q.Action<B>>)
    requires AllGentle(a) && AllGentle(b)
    ensures AllGentle(a + b)
  {
  }

  lemma {:induction false} SmoothQueue<T>(cfg: Q.Config, capacity: nat, run: seq<Action<T>>)
    requires Smooth(run)
    ensures AllGentle(QueueRun(cfg, capacity, run))
  {
    if run != [] {
      var earlier, last := run[..|run| - 1], run[|run| - 1];
      SmoothQueue(cfg, capacity, earlier);
      assert last.Queue? ==> Gentle(last.a);
      GentleStep(cfg, capacity, Exec(cfg, capacity, earlier), last);
      GentleBoth(QueueRun(cfg, capacity, earlier), QueueStep(cfg, capacity, Exec(cfg, capacity, earlier), last));
    }
  }

  /**
   * A whole lifecycle with `flush_all_events` in which no slice was refused, no write failed and the queue
   * was not cleared: when the worker has stopped, every event ever logged, by whatever logger, is in a
   * buffer that was given to the writer.
   */
  lemma {:induction false} EventsAreWritten<T>(cfg: Q.Config, capacity: nat, run: seq<Action<T>>, tale: Tale<T>)
    requires |run| < WORD && cfg.flushAll && 0 < capacity && Smooth(run)
    requires var rt := Exec(cfg, capacity, run); rt.stage == Draining && rt.queue.pc.Stopped?
    requires var c := History(cfg, capacity, run); tale in c.tales || tale in c.departed
    ensures Spelled(tale.entered) == tale.logged <==> tale.refused == 0
    ensures forall k :: 0 <= k < |tale.entered| ==> tale.entered[k] in E.Given(cfg, QueueRun(cfg, capacity, run))
  {
    EventsReachQueue(cfg, capacity, run, tale);
    var rt, c, steps := Exec(cfg, capacity, run), History(cfg, capacity, run), QueueRun(cfg, capacity, run);
    RunKeepsInv(cfg, capacity, run);
    assert Unobtrusive(cfg, capacity, run);
    NeverOverlapped(cfg, capacity, run);
    QueueFollows(cfg, capacity, run);
    SmoothQueue(cfg, capacity, run);
    assert Pending(rt.queue.book) == [];
    assert forall k :: 0 <= k < |steps| ==> Gentle(steps[k]);
    E.GivenIsQueued(cfg, steps);
    forall k | 0 <= k < |tale.entered|
      ensures tale.entered[k] in E.Given(cfg, steps)
    {
      assert Mentions(c, tale.entered[k]);
      RunKnown(cfg, capacity, run, tale.entered[k]);
    }
  }
}
