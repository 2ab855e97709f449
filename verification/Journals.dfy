/**
 * What an event logger does with the events of its thread (event_logger.cc): they go into a
 * buffer, and full buffers go to the flush queue. A journal is the logger's buffer beside
 * the history of what was logged and handed over.
 */
module Journals {
  import opened Common
  import opened SliceBuffer

  datatype Journal<T> = Journal(
    line: Line<T>,       // the current buffer
    logged: seq<T>,      // every event logged
    sent: seq<T>,        // the contents of the buffers handed over and accepted, in order
    mark: nat,           // how many events were logged before the current buffer
    failures: nat,       // the slices asked for and not lent
    rejected: nat)       // the buffers the queue did not accept
  {
    ghost predicate Valid() {
      && line.Valid() && mark <= |logged|
      && line.Contents() == Newest(logged[mark..], |line.memory|)
      && Subsequence(sent, logged[..mark])
      && |Kept()| + failures + rejected <= |logged|
    }

    /** What has not been lost. */
    ghost function Kept(): seq<T>
      requires line.Valid()
    {
      sent + line.Contents()
    }

    predicate Full() {
      line.limit <= |line.memory|
    }

    ghost predicate Lossless() {
      failures == 0 && rejected == 0
    }
  }

  /** `a` is what is left of `b` when some of its items are dropped. */
  ghost predicate Subsequence<T>(a: seq<T>, b: seq<T>) {
    exists places: seq<nat> :: Embeds(places, a, b)
  }

  /** `places` tells where in `b` each item of `a` is, in order. */
  ghost predicate Embeds<T>(places: seq<nat>, a: seq<T>, b: seq<T>) {
    && |places| == |a|
    && (forall i :: 0 <= i < |a| ==> places[i] < |b| && a[i] == b[places[i]])
    && (forall i, j :: 0 <= i < j < |a| ==> places[i] < places[j])
  }

  lemma {:induction false} SubsequenceBoth<T>(a: seq<T>, b: seq<T>, c: seq<T>)
    requires Subsequence(a, b)
    ensures Subsequence(a + c, b + c)
  {
    var places: seq<nat> :| Embeds(places, a, b);
    var more: seq<nat> := seq(|c|, k requires 0 <= k < |c| => |b| + k);
    assert Embeds(places + more, a + c, b + c);
  }

  lemma {:induction false} SubsequenceMore<T>(a: seq<T>, b: seq<T>, c: seq<T>)
    requires Subsequence(a, b)
    ensures Subsequence(a, b + c)
  {
    var places: seq<nat> :| Embeds(places, a, b);
    assert Embeds(places, a, b + c);
  }

  /** Keeping the newest of what follows keeps a subsequence. */
  lemma {:induction false} SubsequenceNewest<T>(a: seq<T>, b: seq<T>, n: nat)
    requires n <= |b| && Subsequence(a, b[..n])
    ensures forall size: nat :: Subsequence(a + Newest(b[n..], size), b)
  {
    forall size: nat
      ensures Subsequence(a + Newest(b[n..], size), b)
    {
      var rest, kept := b[n..], Newest(b[n..], size);
      var gone := rest[..|rest| - |kept|];
      SubsequenceMore(a, b[..n], gone);
      SubsequenceBoth(a, b[..n] + gone, kept);
      assert b[..n] + gone + kept == b;
    }
  }

  ghost function Opened<T>(limit: nat): (j: Journal<T>)
    ensures j.Valid()
  {
    assert Embeds<T>([], [], []);
    Journal(EmptyLine(limit), [], [], 0, 0, 0)
  }

  /** Flush: a buffer with something in it goes to the queue, and a new one takes its place. */
  ghost function Flushed<T>(j: Journal<T>, accepted: bool): Journal<T>
    requires j.line.Valid()
  {
    if j.line.memory == [] then j
    else
      j.(line := EmptyLine(j.line.limit), mark := |j.logged|,
         sent := if accepted then j.Kept() else j.sent,
         rejected := j.rejected + if accepted then 0 else 1)
  }

  ghost function Pushed<T>(j: Journal<T>, event: T, answer: Option<Lease>): Journal<T> {
    j.(line := j.line.Push(event, answer), logged := j.logged + [event],
       failures := j.failures + if j.line.Wants() && answer.None? then 1 else 0)
  }

  /** LogEvent: `answer` is the pool's answer if it is asked, `accepted` the queue's if it gets the buffer. */
  ghost function Logged<T>(j: Journal<T>, event: T, answer: Option<Lease>, whenFull: bool, accepted: bool): Journal<T>
    requires j.line.Valid() && Lendable(answer)
  {
    PushValid(j.line, event, answer);
    var k := Pushed(j, event, answer);
    if whenFull && k.Full() then Flushed(k, accepted) else k
  }

  lemma {:induction false} FlushedValid<T>(j: Journal<T>, accepted: bool)
    requires j.Valid()
    ensures Flushed(j, accepted).Valid()
    ensures accepted ==> Flushed(j, accepted).Kept() == j.Kept()
  {
    if j.line.memory != [] {
      var k := Flushed(j, accepted);
      SubsequenceNewest(j.sent, j.logged, j.mark);
      SubsequenceMore(j.sent, j.logged[..j.mark], j.logged[j.mark..]);
      assert j.logged[..j.mark] + j.logged[j.mark..] == j.logged == k.logged[..k.mark];
    }
  }

  lemma {:induction false} PushedValid<T>(j: Journal<T>, event: T, answer: Option<Lease>)
    requires j.Valid() && Lendable(answer)
    ensures Pushed(j, event, answer).Valid()
  {
    var k := Pushed(j, event, answer);
    PushKeepsNewest(j.line, event, answer);
    NewestAgain(j.logged[j.mark..], [event], |j.line.memory|, |k.line.memory|);
    assert k.logged[k.mark..] == j.logged[j.mark..] + [event] && k.logged[..k.mark] == j.logged[..j.mark];
  }

  lemma {:induction false} LoggedValid<T>(j: Journal<T>, event: T, answer: Option<Lease>, whenFull: bool, accepted: bool)
    requires j.Valid() && Lendable(answer)
    ensures Logged(j, event, answer, whenFull, accepted).Valid()
  {
    PushedValid(j, event, answer);
    FlushedValid(Pushed(j, event, answer), accepted);
  }

  /** With nothing lost so far the buffer has never wrapped, and holds less than its capacity. */
  ghost predicate Intact<T>(j: Journal<T>) {
    j.Valid() && (j.Lossless() ==> j.Kept() == j.logged && j.line.pos == |j.line.memory| < j.line.limit)
  }

  /** A push that is lent what it asks for appends. */
  lemma {:induction false} PushAppends<T>(b: Line<T>, event: T, answer: Option<Lease>)
    requires b.Valid() && Lendable(answer) && b.pos == |b.memory| < b.limit && (b.Wants() ==> answer.Some?)
    ensures var c := b.Push(event, answer);
            c.Valid() && c.pos == |c.memory| == |b.memory| + 1 && c.Contents() == b.Contents() + [event]
  {
    PushValid(b, event, answer);
    if b.AtEnd() {
      assert b.Wants();
      PushLent(b, event, answer.value);
    } else {
      PushMiddle(b, event, answer);
    }
    AppendedContents(b, b.Push(event, answer), event);
  }

  lemma {:induction false} PushLent<T>(b: Line<T>, event: T, l: Lease)
    requires b.Wants()
    ensures b.Push(event, Some(l)) == Line(b.limit, b.leases + [l], b.memory + [event], b.pos + 1)
  {
  }

  lemma {:induction false} AppendedContents<T>(b: Line<T>, c: Line<T>, event: T)
    requires b.pos == |b.memory| && c.memory == b.memory + [event] && c.pos == b.pos + 1
    ensures c.Contents() == b.Contents() + [event]
  {
  }

  lemma {:induction false} PushedIntact<T>(j: Journal<T>, event: T, answer: Option<Lease>)
    requires Intact(j) && Lendable(answer)
    ensures var k := Pushed(j, event, answer);
            k.Valid() && (k.Lossless() ==> k.Kept() == k.logged && k.line.pos == |k.line.memory|)
  {
    PushedValid(j, event, answer);
    if Pushed(j, event, answer).Lossless() {
      PushAppends(j.line, event, answer);
    }
  }

  lemma {:induction false} LoggedIntact<T>(j: Journal<T>, event: T, answer: Option<Lease>, accepted: bool)
    requires Intact(j) && Lendable(answer)
    ensures Intact(Logged(j, event, answer, true, accepted))
  {
    PushedIntact(j, event, answer);
    FlushedValid(Pushed(j, event, answer), accepted);
  }

  lemma {:induction false} FlushedIntact<T>(j: Journal<T>, accepted: bool)
    requires Intact(j)
    ensures Intact(Flushed(j, accepted))
  {
    FlushedValid(j, accepted);
  }

  datatype Op<T> = Log(event: T, answer: Option<Lease>, accepted: bool) | Flush(accepted: bool)

  ghost predicate Fair<T>(op: Op<T>) {
    op.Log? ==> Lendable(op.answer)
  }

  ghost function Apply<T>(j: Journal<T>, whenFull: bool, op: Op<T>): (k: Journal<T>)
    requires j.Valid() && Fair(op)
    ensures k.Valid() && k.line.limit == j.line.limit
  {
    match op
    case Log(event, answer, accepted) =>
      LoggedValid(j, event, answer, whenFull, accepted); LimitKept(j, event, answer, whenFull, accepted);
      Logged(j, event, answer, whenFull, accepted)
    case Flush(accepted) => FlushedValid(j, accepted); Flushed(j, accepted)
  }

  lemma {:induction false} LimitKept<T>(j: Journal<T>, event: T, answer: Option<Lease>, whenFull: bool, accepted: bool)
    requires j.line.Valid() && Lendable(answer)
    ensures Logged(j, event, answer, whenFull, accepted).line.limit == j.line.limit
  {
    var line := j.line.Push(event, answer);
    assert line.limit == j.line.limit;
  }

  ghost function After<T>(limit: nat, whenFull: bool, ops: seq<Op<T>>): (j: Journal<T>)
    requires forall op :: op in ops ==> Fair(op)
    ensures j.Valid() && j.line.limit == limit
  {
    if ops == [] then Opened(limit) else Apply(After(limit, whenFull, ops[..|ops| - 1]), whenFull, ops[|ops| - 1])
  }

  /**
   * Whatever the pool and the queue answer, events are only ever dropped: never invented,
   * repeated or put out of order; and each refusal costs at least one event.
   */
  lemma {:induction false} EventsAreOnlyDropped<T>(limit: nat, whenFull: bool, ops: seq<Op<T>>)
    requires forall op :: op in ops ==> Fair(op)
    ensures var j := After(limit, whenFull, ops);
            Subsequence(j.Kept(), j.logged) && |j.Kept()| <= |j.logged| - j.failures - j.rejected
  {
    var j := After(limit, whenFull, ops);
    SubsequenceNewest(j.sent, j.logged, j.mark);
  }

  lemma {:induction false} AfterIntact<T>(limit: nat, ops: seq<Op<T>>)
    requires 0 < limit && forall op :: op in ops ==> Fair(op)
    ensures Intact(After(limit, true, ops))
  {
    if ops != [] {
      var earlier, op := ops[..|ops| - 1], ops[|ops| - 1];
      AfterIntact(limit, earlier);
      assert op in ops && Fair(op);
      match op
      case Log(event, answer, accepted) => LoggedIntact(After(limit, true, earlier), event, answer, accepted);
      case Flush(accepted) => FlushedIntact(After(limit, true, earlier), accepted);
    }
  }

  /** A logger that flushes when full loses nothing exactly when no slice and no buffer was refused. */
  lemma {:induction false} LosslessIff<T>(limit: nat, ops: seq<Op<T>>)
    requires 0 < limit && forall op :: op in ops ==> Fair(op)
    ensures var j := After(limit, true, ops);
            j.Kept() == j.logged <==> j.failures == 0 && j.rejected == 0
  {
    AfterIntact(limit, ops);
  }
}
