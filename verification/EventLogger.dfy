/**
 * The logger of one thread (event_logger.cc) and the pool its buffer borrows from. What it
 * hands to the flush queue is an output, and whether the queue accepts it an input.
 */
module EventLogger {
  import opened Common
  import opened SliceBuffer
  import opened CombinedPool
  import opened Journals

  /** Where the slices are that the pool has lent: in the buffer, handed on, elsewhere. */
  datatype Account = Account(lent: multiset<Lease>, bag: multiset<Lease>, handed: multiset<Lease>, rest: multiset<Lease>) {
    ghost predicate Balanced() {
      match this
      case Account(_, _, _, _) => lent == bag + handed + rest
    }

    lemma HandOver()
      requires Balanced() && handed == multiset{}
      ensures bag <= lent && Account(lent, multiset{}, bag, rest).Balanced()
    {
    }

    lemma GiveBack(left: multiset<Lease>)
      requires Balanced() && left + bag == lent
      ensures Account(left, multiset{}, handed, rest).Balanced()
    {
      forall l: Lease
        ensures left[l] == (multiset{} + handed + rest)[l]
      {
        assert lent[l] == bag[l] + handed[l] + rest[l] && lent[l] == left[l] + bag[l];
      }
    }

    lemma Receive(more: multiset<Lease>)
      requires Balanced()
      ensures Account(lent + more, bag + more, handed, rest).Balanced()
    {
    }
  }

  ghost function Bag<T>(buffer: Option<Line<T>>): multiset<Lease> {
    if buffer.Some? then multiset(buffer.value.leases) else multiset{}
  }

  /** A lent slice is in the buffer after the push that asked for it. */
  lemma {:induction false} PushLeases<T>(b: Line<T>, item: T, answer: Option<Lease>)
    requires answer.Some? ==> b.Wants()
    ensures multiset(b.Push(item, answer).leases) ==
            multiset(b.leases) + if answer.Some? then multiset{answer.value} else multiset{}
  {
  }

  /** The newest item is in the buffer. */
  ghost predicate Holds<T>(line: Line<T>, event: T) {
    line.Valid() && line.memory != [] && line.Contents()[|line.Contents()| - 1] == event
  }

  /** A push that gets the slice it asks for, or asks for none, keeps its item. */
  lemma {:induction false} PushHolds<T>(b: Line<T>, event: T, answer: Option<Lease>)
    requires b.Valid() && 0 < b.limit && Lendable(answer) && (b.Wants() ==> answer.Some?)
    ensures Holds(b.Push(event, answer), event)
  {
    PushShape(b, event, answer);
    PushKeepsNewest(b, event, answer);
  }

  /** The journal is that of the buffer. */
  ghost predicate Tracks<T>(j: Journal<T>, line: Line<T>, capacity: nat) {
    match j
    case Journal(current, _, _, _, _, _) => j.Valid() && current == line && line.limit == capacity
  }

  lemma {:induction false} FlushTracks<T>(j: Journal<T>, line: Line<T>, capacity: nat, accepted: bool)
    requires Tracks(j, line, capacity)
    ensures line.memory == [] ==> line.leases == [] && Flushed(j, accepted) == j
    ensures line.memory != [] ==> Tracks(Flushed(j, accepted), EmptyLine(capacity), capacity)
  {
    FlushedValid(j, accepted);
  }

  lemma {:induction false} PushTracks<T>(j: Journal<T>, line: Line<T>, capacity: nat, event: T, answer: Option<Lease>)
    requires Tracks(j, line, capacity) && Lendable(answer)
    ensures Tracks(Pushed(j, event, answer), line.Push(event, answer), capacity)
  {
    PushedValid(j, event, answer);
  }

  class EventLogger<T(!new)> {
    const capacity: nat
    const whenFull: bool
    var pool: CombinedBufferSlicePool?<T>
    var buffer: Option<Line<T>>
    ghost var journal: Journal<T>

    ghost predicate Valid()
      reads this
    {
      && (buffer.Some? <==> pool != null)
      && (buffer.Some? ==> Tracks(journal, buffer.value, capacity))
    }

    /** All that the pool has lent is in this buffer, in `handed`, or in `rest`. */
    ghost predicate Accounts(handed: Option<Line<T>>, rest: multiset<Lease>)
      reads this, pool
    {
      pool != null ==> pool.Valid() && Account(pool.lent, Bag(buffer), Bag(handed), rest).Balanced()
    }

    /** What the pool answers to a request for as much as the buffer still lacks. */
    ghost predicate Asks(spurious: nat -> bool, answer: Option<Lease>)
      reads this, pool
    {
      && pool != null && buffer.Some? && |buffer.value.memory| <= buffer.value.limit
      && Answers(pool.reserved, pool.o, pool.dynamic.borrowed, buffer.value.limit - |buffer.value.memory|, spurious, answer)
    }

    /** A reserved slice is free, or the dynamic pool can lend one. */
    ghost predicate Available(spurious: nat -> bool)
      reads this, pool
    {
      && pool != null && buffer.Some? && |buffer.value.memory| <= buffer.value.limit
      && !(LentUpTo(pool.reserved, |pool.reserved.slots|) &&
           Exhausted(pool.o, buffer.value.limit - |buffer.value.memory|, pool.dynamic.borrowed, spurious))
    }

    constructor (capacity: nat, whenFull: bool)
      ensures Valid() && pool == null && this.capacity == capacity && this.whenFull == whenFull
    {
      this.capacity, this.whenFull, pool, buffer := capacity, whenFull, null, None;
    }

    /**
     * Hands on a buffer with something in it and starts a new one. A buffer that the queue refuses is
     * destroyed, so either way its slices leave the logger: to the queue or back to the pool.
     */
    method Flush(accepts: bool, ghost rest: multiset<Lease>) returns (handed: Option<Line<T>>)
      requires Valid() && Accounts(None, rest)
      modifies this, pool
      ensures Valid() && Accounts(handed, rest)
      ensures pool == old(pool) && Bag(buffer) == multiset{}
      ensures handed == if old(buffer.Some? && buffer.value.memory != []) && accepts then old(buffer) else None
      ensures buffer.Some? ==> journal == Flushed(old(journal), accepts)
    {
      handed := None;
      if buffer.None? {
        return;
      }
      FlushTracks(journal, buffer.value, capacity, accepts);
      if buffer.value.memory == [] {
        return;
      }
      ghost var account := Account(pool.lent, Bag(buffer), multiset{}, rest);
      account.HandOver();
      if accepts {
        handed := buffer;
      } else {
        ReturnSlices(pool, buffer.value.leases);
        account.GiveBack(pool.lent);
      }
      journal := Flushed(journal, accepts);
      buffer := Some(EmptyLine(capacity));
    }

    /** Pushes an event, asking the pool for a slice when the buffer wants one. */
    method Push(event: T, spurious: nat -> bool, ghost rest: multiset<Lease>) returns (answer: Option<Lease>)
      requires Valid() && Accounts(None, rest) && buffer.Some?
      modifies this, pool
      ensures Valid() && Accounts(None, rest) && pool == old(pool)
      ensures Lendable(answer) && (answer.Some? ==> old(buffer).value.Wants())
      ensures old(buffer).value.Wants() ==> old(Asks(spurious, answer))
      ensures buffer == Some(old(buffer).value.Push(event, answer))
      ensures journal == Pushed(old(journal), event, answer)
    {
      answer := Ask(spurious, rest);
      PushLeases(buffer.value, event, answer);
      PushTracks(journal, buffer.value, capacity, event, answer);
      journal := Pushed(journal, event, answer);
      buffer := Some(buffer.value.Push(event, answer));
    }

    /** Asks the pool for a slice when the buffer wants one. */
    method Ask(spurious: nat -> bool, ghost rest: multiset<Lease>) returns (answer: Option<Lease>)
      requires Valid() && Accounts(None, rest) && buffer.Some?
      modifies pool
      ensures pool.Valid() && Lendable(answer) && (answer.Some? ==> buffer.value.Wants())
      ensures buffer.value.Wants() ==> old(Asks(spurious, answer))
      ensures Account(pool.lent, Bag(buffer) + (if answer.Some? then multiset{answer.value} else multiset{}), multiset{}, rest).Balanced()
    {
      answer := None;
      ghost var account := Account(pool.lent, Bag(buffer), multiset{}, rest);
      if buffer.value.Wants() {
        answer := pool.Borrow(buffer.value.limit - |buffer.value.memory|, spurious);
      }
      account.Receive(if answer.Some? then multiset{answer.value} else multiset{});
    }

    /** Logs an event; a buffer that it fills goes on at once if the logger flushes when full. */
    method LogEvent(event: T, spurious: nat -> bool, accepts: bool, ghost rest: multiset<Lease>)
      returns (answer: Option<Lease>, handed: Option<Line<T>>)
      requires Valid() && Accounts(None, rest)
      modifies this, pool
      ensures Valid() && Accounts(handed, rest) && pool == old(pool) && Lendable(answer)
      ensures buffer.None? ==> handed.None? && old(buffer).None?
      ensures buffer.Some? ==> old(journal).line.Valid()
      ensures buffer.Some? ==> journal == Logged(old(journal), event, answer, whenFull, accepts)
      ensures old(buffer).Some? && old(buffer).value.Wants() ==> old(Asks(spurious, answer))
      ensures old(buffer).Some? ==>
                var next := old(buffer).value.Push(event, answer);
                var full := whenFull && capacity <= |next.memory| && next.memory != [];
                && handed == (if full && accepts then Some(next) else None)
                && buffer == Some(if full then EmptyLine(capacity) else next)
                && (0 < capacity && (old(buffer).value.Wants() ==> answer.Some?) ==> Holds(next, event))
      ensures 0 < capacity && accepts && old(Available(spurious)) ==>
                Holds(if handed.Some? then handed.value else buffer.value, event)
    {
      answer, handed := None, None;
      if pool == null || buffer.None? {
        return;
      }
      answer := Push(event, spurious, rest);
      if 0 < capacity && (old(buffer).value.Wants() ==> answer.Some?) {
        PushHolds(old(buffer).value, event, answer);
      }
      if whenFull && buffer.value.limit <= |buffer.value.memory| {
        handed := Flush(accepts, rest);
      }
    }

    /** Forgets what is in the buffer; a new history begins. */
    method Clear(ghost rest: multiset<Lease>)
      requires Valid() && Accounts(None, rest)
      modifies this, pool
      ensures Valid() && Accounts(None, rest) && pool == old(pool)
      ensures buffer == if old(buffer).Some? then Some(EmptyLine(capacity)) else None
      ensures buffer.Some? ==> journal == Opened(capacity)
    {
      if buffer.Some? {
        ghost var account := Account(pool.lent, Bag(buffer), multiset{}, rest);
        account.HandOver();
        ReturnSlices(pool, buffer.value.leases);
        account.GiveBack(pool.lent);
        buffer, journal := Some(EmptyLine(capacity)), Opened(capacity);
      }
    }

    /** Losing the pool hands on what is left; a new pool comes with a new buffer and history. */
    method SetPool(next: CombinedBufferSlicePool?<T>, accepts: bool, ghost rest: multiset<Lease>)
      returns (handed: Option<Line<T>>)
      requires Valid() && Accounts(None, rest)
      modifies this, pool
      ensures Valid() && pool == next && buffer == if next == null then None else Some(EmptyLine(capacity))
      ensures old(pool) != null ==> old(pool).Valid() && Account(old(pool).lent, multiset{}, Bag(handed), rest).Balanced()
      ensures handed == if next == null && old(buffer.Some? && buffer.value.memory != []) && accepts then old(buffer) else None
      ensures next == null && old(buffer).Some? ==> old(journal).line.Valid() && journal == Flushed(old(journal), accepts)
      ensures next != null ==> journal == Opened(capacity)
    {
      handed := None;
      if next == null {
        handed := Flush(accepts, rest);
        buffer := None;
      } else {
        Clear(rest);
        buffer, journal := Some(EmptyLine(capacity)), Opened(capacity);
      }
      pool := next;
    }
  }
}
