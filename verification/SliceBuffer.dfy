/**
 * The circular buffer built out of slices borrowed on demand
 * (circular_slice_buffer.h), proved to be one flat ring that grows whenever the
 * pool lends a slice at the moment the ring reaches the end of its memory.
 */
module SliceBuffer {
  import opened Common
  import opened Slices

  /** The pool a slice is borrowed from. */
  datatype Owner = Reserved | Dynamic | Foreign(id: nat)

  /** A borrowed slice as its pool knows it. */
  datatype Lease = Lease(owner: Owner, slot: nat, capacity: nat)

  function Cap(l: Lease): int {
    l.capacity
  }

  /** The simple form: a ring over `memory` with room for the capacity of its leases. */
  datatype Line<T> = Line(limit: nat, leases: seq<Lease>, memory: seq<T>, pos: nat) {
    function Acquired(): int {
      SumBy(Cap, leases)
    }

    ghost predicate Valid() {
      && |memory| <= Acquired()
      && pos <= |memory|
      && (|memory| < Acquired() ==> pos == |memory|)
      && (memory != [] ==> 0 < pos)
      && (memory == [] ==> leases == [])
      && (limit == 0 ==> memory == [])
    }

    predicate AtEnd() {
      pos == Acquired()
    }

    /** Whether the next push asks the pool for a slice. */
    predicate Wants() {
      limit != 0 && AtEnd() && Acquired() < limit
    }

    function Contents(): seq<T>
      requires pos <= |memory|
    {
      memory[pos..] + memory[..pos]
    }

    /** One push, when `answer` is what the pool says if it is asked. */
    function Push(item: T, answer: Option<Lease>): Line<T> {
      if limit == 0 then this
      else if !AtEnd() then
        if pos < |memory| then this.(memory := memory[pos := item], pos := pos + 1)
        else this.(memory := memory + [item], pos := pos + 1)
      else if Wants() && answer.Some? then
        Line(limit, leases + [answer.value], memory + [item], pos + 1)
      else if memory == [] then this
      else this.(memory := memory[0 := item], pos := 1)
    }
  }

  function EmptyLine<T>(limit: nat): (l: Line<T>)
    ensures l.Valid() && l.Contents() == []
  {
    Line(limit, [], [], 0)
  }

  /** A pool lends only slices that can hold something. */
  ghost predicate Lendable(answer: Option<Lease>) {
    answer.Some? ==> 0 < answer.value.capacity
  }

  lemma AcquireMore(leases: seq<Lease>, l: Lease)
    ensures SumBy(Cap, leases + [l]) == SumBy(Cap, leases) + l.capacity
  {
    SumByPush(Cap, leases, l);
  }

  lemma PushValid<T>(b: Line<T>, item: T, answer: Option<Lease>)
    requires b.Valid() && Lendable(answer)
    ensures b.Push(item, answer).Valid()
  {
    if answer.Some? {
      AcquireMore(b.leases, answer.value);
    }
  }

  /** Overwriting the oldest place of a full ring drops the oldest item and appends the new one. */
  lemma {:induction false} Rotate<T>(m: seq<T>, pos: nat, item: T)
    requires pos <= |m| && m != []
    ensures var at := if pos == |m| then 0 else pos; var n := m[at := item];
            n[at + 1..] + n[..at + 1] == (m[pos..] + m[..pos])[1..] + [item]
  {
    var at := if pos == |m| then 0 else pos;
    var n := m[at := item];
    assert n[at + 1..] == m[at + 1..] && n[..at + 1] == m[..at] + [item];
  }

  /** A push appends, or overwrites the oldest place, or is dropped for want of memory. */
  lemma {:induction false} PushShape<T>(b: Line<T>, item: T, answer: Option<Lease>)
    requires b.Valid() && Lendable(answer)
    ensures var c, at := b.Push(item, answer), if b.pos == |b.memory| then 0 else b.pos;
            && c.Valid()
            && (|| (c.memory == b.memory + [item] && c.pos == |c.memory| && b.pos == |b.memory|)
                || (b.memory != [] && c.memory == b.memory[at := item] && c.pos == at + 1)
                || (b.memory == [] && c == b))
  {
    PushValid(b, item, answer);
  }

  /** A push keeps the newest items, as many as the buffer holds after it. */
  lemma {:induction false} PushKeepsNewest<T>(b: Line<T>, item: T, answer: Option<Lease>)
    requires b.Valid() && Lendable(answer)
    ensures b.Push(item, answer).Valid()
    ensures var c := b.Push(item, answer);
            c.Contents() == Newest(b.Contents() + [item], |c.memory|) && |b.memory| <= |c.memory|
  {
    PushShape(b, item, answer);
    if b.memory != [] {
      Rotate(b.memory, b.pos, item);
    }
    NewestOfContents(b, item, b.Push(item, answer));
  }

  lemma {:induction false} NewestOfContents<T>(b: Line<T>, item: T, c: Line<T>)
    requires b.pos <= |b.memory| && c.pos <= |c.memory|
    requires || (c.memory == b.memory + [item] && c.pos == |c.memory| && b.pos == |b.memory|)
             || (|c.memory| == |b.memory| != 0 && c.Contents() == b.Contents()[1..] + [item])
             || (c.memory == [] && b.memory == [])
    ensures c.Contents() == Newest(b.Contents() + [item], |c.memory|)
  {
  }

  datatype Op<T> = Push(item: T, answer: Option<Lease>) | Clear

  ghost predicate Fair<T>(op: Op<T>) {
    op.Push? ==> Lendable(op.answer)
  }

  ghost function Apply<T>(b: Line<T>, op: Op<T>): (c: Line<T>)
    requires b.Valid() && Fair(op)
    ensures c.Valid() && c.limit == b.limit
  {
    match op
    case Push(item, answer) => PushValid(b, item, answer); b.Push(item, answer)
    case Clear => EmptyLine(b.limit)
  }

  ghost function After<T>(limit: nat, ops: seq<Op<T>>): (b: Line<T>)
    requires forall op :: op in ops ==> Fair(op)
    ensures b.Valid() && b.limit == limit
  {
    if ops == [] then EmptyLine(limit) else Apply(After(limit, ops[..|ops| - 1]), ops[|ops| - 1])
  }

  /** Everything pushed since the last Clear, kept or not. */
  ghost function History<T>(ops: seq<Op<T>>): seq<T> {
    if ops == [] || ops[|ops| - 1].Clear? then []
    else History(ops[..|ops| - 1]) + [ops[|ops| - 1].item]
  }

  /** Whatever the pool answers, the buffer holds the last Size() items pushed, in order. */
  lemma {:induction false} BufferHoldsNewest<T>(limit: nat, ops: seq<Op<T>>)
    requires forall op :: op in ops ==> Fair(op)
    ensures var b := After(limit, ops); b.Contents() == Newest(History(ops), |b.memory|)
  {
    if ops != [] && ops[|ops| - 1].Push? {
      var earlier, op := ops[..|ops| - 1], ops[|ops| - 1];
      BufferHoldsNewest(limit, earlier);
      assert op in ops && Fair(op);
      var b := After(limit, earlier);
      PushKeepsNewest(b, op.item, op.answer);
      NewestAgain(History(earlier), [op.item], |b.memory|, |b.Push(op.item, op.answer).memory|);
    }
  }

  /** A pool lends at most what was asked for, or else a slice of at most `slice` items. */
  ghost predicate Bounded<T>(b: Line<T>, op: Op<T>, slice: nat) {
    op.Push? && op.answer.Some? ==>
      op.answer.value.capacity <= b.limit - |b.memory| || op.answer.value.capacity <= slice
  }

  ghost predicate BoundedRun<T>(limit: nat, ops: seq<Op<T>>, slice: nat)
    requires forall op :: op in ops ==> Fair(op)
  {
    forall k :: 0 <= k < |ops| ==> Bounded(After(limit, ops[..k]), ops[k], slice)
  }

  /**
   * The buffer never overshoots its capacity by a whole reserved slice; with
   * `slice == 0`, when the pool lends no more than it is asked for, it never overshoots.
   */
  lemma {:induction false} AcquiredIsBounded<T>(limit: nat, ops: seq<Op<T>>, slice: nat)
    requires forall op :: op in ops ==> Fair(op)
    requires BoundedRun(limit, ops, slice)
    ensures var a := After(limit, ops).Acquired(); a <= limit || a < limit + slice
  {
    if ops != [] {
      var n := |ops| - 1;
      var earlier, op := ops[..n], ops[n];
      assert BoundedRun(limit, earlier, slice) by {
        forall k | 0 <= k < n
          ensures Bounded(After(limit, earlier[..k]), earlier[k], slice)
        {
          assert earlier[..k] == ops[..k];
        }
      }
      AcquiredIsBounded(limit, earlier, slice);
      assert Bounded(After(limit, ops[..n]), ops[n], slice);
      if op.Push? && op.answer.Some? {
        AcquireMore(After(limit, earlier).leases, op.answer.value);
      }
    }
  }

  /** A borrowed slice in a buffer's list. */
  datatype Slice<T> = Slice(lease: Lease, ring: Ring<T>)

  function Leases<T>(slices: seq<Slice<T>>): (r: seq<Lease>)
    ensures |r| == |slices| && forall k :: 0 <= k < |r| ==> r[k] == slices[k].lease
  {
    seq(|slices|, k requires 0 <= k < |slices| => slices[k].lease)
  }

  function Memory<T>(slices: seq<Slice<T>>): seq<T> {
    if slices == [] then []
    else Memory(slices[..|slices| - 1]) + slices[|slices| - 1].ring.memory
  }

  lemma {:induction false} MemoryAppend<T>(a: seq<Slice<T>>, b: seq<Slice<T>>)
    ensures Memory(a + b) == Memory(a) + Memory(b)
    decreases |b|
  {
    if b == [] {
      assert a + b == a;
    } else {
      assert (a + b)[..|a + b| - 1] == a + b[..|b| - 1];
      MemoryAppend(a, b[..|b| - 1]);
    }
  }

  lemma {:induction false} MemorySplit<T>(slices: seq<Slice<T>>, k: nat)
    requires k < |slices|
    ensures Memory(slices) == Memory(slices[..k]) + slices[k].ring.memory + Memory(slices[k + 1..])
  {
    assert slices == slices[..k + 1] + slices[k + 1..];
    MemoryAppend(slices[..k + 1], slices[k + 1..]);
    assert slices[..k + 1][..k] == slices[..k];
  }

  /** A slice in use holds something. */
  ghost predicate Current<T>(s: Slice<T>) {
    s.ring.Valid() && s.ring.capacity == s.lease.capacity && s.ring.memory != []
  }

  /** A slice that is full with its cursor at its end. */
  ghost predicate Filled<T>(s: Slice<T>) {
    Current(s) && s.ring.WillWrap()
  }

  lemma {:induction false} FilledLength<T>(slices: seq<Slice<T>>)
    requires forall k :: 0 <= k < |slices| ==> Filled(slices[k])
    ensures |Memory(slices)| == SumBy(Cap, Leases(slices))
  {
    if slices != [] {
      var init := slices[..|slices| - 1];
      FilledLength(init);
      assert Leases(slices)[..|slices| - 1] == Leases(init);
    }
  }

  /**
   * How the slices are laid out between calls: every slice but the one being filled
   * is full with its cursor at its end, and when the one being filled is not full it
   * is the last.
   */
  ghost predicate Arranged<T>(slices: seq<Slice<T>>, cursor: nat) {
    && (if slices == [] then cursor == 0 else cursor < |slices|)
    && forall k :: 0 <= k < |slices| ==> Placed(slices[k], k == cursor, k == |slices| - 1)
  }

  ghost predicate Placed<T>(s: Slice<T>, current: bool, last: bool) {
    Current(s) && (!current ==> Filled(s)) && (!last ==> s.ring.Full())
  }

  /** The counters kept beside the slices agree with them. */
  ghost predicate Consistent<T>(limit: nat, slices: seq<Slice<T>>, cursor: nat, size: nat, acquired: nat) {
    && Arranged(slices, cursor)
    && (limit == 0 ==> slices == [])
    && size == |Memory(slices)|
    && acquired == SumBy(Cap, Leases(slices))
  }

  /** The flat ring that a list of slices spells out. */
  ghost function Flat<T>(limit: nat, slices: seq<Slice<T>>, cursor: nat): Line<T>
    requires slices != [] ==> cursor < |slices|
  {
    Line(limit, Leases(slices), Memory(slices),
         if slices == [] then 0 else |Memory(slices[..cursor])| + slices[cursor].ring.cursor)
  }

  /** The slice list is at its end exactly when the flat ring is, and then all of it is full. */
  lemma {:induction false} FlatAtEnd<T>(limit: nat, slices: seq<Slice<T>>, cursor: nat)
    requires Arranged(slices, cursor) && (limit == 0 ==> slices == [])
    ensures var b := Flat(limit, slices, cursor);
            && b.Valid()
            && (b.AtEnd() <==> slices == [] || (cursor == |slices| - 1 && slices[cursor].ring.WillWrap()))
            && (b.AtEnd() ==> |b.memory| == b.Acquired())
  {
    if slices != [] {
      FlatSizes(slices, cursor);
    }
  }

  /** The room and the items before, at and after the slice being filled. */
  lemma {:induction false} FlatSizes<T>(slices: seq<Slice<T>>, cursor: nat)
    requires Arranged(slices, cursor) && slices != []
    ensures var before, ring, after := |Memory(slices[..cursor])|, slices[cursor].ring, |Memory(slices[cursor + 1..])|;
            && |Memory(slices)| == before + |ring.memory| + after
            && SumBy(Cap, Leases(slices)) == before + ring.capacity + after
            && (after == 0 <==> cursor == |slices| - 1)
  {
    var before, after := slices[..cursor], slices[cursor + 1..];
    MemorySplit(slices, cursor);
    FilledLength(before);
    FilledLength(after);
    var leases := Leases(slices);
    SumBySplit(Cap, leases, cursor);
    assert leases[..cursor] == Leases(before) && leases[cursor + 1..] == Leases(after);
    if after != [] {
      MemorySplit(after, 0);
      assert Filled(after[0]);
    }
  }

  function PushInto<T>(slices: seq<Slice<T>>, k: nat, item: T): (r: seq<Slice<T>>)
    requires k < |slices| && slices[k].ring.Valid()
    ensures |r| == |slices| && r[..k] == slices[..k] && r[k + 1..] == slices[k + 1..]
    ensures Leases(r) == Leases(slices)
  {
    slices[k := slices[k].(ring := slices[k].ring.Push(item))]
  }

  /** Pushing into a full slice overwrites one place of the flat memory. */
  lemma {:induction false} Overwrite<T>(slices: seq<Slice<T>>, k: nat, item: T, at: nat)
    requires k < |slices| && Current(slices[k]) && slices[k].ring.Full()
    requires at == if slices[k].ring.WillWrap() then 0 else slices[k].ring.cursor
    ensures at < |slices[k].ring.memory| && |Memory(slices[..k])| + at < |Memory(slices)|
    ensures Memory(PushInto(slices, k, item)) == Memory(slices)[|Memory(slices[..k])| + at := item]
  {
    MemorySplit(slices, k);
    MemorySplit(PushInto(slices, k, item), k);
    var a, m, b := Memory(slices[..k]), slices[k].ring.memory, Memory(slices[k + 1..]);
    assert a + m[at := item] + b == (a + m + b)[|a| + at := item];
  }

  /** Pushing into the last slice while it has room appends to the flat memory. */
  lemma {:induction false} Extend<T>(slices: seq<Slice<T>>, item: T)
    requires slices != [] && slices[|slices| - 1].ring.Valid() && !slices[|slices| - 1].ring.Full()
    ensures Memory(PushInto(slices, |slices| - 1, item)) == Memory(slices) + [item]
  {
  }

  lemma MemoryThrough<T>(slices: seq<Slice<T>>, k: nat)
    requires k < |slices|
    ensures Memory(slices[..k + 1]) == Memory(slices[..k]) + slices[k].ring.memory
  {
    assert slices[..k + 1][..k] == slices[..k];
  }

  /** Pushing leaves the slices arranged around the slice pushed to. */
  lemma StaysArranged<T>(slices: seq<Slice<T>>, k: nat, item: T)
    requires k < |slices| && slices[k].ring.Valid() && 0 < slices[k].ring.capacity == slices[k].lease.capacity
    requires forall j :: 0 <= j < |slices| && j != k ==> Filled(slices[j])
    requires slices[k].ring.Full() || k == |slices| - 1
    ensures Arranged(PushInto(slices, k, item), k)
  {
  }

  /** The slice that a push in the middle of the list goes to, and its place in the flat memory. */
  lemma {:induction false} NextSlice<T>(limit: nat, slices: seq<Slice<T>>, cursor: nat, k: nat)
    requires 0 < limit && Arranged(slices, cursor) && !Flat(limit, slices, cursor).AtEnd()
    requires slices != [] && k == if slices[cursor].ring.WillWrap() then cursor + 1 else cursor
    ensures k < |slices| && Current(slices[k]) && (k != cursor ==> Filled(slices[k]))
    ensures slices[k].ring.Full() || k == |slices| - 1
    ensures Flat(limit, slices, cursor).pos ==
            |Memory(slices[..k])| + if slices[k].ring.WillWrap() then 0 else slices[k].ring.cursor
  {
    FlatAtEnd(limit, slices, cursor);
    assert cursor + 1 < |slices| ==> Filled(slices[cursor + 1]);
    MemoryThrough(slices, cursor);
  }

  /** Pushing in the middle of the list, without asking the pool. */
  lemma {:induction false} PushWithin<T>(limit: nat, slices: seq<Slice<T>>, cursor: nat, k: nat, item: T, answer: Option<Lease>)
    requires 0 < limit && Arranged(slices, cursor) && !Flat(limit, slices, cursor).AtEnd()
    requires slices != [] && k == if slices[cursor].ring.WillWrap() then cursor + 1 else cursor
    ensures k < |slices| && Current(slices[k])
    ensures Arranged(PushInto(slices, k, item), k)
    ensures Flat(limit, PushInto(slices, k, item), k) == Flat(limit, slices, cursor).Push(item, answer)
  {
    NextSlice(limit, slices, cursor, k);
    OthersFilled(slices, cursor, k);
    StaysArranged(slices, k, item);
    PlaceOfPush(limit, slices, k, item);
    PushMiddle(Flat(limit, slices, cursor), item, answer);
  }

  lemma {:induction false} PushMiddle<T>(b: Line<T>, item: T, answer: Option<Lease>)
    requires 0 < b.limit && !b.AtEnd()
    ensures b.Push(item, answer) ==
            Line(b.limit, b.leases, if b.pos < |b.memory| then b.memory[b.pos := item] else b.memory + [item], b.pos + 1)
  {
  }

  lemma {:induction false} OthersFilled<T>(slices: seq<Slice<T>>, cursor: nat, k: nat)
    requires Arranged(slices, cursor) && slices != [] && k < |slices|
    requires k == if slices[cursor].ring.WillWrap() then cursor + 1 else cursor
    ensures forall j :: 0 <= j < |slices| && j != k ==> Filled(slices[j])
  {
    forall j | 0 <= j < |slices| && j != k
      ensures Filled(slices[j])
    {
      assert Placed(slices[j], j == cursor, j == |slices| - 1);
    }
  }

  lemma {:induction false} PlaceOfPush<T>(limit: nat, slices: seq<Slice<T>>, k: nat, item: T)
    requires k < |slices| && Current(slices[k]) && (slices[k].ring.Full() || k == |slices| - 1)
    ensures var pos := |Memory(slices[..k])| + if slices[k].ring.WillWrap() then 0 else slices[k].ring.cursor;
            && (slices[k].ring.Full() ==> pos < |Memory(slices)|)
            && (!slices[k].ring.Full() ==> pos == |Memory(slices)|)
            && Flat(limit, PushInto(slices, k, item), k) ==
               Line(limit, Leases(slices),
                    if pos < |Memory(slices)| then Memory(slices)[pos := item] else Memory(slices) + [item], pos + 1)
  {
    if slices[k].ring.Full() {
      Overwrite(slices, k, item, if slices[k].ring.WillWrap() then 0 else slices[k].ring.cursor);
    } else {
      MemoryThrough(slices, k);
      assert slices[..k + 1] == slices;
      Extend(slices, item);
    }
  }

  /** Wrapping to the first slice because the pool was not asked, or lent nothing. */
  lemma {:induction false} PushAtFront<T>(limit: nat, slices: seq<Slice<T>>, cursor: nat, item: T, answer: Option<Lease>)
    requires 0 < limit && Arranged(slices, cursor) && Flat(limit, slices, cursor).AtEnd()
    requires slices != [] && !(Flat(limit, slices, cursor).Wants() && answer.Some?)
    ensures Current(slices[0])
    ensures Arranged(PushInto(slices, 0, item), 0)
    ensures Flat(limit, PushInto(slices, 0, item), 0) == Flat(limit, slices, cursor).Push(item, answer)
  {
    FlatAtEnd(limit, slices, cursor);
    assert 0 != cursor ==> Filled(slices[0]);
    StaysArranged(slices, 0, item);
    assert slices[..0] == [];
    Overwrite(slices, 0, item, 0);
  }

  lemma {:induction false} WithNewSlice<T>(slices: seq<Slice<T>>, l: Lease)
    ensures var more := slices + [Slice(l, Empty<T>(l.capacity))];
            more[..|slices|] == slices && Memory(more) == Memory(slices) && Leases(more) == Leases(slices) + [l]
  {
    assert (slices + [Slice(l, Empty<T>(l.capacity))])[..|slices|] == slices;
  }

  /** Growing by the slice the pool lent. */
  lemma {:induction false} PushOnNew<T>(limit: nat, slices: seq<Slice<T>>, cursor: nat, item: T, l: Lease)
    requires Arranged(slices, cursor) && Flat(limit, slices, cursor).Wants() && 0 < l.capacity
    ensures var more := slices + [Slice(l, Empty(l.capacity))];
            && Arranged(PushInto(more, |slices|, item), |slices|)
            && Flat(limit, PushInto(more, |slices|, item), |slices|) == Flat(limit, slices, cursor).Push(item, Some(l))
  {
    FlatAtEnd(limit, slices, cursor);
    var more := slices + [Slice(l, Empty(l.capacity))];
    WithNewSlice(slices, l);
    StaysArranged(more, |slices|, item);
    Extend(more, item);
  }

  lemma {:induction false} PushPlaces<T>(limit: nat, slices: seq<Slice<T>>, cursor: nat, item: T, answer: Option<Lease>)
    requires 0 < limit && Arranged(slices, cursor) && Lendable(answer)
    requires Target(limit, slices, cursor, answer) < |Prepared(limit, slices, cursor, answer)|
    ensures var more, k := Prepared(limit, slices, cursor, answer), Target(limit, slices, cursor, answer);
            && more[k].ring.Valid() && Arranged(PushInto(more, k, item), k)
            && Flat(limit, PushInto(more, k, item), k) == Flat(limit, slices, cursor).Push(item, answer)
  {
    if !Flat(limit, slices, cursor).AtEnd() {
      FlatAtEnd(limit, slices, cursor);
      assert slices + [] == slices;
      PushWithin(limit, slices, cursor, Target(limit, slices, cursor, answer), item, answer);
    } else if Flat(limit, slices, cursor).Wants() && answer.Some? {
      PushOnNew(limit, slices, cursor, item, answer.value);
    } else {
      assert slices + [] == slices;
      PushAtFront(limit, slices, cursor, item, answer);
    }
  }

  /** A push that finds memory adds an item, unless the ring is full. */
  lemma {:induction false} SizeAfter<T>(b: Line<T>, item: T, answer: Option<Lease>)
    requires 0 < b.limit && b.Valid() && Lendable(answer) && (b.AtEnd() ==> |b.memory| == b.Acquired())
    ensures var c, n := b.Push(item, answer), |b.memory| + 1; |c.memory| == if n <= c.Acquired() then n else c.Acquired()
  {
    PushValid(b, item, answer);
  }

  /** Pushing to the slice that PrepareToPush chose is a push of the flat ring. */
  lemma {:induction false} PushRefines<T>(limit: nat, slices: seq<Slice<T>>, cursor: nat, item: T,
                                          answer: Option<Lease>, acquired: nat)
    requires 0 < limit && Arranged(slices, cursor) && Lendable(answer)
    requires Target(limit, slices, cursor, answer) < |Prepared(limit, slices, cursor, answer)|
    requires acquired == SumBy(Cap, Leases(Prepared(limit, slices, cursor, answer)))
    ensures var more, k := Prepared(limit, slices, cursor, answer), Target(limit, slices, cursor, answer);
            var size := |Memory(slices)|;
            && more[k].ring.Valid()
            && Consistent(limit, PushInto(more, k, item), k, if size + 1 <= acquired then size + 1 else acquired, acquired)
            && Flat(limit, PushInto(more, k, item), k) == Flat(limit, slices, cursor).Push(item, answer)
  {
    FlatAtEnd(limit, slices, cursor);
    PushPlaces(limit, slices, cursor, item, answer);
    var more, k := Prepared(limit, slices, cursor, answer), Target(limit, slices, cursor, answer);
    CountersAfter(limit, PushInto(more, k, item), k, Flat(limit, slices, cursor), item, answer);
  }

  /** The counters after a push of the flat ring. */
  lemma {:induction false} CountersAfter<T>(limit: nat, after: seq<Slice<T>>, k: nat, b: Line<T>, item: T, answer: Option<Lease>)
    requires 0 < limit == b.limit && b.Valid() && Lendable(answer) && (b.AtEnd() ==> |b.memory| == b.Acquired())
    requires Arranged(after, k) && Flat(limit, after, k) == b.Push(item, answer)
    ensures var size, acquired := |b.memory|, SumBy(Cap, Leases(after));
            0 <= acquired && Consistent(limit, after, k, if size + 1 <= acquired then size + 1 else acquired, acquired)
  {
    PushValid(b, item, answer);
    SizeAfter(b, item, answer);
  }

  /** The slices after a push has made room, and the place of the one it pushes to. */
  ghost function Prepared<T>(limit: nat, slices: seq<Slice<T>>, cursor: nat, answer: Option<Lease>): seq<Slice<T>>
    requires slices != [] ==> cursor < |slices|
  {
    slices + if Flat(limit, slices, cursor).Wants() && answer.Some?
             then [Slice(answer.value, Empty(answer.value.capacity))] else []
  }

  ghost function Target<T>(limit: nat, slices: seq<Slice<T>>, cursor: nat, answer: Option<Lease>): nat
    requires slices != [] ==> cursor < |slices|
  {
    if slices == [] then 0
    else if !Flat(limit, slices, cursor).AtEnd() then
      if slices[cursor].ring.WillWrap() then cursor + 1 else cursor
    else if Flat(limit, slices, cursor).Wants() && answer.Some? then |slices|
    else 0
  }

  /** A full slice adds its memory as one chunk. */
  lemma {:induction false} FilledChunks<T>(chunks: seq<seq<T>>, slices: seq<Slice<T>>, low: nat, k: nat)
    requires low <= k < |slices| && Filled(slices[k])
    ensures Concat(chunks + slices[k].ring.Chunks()) == Concat(chunks) + slices[k].ring.memory
    ensures Memory(slices[low..k + 1]) == Memory(slices[low..k]) + slices[k].ring.memory
  {
    var m := slices[k].ring.memory;
    assert slices[k].ring.Chunks() == [m];
    ConcatPush(chunks, m);
    assert slices[low..k + 1][..k - low] == slices[low..k];
  }

  lemma {:induction false} Around<T>(a: seq<T>, m: seq<T>, b: seq<T>, c: nat)
    requires c <= |m|
    ensures (a + m + b)[|a| + c..] + (a + m + b)[..|a| + c] == m[c..] + b + a + m[..c]
  {
    assert (a + m + b)[|a| + c..] == m[c..] + b;
    assert (a + m + b)[..|a| + c] == a + m[..c];
  }

  /** The contents start behind the cursor of the slice being filled and come around to it. */
  lemma {:induction false} ContentsSplit<T>(limit: nat, slices: seq<Slice<T>>, cursor: nat)
    requires cursor < |slices| && Current(slices[cursor])
    requires Flat(limit, slices, cursor).pos <= |Memory(slices)|
    ensures var r := slices[cursor].ring;
            Flat(limit, slices, cursor).Contents() ==
            r.memory[r.cursor..] + Memory(slices[cursor + 1..|slices|]) + Memory(slices[0..cursor]) + r.memory[..r.cursor]
  {
    var r := slices[cursor].ring;
    assert slices[cursor + 1..|slices|] == slices[cursor + 1..] && slices[0..cursor] == slices[..cursor];
    MemorySplit(slices, cursor);
    Around(Memory(slices[..cursor]), r.memory, Memory(slices[cursor + 1..]), r.cursor);
  }

  /** The code's form: the list of slices and the place of the slice being filled. */
  class CircularSliceBuffer<T> {
    const limit: nat
    var slices: seq<Slice<T>>
    var size: nat
    var acquired: nat
    var cursor: nat

    ghost predicate Valid()
      reads this
    {
      Consistent(limit, slices, cursor, size, acquired)
    }

    ghost function Model(): Line<T>
      requires slices != [] ==> cursor < |slices|
      reads this
    {
      Flat(limit, slices, cursor)
    }

    /** What the buffer holds, oldest first. */
    ghost function Items(): (items: seq<T>)
      requires Valid()
      reads this
      ensures |items| == size
    {
      FlatAtEnd(limit, slices, cursor);
      Model().Contents()
    }

    constructor (limit: nat)
      ensures this.limit == limit && Valid() && Model() == EmptyLine(limit)
    {
      this.limit, slices, size, acquired, cursor := limit, [], 0, 0, 0;
    }

    /** Takes on a slice that the pool has lent. */
    method Grow(l: Lease)
      requires acquired == SumBy(Cap, Leases(slices))
      modifies this
      ensures slices == old(slices) + [Slice(l, Empty(l.capacity))] && acquired == SumBy(Cap, Leases(slices))
      ensures size == old(size) && cursor == old(cursor)
    {
      AcquireMore(Leases(slices), l);
      acquired := acquired + l.capacity;
      slices := slices + [Slice(l, Empty(l.capacity))];
      assert Leases(slices) == old(Leases(slices)) + [l];
    }

    /** Puts the cursor on the slice to push to; `request` is what it asked the pool for, if it asked. */
    method PrepareToPush(answer: Option<Lease>) returns (request: Option<nat>)
      requires Valid() && 0 < limit
      modifies this
      ensures size == old(size)
      ensures request == if old(Model()).Wants() then Some(limit - old(size)) else None
      ensures request.Some? ==> 0 < request.value && old(size) == old(acquired)
      ensures slices == old(Prepared(limit, slices, cursor, answer))
      ensures cursor == old(Target(limit, slices, cursor, answer))
      ensures acquired == SumBy(Cap, Leases(slices))
      ensures cursor == |slices| ==> slices == []
    {
      FlatAtEnd(limit, slices, cursor);
      request := None;
      if cursor != |slices| && slices[cursor].ring.WillWrap() {
        cursor := cursor + 1;
      }
      if cursor == |slices| {
        if limit <= acquired {
          cursor := 0;
        } else {
          request := Some(limit - size);
          if answer.Some? {
            Grow(answer.value);
            cursor := |slices| - 1;
          } else {
            cursor := 0;
          }
        }
      }
    }

    /** Pushes to the slice under the cursor. */
    method Place(item: T)
      requires cursor < |slices| && slices[cursor].ring.Valid()
      requires Consistent(limit, PushInto(slices, cursor, item), cursor, if size + 1 <= acquired then size + 1 else acquired, acquired)
      modifies this
      ensures Valid() && Model() == old(Flat(limit, PushInto(slices, cursor, item), cursor))
    {
      slices := PushInto(slices, cursor, item);
      size := if size + 1 <= acquired then size + 1 else acquired;
    }

    /** Pushes to the slice under the cursor once PrepareToPush has run on the slices `was`. */
    method Store(item: T, answer: Option<Lease>, ghost was: seq<Slice<T>>, ghost at: nat)
      requires 0 < limit && Arranged(was, at) && Lendable(answer) && size == |Memory(was)|
      requires slices == Prepared(limit, was, at, answer) && cursor == Target(limit, was, at, answer)
      requires acquired == SumBy(Cap, Leases(slices)) && cursor < |slices|
      modifies this
      ensures Valid() && Model() == Flat(limit, was, at).Push(item, answer)
    {
      PushRefines(limit, was, at, item, answer, acquired);
      Place(item);
    }

    /** One push refines one push of the flat ring, and asks the pool exactly when the flat ring wants more. */
    method Push(item: T, answer: Option<Lease>) returns (request: Option<nat>)
      requires Valid() && Lendable(answer)
      modifies this
      ensures Valid() && Model() == old(Model()).Push(item, answer)
      ensures request == if old(Model()).Wants() then Some(limit - old(size)) else None
      ensures request.Some? ==> 0 < request.value && old(size) == old(acquired)
    {
      if limit == 0 {
        return None;
      }
      request := PrepareToPush(answer);
      if cursor == |slices| {
        return;
      }
      Store(item, answer, old(slices), old(cursor));
    }

    /** Hands back every slice, in order, and starts over. */
    method Clear() returns (returned: seq<Lease>)
      requires Valid()
      modifies this
      ensures Valid() && Model() == EmptyLine(limit) && returned == old(Model()).leases
    {
      returned := [];
      for k := 0 to |slices|
        invariant returned == Leases(slices)[..k] && slices == old(slices)
      {
        returned := returned + [slices[k].lease];
      }
      slices, size, acquired, cursor := [], 0, 0, 0;
    }

    /** True exactly when the next push overwrites the front of the ring without asking for a slice. */
    method WillWrapOnNextPush() returns (wraps: bool)
      requires Valid()
      ensures wraps <==> limit == 0 || (Model().AtEnd() && !Model().Wants())
    {
      FlatAtEnd(limit, slices, cursor);
      wraps := limit == 0 ||
               (limit <= acquired && cursor == |slices| - 1 && slices[cursor].ring.WillWrap());
    }

    /** Appends the chunks of the full slices from `low` up to `high`. */
    method AppendChunks(chunks: seq<seq<T>>, low: nat, high: nat) returns (more: seq<seq<T>>)
      requires low <= high <= |slices|
      requires forall k :: low <= k < high ==> Filled(slices[k])
      ensures Concat(more) == Concat(chunks) + Memory(slices[low..high])
    {
      more := chunks;
      for k := low to high
        invariant Concat(more) == Concat(chunks) + Memory(slices[low..k])
      {
        FilledChunks(more, slices, low, k);
        Regrouped(Concat(chunks), Memory(slices[low..k]), slices[k].ring.memory);
        more := more + slices[k].ring.Chunks();
      }
    }

    /** The chunks, in the order given, spell out the flat ring's contents. */
    method ContiguousMemoryChunks() returns (chunks: seq<seq<T>>)
      requires Valid()
      ensures Model().Valid() && Concat(chunks) == Items()
    {
      FlatAtEnd(limit, slices, cursor);
      if size == 0 {
        return [];
      }
      chunks := GatherChunks();
      ContentsSplit(limit, slices, cursor);
    }

    /** The part behind the cursor, the slices after and before, and the part up to the cursor. */
    method GatherChunks() returns (chunks: seq<seq<T>>)
      requires Arranged(slices, cursor) && slices != [] && slices[cursor].ring.memory != []
      ensures var r := slices[cursor].ring;
              Concat(chunks) ==
              r.memory[r.cursor..] + Memory(slices[cursor + 1..|slices|]) + Memory(slices[0..cursor]) + r.memory[..r.cursor]
    {
      var at := slices[cursor].ring.Chunks();
      ChunkEnds(slices[cursor].ring);
      chunks := [];
      if 1 < |at| {
        chunks := [at[0]];
      }
      chunks := AppendChunks(chunks, cursor + 1, |slices|);
      chunks := AppendChunks(chunks, 0, cursor);
      ConcatPush(chunks, at[|at| - 1]);
      chunks := chunks + [at[|at| - 1]];
    }
  }

  /** One call on a buffer, and what its memory chunks then spell. */
  method PlayOp<T>(b: CircularSliceBuffer<T>, op: Op<T>) returns (spelled: seq<T>)
    requires b.Valid() && Fair(op)
    modifies b
    ensures b.Valid() && old(b.Model()).Valid() && b.Model() == Apply(old(b.Model()), op)
    ensures spelled == b.Items()
  {
    FlatAtEnd(b.limit, b.slices, b.cursor);
    match op {
      case Push(item, answer) => var _ := b.Push(item, answer);
      case Clear => var _ := b.Clear();
    }
    var chunks := b.ContiguousMemoryChunks();
    spelled := Concat(chunks);
  }

  /** The buffer is what the calls make of a new one. */
  ghost predicate Follows<T>(b: CircularSliceBuffer<T>, limit: nat, ops: seq<Op<T>>)
    reads b
  {
    (forall op :: op in ops ==> Fair(op)) && b.Valid() && b.Model() == After(limit, ops)
  }

  method PlayNext<T>(b: CircularSliceBuffer<T>, limit: nat, ops: seq<Op<T>>, i: nat) returns (spelled: seq<T>)
    requires i < |ops| && (forall op :: op in ops ==> Fair(op)) && Follows(b, limit, ops[..i])
    modifies b
    ensures Follows(b, limit, ops[..i + 1]) && Spells(ops[..i + 1], b.size, spelled)
  {
    assert ops[i] in ops;
    DriveStep(limit, ops, i);
    spelled := PlayOp(b, ops[i]);
  }

  /**
   * Drives a buffer through any calls and any answers of the pool: after each call the memory chunks,
   * joined, are the last Size() items pushed since the last Clear.
   */
  method DriveBuffer<T>(limit: nat, ops: seq<Op<T>>) returns (sizes: seq<nat>, spelled: seq<seq<T>>)
    requires forall op :: op in ops ==> Fair(op)
    ensures |sizes| == |spelled| == |ops|
    ensures forall k :: 0 <= k < |ops| ==> Spells(ops[..k + 1], sizes[k], spelled[k])
  {
    var b := new CircularSliceBuffer<T>(limit);
    sizes, spelled := [], [];
    for i := 0 to |ops|
      invariant fresh(b) && Follows(b, limit, ops[..i])
      invariant |sizes| == |spelled| == i
      invariant forall k :: 0 <= k < i ==> Spells(ops[..k + 1], sizes[k], spelled[k])
    {
      var now := PlayNext(b, limit, ops, i);
      sizes, spelled := sizes + [b.size], spelled + [now];
    }
  }

  lemma {:induction false} DriveStep<T>(limit: nat, ops: seq<Op<T>>, i: nat)
    requires i < |ops| && (forall op :: op in ops ==> Fair(op)) && Fair(ops[i])
    ensures forall op :: op in ops[..i] || op in ops[..i + 1] ==> Fair(op)
    ensures After(limit, ops[..i + 1]) == Apply(After(limit, ops[..i]), ops[i])
    ensures var b := After(limit, ops[..i + 1]); Spells(ops[..i + 1], |b.Contents()|, b.Contents())
  {
    assert ops[..i + 1][..i] == ops[..i];
    BufferHoldsNewest(limit, ops[..i + 1]);
  }

  /** The last `size` items pushed since the last Clear, in order. */
  ghost predicate Spells<T>(ops: seq<Op<T>>, size: nat, items: seq<T>) {
    |items| == size && items == Newest(History(ops), size)
  }
}
