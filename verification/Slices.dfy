/**
 * The two ring slices a buffer can borrow: one that grows a vector up to its
 * capacity, and one laid over a span of a buffer that it does not own. Both are
 * proved to be the same ring, and the ring to be the newest items pushed.
 */
module Slices {
  import opened Common

  /** A ring: the items in memory order and the place the next item goes. */
  datatype Ring<T> = Ring(capacity: nat, memory: seq<T>, cursor: nat) {
    predicate Valid() {
      && |memory| <= capacity
      && cursor <= |memory|
      && (|memory| < capacity ==> cursor == |memory|)
      && (memory != [] ==> 0 < cursor)
    }

    predicate Full() {
      capacity <= |memory|
    }

    predicate WillWrap() {
      Full() && cursor == |memory|
    }

    /** The items held, oldest first. */
    function Contents(): seq<T>
      requires cursor <= |memory|
    {
      memory[cursor..] + memory[..cursor]
    }

    /** The contiguous pieces of memory that spell out the contents. */
    function Chunks(): seq<seq<T>>
      requires cursor <= |memory|
    {
      if memory == [] then []
      else if !Full() || cursor == |memory| then [memory]
      else [memory[cursor..], memory[..cursor]]
    }

    function Push(item: T): (r: Ring<T>)
      requires Valid()
      ensures r.Valid() && r.capacity == capacity
    {
      if capacity == 0 then this
      else if !Full() then Ring(capacity, memory + [item], |memory| + 1)
      else
        var at := if cursor == |memory| then 0 else cursor;
        Ring(capacity, memory[at := item], at + 1)
    }
  }

  function Empty<T>(capacity: nat): (r: Ring<T>)
    ensures r.Valid() && r.Contents() == []
  {
    Ring(capacity, [], 0)
  }

  /** Pushing keeps exactly the newest `capacity` items, and the chunks spell them out. */
  lemma PushKeepsNewest<T>(r: Ring<T>, item: T)
    requires r.Valid()
    ensures r.Push(item).Contents() == Newest(r.Contents() + [item], r.capacity)
  {
    var before, after := r.Contents() + [item], r.Push(item).Contents();
    if r.capacity != 0 && r.Full() {
      var at := if r.cursor == |r.memory| then 0 else r.cursor;
      assert after == r.memory[at + 1..] + r.memory[..at] + [item];
      assert before[1..] == after;
    }
  }

  lemma ChunksSpellContents<T>(r: Ring<T>)
    requires r.Valid()
    ensures Concat(r.Chunks()) == r.Contents()
    ensures r.WillWrap() && r.memory != [] ==> r.Chunks() == [r.memory] && r.Contents() == r.memory
  {
    var c := r.Chunks();
    if |c| == 1 {
      assert c[..0] == [];
    } else if |c| == 2 {
      assert c == [c[0]] + [c[1]];
      ConcatPush([c[0]], c[1]);
    }
  }

  /** The last chunk runs up to the cursor, and what comes before it is behind the cursor. */
  lemma ChunkEnds<T>(r: Ring<T>)
    requires r.Valid() && r.memory != []
    ensures var at := r.Chunks();
            && at != []
            && Concat(if 1 < |at| then [at[0]] else []) == r.memory[r.cursor..]
            && Concat([at[|at| - 1]]) == r.memory[..r.cursor]
  {
    var at := r.Chunks();
    assert [at[0]][..0] == [] && [at[|at| - 1]][..0] == [];
  }

  /** What callers do to a slice. */
  datatype Op<T> = Push(item: T) | Clear

  /** What callers can see of a slice. */
  datatype View<T> = View(size: nat, empty: bool, full: bool, willWrap: bool, chunks: seq<seq<T>>)

  ghost function Apply<T>(r: Ring<T>, op: Op<T>): (q: Ring<T>)
    requires r.Valid()
    ensures q.Valid() && q.capacity == r.capacity
  {
    match op
    case Push(item) => r.Push(item)
    case Clear => Empty(r.capacity)
  }

  ghost function After<T>(capacity: nat, ops: seq<Op<T>>): (r: Ring<T>)
    ensures r.Valid() && r.capacity == capacity
  {
    if ops == [] then Empty(capacity) else Apply(After(capacity, ops[..|ops| - 1]), ops[|ops| - 1])
  }

  ghost function ViewOf<T>(r: Ring<T>): View<T>
    requires r.Valid()
  {
    View(|r.memory|, r.memory == [], r.Full(), r.WillWrap(), r.Chunks())
  }

  /** The items pushed since the last Clear. */
  ghost function SinceClear<T>(ops: seq<Op<T>>): seq<T> {
    if ops == [] || ops[|ops| - 1].Clear? then []
    else SinceClear(ops[..|ops| - 1]) + [ops[|ops| - 1].item]
  }

  /** After any calls, a slice holds the newest `capacity` items pushed since the last Clear. */
  lemma {:induction false} SliceHoldsNewest<T>(capacity: nat, ops: seq<Op<T>>)
    ensures After(capacity, ops).Contents() == Newest(SinceClear(ops), capacity)
    ensures Concat(After(capacity, ops).Chunks()) == Newest(SinceClear(ops), capacity)
  {
    ChunksSpellContents(After(capacity, ops));
    if ops != [] && ops[|ops| - 1].Push? {
      var earlier, item := ops[..|ops| - 1], ops[|ops| - 1].item;
      SliceHoldsNewest(capacity, earlier);
      PushKeepsNewest(After(capacity, earlier), item);
      NewestAgain(SinceClear(earlier), [item], capacity, capacity);
    }
  }

  /** The slice that grows its own vector (owned_buffer_slice.h). */
  class OwnedBufferSlice<T> {
    const capacity: nat
    var buffer: seq<T>
    var cursor: nat

    ghost function Model(): Ring<T>
      reads this
    {
      Ring(capacity, buffer, cursor)
    }

    constructor (capacity: nat)
      ensures this.capacity == capacity && Model() == Empty(capacity)
    {
      this.capacity, buffer, cursor := capacity, [], 0;
    }

    method Push(item: T)
      requires Model().Valid()
      modifies this
      ensures Model() == old(Model()).Push(item)
    {
      if capacity == 0 {
        return;
      }
      var wraps := WillWrapOnNextPush();
      if wraps {
        cursor := 0;
      }
      if capacity <= |buffer| {
        buffer := buffer[cursor := item];
        cursor := cursor + 1;
      } else {
        buffer := buffer + [item];
        cursor := |buffer|;
      }
    }

    method Clear()
      modifies this
      ensures Model() == Empty(capacity)
    {
      buffer, cursor := [], 0;
    }

    method WillWrapOnNextPush() returns (wraps: bool)
      ensures wraps == Model().WillWrap()
    {
      wraps := capacity <= |buffer| && cursor == |buffer|;
    }

    method ContiguousMemoryChunks() returns (chunks: seq<seq<T>>)
      requires Model().Valid()
      ensures chunks == Model().Chunks()
    {
      if |buffer| == 0 {
        return [];
      }
      if |buffer| < capacity || cursor == |buffer| {
        return [buffer];
      }
      chunks := [buffer[cursor..], buffer[..cursor]];
    }

    method Observe() returns (view: View<T>)
      requires Model().Valid()
      ensures view == ViewOf(Model())
    {
      var wraps := WillWrapOnNextPush();
      var chunks := ContiguousMemoryChunks();
      view := View(|buffer|, |buffer| == 0, capacity <= |buffer|, wraps, chunks);
    }
  }

  /** The slice laid over the span [first, first + length) of a buffer (unowned_buffer_slice.h). */
  class UnownedBufferSlice<T> {
    const span: array<T>
    const first: nat
    const length: nat
    var cursor: nat
    var size: nat

    ghost predicate Valid()
      reads this
    {
      && first + length <= span.Length
      && size <= length
      && cursor <= length
      && (size < length ==> cursor == size)
      && (0 < size ==> 0 < cursor)
    }

    ghost function Model(): (r: Ring<T>)
      requires Valid()
      reads this, span
      ensures r.Valid()
    {
      Ring(length, span[first..first + size], cursor)
    }

    constructor (span: array<T>, first: nat, length: nat)
      requires first + length <= span.Length
      ensures this.span == span && this.first == first && this.length == length
      ensures Valid() && Model() == Empty(length)
    {
      this.span, this.first, this.length, cursor, size := span, first, length, 0, 0;
    }

    /** Writes through the span, and to no place outside it. */
    method Push(item: T)
      requires Valid()
      modifies this, span
      ensures Valid() && Model() == old(Model()).Push(item)
      ensures forall k :: 0 <= k < span.Length && !(first <= k < first + length) ==> span[k] == old(span[k])
    {
      if length == 0 {
        return;
      }
      var wraps := WillWrapOnNextPush();
      if wraps {
        cursor := 0;
      }
      span[first + cursor] := item;
      size := if size + 1 <= length then size + 1 else length;
      cursor := cursor + 1;
    }

    method Clear()
      requires Valid()
      modifies this
      ensures Valid() && Model() == Empty(length)
    {
      cursor, size := 0, 0;
    }

    method WillWrapOnNextPush() returns (wraps: bool)
      requires Valid()
      ensures wraps == Model().WillWrap()
    {
      wraps := cursor == length;
    }

    method ContiguousMemoryChunks() returns (chunks: seq<seq<T>>)
      requires Valid()
      ensures chunks == Model().Chunks()
    {
      if size == 0 {
        return [];
      }
      if size < length || cursor == length {
        return [span[first..first + size]];
      }
      chunks := [span[first + cursor..first + length], span[first..first + cursor]];
      assert Model().memory[cursor..] == chunks[0] && Model().memory[..cursor] == chunks[1];
    }

    method Observe() returns (view: View<T>)
      requires Valid()
      ensures view == ViewOf(Model())
    {
      var wraps := WillWrapOnNextPush();
      var chunks := ContiguousMemoryChunks();
      view := View(size, size == 0, length <= size, wraps, chunks);
    }
  }

  method ApplyBoth<T>(a: OwnedBufferSlice<T>, b: UnownedBufferSlice<T>, op: Op<T>)
    returns (left: View<T>, right: View<T>)
    requires b.Valid() && a.Model() == b.Model()
    modifies a, b, b.span
    ensures b.Valid() && a.Model() == b.Model() == Apply(old(a.Model()), op)
    ensures left == right == ViewOf(a.Model())
  {
    match op {
      case Push(item) =>
        a.Push(item);
        b.Push(item);
      case Clear =>
        a.Clear();
        b.Clear();
    }
    left := a.Observe();
    right := b.Observe();
  }

  /**
   * Drives one slice of each kind with the same calls and records what each shows
   * after every call: the two records are the same, and are the ring's.
   */
  method DriveBoth<T(0)>(capacity: nat, ops: seq<Op<T>>) returns (owned: seq<View<T>>, unowned: seq<View<T>>)
    ensures owned == unowned && |owned| == |ops|
    ensures forall k :: 0 <= k < |ops| ==> owned[k] == ViewOf(After(capacity, ops[..k + 1]))
  {
    var span := new T[capacity];
    var a := new OwnedBufferSlice<T>(capacity);
    var b := new UnownedBufferSlice<T>(span, 0, capacity);
    owned, unowned := [], [];
    for i := 0 to |ops|
      invariant fresh(a) && fresh(b) && fresh(b.span)
      invariant b.Valid() && a.Model() == b.Model() == After(capacity, ops[..i])
      invariant owned == unowned && |owned| == i
      invariant forall k :: 0 <= k < i ==> owned[k] == ViewOf(After(capacity, ops[..k + 1]))
    {
      assert ops[..i + 1][..i] == ops[..i];
      var left, right := ApplyBoth(a, b, ops[i]);
      assert a.Model() == After(capacity, ops[..i + 1]);
      owned, unowned := owned + [left], unowned + [right];
    }
  }
}
