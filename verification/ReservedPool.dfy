/**
 * The pool of preallocated slices (reserved_buffer_slice_pool.h): how its buffer is cut
 * into slices, and its lock-free Borrow and Return as a step machine over any number of
 * threads, one step for each access to an atomic.
 */
module ReservedPool {
  import opened Common
  import opened Words
  import opened Slices

  /** The part [first, first + length) of the pool's buffer. */
  datatype Span = Span(first: nat, length: nat)

  function Length(s: Span): int {
    s.length
  }

  /** Where span k is to begin: at the end of the one before it. */
  function Begin(spans: seq<Span>, k: nat): nat
    requires k <= |spans|
  {
    if k == 0 then 0 else spans[k - 1].first + spans[k - 1].length
  }

  ghost predicate Abuts(spans: seq<Span>, k: nat)
    requires k < |spans|
  {
    0 < spans[k].length && spans[k].first == Begin(spans, k)
  }

  /** The spans are non-empty, follow each other without gap or overlap, and end at `end`. */
  ghost predicate Tiles(spans: seq<Span>, end: nat) {
    (forall k :: 0 <= k < |spans| ==> Abuts(spans, k)) && end == Begin(spans, |spans|)
  }

  /** Adding a span at the end of a tiling. */
  lemma {:induction false} TilesMore(spans: seq<Span>, end: nat, length: nat)
    requires Tiles(spans, end) && 0 < length
    ensures Tiles(spans + [Span(end, length)], end + length)
  {
    var more := spans + [Span(end, length)];
    forall k | 0 <= k < |more|
      ensures Abuts(more, k)
    {
      if k < |spans| {
        assert Abuts(spans, k);
      }
    }
  }

  lemma {:induction false} Division(n: nat, d: nat)
    requires 0 < d
    ensures n == d * (n / d) + n % d
  {
  }

  lemma {:induction false} Multiple(d: nat, k: nat)
    ensures d * (k + 1) == d * k + d
  {
  }

  /** Cuts a buffer of `capacity` items into slices of `max` items and one of what is left over. */
  method MakeSpans(capacity: nat, max: nat) returns (spans: seq<Span>)
    ensures max == 0 ==> spans == []
    ensures max != 0 ==> Tiles(spans, capacity) && |spans| == capacity / max + if capacity % max == 0 then 0 else 1
    ensures forall k :: 0 <= k < |spans| ==> spans[k].length <= max
    ensures forall k :: 0 <= k < |spans| - 1 ==> spans[k].length == max
  {
    spans := [];
    if max == 0 {
      return;
    }
    var whole, remainder := capacity / max, capacity % max;
    Division(capacity, max);
    var count := whole + if remainder < 1 then remainder else 1;
    assert remainder != 0 ==> count - 1 == whole;
    for index := 0 to whole
      invariant |spans| == index && Tiles(spans, max * index)
      invariant forall k :: 0 <= k < index ==> spans[k].length == max
    {
      TilesMore(spans, max * index, max);
      Multiple(max, index);
      spans := spans + [Span(max * index, max)];
    }
    if remainder != 0 {
      TilesMore(spans, max * whole, remainder);
      spans := spans + [Span(max * (count - 1), remainder)];
    }
  }

  lemma {:induction false} TilesInit(spans: seq<Span>, end: nat)
    requires Tiles(spans, end) && spans != []
    ensures Tiles(spans[..|spans| - 1], spans[|spans| - 1].first)
  {
    var init, n := spans[..|spans| - 1], |spans| - 1;
    forall k | 0 <= k < |init|
      ensures Abuts(init, k)
    {
      assert Abuts(spans, k);
    }
    assert Abuts(spans, n);
  }

  /** Every place of the buffer is in exactly one span, and there are no more spans than places. */
  lemma {:induction false} SpansPartition(spans: seq<Span>, end: nat)
    requires Tiles(spans, end)
    ensures |spans| <= end && SumBy(Length, spans) == end
    ensures forall p: nat :: p < end ==> InSome(spans, p)
    ensures forall j, k :: 0 <= j < k < |spans| ==> spans[j].first + spans[j].length <= spans[k].first
    ensures forall k :: 0 <= k < |spans| ==> spans[k].first + spans[k].length <= end
  {
    if spans != [] {
      var init, last := spans[..|spans| - 1], spans[|spans| - 1];
      TilesInit(spans, end);
      assert Abuts(spans, |spans| - 1);
      SpansPartition(init, last.first);
      forall p: nat | p < end
        ensures InSome(spans, p)
      {
        if last.first <= p {
          assert Covers(spans[|spans| - 1], p);
        } else {
          assert InSome(init, p);
          var k :| 0 <= k < |init| && Covers(init[k], p);
          assert Covers(spans[k], p);
        }
      }
      forall j, k | 0 <= j < k < |spans|
        ensures spans[j].first + spans[j].length <= spans[k].first
      {
        assert init[j] == spans[j];
        if k < |init| {
          assert init[k] == spans[k];
        }
      }
      forall k | 0 <= k < |spans|
        ensures spans[k].first + spans[k].length <= end
      {
        if k < |init| {
          assert init[k] == spans[k];
        }
      }
    }
  }

  ghost predicate InSome(spans: seq<Span>, p: nat) {
    exists k :: 0 <= k < |spans| && Covers(spans[k], p)
  }

  ghost predicate Covers(s: Span, p: nat) {
    s.first <= p < s.first + s.length
  }

  /** Where a thread is inside Borrow or Return, and with which slice. */
  datatype Phase =
    | Idle
    | Scanning(i: nat)      // about to exchange the flag of slice i
    | Subtracting(i: nat)   // has set the flag, about to subtract from `size_`
    | Clearing(i: nat)      // has taken the pointer, about to clear the slice
    | Unflagging(i: nat)    // about to lower the flag
    | Adding(i: nat)        // has lowered the flag, about to add to `size_`

  datatype Slot<T> = Slot(ring: Ring<T>, borrowed: bool)

  datatype Pool<T> = Pool(
    capacity: nat,
    caps: seq<nat>,          // the slices' capacities
    slots: seq<Slot<T>>,
    size: nat,
    threads: seq<Phase>,
    held: multiset<nat>,     // the slices whose owning pointers are out
    lost: multiset<nat>)     // the slices whose pointers Return took and did not return

  datatype Action<T> =
    | Borrow(t: nat)
    | Return(t: nat, i: nat)
    | Continue(t: nat)
    | Use(i: nat, item: T)   // the holder of slice i pushes to it

  function SubWeight(caps: seq<nat>): Phase -> int {
    (p: Phase) => if p.Subtracting? && p.i < |caps| then caps[p.i] else 0
  }

  function AddWeight(caps: seq<nat>): Phase -> int {
    (p: Phase) => if p.Adding? && p.i < |caps| then caps[p.i] else 0
  }

  /** Whether a thread is the one responsible for slice i. */
  function Claim(i: nat): Phase -> int {
    (p: Phase) => if (p.Subtracting? || p.Clearing? || p.Unflagging?) && p.i == i then 1 else 0
  }

  function LentCap<T>(s: Slot<T>): int {
    if s.borrowed then s.ring.capacity else 0
  }

  function Fill<T>(s: Slot<T>): int {
    s.ring.capacity
  }

  function Start<T>(capacity: nat, caps: seq<nat>, threads: nat): Pool<T> {
    Pool(capacity, caps, seq(|caps|, i requires 0 <= i < |caps| => Slot(Empty(caps[i]), false)), capacity,
         seq(threads, _ => Idle), multiset{}, multiset{})
  }

  /** One step; a step that is not enabled leaves the pool as it is. */
  function Step<T>(s: Pool<T>, a: Action<T>): Pool<T> {
    match a
    case Borrow(t) => if t < |s.threads| && s.threads[t].Idle? then s.(threads := s.threads[t := Scanning(0)]) else s
    case Return(t, i) =>
      if t < |s.threads| && s.threads[t].Idle? && i in s.held then
        if i < s.capacity then s.(held := s.held - multiset{i}, threads := s.threads[t := Clearing(i)])
        else s.(held := s.held - multiset{i}, lost := s.lost + multiset{i})
      else s
    case Use(i, item) =>
      if i in s.held && i < |s.slots| && s.slots[i].ring.Valid()
      then s.(slots := s.slots[i := s.slots[i].(ring := s.slots[i].ring.Push(item))]) else s
    case Continue(t) => if t < |s.threads| then Advance(s, t) else s
  }

  function Advance<T>(s: Pool<T>, t: nat): Pool<T>
    requires t < |s.threads|
  {
    match s.threads[t]
    case Scanning(i) =>
      if |s.slots| <= i then Move(s, t, Idle)
      else if s.slots[i].borrowed then Move(s, t, Scanning(i + 1))
      else Move(s, t, Subtracting(i)).(slots := s.slots[i := s.slots[i].(borrowed := true)])
    case Subtracting(i) =>
      if |s.caps| <= i then s
      else Move(s, t, Idle).(size := Wrap(s.size - s.caps[i]), held := s.held + multiset{i})
    case Clearing(i) =>
      if |s.slots| <= i then s
      else Move(s, t, Unflagging(i)).(slots := s.slots[i := s.slots[i].(ring := Empty(s.slots[i].ring.capacity))])
    case Unflagging(i) =>
      if |s.slots| <= i then s
      else Move(s, t, Adding(i)).(slots := s.slots[i := s.slots[i].(borrowed := false)])
    case Adding(i) =>
      if |s.caps| <= i then s
      else Move(s, t, Idle).(size := Wrap(s.size + s.caps[i]))
    case Idle => s
  }

  function Move<T>(s: Pool<T>, t: nat, p: Phase): Pool<T>
    requires t < |s.threads|
  {
    s.(threads := s.threads[t := p])
  }

  ghost function Exec<T>(s: Pool<T>, run: seq<Action<T>>): Pool<T> {
    if run == [] then s else Step(Exec(s, run[..|run| - 1]), run[|run| - 1])
  }

  /** How many pointers and threads answer for slice i. */
  ghost function Owners<T>(s: Pool<T>, i: nat): int {
    s.held[i] + SumBy(Claim(i), s.threads)
  }

  ghost predicate SlotOk<T>(s: Pool<T>, i: nat)
    requires i < |s.slots| == |s.caps|
  {
    && s.slots[i].ring.Valid() && s.slots[i].ring.capacity == s.caps[i]
    && (!s.slots[i].borrowed ==> s.slots[i].ring.memory == [])
    && Owners(s, i) == if s.slots[i].borrowed then 1 else 0
  }

  ghost predicate PhaseOk<T>(s: Pool<T>, p: Phase)
    requires |s.slots| == |s.caps|
  {
    match p
    case Idle => true
    case Scanning(i) => i <= |s.slots|
    case Subtracting(i) => i < |s.slots| && s.slots[i].ring.memory == []
    case Unflagging(i) => i < |s.slots| && s.slots[i].ring.memory == []
    case Clearing(i) => i < |s.slots|
    case Adding(i) => i < |s.slots|
  }

  /** What `size_` is, up to 2^64: the free capacity, off by the pending updates. */
  ghost function SizeSpec<T>(s: Pool<T>): int {
    s.capacity - SumBy(LentCap<T>, s.slots) + SumBy(SubWeight(s.caps), s.threads) - SumBy(AddWeight(s.caps), s.threads)
  }

  ghost predicate Inv<T>(s: Pool<T>) {
    match s
    case Pool(capacity, caps, slots, size, threads, held, lost) =>
      && |slots| == |caps| <= capacity
      && lost == multiset{}
      && (forall i :: i in held ==> i < |slots|)
      && (forall i :: 0 <= i < |slots| ==> SlotOk(s, i))
      && (forall t :: 0 <= t < |threads| ==> PhaseOk(s, threads[t]))
      && size == Wrap(SizeSpec(s))
  }

  lemma {:induction false} MoveSums<T>(s: Pool<T>, t: nat, p: Phase)
    requires t < |s.threads|
    ensures forall i: nat ::
              SumBy(Claim(i), s.threads[t := p]) == SumBy(Claim(i), s.threads) - Claim(i)(s.threads[t]) + Claim(i)(p)
    ensures SumBy(SubWeight(s.caps), s.threads[t := p]) - SumBy(AddWeight(s.caps), s.threads[t := p]) ==
            SumBy(SubWeight(s.caps), s.threads) - SumBy(AddWeight(s.caps), s.threads)
            - SubWeight(s.caps)(s.threads[t]) + SubWeight(s.caps)(p)
            + AddWeight(s.caps)(s.threads[t]) - AddWeight(s.caps)(p)
  {
    forall i: nat
      ensures SumBy(Claim(i), s.threads[t := p]) == SumBy(Claim(i), s.threads) - Claim(i)(s.threads[t]) + Claim(i)(p)
    {
      SumByUpdate(Claim(i), s.threads, t, p);
    }
    SumByUpdate(SubWeight(s.caps), s.threads, t, p);
    SumByUpdate(AddWeight(s.caps), s.threads, t, p);
  }

  /** A thread that claims a slice is alone with it: its flag is up and no pointer to it is out. */
  lemma {:induction false} ClaimIsExclusive<T>(s: Pool<T>, t: nat, i: nat)
    requires Inv(s) && t < |s.threads| && i < |s.slots| && Claim(i)(s.threads[t]) == 1
    ensures s.slots[i].borrowed && s.held[i] == 0
    ensures forall u :: 0 <= u < |s.threads| && u != t ==> Claim(i)(s.threads[u]) == 0
  {
    assert SlotOk(s, i);
    SumByNonNegative(Claim(i), s.threads);
    var rest := s.threads[t := Idle];
    SumByUpdate(Claim(i), s.threads, t, Idle);
    SumByNonNegative(Claim(i), rest);
    forall u | 0 <= u < |s.threads| && u != t
      ensures Claim(i)(s.threads[u]) == 0
    {
      assert rest[u] == s.threads[u];
    }
  }

  /** A slice whose pointer is out has no thread at work on it, and only one pointer. */
  lemma {:induction false} HeldIsExclusive<T>(s: Pool<T>, i: nat)
    requires Inv(s) && i in s.held
    ensures i < |s.slots| && s.slots[i].borrowed && s.held[i] == 1
    ensures forall u :: 0 <= u < |s.threads| ==> Claim(i)(s.threads[u]) == 0
  {
    assert SlotOk(s, i);
    SumByNonNegative(Claim(i), s.threads);
  }

  /** A thread that moves while it has no slice changes nothing else. */
  lemma {:induction false} IdleMove<T>(s: Pool<T>, t: nat, p: Phase)
    requires Inv(s) && t < |s.threads| && (s.threads[t].Idle? || s.threads[t].Scanning?)
    requires p.Idle? || (p.Scanning? && p.i <= |s.slots|)
    ensures Inv(Move(s, t, p))
  {
    MoveSums(s, t, p);
    var next := Move(s, t, p);
    forall j | 0 <= j < |next.slots|
      ensures SlotOk(next, j)
    {
      assert SlotOk(s, j);
    }
    forall u | 0 <= u < |next.threads|
      ensures PhaseOk(next, next.threads[u])
    {
      assert u != t ==> PhaseOk(s, s.threads[u]);
    }
  }

  /** The change a step makes: thread t goes to phase p, slice i becomes `slot`. */
  ghost function Shift<T>(s: Pool<T>, t: nat, p: Phase, i: nat, slot: Slot<T>, held: multiset<nat>, size: nat): Pool<T>
    requires t < |s.threads| && i < |s.slots|
  {
    s.(threads := s.threads[t := p], slots := s.slots[i := slot], held := held, size := size)
  }

  function Lent(b: bool): int {
    if b then 1 else 0
  }

  /** The pending updates and the lent capacity after a step, against `size_`. */
  lemma {:induction false} ShiftSize<T>(s: Pool<T>, t: nat, p: Phase, i: nat, slot: Slot<T>, delta: int)
    requires t < |s.threads| && i < |s.slots| && s.size == Wrap(SizeSpec(s))
    requires delta == LentCap(s.slots[i]) - LentCap(slot)
                      - SubWeight(s.caps)(s.threads[t]) + SubWeight(s.caps)(p)
                      + AddWeight(s.caps)(s.threads[t]) - AddWeight(s.caps)(p)
    ensures Wrap(s.size + delta) == Wrap(SizeSpec(s.(threads := s.threads[t := p], slots := s.slots[i := slot])))
  {
    MoveSums(s, t, p);
    SumByUpdate(LentCap<T>, s.slots, i, slot);
    WrapAdd(SizeSpec(s), delta);
  }

  /** The pointers and claims on a slice after a step. */
  lemma {:induction false} ShiftSlot<T>(s: Pool<T>, t: nat, p: Phase, j: nat, slot: Slot<T>, held: multiset<nat>, next: Pool<T>)
    requires t < |s.threads| && j < |s.slots| == |s.caps| && SlotOk(s, j)
    requires |next.slots| == |next.caps| && next.caps == s.caps && j < |next.slots| && next.slots[j] == slot
    requires next.threads == s.threads[t := p] && next.held == held
    requires slot.ring.Valid() && slot.ring.capacity == s.caps[j] && (!slot.borrowed ==> slot.ring.memory == [])
    requires held[j] + Claim(j)(p) - s.held[j] - Claim(j)(s.threads[t]) == Lent(slot.borrowed) - Lent(s.slots[j].borrowed)
    ensures SlotOk(next, j)
  {
    SumByUpdate(Claim(j), s.threads, t, p);
  }

  /**
   * A step on slice i keeps the invariant when the thread and the pointers to i that it
   * adds and drops match the slice's flag, and `size_` moves with the pending updates.
   */
  lemma {:induction false} ShiftKeepsInv<T>(s: Pool<T>, t: nat, p: Phase, i: nat, slot: Slot<T>,
                                            held: multiset<nat>, delta: int)
    requires Inv(s) && t < |s.threads| && i < |s.slots|
    requires forall j: nat :: j != i ==> held[j] == s.held[j] && Claim(j)(p) == 0 == Claim(j)(s.threads[t])
    requires slot.ring.Valid() && slot.ring.capacity == s.caps[i] && (!slot.borrowed ==> slot.ring.memory == [])
    requires s.slots[i].ring.memory == [] ==> slot.ring.memory == []
    requires held[i] + Claim(i)(p) - s.held[i] - Claim(i)(s.threads[t]) == Lent(slot.borrowed) - Lent(s.slots[i].borrowed)
    requires PhaseOk(s.(slots := s.slots[i := slot]), p)
    requires delta == LentCap(s.slots[i]) - LentCap(slot)
                      - SubWeight(s.caps)(s.threads[t]) + SubWeight(s.caps)(p)
                      + AddWeight(s.caps)(s.threads[t]) - AddWeight(s.caps)(p)
    ensures Inv(Shift(s, t, p, i, slot, held, Wrap(s.size + delta)))
  {
    var next := Shift(s, t, p, i, slot, held, Wrap(s.size + delta));
    ShiftSize(s, t, p, i, slot, delta);
    forall j | 0 <= j < |next.slots|
      ensures SlotOk(next, j)
    {
      assert SlotOk(s, j);
      ShiftSlot(s, t, p, j, next.slots[j], held, next);
    }
    forall u | 0 <= u < |next.threads|
      ensures PhaseOk(next, next.threads[u])
    {
      assert u != t ==> PhaseOk(s, s.threads[u]);
    }
  }

  lemma {:induction false} AdvanceKeepsInv<T>(s: Pool<T>, t: nat)
    requires Inv(s) && t < |s.threads|
    ensures Inv(Advance(s, t))
  {
    var p := s.threads[t];
    assert PhaseOk(s, p);
    if !p.Idle? {
      if p.Scanning? && (|s.slots| <= p.i || s.slots[p.i].borrowed) {
        IdleMove(s, t, if |s.slots| <= p.i then Idle else Scanning(p.i + 1));
      } else if p.Scanning? || p.Subtracting? {
        BorrowStepKeepsInv(s, t, p.i);
      } else {
        ReturnStepKeepsInv(s, t, p.i);
      }
    }
  }

  lemma {:induction false} BorrowStepKeepsInv<T>(s: Pool<T>, t: nat, i: nat)
    requires Inv(s) && t < |s.threads| && i < |s.slots|
    requires s.threads[t] == Subtracting(i) || (s.threads[t] == Scanning(i) && !s.slots[i].borrowed)
    ensures Inv(Advance(s, t))
  {
    if s.threads[t].Scanning? {
      FlagKeepsInv(s, t, i);
    } else {
      IssueKeepsInv(s, t, i);
    }
  }

  lemma {:induction false} FlagKeepsInv<T>(s: Pool<T>, t: nat, i: nat)
    requires Inv(s) && t < |s.threads| && i < |s.slots| && s.threads[t] == Scanning(i) && !s.slots[i].borrowed
    ensures Inv(Advance(s, t))
  {
    assert SlotOk(s, i);
    assert Wrap(s.size + 0) == s.size;
    ShiftKeepsInv(s, t, Subtracting(i), i, s.slots[i].(borrowed := true), s.held, 0);
  }

  lemma {:induction false} IssueKeepsInv<T>(s: Pool<T>, t: nat, i: nat)
    requires Inv(s) && t < |s.threads| && i < |s.slots| && s.threads[t] == Subtracting(i)
    ensures Inv(Advance(s, t))
  {
    assert SlotOk(s, i) && PhaseOk(s, s.threads[t]);
    assert s.slots[i := s.slots[i]] == s.slots;
    ClaimIsExclusive(s, t, i);
    ShiftKeepsInv(s, t, Idle, i, s.slots[i], s.held + multiset{i}, -(s.caps[i] as int));
  }

  lemma {:induction false} ReturnStepKeepsInv<T>(s: Pool<T>, t: nat, i: nat)
    requires Inv(s) && t < |s.threads| && i < |s.slots|
    requires s.threads[t] == Clearing(i) || s.threads[t] == Unflagging(i) || s.threads[t] == Adding(i)
    ensures Inv(Advance(s, t))
  {
    match s.threads[t]
    case Adding(_) => AddKeepsInv(s, t, i);
    case Clearing(_) => ClearKeepsInv(s, t, i);
    case Unflagging(_) => UnflagKeepsInv(s, t, i);
  }

  lemma {:induction false} AddKeepsInv<T>(s: Pool<T>, t: nat, i: nat)
    requires Inv(s) && t < |s.threads| && i < |s.slots| && s.threads[t] == Adding(i)
    ensures Inv(Advance(s, t))
  {
    assert SlotOk(s, i) && s.slots[i := s.slots[i]] == s.slots;
    ShiftKeepsInv(s, t, Idle, i, s.slots[i], s.held, s.caps[i]);
  }

  lemma {:induction false} ClearKeepsInv<T>(s: Pool<T>, t: nat, i: nat)
    requires Inv(s) && t < |s.threads| && i < |s.slots| && s.threads[t] == Clearing(i)
    ensures Inv(Advance(s, t))
  {
    var slot := s.slots[i];
    assert SlotOk(s, i) && Wrap(s.size + 0) == s.size;
    ClaimIsExclusive(s, t, i);
    ShiftKeepsInv(s, t, Unflagging(i), i, slot.(ring := Empty(slot.ring.capacity)), s.held, 0);
  }

  lemma {:induction false} UnflagKeepsInv<T>(s: Pool<T>, t: nat, i: nat)
    requires Inv(s) && t < |s.threads| && i < |s.slots| && s.threads[t] == Unflagging(i)
    ensures Inv(Advance(s, t))
  {
    assert SlotOk(s, i) && PhaseOk(s, s.threads[t]) && Wrap(s.size + 0) == s.size;
    ClaimIsExclusive(s, t, i);
    ShiftKeepsInv(s, t, Adding(i), i, s.slots[i].(borrowed := false), s.held, 0);
  }

  lemma {:induction false} StepKeepsInv<T>(s: Pool<T>, a: Action<T>)
    requires Inv(s)
    ensures Inv(Step(s, a))
  {
    if Step(s, a) != s {
      match a
      case Continue(t) => AdvanceKeepsInv(s, t);
      case Borrow(t) => IdleMove(s, t, Scanning(0));
      case Return(t, i) => ReturnKeepsInv(s, t, i);
      case Use(i, item) => UseKeepsInv(s, i, item);
    }
  }

  /** Return accepts every slice the pool has issued. */
  lemma {:induction false} ReturnKeepsInv<T>(s: Pool<T>, t: nat, i: nat)
    requires Inv(s) && t < |s.threads| && s.threads[t].Idle? && i in s.held
    ensures i < s.capacity && Inv(Step(s, Return(t, i)))
  {
    HeldIsExclusive(s, i);
    assert SlotOk(s, i);
    assert Wrap(s.size + 0) == s.size && s.slots[i := s.slots[i]] == s.slots;
    ShiftKeepsInv(s, t, Clearing(i), i, s.slots[i], s.held - multiset{i}, 0);
  }

  lemma {:induction false} UseKeepsInv<T>(s: Pool<T>, i: nat, item: T)
    requires Inv(s) && i in s.held
    ensures Inv(Step(s, Use(i, item)))
  {
    var next := Step(s, Use(i, item));
    HeldIsExclusive(s, i);
    assert SlotOk(s, i);
    SumByUpdate(LentCap<T>, s.slots, i, next.slots[i]);
    forall j | 0 <= j < |next.slots|
      ensures SlotOk(next, j)
    {
      assert SlotOk(s, j);
    }
    forall u | 0 <= u < |next.threads|
      ensures PhaseOk(next, next.threads[u])
    {
      assert PhaseOk(s, s.threads[u]) && Claim(i)(s.threads[u]) == 0;
    }
  }

  /** Every interleaving of borrows, returns and uses keeps the invariant. */
  lemma {:induction false} RunKeepsInv<T>(s: Pool<T>, run: seq<Action<T>>)
    requires Inv(s)
    ensures Inv(Exec(s, run)) && Exec(s, run).caps == s.caps && Exec(s, run).capacity == s.capacity
  {
    if run != [] {
      RunKeepsInv(s, run[..|run| - 1]);
      StepKeepsInv(Exec(s, run[..|run| - 1]), run[|run| - 1]);
      StepKeepsShape(Exec(s, run[..|run| - 1]), run[|run| - 1]);
    }
  }

  lemma {:induction false} StepKeepsShape<T>(s: Pool<T>, a: Action<T>)
    ensures Step(s, a).caps == s.caps && Step(s, a).capacity == s.capacity
  {
  }

  function Same(n: nat): int {
    n
  }

  /** Non-empty slices that fit the pool's buffer. */
  ghost predicate WellCut(capacity: nat, caps: seq<nat>) {
    && capacity < WORD && |caps| <= capacity && SumBy(Same, caps) <= capacity
    && forall i :: 0 <= i < |caps| ==> 0 < caps[i]
  }

  function Lengths(spans: seq<Span>): (r: seq<nat>)
    ensures |r| == |spans| && forall k :: 0 <= k < |r| ==> r[k] == spans[k].length
  {
    seq(|spans|, k requires 0 <= k < |spans| => spans[k].length)
  }

  lemma {:induction false} LengthsSum(spans: seq<Span>)
    ensures SumBy(Same, Lengths(spans)) == SumBy(Length, spans)
  {
    if spans != [] {
      LengthsSum(spans[..|spans| - 1]);
      assert Lengths(spans)[..|spans| - 1] == Lengths(spans[..|spans| - 1]);
    }
  }

  /** The slices the constructor cuts are such. */
  lemma {:induction false} TilesAreWellCut(spans: seq<Span>, capacity: nat)
    requires capacity < WORD && (spans == [] || Tiles(spans, capacity))
    ensures WellCut(capacity, Lengths(spans))
  {
    LengthsSum(spans);
    if spans != [] {
      SpansPartition(spans, capacity);
      forall i | 0 <= i < |spans|
        ensures 0 < Lengths(spans)[i]
      {
        assert Abuts(spans, i);
      }
    }
  }

  lemma {:induction false} FillSum<T>(slots: seq<Slot<T>>, caps: seq<nat>)
    requires |slots| == |caps| && forall i :: 0 <= i < |caps| ==> slots[i].ring.capacity == caps[i]
    ensures SumBy(Fill<T>, slots) == SumBy(Same, caps)
  {
    if slots != [] {
      FillSum(slots[..|slots| - 1], caps[..|caps| - 1]);
    }
  }

  lemma {:induction false} StartInv<T>(capacity: nat, caps: seq<nat>, threads: nat)
    requires WellCut(capacity, caps)
    ensures Inv(Start<T>(capacity, caps, threads))
  {
    var s := Start<T>(capacity, caps, threads);
    forall i | 0 <= i < |s.slots|
      ensures SlotOk(s, i)
    {
      SumByZero(Claim(i), s.threads);
    }
    SumByZero(LentCap<T>, s.slots);
    SumByZero(SubWeight(caps), s.threads);
    SumByZero(AddWeight(caps), s.threads);
  }

  /**
   * In every interleaving: a slice has at most one pointer out, a slice about to be
   * issued is empty and has none, every returned pointer is accepted, and the size
   * counter is the free capacity up to the updates still pending, modulo 2^64.
   */
  lemma {:induction false} PoolOverRuns<T>(capacity: nat, caps: seq<nat>, threads: nat, run: seq<Action<T>>)
    requires WellCut(capacity, caps)
    ensures var s := Exec(Start<T>(capacity, caps, threads), run);
            && s.lost == multiset{}
            && (forall i :: i in s.held ==> s.held[i] == 1 && i < |s.slots| && s.slots[i].borrowed)
            && (forall t :: 0 <= t < |s.threads| && s.threads[t].Subtracting? ==>
                  var i := s.threads[t].i; i < |s.slots| && i !in s.held && s.slots[i].ring.memory == [])
            && s.size == Wrap(SizeSpec(s))
  {
    var s := Exec(Start<T>(capacity, caps, threads), run);
    StartInv<T>(capacity, caps, threads);
    RunKeepsInv(Start<T>(capacity, caps, threads), run);
    forall i | i in s.held
      ensures s.held[i] == 1 && i < |s.slots| && s.slots[i].borrowed
    {
      HeldIsExclusive(s, i);
    }
    forall t | 0 <= t < |s.threads| && s.threads[t].Subtracting?
      ensures var i := s.threads[t].i; i < |s.slots| && i !in s.held && s.slots[i].ring.memory == []
    {
      assert PhaseOk(s, s.threads[t]);
      ClaimIsExclusive(s, t, s.threads[t].i);
    }
  }

  /** The capacity of the slices whose pointers are out, among the first n. */
  ghost function HeldCap(caps: seq<nat>, held: multiset<nat>, n: nat): int
    requires n <= |caps|
  {
    if n == 0 then 0 else HeldCap(caps, held, n - 1) + caps[n - 1] * held[n - 1]
  }

  /** The capacity a thread is about to give back. */
  function ReturnWeight(caps: seq<nat>): Phase -> int {
    (p: Phase) => if (p.Clearing? || p.Unflagging? || p.Adding?) && p.i < |caps| then caps[p.i] else 0
  }

  /** The capacity that callers hold or have not quite given back. */
  ghost function Busy<T>(s: Pool<T>): int {
    HeldCap(s.caps, s.held, |s.caps|) + SumBy(ReturnWeight(s.caps), s.threads)
  }

  /** The capacity of the slice a thread claims, if it is one of the first n. */
  function ClaimWeight(caps: seq<nat>, n: nat): Phase -> int {
    (p: Phase) => if (p.Subtracting? || p.Clearing? || p.Unflagging?) && p.i < n <= |caps| then caps[p.i] else 0
  }

  lemma {:induction false} SumByLinear<A>(w: A -> int, u: A -> int, c: int, v: A -> int, s: seq<A>)
    requires forall x :: w(x) == u(x) + c * v(x)
    ensures SumBy(w, s) == SumBy(u, s) + c * SumBy(v, s)
  {
    if s != [] {
      SumByLinear(w, u, c, v, s[..|s| - 1]);
      Distribute(c, SumBy(v, s[..|s| - 1]), v(s[|s| - 1]));
    }
  }

  lemma {:induction false} Distribute(c: int, a: int, b: int)
    ensures c * (a + b) == c * a + c * b
  {
  }

  /** Summed over slices or over owners, the lent capacity is the same. */
  lemma {:induction false} LentByOwners<T>(s: Pool<T>, n: nat)
    requires Inv(s) && n <= |s.slots|
    ensures SumBy(LentCap<T>, s.slots[..n]) == HeldCap(s.caps, s.held, n) + SumBy(ClaimWeight(s.caps, n), s.threads)
  {
    if n == 0 {
      SumByZero(ClaimWeight(s.caps, 0), s.threads);
    } else {
      LentByOwners(s, n - 1);
      assert SlotOk(s, n - 1);
      assert s.slots[..n][..n - 1] == s.slots[..n - 1];
      var cap := s.caps[n - 1];
      SumByLinear(ClaimWeight(s.caps, n), ClaimWeight(s.caps, n - 1), cap, Claim(n - 1), s.threads);
      Distribute(cap, s.held[n - 1], SumBy(Claim(n - 1), s.threads));
      assert LentCap(s.slots[n - 1]) == cap * Owners(s, n - 1);
    }
  }

  /** The size counter is what is neither held nor on its way back. */
  lemma {:induction false} SizeIsFree<T>(s: Pool<T>)
    requires Inv(s)
    ensures SizeSpec(s) == s.capacity - Busy(s) && s.size == Wrap(s.capacity - Busy(s))
  {
    var caps := s.caps;
    LentByOwners(s, |s.slots|);
    assert s.slots[..|s.slots|] == s.slots;
    var claims, subs, adds := ClaimWeight(caps, |caps|), SubWeight(caps), AddWeight(caps);
    SumByLinear(claims, (p: Phase) => ReturnWeight(caps)(p) - adds(p), 1, subs, s.threads);
    SumByLinear((p: Phase) => ReturnWeight(caps)(p) - adds(p), ReturnWeight(caps), -1, adds, s.threads);
  }

  /** When a counter of free places, kept modulo 2^64, shows at least the capacity. */
  lemma {:induction false} ReadsFull(capacity: nat, busy: nat)
    requires capacity < WORD
    ensures capacity <= Wrap(capacity - busy) <==> busy % WORD == 0 || capacity < busy % WORD
    ensures busy <= WORD ==> (capacity <= Wrap(capacity - busy) <==> busy == 0 || capacity < busy)
  {
    var q, r := busy / WORD, busy % WORD;
    WrapShift(capacity - busy, q);
    assert capacity - busy + q * WORD == capacity - r;
    if capacity < r {
      WrapShift(capacity - r, 1);
    }
  }

  lemma {:induction false} BusyBounds<T>(s: Pool<T>, n: nat)
    requires n <= |s.caps|
    ensures 0 <= HeldCap(s.caps, s.held, n) && 0 <= SumBy(ReturnWeight(s.caps), s.threads)
  {
    SumByNonNegative(ReturnWeight(s.caps), s.threads);
    if n != 0 {
      BusyBounds(s, n - 1);
    }
  }

  /**
   * What Full() reads in every interleaving: the pool reads as full exactly when nothing is held or
   * on its way back, or when more is than the pool has, both up to 2^64.
   */
  lemma {:induction false} FullOverRuns<T>(capacity: nat, caps: seq<nat>, threads: nat, run: seq<Action<T>>)
    requires WellCut(capacity, caps)
    ensures var s := Exec(Start<T>(capacity, caps, threads), run); s.capacity == capacity && FullReads(s)
  {
    StartInv<T>(capacity, caps, threads);
    RunKeepsInv(Start<T>(capacity, caps, threads), run);
    FullOfState(Exec(Start<T>(capacity, caps, threads), run));
  }

  /** The size is the capacity less what is busy, and reads as full when nothing is or more than there is, up to 2^64. */
  ghost predicate FullReads<T>(s: Pool<T>) {
    match s
    case Pool(capacity, _, _, size, _, _, _) =>
      && 0 <= Busy(s) && size == Wrap(capacity - Busy(s))
      && (capacity <= size <==> Busy(s) % WORD == 0 || capacity < Busy(s) % WORD)
      && (Busy(s) <= WORD ==> (capacity <= size <==> Busy(s) == 0 || capacity < Busy(s)))
  }

  lemma {:induction false} FullOfState<T>(s: Pool<T>)
    requires Inv(s) && s.capacity < WORD
    ensures FullReads(s)
  {
    SizeIsFree(s);
    BusyBounds(s, |s.caps|);
    ReadsFull(s.capacity, Busy(s));
  }

  /**
   * Whenever no call is in progress the size is exact, and the pool reads as full just
   * when no pointer is out.
   */
  lemma {:induction false} QuietPoolIsExact<T>(capacity: nat, caps: seq<nat>, threads: nat, run: seq<Action<T>>)
    requires WellCut(capacity, caps)
    requires var s := Exec(Start<T>(capacity, caps, threads), run);
             forall t :: 0 <= t < |s.threads| ==> s.threads[t].Idle?
    ensures var s := Exec(Start<T>(capacity, caps, threads), run);
            && s.size == capacity - SumBy(LentCap<T>, s.slots)
            && (capacity <= s.size <==> s.held == multiset{})
            && forall i :: 0 <= i < |s.slots| ==> (s.slots[i].borrowed <==> i in s.held)
  {
    StartInv<T>(capacity, caps, threads);
    RunKeepsInv(Start<T>(capacity, caps, threads), run);
    QuietStateIsExact(Exec(Start<T>(capacity, caps, threads), run));
  }

  /** With no call in progress only the slices held are busy, and they fit the pool. */
  lemma {:induction false} QuietBusy<T>(s: Pool<T>)
    requires Inv(s) && WellCut(s.capacity, s.caps)
    requires forall t :: 0 <= t < |s.threads| ==> s.threads[t].Idle?
    ensures Busy(s) == SumBy(LentCap<T>, s.slots) <= s.capacity
  {
    SumByZero(ReturnWeight(s.caps), s.threads);
    SumByZero(ClaimWeight(s.caps, |s.caps|), s.threads);
    LentByOwners(s, |s.slots|);
    assert s.slots[..|s.slots|] == s.slots;
    forall i | 0 <= i < |s.slots|
      ensures s.slots[i].ring.capacity == s.caps[i]
    {
      assert SlotOk(s, i);
    }
    FillSum(s.slots, s.caps);
    SumByBounds(LentCap<T>, Fill<T>, s.slots);
  }

  lemma {:induction false} QuietStateIsExact<T>(s: Pool<T>)
    requires Inv(s) && WellCut(s.capacity, s.caps)
    requires forall t :: 0 <= t < |s.threads| ==> s.threads[t].Idle?
    ensures s.size == s.capacity - SumBy(LentCap<T>, s.slots)
    ensures s.capacity <= s.size <==> s.held == multiset{}
    ensures forall i :: 0 <= i < |s.slots| ==> (s.slots[i].borrowed <==> i in s.held)
  {
    SizeIsFree(s);
    QuietBusy(s);
    BusyBounds(s, |s.caps|);
    ReadsFull(s.capacity, Busy(s));
    forall i | 0 <= i < |s.slots|
      ensures s.slots[i].borrowed <==> i in s.held
    {
      assert SlotOk(s, i);
      SumByZero(Claim(i), s.threads);
    }
    SumByNonNegative(LentCap<T>, s.slots);
    if s.held == multiset{} {
      SumByZero(LentCap<T>, s.slots);
    } else {
      var i :| i in s.held;
      assert s.slots[i].borrowed && SlotOk(s, i);
    }
  }

  /** A pool of one slice of one item and two threads. */
  function Tiny(lent: bool, size: nat, threads: seq<Phase>): Pool<int> {
    Pool(1, [1], [Slot(Empty(1), lent)], size, threads, if lent then multiset{0} else multiset{}, multiset{})
  }

  lemma {:induction false} TinyStart()
    ensures Exec(Start<int>(1, [1], 2), []) == Tiny(false, 1, [Idle, Idle])
  {
    assert Start<int>(1, [1], 2).slots == [Slot(Empty(1), false)];
  }

  lemma {:induction false} Play(s0: Pool<int>, run: seq<Action<int>>, s: Pool<int>, a: Action<int>, next: Pool<int>)
    returns (more: seq<Action<int>>)
    requires s == Exec(s0, run) && next == Step(s, a)
    ensures next == Exec(s0, more)
  {
    more := run + [a];
    assert more[..|run|] == run;
  }

  /** One thread borrows the slice without interruption. */
  lemma {:induction false} BorrowTiny(s0: Pool<int>, run0: seq<Action<int>>, t: nat, size: nat, after: nat, threads: seq<Phase>)
    returns (run: seq<Action<int>>)
    requires |threads| == 2 && t < 2 && threads[t].Idle? && after == Wrap(size - 1)
    requires Exec(s0, run0) == Tiny(false, size, threads)
    ensures Exec(s0, run) == Tiny(true, after, threads)
  {
    var a, b := Tiny(false, size, threads), Tiny(false, size, threads[t := Scanning(0)]);
    var c := b.(slots := [Slot(Empty(1), true)], threads := threads[t := Subtracting(0)]);
    TinyScans(t, size, threads);
    TinySubtracts(t, size, after, threads);
    run := Play(s0, run0, a, Borrow(t), b);
    run := Play(s0, run, b, Continue(t), c);
    run := Play(s0, run, c, Continue(t), Tiny(true, after, threads));
  }

  lemma {:induction false} TinyScans(t: nat, size: nat, threads: seq<Phase>)
    requires |threads| == 2 && t < 2 && threads[t].Idle?
    ensures var b := Tiny(false, size, threads[t := Scanning(0)]);
            && Step(Tiny(false, size, threads), Borrow(t)) == b
            && Step(b, Continue(t)) == b.(slots := [Slot(Empty(1), true)], threads := threads[t := Subtracting(0)])
  {
    var b := Tiny(false, size, threads[t := Scanning(0)]);
    assert b.threads[t := Subtracting(0)] == threads[t := Subtracting(0)];
    assert b.slots[0 := Slot(Empty(1), true)] == [Slot(Empty(1), true)];
  }

  lemma {:induction false} TinySubtracts(t: nat, size: nat, after: nat, threads: seq<Phase>)
    requires |threads| == 2 && t < 2 && threads[t].Idle? && after == Wrap(size - 1)
    ensures var c := Tiny(false, size, threads).(slots := [Slot(Empty(1), true)], threads := threads[t := Subtracting(0)]);
            Step(c, Continue(t)) == Tiny(true, after, threads)
  {
    assert threads[t := Subtracting(0)][t := Idle] == threads;
    assert multiset{} + multiset{0} == multiset{0};
  }

  /** A thread returns the slice but has not yet added its capacity back. */
  lemma {:induction false} ReturnTiny(s0: Pool<int>, run0: seq<Action<int>>) returns (run: seq<Action<int>>)
    requires Exec(s0, run0) == Tiny(true, 0, [Idle, Idle])
    ensures Exec(s0, run) == Tiny(false, 0, [Adding(0), Idle])
  {
    var a := Tiny(true, 0, [Idle, Idle]);
    var b := a.(threads := [Clearing(0), Idle], held := multiset{});
    var c := b.(threads := [Unflagging(0), Idle]);
    var d := Tiny(false, 0, [Adding(0), Idle]);
    assert Step(a, Return(0, 0)) == b;
    assert Step(b, Continue(0)) == c;
    assert Step(c, Continue(0)) == d;
    run := Play(s0, run0, a, Return(0, 0), b);
    run := Play(s0, run, b, Continue(0), c);
    run := Play(s0, run, c, Continue(0), d);
  }

  /** One thread has lowered the flag of the slice it returns and not yet added its capacity back. */
  lemma {:induction false} ReturnedNotAdded() returns (run: seq<Action<int>>)
    ensures Exec(Start<int>(1, [1], 2), run) == Tiny(false, 0, [Adding(0), Idle])
  {
    TinyStart();
    run := BorrowTiny(Start<int>(1, [1], 2), [], 0, 1, 0, [Idle, Idle]);
    run := ReturnTiny(Start<int>(1, [1], 2), run);
  }

  lemma {:induction false} TinyWrapped()
    ensures Wrap(0 - 1) == WORD - 1
  {
    WrapShift(-1, 1);
  }

  lemma {:induction false} LentAgain() returns (run: seq<Action<int>>)
    ensures Exec(Start<int>(1, [1], 2), run) == Tiny(true, WORD - 1, [Adding(0), Idle])
  {
    TinyWrapped();
    run := ReturnedNotAdded();
    run := BorrowTiny(Start<int>(1, [1], 2), run, 1, 0, WORD - 1, [Adding(0), Idle]);
  }

  /** The size can read as more than the capacity, and so the pool as full, while its only slice is out. */
  lemma {:induction false} FullWhileLent() returns (run: seq<Action<int>>)
    ensures var s := Exec(Start<int>(1, [1], 2), run);
            s.capacity <= s.size && s.size == WORD - 1 && s.held == multiset{0}
  {
    run := LentAgain();
    TinyIsFull(Exec(Start<int>(1, [1], 2), run));
  }

  lemma {:induction false} TinyIsFull(s: Pool<int>)
    requires s == Tiny(true, WORD - 1, [Adding(0), Idle])
    ensures s.capacity <= s.size && s.size == WORD - 1 && s.held == multiset{0}
  {
  }
}
