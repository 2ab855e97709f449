/**
 * The pool that allocates slices on demand (dynamic_buffer_slice_pool.h) as a step
 * machine: a bounded compare-and-swap loop that may fail spuriously, against returns by
 * other threads.
 */
module DynamicPool {
  import opened Common
  import opened Words

  datatype Options = Options(maxSlice: nat, capacity: nat, attempts: nat)

  datatype Phase =
    | Idle
    | Trying(attempt: nat, preferred: nat)                   // about to load `borrowed_items_size_`
    | Loaded(attempt: nat, preferred: nat, observed: nat)    // about to compare and swap

  datatype Pool = Pool(borrowed: nat, issued: seq<nat>, threads: seq<Phase>)

  datatype Action =
    | Borrow(t: nat, preferred: nat)
    | Load(t: nat)
    | Swap(t: nat, spurious: bool)
    | Return(k: nat)

  function Min(a: nat, b: nat): nat {
    if a <= b then a else b
  }

  /** The capacity of the slice to allocate, in 64-bit arithmetic. */
  function SliceSize(o: Options, preferred: nat, observed: nat): nat {
    Min(Min(preferred, o.maxSlice), Min(o.capacity, Wrap(o.capacity - observed)))
  }

  function Start(threads: nat): Pool {
    Pool(0, [], seq(threads, _ => Idle))
  }

  function Without(s: seq<nat>, k: nat): seq<nat>
    requires k < |s|
  {
    s[..k] + s[k + 1..]
  }

  function Size(n: nat): int {
    n
  }

  function Step(o: Options, s: Pool, a: Action): Pool {
    match a
    case Borrow(t, preferred) =>
      if t < |s.threads| && s.threads[t].Idle? && 0 < o.attempts
      then s.(threads := s.threads[t := Trying(0, preferred)]) else s
    case Load(t) =>
      if t < |s.threads| && s.threads[t].Trying?
      then s.(threads := s.threads[t := Loaded(s.threads[t].attempt, s.threads[t].preferred, s.borrowed)]) else s
    case Swap(t, spurious) =>
      if t < |s.threads| && s.threads[t].Loaded? then
        var Loaded(attempt, preferred, observed) := s.threads[t];
        var size := SliceSize(o, preferred, observed);
        if s.borrowed == observed && !spurious then
          Pool(Wrap(observed + size), if size < 1 then s.issued else s.issued + [size], s.threads[t := Idle])
        else
          s.(threads := s.threads[t := if attempt + 1 < o.attempts then Trying(attempt + 1, preferred) else Idle])
      else s
    case Return(k) =>
      if k < |s.issued| then s.(borrowed := Wrap(s.borrowed - s.issued[k]), issued := Without(s.issued, k)) else s
  }

  ghost function Exec(o: Options, s: Pool, run: seq<Action>): Pool {
    if run == [] then s else Step(o, Exec(o, s, run[..|run| - 1]), run[|run| - 1])
  }

  ghost predicate Inv(o: Options, s: Pool) {
    match s
    case Pool(borrowed, issued, threads) =>
      && borrowed == SumBy(Size, issued) <= o.capacity < WORD
      && (forall k :: 0 <= k < |issued| ==> 0 < issued[k] <= o.maxSlice)
      && (forall t :: 0 <= t < |threads| && threads[t].Loaded? ==> threads[t].observed <= o.capacity)
      && (forall t :: 0 <= t < |threads| && !threads[t].Idle? ==> threads[t].attempt < o.attempts)
  }

  /** However stale the value a thread read, neither the subtraction nor the addition wraps around. */
  lemma {:induction false} NoWrapAround(o: Options, preferred: nat, observed: nat)
    requires observed <= o.capacity < WORD
    ensures var size := SliceSize(o, preferred, observed);
            && Wrap(o.capacity - observed) == o.capacity - observed
            && Wrap(observed + size) == observed + size <= o.capacity
            && size <= preferred && size <= o.maxSlice && observed + size <= o.capacity
            && (size == preferred || size == o.maxSlice || observed + size == o.capacity)
  {
  }

  lemma {:induction false} SwapKeepsInv(o: Options, s: Pool, t: nat, spurious: bool)
    requires Inv(o, s) && t < |s.threads| && s.threads[t].Loaded?
    ensures Inv(o, Step(o, s, Swap(t, spurious)))
  {
    var p := s.threads[t];
    var size := SliceSize(o, p.preferred, p.observed);
    NoWrapAround(o, p.preferred, p.observed);
    SumByPush(Size, s.issued, size);
  }

  lemma {:induction false} ReturnKeepsInv(o: Options, s: Pool, k: nat)
    requires Inv(o, s) && k < |s.issued|
    ensures Inv(o, Step(o, s, Return(k)))
  {
    SumByNonNegative(Size, s.issued);
    SumByRemove(Size, s.issued, k);
  }

  lemma {:induction false} StepKeepsInv(o: Options, s: Pool, a: Action)
    requires Inv(o, s)
    ensures Inv(o, Step(o, s, a))
  {
    match a
    case Swap(t, spurious) =>
      if t < |s.threads| && s.threads[t].Loaded? {
        SwapKeepsInv(o, s, t, spurious);
      }
    case Return(k) =>
      if k < |s.issued| {
        ReturnKeepsInv(o, s, k);
      }
    case _ =>
  }

  lemma {:induction false} RunKeepsInv(o: Options, s: Pool, run: seq<Action>)
    requires Inv(o, s)
    ensures Inv(o, Exec(o, s, run))
  {
    if run != [] {
      RunKeepsInv(o, s, run[..|run| - 1]);
      StepKeepsInv(o, Exec(o, s, run[..|run| - 1]), run[|run| - 1]);
    }
  }

  /**
   * In every interleaving, at any capacity below 2^64: the counter is the total capacity
   * of the slices issued and not returned, which never exceeds the pool's; and the pool
   * reads as full just when every slice is back.
   */
  lemma {:induction false} PoolOverRuns(o: Options, threads: nat, run: seq<Action>)
    requires o.capacity < WORD
    ensures var s := Exec(o, Start(threads), run);
            && s.borrowed == SumBy(Size, s.issued) <= o.capacity
            && Wrap(o.capacity - s.borrowed) == o.capacity - SumBy(Size, s.issued)
            && (o.capacity <= Wrap(o.capacity - s.borrowed) <==> s.issued == [])
  {
    RunKeepsInv(o, Start(threads), run);
    StateIsExact(o, Exec(o, Start(threads), run));
  }

  lemma {:induction false} StateIsExact(o: Options, s: Pool)
    requires Inv(o, s)
    ensures s.borrowed == SumBy(Size, s.issued) <= o.capacity
    ensures Wrap(o.capacity - s.borrowed) == o.capacity - SumBy(Size, s.issued)
    ensures o.capacity <= Wrap(o.capacity - s.borrowed) <==> s.issued == []
  {
    if s.issued != [] {
      SumByNonNegative(Size, s.issued);
      assert Size(s.issued[0]) <= SumBy(Size, s.issued);
    }
  }
}
