/** Options, sums and suffixes shared by the models of the runtime. */
module Common {

  datatype Option<+T> = None | Some(value: T)

  /** A result as the source's util::result::Result, with its error kept. */
  datatype Result<+T, +E> = Ok(value: T) | Err(error: E)

  /** The newest `n` items of `s`, all of them when there are no more than `n`. */
  function Newest<T>(s: seq<T>, n: nat): seq<T> {
    if |s| <= n then s else s[|s| - n..]
  }

  /** Dropping old items early does not change which items are the newest. */
  lemma NewestAgain<T>(s: seq<T>, more: seq<T>, n: nat, m: nat)
    requires m <= n + |more|
    ensures Newest(Newest(s, n) + more, m) == Newest(s + more, m)
  {
    var a, b := Newest(s, n) + more, s + more;
    assert |s| <= n || a == b[|s| - n..];
  }

  function Concat<T>(parts: seq<seq<T>>): seq<T> {
    if parts == [] then [] else Concat(parts[..|parts| - 1]) + parts[|parts| - 1]
  }

  lemma {:induction false} ConcatPush<T>(parts: seq<seq<T>>, part: seq<T>)
    ensures Concat(parts + [part]) == Concat(parts) + part
  {
    assert (parts + [part])[..|parts|] == parts;
  }

  lemma {:induction false} Regrouped<T>(a: seq<T>, b: seq<T>, c: seq<T>)
    ensures a + b + c == a + (b + c)
  {
  }

  /** The sum of `weight` over the elements of `s`. */
  function SumBy<A>(weight: A -> int, s: seq<A>): int {
    if s == [] then 0 else SumBy(weight, s[..|s| - 1]) + weight(s[|s| - 1])
  }

  lemma {:induction false} SumByAppend<A>(weight: A -> int, a: seq<A>, b: seq<A>)
    ensures SumBy(weight, a + b) == SumBy(weight, a) + SumBy(weight, b)
    decreases |b|
  {
    if b == [] {
      assert a + b == a;
    } else {
      var n := |b| - 1;
      assert (a + b)[..|a + b| - 1] == a + b[..n];
      SumByAppend(weight, a, b[..n]);
    }
  }

  lemma SumBySingle<A>(weight: A -> int, x: A)
    ensures SumBy(weight, [x]) == weight(x)
  {
    assert [x][..0] == [];
  }

  lemma {:induction false} SumByPush<A>(weight: A -> int, s: seq<A>, x: A)
    ensures SumBy(weight, s + [x]) == SumBy(weight, s) + weight(x)
  {
    assert (s + [x])[..|s|] == s;
  }

  lemma {:induction false} SumBySplit<A>(weight: A -> int, s: seq<A>, k: nat)
    requires k < |s|
    ensures SumBy(weight, s) == SumBy(weight, s[..k]) + weight(s[k]) + SumBy(weight, s[k + 1..])
  {
    assert s == s[..k] + ([s[k]] + s[k + 1..]);
    SumByAppend(weight, s[..k], [s[k]] + s[k + 1..]);
    SumByAppend(weight, [s[k]], s[k + 1..]);
    SumBySingle(weight, s[k]);
  }

  lemma SumByUpdate<A>(weight: A -> int, s: seq<A>, k: nat, x: A)
    requires k < |s|
    ensures SumBy(weight, s[k := x]) == SumBy(weight, s) - weight(s[k]) + weight(x)
  {
    var t := s[k := x];
    SumBySplit(weight, s, k);
    SumBySplit(weight, t, k);
    assert t[..k] == s[..k] && t[k + 1..] == s[k + 1..];
  }

  lemma SumByRemove<A>(weight: A -> int, s: seq<A>, k: nat)
    requires k < |s|
    ensures SumBy(weight, s[..k] + s[k + 1..]) == SumBy(weight, s) - weight(s[k])
  {
    SumBySplit(weight, s, k);
    SumByAppend(weight, s[..k], s[k + 1..]);
  }

  lemma {:induction false} SumByBounds<A>(low: A -> int, high: A -> int, s: seq<A>)
    requires forall k :: 0 <= k < |s| ==> low(s[k]) <= high(s[k])
    ensures SumBy(low, s) <= SumBy(high, s)
  {
    if s != [] {
      SumByBounds(low, high, s[..|s| - 1]);
    }
  }

  lemma {:induction false} SumByZero<A>(weight: A -> int, s: seq<A>)
    requires forall k :: 0 <= k < |s| ==> weight(s[k]) == 0
    ensures SumBy(weight, s) == 0
  {
    if s != [] {
      SumByZero(weight, s[..|s| - 1]);
    }
  }

  lemma {:induction false} SumByNonNegative<A>(weight: A -> int, s: seq<A>)
    requires forall k :: 0 <= k < |s| ==> 0 <= weight(s[k])
    ensures 0 <= SumBy(weight, s)
    ensures forall k :: 0 <= k < |s| ==> weight(s[k]) <= SumBy(weight, s)
  {
    if s != [] {
      SumByNonNegative(weight, s[..|s| - 1]);
      forall k | 0 <= k < |s|
        ensures weight(s[k]) <= SumBy(weight, s)
      {
        if k < |s| - 1 {
          assert s[..|s| - 1][k] == s[k];
        }
      }
    }
  }
}

/** Unsigned 64-bit arithmetic of `std::size_t` and `std::atomic_size_t`. */
module Words {
  const WORD: int := 0x1_0000_0000_0000_0000

  /** The value a 64-bit unsigned word keeps of `x`. */
  function Wrap(x: int): (w: nat)
    ensures w < WORD
    ensures 0 <= x < WORD ==> w == x
  {
    x % WORD
  }

  lemma WrapAdd(x: int, y: int)
    ensures Wrap(Wrap(x) + y) == Wrap(x + y)
  {
    var q := x / WORD;
    assert x == q * WORD + Wrap(x);
    WrapShift(Wrap(x) + y, q);
  }

  lemma WrapShift(x: int, q: int)
    ensures Wrap(x + q * WORD) == Wrap(x)
  {
  }

  /** A narrowing cast to a signed 32-bit integer. */
  function ToInt32(x: nat): (r: int)
    ensures -0x8000_0000 <= r < 0x8000_0000
    ensures x < 0x8000_0000 ==> r == x
    ensures (x - r) % 0x1_0000_0000 == 0
  {
    (x + 0x8000_0000) % 0x1_0000_0000 - 0x8000_0000
  }
}
