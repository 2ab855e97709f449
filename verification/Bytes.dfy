/** Integers in memory: a fixed number of bytes in the host's order, two's complement when signed. */
module Bytes {
  newtype Byte = x: int | 0 <= x < 256

  datatype Endian = Little | Big

  function Other(e: Endian): Endian {
    if e == Little then Big else Little
  }

  function Pow256(w: nat): (r: nat)
    ensures 0 < r
  {
    if w == 0 then 1 else 256 * Pow256(w - 1)
  }

  function Reverse(b: seq<Byte>): (r: seq<Byte>)
    ensures |r| == |b|
    ensures forall k :: 0 <= k < |b| ==> r[k] == b[|b| - 1 - k]
  {
    seq(|b|, k requires 0 <= k < |b| => b[|b| - 1 - k])
  }

  lemma {:induction false} ReverseTwice(b: seq<Byte>)
    ensures Reverse(Reverse(b)) == b
  {
    var r := Reverse(b);
    assert forall k :: 0 <= k < |b| ==> Reverse(r)[k] == r[|b| - 1 - k];
  }

  /** The `w` low bytes of `x`, least significant first. */
  function Digits(x: int, w: nat): (b: seq<Byte>)
    ensures |b| == w
    decreases w
  {
    if w == 0 then [] else [(x % 256) as Byte] + Digits(x / 256, w - 1)
  }

  function Number(b: seq<Byte>): (n: nat) {
    if b == [] then 0 else b[0] as nat + 256 * Number(b[1..])
  }

  lemma {:induction false} NumberBound(b: seq<Byte>)
    ensures Number(b) < Pow256(|b|)
  {
    if b != [] {
      NumberBound(b[1..]);
    }
  }

  lemma {:induction false} DigitsOfNumber(b: seq<Byte>)
    ensures Digits(Number(b), |b|) == b
  {
    if b != [] {
      DigitsOfNumber(b[1..]);
      assert Number(b) / 256 == Number(b[1..]) && Number(b) % 256 == b[0] as int;
    }
  }

  lemma {:induction false} NumberOfDigits(x: int, w: nat)
    requires 0 <= x < Pow256(w)
    ensures Number(Digits(x, w)) == x
  {
    if w != 0 {
      NumberOfDigits(x / 256, w - 1);
      assert Digits(x, w)[1..] == Digits(x / 256, w - 1);
    }
  }

  /** A value of `w` bytes in memory, and the value read from memory. */
  function Store(e: Endian, x: int, w: nat): (b: seq<Byte>)
    ensures |b| == w
  {
    if e == Little then Digits(x, w) else Reverse(Digits(x, w))
  }

  function Load(e: Endian, b: seq<Byte>): (n: nat)
    ensures n < Pow256(|b|)
  {
    NumberBound(b);
    NumberBound(Reverse(b));
    if e == Little then Number(b) else Number(Reverse(b))
  }

  /** Reversal of the bytes of a `w`-byte word. */
  function Swap(x: int, w: nat): (n: nat)
    ensures n < Pow256(w)
  {
    NumberBound(Reverse(Digits(x, w)));
    Number(Reverse(Digits(x, w)))
  }

  /** Conversions between the signed and unsigned types of `w` bytes. */
  function Unsigned(x: int, w: nat): int {
    if x < 0 then x + Pow256(w) else x
  }

  function Signed(x: int, w: nat): int {
    if Pow256(w) <= 2 * x then x - Pow256(w) else x
  }

  lemma {:induction false} LoadStore(e: Endian, x: int, w: nat)
    requires 0 <= x < Pow256(w)
    ensures Load(e, Store(e, x, w)) == x
  {
    NumberOfDigits(x, w);
    ReverseTwice(Digits(x, w));
  }

  /** Each byte of a stored value: the least significant first on a little-endian host, last on a big-endian one. */
  lemma {:induction false} StoredByte(e: Endian, x: int, w: nat, k: nat)
    requires k < w
    ensures Store(e, x, w)[k] as int == x / Pow256(if e == Little then k else w - 1 - k) % 256
  {
    DigitAt(x, w, if e == Little then k else w - 1 - k);
  }

  lemma {:induction false} DigitAt(x: int, w: nat, k: nat)
    requires k < w
    ensures Digits(x, w)[k] as int == x / Pow256(k) % 256
    decreases k
  {
    if k != 0 {
      DigitAt(x / 256, w - 1, k - 1);
      DivideTwice(x, Pow256(k - 1));
    }
  }

  /** Two's complement: a negative value is stored as the unsigned word of the same bits. */
  lemma {:induction false} StoreUnsigned(e: Endian, x: int, w: nat)
    ensures Store(e, Unsigned(x, w), w) == Store(e, x, w)
  {
    var u := Unsigned(x, w);
    if x < 0 {
      DigitsWrap(x, w);
    }
    assert Digits(u, w) == Digits(x, w);
  }

  lemma {:induction false} DigitsWrap(x: int, w: nat)
    ensures Digits(x + Pow256(w), w) == Digits(x, w)
    decreases w
  {
    if w != 0 {
      DigitsWrap(x / 256, w - 1);
      assert (x + Pow256(w)) / 256 == x / 256 + Pow256(w - 1);
    }
  }

  lemma {:induction false} DivideTwice(x: int, b: int)
    requires 0 < b
    ensures x / 256 / b == x / (256 * b)
  {
    var q, r := x / 256, x % 256;
    var s, t := q / b, q % b;
    assert q == b * s + t;
    Regroup(s, b);
    Quotient(x, 256 * b, s, 256 * t + r);
  }

  lemma {:induction false} Quotient(x: int, d: int, q: int, r: int)
    requires 0 <= r < d && x == q * d + r
    ensures x / d == q
  {
    var z := x / d - q;
    assert z * d == x / d * d - q * d;
    assert -d < z * d < d;
    if z != 0 {
      NotBetween(z, d);
    }
  }

  lemma {:induction false} NotBetween(z: int, d: int)
    requires z != 0 && 0 < d
    ensures z * d <= -d || d <= z * d
  {
  }

  /** Memory read on a host of the other byte order is read swapped. */
  lemma {:induction false} SwapLoaded(e: Endian, b: seq<Byte>)
    ensures Swap(Load(e, b), |b|) == Load(Other(e), b)
  {
    ReverseTwice(b);
    DigitsOfNumber(b);
    DigitsOfNumber(Reverse(b));
  }

  /** Memory written on a host of the other byte order is read swapped; swapping again gives the value. */
  lemma {:induction false} LoadForeign(e: Endian, x: int, w: nat)
    requires 0 <= x < Pow256(w)
    ensures Load(Other(e), Store(e, x, w)) == Swap(x, w)
    ensures Swap(Swap(x, w), w) == x
  {
    var d := Digits(x, w);
    NumberOfDigits(x, w);
    ReverseTwice(d);
    DigitsOfNumber(Reverse(d));
  }

  lemma {:induction false} DigitsOfZero(w: nat)
    ensures Digits(0, w) == seq(w, k => 0 as Byte)
  {
    if w != 0 {
      DigitsOfZero(w - 1);
    }
  }

  /** Low bytes that are all zero make a multiple of the power they span. */
  lemma {:induction false} LowZeros(b: seq<Byte>, z: nat) returns (high: nat)
    requires z <= |b| && forall k :: 0 <= k < z ==> b[k] == 0
    ensures Number(b) == high * Pow256(z)
  {
    if z == 0 {
      high := Number(b);
    } else {
      high := LowZeros(b[1..], z - 1);
      Regroup(high, Pow256(z - 1));
    }
  }

  lemma {:induction false} Regroup(a: int, b: int)
    ensures 256 * (a * b) == a * (256 * b)
  {
  }

  lemma {:induction false} HighZero(x: int, w: nat, n: nat, k: nat)
    requires 0 <= x < Pow256(w) && w <= k < n
    ensures Digits(x, n)[k] == 0
    decreases w
  {
    if w == 0 {
      DigitsOfZero(n);
    } else {
      HighZero(x / 256, w - 1, n - 1, k - 1);
    }
  }

  /** A swap of twice the width moves the whole value into the upper half. */
  lemma {:induction false} WideSwap(x: int, w: nat) returns (high: nat)
    requires 0 <= x < Pow256(w)
    ensures Swap(x, 2 * w) == high * Pow256(w)
  {
    var d := Digits(x, 2 * w);
    var b := Reverse(d);
    forall k | 0 <= k < w
      ensures b[k] == 0
    {
      HighZero(x, w, 2 * w, 2 * w - 1 - k);
    }
    high := LowZeros(b, w);
  }
}
