/** Integer arithmetic and numeric conversions as the C# renderer performs them,
    written out over Dafny's unbounded `int` and `real`.

    C# `int / int` truncates toward zero while Dafny's `/` is Euclidean, and a
    C# `(int)` cast of a floating-point value truncates toward zero while Dafny's
    `.Floor` rounds down; the two only agree on non-negative operands. */
module Numerics {

  const Int32Min: int := -0x8000_0000
  const Int32Max: int := 0x7FFF_FFFF

  /** The number of distinct 32-bit patterns. */
  const Word: int := 0x1_0000_0000

  /** The range of a C# `Int32`. */
  predicate IsInt32(v: int) {
    Int32Min <= v <= Int32Max
  }

  /** How many times `Wrap32` adds or removes `Word` to bring `v` into range. */
  function WrapCount(v: int): int {
    (v - Int32Min) / Word
  }

  /** Unchecked C# `Int32` arithmetic: the result of an operation is its exact
      value brought into the `Int32` range modulo 2^32 (two's complement wrap-around). */
  function Wrap32(v: int): (r: int)
    ensures IsInt32(r)
    ensures v == r + Word * WrapCount(v)
    ensures IsInt32(v) ==> r == v
  {
    v - Word * WrapCount(v)
  }

  /** Values that differ by a multiple of 2^32 wrap to the same `Int32`, so a chain of
      wrapped operations equals one wrap of the exact result. */
  lemma WrapShift(v: int, k: int)
    ensures Wrap32(v + Word * k) == Wrap32(v)
  {
    var x := v - Int32Min;
    var q, r := x / Word, x % Word;
    assert x + Word * k == Word * (q + k) + r;
    assert (x + Word * k) / Word == q + k;
  }

  function Abs(v: int): (r: int)
    ensures r >= 0
  {
    if v < 0 then -v else v
  }

  function Min(a: int, b: int): int {
    if a <= b then a else b
  }

  function RealAbs(v: real): real {
    if v < 0.0 then -v else v
  }

  function RealMin(a: real, b: real): real {
    if a <= b then a else b
  }

  /** C# `a / b` on integers: the quotient truncated toward zero. */
  function Quot(a: int, b: int): (q: int)
    requires b != 0
    ensures a >= 0 ==> 0 <= a - q * b < Abs(b)
    ensures a < 0 ==> -Abs(b) < a - q * b <= 0
  {
    var n, d := Abs(a), Abs(b);
    var q0 := n / d;
    DivisionOfNatural(n, d);
    if (a >= 0) == (b > 0) then
      assert a - q0 * b == (if a >= 0 then n - q0 * d else -(n - q0 * d));
      q0
    else
      assert a - (-q0) * b == (if a >= 0 then n - q0 * d else -(n - q0 * d));
      -q0
  }

  lemma DivisionOfNatural(n: int, d: int)
    requires n >= 0 && d > 0
    ensures 0 <= n - (n / d) * d < d
  {
  }

  /** C# `a % b` on integers: the remainder takes the sign of the dividend. */
  function Rem(a: int, b: int): (r: int)
    requires b != 0
    ensures a == Quot(a, b) * b + r
    ensures a >= 0 ==> 0 <= r < Abs(b)
    ensures a < 0 ==> -Abs(b) < r <= 0
  {
    a - Quot(a, b) * b
  }

  /** C# `(int)v` for a value `v` inside the `Int32` range: truncation toward zero. */
  function Trunc(v: real): (t: int)
    ensures v >= 0.0 ==> 0 <= t && t as real <= v < t as real + 1.0
    ensures v < 0.0 ==> t <= 0 && t as real - 1.0 < v <= t as real
  {
    if v >= 0.0 then v.Floor else -((-v).Floor)
  }

  /** In C# `-n / 2` is `-(n / 2)` for every `n`; the Euclidean `(-n) / 2` of Dafny is one
      smaller when `n` is odd, so the two must not be confused. */
  lemma NegatedHalf(n: int)
    requires n >= 0
    ensures Quot(-n, 2) == -(n / 2)
    ensures n % 2 == 1 ==> (-n) / 2 == Quot(-n, 2) - 1
  {
  }

  /** A real whose product with a positive factor is non-negative is itself non-negative. */
  lemma RealNonNegFactor(w: real, e: real)
    requires w > 0.0 && w * e >= 0.0
    ensures e >= 0.0
  {
  }

  /** The product of two non-negative reals is non-negative. */
  lemma RealNonNegProduct(a: real, b: real)
    requires a >= 0.0 && b >= 0.0
    ensures a * b >= 0.0
  {
  }

  /** Real division undone by multiplication. */
  lemma QuotientTimesDivisor(c: real, k: real)
    requires k > 0.0
    ensures (c / k) * k == c
  {
  }
}
