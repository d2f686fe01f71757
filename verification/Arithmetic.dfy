/** Division facts used wherever an index is split into digits or pages. */
module Arithmetic {

  function Min(a: int, b: int): int {
    if a < b then a else b
  }

  function Max(a: int, b: int): int {
    if a < b then b else a
  }

  function Pow2(n: nat): (p: nat)
    ensures p > 0
  {
    if n == 0 then 1 else 2 * Pow2(n - 1)
  }

  function DivRoundUp(n: nat, d: nat): nat
    requires d > 0
  {
    (n + d - 1) / d
  }

  /** Multiplication by a number that is not negative is monotonic. */
  lemma MulMono(a: int, b: int, d: int)
    requires a <= b && d >= 0
    ensures a * d <= b * d
  {
    assert (b - a) * d >= 0;
  }

  /** A quotient and remainder that fit are the only ones. */
  lemma DivModUnique(a: int, d: int, q: int, r: int)
    requires d > 0
    requires a == q * d + r && 0 <= r < d
    ensures a / d == q && a % d == r
  {
    var t := a / d;
    assert t * d <= a < t * d + d;
    assert (q + 1) * d == q * d + d && (t + 1) * d == t * d + d;
    if t > q {
      MulMono(q + 1, t, d);
    } else if t < q {
      MulMono(t + 1, q, d);
    }
  }
}
