/** Facts about products and quotients that the other modules need one at a time. */
module Arithmetic {

  function Min(a: int, b: int): int { if a <= b then a else b }

  /** `std::llround`: to the nearest integer, halves away from zero. */
  function LlRound(x: real): (r: int)
    ensures -0.5 <= r as real - x <= 0.5
    ensures r as real - x == 0.5 ==> x >= 0.0
    ensures r as real - x == -0.5 ==> x <= 0.0
  {
    if x >= 0.0 then (x + 0.5).Floor else -((-x + 0.5).Floor)
  }

  /** To two decimals. */
  function Round2(v: real): (r: real)
    ensures -0.005 <= r - v <= 0.005 && (v >= 0.0 ==> r >= 0.0)
  {
    LlRound(v * 100.0) as real / 100.0
  }

  lemma FloorNonNegative(x: real, y: real)
    requires x >= 0.0 && y > 0.0
    ensures x / y >= 0.0
  {
  }

  lemma MulMono(a: real, b: real, c: real)
    requires a <= b && c >= 0.0
    ensures a * c <= b * c
  {
  }

  lemma CancelMul(a: real, b: real, c: real)
    requires a * c <= b * c && c > 0.0
    ensures a <= b
  {
    DivMul(a, c);
  }

  lemma DivMul(x: real, y: real)
    requires y != 0.0
    ensures (x / y) * y == x
  {
  }

  lemma ProductBetween(x: real, n: real, m: real, d: real, y: real)
    requires d > 0.0 && n <= x < m && y == x * d
    ensures n * d <= y < m * d
  {
    MulMono(n, x, d);
    assert (m - x) * d > 0.0;
  }

  lemma SquareOrder(x: real, y: real)
    requires x >= 0.0 && y >= 0.0 && x * x <= y * y
    ensures x <= y
  {
    assert y * y - x * x == (y - x) * (x + y);
    if x + y > 0.0 {
      CancelMul(0.0, y - x, x + y);
    }
  }

  lemma MulKeepsOrder(a: int, b: int, w: nat)
    requires a <= b
    ensures a * w <= b * w
  {
  }

  lemma MulStep(a: int, b: int, w: nat)
    requires a < b
    ensures a * w + w <= b * w
  {
    MulKeepsOrder(a + 1, b, w);
    assert (a + 1) * w == a * w + w;
  }
}
