/** The few facts about products and quotients that the proofs lean on. */
module Arithmetic {
  lemma MulLe(a: nat, b: nat, c: nat)
    requires a <= b
    ensures 0 <= a * c <= b * c
  {
  }

  lemma MulNonNegative(a: nat, b: nat)
    ensures a * b >= 0
  {
  }

  lemma Spread(a: int, b: int, c: int)
    ensures (a + b) * c == a * c + b * c && c * (a + b) == c * a + c * b
  {
  }

  lemma Distribute(k: int, x: int, p: int, v: int)
    ensures k * (x + p * v) == k * x + (k * p) * v
  {
  }

  lemma DivBounds(x: nat, n: nat)
    requires n > 0
    ensures x / n >= 0 && (x / n) * n <= x < (x / n) * n + n
    ensures x == n * (x / n) + x % n
  {
  }

  lemma DivAtMost(x: nat, n: nat)
    requires n > 0
    ensures 0 <= x / n <= x
  {
    DivBounds(x, n);
    MulLe(1, n, x / n);
  }

  lemma DivAtLeast(x: nat, a: nat, q: nat)
    requires a > 0 && q * a <= x
    ensures q <= x / a
  {
    DivBounds(x, a);
    if x / a < q {
      MulLe(x / a + 1, q, a);
    }
  }

  /** The quotient is the only number that fits. */
  lemma QuotientIs(x: nat, n: nat, q: nat)
    requires n > 0 && n * q <= x < n * (q + 1)
    ensures x / n == q
  {
    DivBounds(x, n);
    DivAtLeast(x, n, q);
    var d: nat := x / n;
    MulLe(if q + 1 < d then q + 1 else d, d, n);
  }

  lemma TwiceTimes(d: int, h: int)
    ensures (2 * d) * h == d * (2 * h)
  {
  }

  /** Halving after dividing is dividing by twice as much. */
  lemma HalvesAgain(x: nat, d: nat)
    requires d > 0
    ensures x / (2 * d) == x / d / 2
  {
    var q: nat := x / d;
    var half: nat := q / 2;
    DivBounds(x, d);
    TwiceTimes(d, half);
    TwiceTimes(d, half + 1);
    MulLe(2 * half, q, d);
    MulLe(q + 1, 2 * (half + 1), d);
    Spread(q, 1, d);
    QuotientIs(x, 2 * d, half);
  }

  lemma Associate(a: int, b: int, c: int)
    ensures (a * b) * c == a * (b * c)
  {
  }

  /** Dividing twice is dividing by the product. */
  lemma DivTwice(x: nat, a: nat, b: nat)
    requires a > 0 && b > 0
    ensures a * b > 0 && x / (a * b) == x / a / b
  {
    var q: nat := x / a;
    var r: nat := q / b;
    DivBounds(x, a);
    DivBounds(q, b);
    Associate(a, b, r);
    Associate(a, b, r + 1);
    Spread(r, 1, b);
    MulLe(b * r, q, a);
    MulLe(q + 1, b * (r + 1), a);
    Spread(q, 1, a);
    MulLe(1, b, a);
    QuotientIs(x, a * b, r);
  }
}
