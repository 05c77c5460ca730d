/** The few facts about products and quotients that the proofs need. */
module Arithmetic {

  lemma MulMonotone(a: int, b: int, c: int)
    requires a <= b && 0 <= c
    ensures a * c <= b * c
  {
    assert (b - a) * c >= 0;
  }

  /** The quotient is the one integer between its bounds. */
  lemma QuotientBounds(a: int, b: int)
    requires b > 0
    ensures (a / b) * b <= a < (a / b) * b + b
  {
  }

  lemma QuotientIs(a: int, b: int, q: int)
    requires b > 0 && q * b <= a < q * b + b
    ensures a / b == q
  {
    var d := a / b;
    QuotientBounds(a, b);
    if d < q {
      MulMonotone(d + 1, q, b);
    } else if d > q {
      MulMonotone(q + 1, d, b);
    }
  }

  lemma QuotientAtLeast(n: int, t: int, x: int)
    requires t > 0 && x * t <= n
    ensures x <= n / t
  {
    QuotientBounds(n, t);
    if n / t < x {
      MulMonotone(n / t + 1, x, t);
    }
  }

  lemma QuotientBelow(n: int, t: int, x: int)
    requires t > 0 && n < x * t
    ensures n / t < x
  {
    QuotientBounds(n, t);
    if x <= n / t {
      MulMonotone(x, n / t, t);
    }
  }

  lemma OneMore(n: int, d: int)
    requires d > 0
    ensures (n + d) / d == n / d + 1
  {
    QuotientBounds(n, d);
    QuotientIs(n + d, d, n / d + 1);
  }
}
