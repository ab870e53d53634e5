/** Quotients of natural numbers. */
module Arithmetic {
  lemma QuotientBounds(x: nat, f: nat)
    requires f > 0
    ensures x / f * f <= x < x / f * f + f
  {
  }

  lemma MoreTimes(a: nat, b: nat, f: nat)
    requires a >= b
    ensures a * f >= b * f
  {
  }

  lemma QuotientIs(y: nat, c: nat, q: nat)
    requires c > 0 && q * c <= y < q * c + c
    ensures y / c == q
  {
    QuotientBounds(y, c);
    if y / c > q {
      MoreTimes(y / c, q + 1, c);
      assert false;
    }
    if y / c < q {
      MoreTimes(q, y / c + 1, c);
      assert false;
    }
  }

  lemma DivisionIs(x: nat, n: nat, q: nat, r: nat)
    requires n > 0 && r < n && x == q * n + r
    ensures x / n == q && x % n == r
  {
    QuotientIs(x, n, q);
  }
}
