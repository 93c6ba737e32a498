// Division and remainder facts that the solver needs in small steps.

module Arith {
  lemma CancelFactor(x: int, y: int, d: nat)
    requires d > 0 && x * d < y * d
    ensures x < y
  {
  }

  lemma Scale(x: nat, y: nat, d: nat)
    requires x <= y
    ensures x * d <= y * d
  {
  }

  lemma DivisionIsUnique(a: nat, d: nat, q: nat, r: nat)
    requires r < d && a == q * d + r
    ensures a / d == q && a % d == r
  {
    var p := a / d;
    assert p * d <= a < p * d + d == (p + 1) * d;
    assert q * d <= a < q * d + d == (q + 1) * d;
    CancelFactor(p, q + 1, d);
    CancelFactor(q, p + 1, d);
  }

  lemma DivisionIsMonotone(a: nat, b: nat, d: nat)
    requires d > 0 && a <= b
    ensures a / d <= b / d
  {
    assert (a / d) * d <= a <= b < (b / d) * d + d == (b / d + 1) * d;
    CancelFactor(a / d, b / d + 1, d);
  }

  // Block i of width d, for i below n, ends within n blocks.
  lemma BlockFits(i: nat, n: nat, d: nat)
    requires i < n
    ensures i * d + d <= n * d
  {
    Scale(i + 1, n, d);
  }

  lemma QuotientIsSmall(a: nat, d: nat)
    requires d > 0
    ensures a / d <= a
  {
    Scale(1, d, a / d);
    assert (a / d) * d <= a;
  }
}
