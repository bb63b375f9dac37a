/** Multiplication and division facts the solver does not find on its own. */
module Arith {

  lemma MulMonotone(a: nat, b: nat, m: nat)
    requires a <= b
    ensures a * m <= b * m
  {
  }

  /** Division with remainder, as named parts. */
  lemma Split(a: nat, m: nat) returns (q: nat, r: nat)
    requires m > 0
    ensures a == q * m + r && r == a % m && q == a / m && r < m
  {
    q, r := a / m, a % m;
  }

  lemma Quotient(x: nat, m: nat, q: nat)
    requires m > 0 && q * m <= x < (q + 1) * m
    ensures x / m == q
  {
    var k, r := Split(x, m);
    if k < q {
      MulMonotone(k + 1, q, m);
    } else if k > q {
      MulMonotone(q + 1, k, m);
    }
  }

  lemma Remainder(x: nat, m: nat, q: nat, r: nat)
    requires m > 0 && r < m && x == q * m + r
    ensures x % m == r && x / m == q
  {
    assert (q + 1) * m == q * m + m;
    Quotient(x, m, q);
    var k, rest := Split(x, m);
  }
}
