/** The few facts about multiplication and division the other modules need. */
module Arith {
  lemma {:induction false} MulSteps(d: int, n: nat)
    ensures d >= 1 ==> d * n >= n
    ensures d <= -1 ==> d * n + n <= 0
  {
    if d >= 1 { assert d * n == n + (d - 1) * n; }
    if d <= -1 { assert d * n + n == (d + 1) * n; }
  }

  /** Quotient and remainder are the only ones that fit. */
  lemma {:induction false} DivModIs(x: nat, q: nat, r: nat, n: nat)
    requires n > 0 && r < n && x == q * n + r
    ensures x / n == q && x % n == r
  {
    assert x == (x / n) * n + x % n;
    assert (x / n - q) * n == r - x % n;
    MulSteps(x / n - q, n);
  }

  lemma {:induction false} OneMore(n: nat, p: nat)
    ensures (n + 1) * p == n * p + p
  {
  }

  lemma {:induction false} MulMonotone(a: nat, b: nat, p: nat)
    requires a <= b
    ensures a * p <= b * p
  {
    assert b * p == a * p + (b - a) * p;
  }

  lemma {:induction false} NextDivMod(m: nat, n: nat)
    requires n > 0
    ensures if m % n + 1 < n then (m + 1) / n == m / n && (m + 1) % n == m % n + 1
            else (m + 1) / n == m / n + 1 && (m + 1) % n == 0
  {
    var q, r := m / n, m % n;
    assert m == q * n + r;
    if r + 1 < n { DivModIs(m + 1, q, r + 1, n); }
    else { OneMore(q, n); DivModIs(m + 1, q + 1, 0, n); }
  }
}
