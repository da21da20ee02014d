// Products and quotients of variables, one fact at a time.
module Arithmetic {

  lemma {:induction false} Scale(a: int, b: int, n: nat)
    requires a >= b
    ensures a * n >= b * n
  {
  }

  /** A quotient and a rest determine one another. */
  lemma {:induction false} DivOf(q: nat, n: nat, r: nat)
    requires r < n
    ensures (q * n + r) / n == q && (q * n + r) % n == r
  {
    var x := q * n + r;
    var d := x / n - q;
    assert x == n * (x / n) + x % n;
    assert n * (x / n) == n * q + n * d;
    assert d * n == r - x % n;
    if d >= 1 { Scale(d, 1, n); }
    if d <= -1 { Scale(-1, d, n); }
  }

  lemma {:induction false} Divide(x: nat, n: nat) returns (q: nat, r: nat)
    requires n > 0
    ensures x == q * n + r && r == x % n && q == x / n && r < n
  {
    q, r := x / n, x % n;
  }

  /** Whole multiples do not count in a rest. */
  lemma {:induction false} ModShift(m: nat, r: int, x: int)
    requires m > 0
    ensures (r + m * x) % m == r % m
  {
    var a := r + m * x;
    var d := a / m - r / m - x;
    assert a == m * (a / m) + a % m && r == m * (r / m) + r % m;
    assert d * m == m * (a / m) - m * (r / m) - m * x;
    if d >= 1 { Scale(d, 1, m); }
    if d <= -1 { Scale(-1, d, m); }
  }
}
