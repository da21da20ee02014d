module KitArc4random {
  // Random numbers below a bound, by drawing 32-bit numbers again until one is accepted.

  import opened Arithmetic

  const RANGE: nat := 0x1_0000_0000

  /** The least draw that is accepted, as the program computes it in 32 bits. */
  function Min(bound: nat): nat
    requires 0 < bound < RANGE
  {
    (RANGE - bound) % bound
  }

  /** It is 2^32 modulo the bound, so the draws that are accepted are a whole number of times the bound. */
  lemma {:induction false} MinIs(bound: nat)
    requires 2 <= bound < RANGE
    ensures Min(bound) == RANGE % bound < bound
    ensures RANGE - Min(bound) == RANGE / bound * bound
  {
    var q, r := Divide(RANGE - bound, bound);
    assert RANGE == (q + 1) * bound + r;
    DivOf(q + 1, bound, r);
  }

  /** The draws that are accepted and give a result. */
  ghost function Draws(bound: nat, x: nat): set<nat>
    requires 0 < bound < RANGE
  {
    set r: nat | Min(bound) <= r < RANGE && r % bound == x
  }

  /** The numbers x + k * n for a <= k < b. */
  ghost function Steps(x: nat, n: nat, a: nat, b: nat): set<nat> {
    set k: nat | a <= k < b :: x + k * n
  }

  lemma {:induction false} StepsCount(x: nat, n: nat, a: nat, b: nat)
    requires a <= b && n > 0
    ensures |Steps(x, n, a, b)| == b - a
  {
    if a < b {
      StepsCount(x, n, a, b - 1);
      var s, last := Steps(x, n, a, b - 1), x + (b - 1) * n;
      forall k: nat | a <= k < b - 1 ensures x + k * n < last { Scale(b - 1, k + 1, n); }
      assert last !in s;
      assert Steps(x, n, a, b) == s + {last};
    } else {
      assert Steps(x, n, a, b) == {};
    }
  }

  /** Which steps from x are accepted. */
  lemma {:induction false} StepAccepted(q: nat, n: nat, m: nat, x: nat, k: nat)
    requires x < n && m < n
    ensures m <= x + k * n < q * n + m <==> var a := if x < m then 1 else 0; a <= k < a + q
  {
    var a := if x < m then 1 else 0;
    assert (a + q) * n == a * n + q * n && (a + q - 1) * n == a * n + q * n - n;
    if k < a {
      Scale(0, k, n);
    } else if k < a + q {
      Scale(k, a, n);
      Scale(a + q - 1, k, n);
    } else {
      Scale(k, a + q, n);
    }
  }

  /** r is accepted and gives x if and only if it is among the steps from x. */
  lemma {:induction false} DrawIsStep(bound: nat, x: nat, r: nat)
    requires 2 <= bound < RANGE && x < bound
    ensures var a := if x < Min(bound) then 1 else 0;
            r in Draws(bound, x) <==> r in Steps(x, bound, a, a + RANGE / bound)
  {
    MinIs(bound);
    hide Min;
    var q, m := RANGE / bound, Min(bound);
    if r in Draws(bound, x) {
      var k, y := Divide(r, bound);
      StepAccepted(q, bound, m, x, k);
    }
    var a := if x < m then 1 else 0;
    if r in Steps(x, bound, a, a + q) {
      var k: nat :| a <= k < a + q && r == x + k * bound;
      DivOf(k, bound, x);
      StepAccepted(q, bound, m, x, k);
    }
  }

  /**
   * Every result below the bound comes from exactly the same number of accepted draws, so
   * equally likely draws give equally likely results.
   */
  lemma {:induction false} EquallyManyDraws(bound: nat, x: nat)
    requires 2 <= bound < RANGE && x < bound
    ensures |Draws(bound, x)| == (RANGE - Min(bound)) / bound
  {
    MinIs(bound);
    var a := if x < Min(bound) then 1 else 0;
    forall r: nat ensures r in Draws(bound, x) <==> r in Steps(x, bound, a, a + RANGE / bound) { DrawIsStep(bound, x, r); }
    assert Draws(bound, x) == Steps(x, bound, a, a + RANGE / bound);
    StepsCount(x, bound, a, a + RANGE / bound);
    DivOf(RANGE / bound, bound, 0);
  }

  /** Fewer draws are refused than accepted. */
  lemma {:induction false} MostAreAccepted(bound: nat)
    requires 2 <= bound < RANGE
    ensures Min(bound) < RANGE - Min(bound)
  {
    MinIs(bound);
    var q := RANGE / bound;
    if q < 1 { Scale(0, q, bound); } else { Scale(q, 1, bound); }
  }

  /**
   * A number below the bound from a source of 32-bit numbers: of the first accepted draw
   * the rest when divided by the bound; none if the source ends before.
   */
  method Uniform(bound: nat, source: seq<nat>) returns (ok: bool, result: nat, used: nat)
    requires 2 <= bound < RANGE && forall i :: 0 <= i < |source| ==> source[i] < RANGE
    ensures ok ==> used < |source| && result == source[used] % bound < bound && source[used] in Draws(bound, result)
    ensures forall i :: 0 <= i < (if ok then used else |source|) ==> source[i] < RANGE % bound
  {
    MinIs(bound);
    var min := (RANGE - bound) % bound;
    used := 0;
    while used < |source| && source[used] < min
      invariant used <= |source| && forall i :: 0 <= i < used ==> source[i] < min
    {
      used := used + 1;
    }
    ok := used < |source|;
    result := if ok then source[used] % bound else 0;
  }
}
