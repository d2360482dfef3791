/** Facts about natural-number division the clock arithmetic relies on. */
module Arith {
  /** Division of naturals, as C's unsigned `/` for a non-zero divisor. */
  function NatDiv(a: nat, b: nat): (r: nat)
    requires 0 < b
    ensures r * b <= a < (r + 1) * b
  {
    a / b
  }

  /** Multiplying by `d` keeps a strict order at least `d` apart. */
  lemma {:induction false} MulMono(d: nat, a: nat, b: nat)
    requires a < b
    ensures d * a + d <= d * b
    decreases b - a
  {
    assert d * (a + 1) == d * a + d;
    if a + 1 < b {
      MulMono(d, a + 1, b);
    }
  }

  /** Quotient and remainder are determined by any decomposition with a remainder in range. */
  lemma DivModUnique(n: nat, d: nat, k: nat, m: nat)
    requires 0 <= m < d
    requires n == d * k + m
    ensures n / d == k && n % d == m
  {
    var k', m' := n / d, n % d;
    assert n == d * k' + m';
    if k' < k {
      MulMono(d, k', k);
      assert false;
    } else if k < k' {
      MulMono(d, k, k');
      assert false;
    }
  }

  /** Regrouping the two-step decomposition of `a` by `b` and then by `c`. */
  lemma Regroup(b: nat, c: nat, q2: nat, r2: nat, r1: nat)
    ensures b * (c * q2 + r2) + r1 == (b * c) * q2 + (b * r2 + r1)
  {
    assert b * (c * q2 + r2) == b * (c * q2) + b * r2;
    assert b * (c * q2) == (b * c) * q2;
  }

  /** Dividing by `b` and then by `c` is dividing by `b * c`. */
  lemma DivDiv(a: nat, b: nat, c: nat)
    requires 0 < b && 0 < c
    ensures a / b / c == a / (b * c)
  {
    var q1, r1 := a / b, a % b;
    var q2, r2 := q1 / c, q1 % c;
    assert a == b * q1 + r1;
    assert q1 == c * q2 + r2;
    Regroup(b, c, q2, r2, r1);
    MulMono(b, r2, c);
    DivModUnique(a, b * c, q2, b * r2 + r1);
  }

  /** A quotient is exactly 1 when the dividend lies in [d, 2d). */
  lemma QuotientOne(a: nat, d: nat)
    requires 0 < d
    ensures a / d == 1 <==> d <= a < 2 * d
  {
    if d <= a < 2 * d {
      DivModUnique(a, d, 1, a - d);
    }
    if a / d == 1 {
      assert a == d * (a / d) + a % d;
    }
  }

  /** The product of two positive naturals is positive. */
  lemma MulPositive(a: nat, b: nat)
    requires 0 < a && 0 < b
    ensures 0 < a * b
  {
    MulMono(a, 0, b);
  }
}
