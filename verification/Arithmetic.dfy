/** Facts about division and remainder that the verifier does not find on its own. */
module Arithmetic {

  lemma DivModUnique(a: nat, d: nat, q: nat, x: nat)
    requires d > 0 && x < d && a == d * q + x
    ensures a / d == q && a % d == x
  {
    var e := a / d - q;
    assert d * e == x - a % d by { assert d * (a / d) + a % d == a; assert d * e == d * (a / d) - d * q; }
    assert e == 0;
  }

  lemma MulMonotone(a: nat, b: nat, c: nat)
    requires b <= c
    ensures a * b <= a * c && b * a <= c * a
  {
  }

  lemma DivDiv(a: nat, d: nat, e: nat)
    requires d > 0 && e > 0
    ensures d * e > 0 && a / d / e == a / (d * e)
  {
    var q, x := a / d, a % d;
    var p, y := q / e, q % e;
    assert q == e * p + y && a == d * q + x;
    assert d * q == d * e * p + d * y;
    MulMonotone(d, y + 1, e);
    assert d * (y + 1) == d * y + d;
    DivModUnique(a, d * e, p, d * y + x);
  }

  /** Reducing an intermediate result modulo m does not change the final result modulo m. */
  lemma ModStep(a: nat, e: nat, x: nat, m: nat)
    requires m > 0
    ensures (a % m * e + x) % m == (a * e + x) % m
  {
    var q := a / m;
    var s := a % m * e + x;
    assert a == m * q + a % m;
    assert a * e + x == m * (q * e) + s;
    ModShift(s, q * e, m);
  }

  lemma ModShift(s: nat, k: nat, m: nat)
    requires m > 0
    ensures (m * k + s) % m == s % m
  {
    assert m * k + s == m * (k + s / m) + s % m;
    DivModUnique(m * k + s, m, k + s / m, s % m);
  }

  lemma ModSmall(x: nat, m: nat)
    requires m > 0
    ensures x < m ==> x % m == x
  {
    if x < m { DivModUnique(x, m, 0, x); }
  }

  lemma DivModBack(x: nat, d: nat)
    requires d > 0
    ensures x / d * d + x % d == x
  {
  }

  lemma Distribute(p: nat, x: nat, l: nat, e: nat)
    ensures (p * x + l) * e == p * e * x + l * e
  {
    assert p * x * e == p * e * x;
  }

  /** The increment of an unsigned counter of m values. */
  function Next(x: nat, m: nat): (r: nat)
    ensures m >= 2 && x < m ==> r < m && r != x
  {
    if x + 1 == m then 0 else x + 1
  }
}
