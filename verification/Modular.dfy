/**
 Inverses modulo a prime (Python's pow(a, -1, n)), by the extended Euclidean algorithm.
 */
module Modular {
  import opened Bits

  predicate Divides(d: nat, n: nat)
    requires d > 0
  {
    n % d == 0
  }

  ghost predicate Prime(n: nat) {
    n >= 2 && forall d :: 2 <= d < n ==> !Divides(d, n)
  }

  // (g, x, y) with a*x + b*y == g, a common divisor of a and b.
  function ExtendedGcd(a: nat, b: nat): (nat, int, int)
    decreases b
  {
    if b == 0 then (a, 1, 0)
    else
      var (g, x, y) := ExtendedGcd(b, a % b);
      (g, y, x - a / b * y)
  }

  lemma BezoutStep(a: int, b: int, q: int, r: int, x: int, y: int)
    requires a == b * q + r
    ensures a * y + b * (x - q * y) == b * x + r * y
  {
    Distribute(b * q, r, y);
    Reassociate(b, q, y);
    assert b * (x - q * y) == b * x - b * (q * y);
    assert b * (y * q) == b * (q * y);
  }

  lemma CommonDivisor(g: nat, b: nat, q: nat, r: nat)
    requires g > 0 && b % g == 0 && r % g == 0
    ensures (b * q + r) % g == 0
  {
    var (k, m) := (b / g, r / g);
    assert b * q + r == (k * q + m) * g by {
      assert b == k * g && r == m * g;
      Distribute(k * q, m, g);
      Reassociate(k, g, q);
      Reassociate(k, q, g);
    }
    DivMod(b * q + r, k * q + m, g, 0);
  }

  lemma {:induction false} ExtendedGcdLaw(a: nat, b: nat)
    requires a > 0
    ensures var (g, x, y) := ExtendedGcd(a, b);
            g > 0 && a * x + b * y == g && a % g == 0 && b % g == 0
    decreases b
  {
    if b > 0 {
      ExtendedGcdLaw(b, a % b);
      var (g, x, y) := ExtendedGcd(b, a % b);
      var q := a / b;
      BezoutStep(a, b, q, a % b, x, y);
      CommonDivisor(g, b, q, a % b);
    }
  }

  function Inv(a: nat, n: nat): (r: nat)
    requires n > 0
    ensures r < n
  {
    ExtendedGcd(a, n).1 % n
  }

  lemma InvLaw(a: nat, n: nat)
    requires Prime(n) && 0 < a < n
    ensures Inv(a, n) * a % n == 1
  {
    ExtendedGcdLaw(a, n);
    var (g, x, y) := ExtendedGcd(a, n);
    if g > a {
      DivMod(a, 0, g, a);
    }
    assert Divides(g, n);
    assert g == 1;
    var (q, r) := (x / n, x % n);
    calc {
      r * a;
      { assert x == q * n + r; Distribute(q * n, r, a); }
      x * a - (q * n) * a;
      { Reassociate(q, n, a); Distribute(-y, -(q * a), n); Reassociate(q, a, n); }
      (-y - q * a) * n + 1;
    }
    DivMod(r * a, -y - q * a, n, 1);
  }
}
