/**
 Machine integers as bounded integers, and the bitwise operators on them defined by their
 binary digits. The lemmas turn the operators the sources use into arithmetic.
 */
module Bits {
  const TWO64 := 0x1_0000_0000_0000_0000
  // The largest length a Rust Vec or slice can have (isize::MAX).
  const MAX_LEN := 0x7FFF_FFFF_FFFF_FFFF

  type byte = x: int | 0 <= x < 256
  type u64 = x: int | 0 <= x < 0x1_0000_0000_0000_0000

  function Pow2(n: nat): (r: nat)
    ensures r > 0
  {
    if n == 0 then 1 else 2 * Pow2(n - 1)
  }

  function Digit(b: bool): nat {
    if b then 1 else 0
  }

  predicate Bit(a: nat, k: nat) {
    if k == 0 then a % 2 == 1 else Bit(a / 2, k - 1)
  }

  function Or(a: nat, b: nat): nat {
    if a == 0 && b == 0 then 0 else 2 * Or(a / 2, b / 2) + Digit(a % 2 == 1 || b % 2 == 1)
  }

  function Xor(a: nat, b: nat): nat {
    if a == 0 && b == 0 then 0 else 2 * Xor(a / 2, b / 2) + Digit(a % 2 != b % 2)
  }

  // Python's (~a) & b on non-negative integers.
  function AndNot(a: nat, b: nat): nat
    decreases b
  {
    if b == 0 then 0 else 2 * AndNot(a / 2, b / 2) + Digit(a % 2 == 0 && b % 2 == 1)
  }

  // ---------------------------------------------------------------- powers of two

  lemma {:induction false} Pow2Add(m: nat, n: nat)
    ensures Pow2(m + n) == Pow2(m) * Pow2(n)
  {
    if m == 0 {
    } else {
      Pow2Add(m - 1, n);
      calc {
        Pow2(m + n);
        2 * Pow2(m - 1 + n);
        2 * (Pow2(m - 1) * Pow2(n));
        (2 * Pow2(m - 1)) * Pow2(n);
        Pow2(m) * Pow2(n);
      }
    }
  }

  lemma {:induction false} Pow2Monotonic(m: nat, n: nat)
    requires m <= n
    ensures Pow2(m) <= Pow2(n)
  {
    if m < n {
      Pow2Monotonic(m, n - 1);
    }
  }

  lemma PowZero()
    ensures Pow2(0) == 1
  {
  }

  lemma Pow2Small()
    ensures Pow2(3) == 8 && Pow2(7) == 128 && Pow2(8) == 256
  {
    assert Pow2(4) == 16;
    Pow2Add(4, 4);
  }

  lemma Pow2Values()
    ensures Pow2(3) == 8 && Pow2(7) == 128 && Pow2(8) == 256
    ensures Pow2(64) == TWO64
  {
    hide Pow2;
    Pow2Small();
    Pow2Add(8, 8);
    assert Pow2(16) == 0x1_0000;
    Pow2Add(16, 16);
    assert Pow2(32) == 0x1_0000_0000;
    Pow2Add(32, 32);
  }

  lemma MulMono(a: int, b: int, m: int)
    requires a <= b && 0 <= m
    ensures a * m <= b * m
  {
    assert (b - a) * m >= 0;
  }

  lemma SmallMultiple(d: int, m: int)
    requires -m < d * m < m
    ensures d == 0
  {
    if d >= 1 {
      MulMono(1, d, m);
    } else if d <= -1 {
      MulMono(d, -1, m);
    }
  }

  lemma DivMod(a: int, q: int, m: int, r: int)
    requires m > 0 && 0 <= r < m && a == q * m + r
    ensures a / m == q && a % m == r
  {
    var d := a / m - q;
    assert d * m == r - a % m by {
      assert a == (a / m) * m + a % m;
    }
    SmallMultiple(d, m);
  }

  // ---------------------------------------------------------------- disjunction

  lemma {:induction false} OrZero(b: nat)
    ensures Or(0, b) == b
  {
    if b > 0 {
      OrZero(b / 2);
    }
  }

  lemma {:induction false} OrDisjoint(a: nat, b: nat, k: nat)
    requires a < Pow2(k)
    ensures Or(a, b * Pow2(k)) == a + b * Pow2(k)
  {
    if k == 0 {
      OrZero(b);
    } else {
      var c := b * Pow2(k);
      assert c == 2 * (b * Pow2(k - 1));
      OrDisjoint(a / 2, b, k - 1);
    }
  }

  lemma Distribute(a: int, b: int, c: int)
    ensures (a + b) * c == a * c + b * c
  {
  }

  lemma Reassociate(a: int, b: int, c: int)
    ensures (a * b) * c == a * (c * b)
  {
  }

  lemma ModScaled(r: nat, d: nat, p: nat, h: nat)
    requires r < p && h > 0
    ensures (r + d * p) % (p * h) == r + d % h * p
    ensures (r + d * p) / (p * h) == d / h
  {
    var q, e := d / h, d % h;
    MulMono(e + 1, h, p);
    calc {
      r + d * p;
      { assert d == q * h + e; }
      r + (q * h + e) * p;
      { Distribute(q * h, e, p); Reassociate(q, h, p); }
      q * (p * h) + (r + e * p);
    }
    Distribute(e, 1, p);
    DivMod(r + d * p, q, p * h, r + e * p);
  }

  // A u64 left shift drops what passes bit 63; or-ing it onto lower digits is addition mod 2^64.
  lemma OrShifted(r: nat, d: nat, s: nat)
    requires s <= 64 && r < Pow2(s)
    ensures Or(r, d * Pow2(s) % Pow2(64)) == (r + d * Pow2(s)) % Pow2(64)
  {
    hide Pow2, Or;
    Pow2Add(s, 64 - s);
    ModScaled(r, d, Pow2(s), Pow2(64 - s));
    ModScaled(0, d, Pow2(s), Pow2(64 - s));
    OrDisjoint(r, d % Pow2(64 - s), s);
  }

  // ---------------------------------------------------------------- exclusive or

  lemma {:induction false} BitZero(k: nat)
    ensures !Bit(0, k)
  {
    if k > 0 {
      BitZero(k - 1);
    }
  }

  lemma {:induction false} BitXor(a: nat, b: nat, k: nat)
    ensures Bit(Xor(a, b), k) == (Bit(a, k) != Bit(b, k))
  {
    if a == 0 && b == 0 {
      BitZero(k);
    } else if k > 0 {
      BitXor(a / 2, b / 2, k - 1);
    }
  }

  lemma {:induction false} XorZero(a: nat)
    ensures Xor(a, 0) == a
  {
    if a > 0 {
      XorZero(a / 2);
    }
  }

  lemma {:induction false} XorCancel(a: nat, b: nat)
    ensures Xor(Xor(a, b), b) == a
  {
    if b == 0 {
      XorZero(a);
      XorZero(Xor(a, b));
    } else {
      XorCancel(a / 2, b / 2);
      var x := Xor(a, b);
      assert x / 2 == Xor(a / 2, b / 2);
    }
  }

  lemma {:induction false} XorBound(a: nat, b: nat, k: nat)
    requires a < Pow2(k) && b < Pow2(k)
    ensures Xor(a, b) < Pow2(k)
  {
    if k > 0 {
      XorBound(a / 2, b / 2, k - 1);
    }
  }

  function XorByte(a: byte, b: byte): byte {
    assert Xor(a, b) < 256 by {
      Pow2Values();
      XorBound(a, b, 8);
    }
    Xor(a, b)
  }

  lemma {:induction false} BitOr(a: nat, b: nat, k: nat)
    ensures Bit(Or(a, b), k) == (Bit(a, k) || Bit(b, k))
  {
    if a == 0 && b == 0 {
      BitZero(k);
    } else if k > 0 {
      BitOr(a / 2, b / 2, k - 1);
    }
  }
}
