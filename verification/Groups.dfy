/**
 Scalar multiples in an abelian group, and the double-and-add loop that computes them.
 */
module Groups {
  import opened Bits

  // The curve operations of the minting tool; `zero` is its None.
  datatype Group<!P> = Group(zero: P, add: (P, P) -> P, neg: P -> P)

  // The laws of an abelian group at given elements.
  predicate AssocAt<P(==)>(g: Group<P>, a: P, b: P, c: P) {
    g.add(g.add(a, b), c) == g.add(a, g.add(b, c))
  }

  predicate CommAt<P(==)>(g: Group<P>, a: P, b: P) {
    g.add(a, b) == g.add(b, a)
  }

  predicate NeutralAt<P(==)>(g: Group<P>, a: P) {
    g.add(g.zero, a) == a && g.add(a, g.neg(a)) == g.zero
  }

  ghost predicate Laws<P(!new)>(g: Group<P>) {
    && (forall a, b, c :: AssocAt(g, a, b, c))
    && (forall a, b :: CommAt(g, a, b))
    && (forall a :: NeutralAt(g, a))
  }

  // The k-fold sum of p.
  function Times<P>(g: Group<P>, k: nat, p: P): P {
    if k == 0 then g.zero else g.add(p, Times(g, k - 1, p))
  }

  // ---------------------------------------------------------------- the laws, one at a time

  lemma Assoc<P(!new)>(g: Group<P>, a: P, b: P, c: P)
    requires Laws(g)
    ensures g.add(g.add(a, b), c) == g.add(a, g.add(b, c))
  {
    assert AssocAt(g, a, b, c);
  }

  lemma Comm<P(!new)>(g: Group<P>, a: P, b: P)
    requires Laws(g)
    ensures g.add(a, b) == g.add(b, a)
  {
    assert CommAt(g, a, b);
  }

  lemma Zero<P(!new)>(g: Group<P>, a: P)
    requires Laws(g)
    ensures g.add(g.zero, a) == a && g.add(a, g.zero) == a
  {
    assert NeutralAt(g, a);
    Comm(g, a, g.zero);
  }

  lemma Inverse<P(!new)>(g: Group<P>, a: P)
    requires Laws(g)
    ensures g.add(a, g.neg(a)) == g.zero
  {
    assert NeutralAt(g, a);
  }

  // Whatever cancels a is its negation.
  lemma NegUnique<P(!new)>(g: Group<P>, a: P, b: P)
    requires Laws(g) && g.add(a, b) == g.zero
    ensures b == g.neg(a)
  {
    hide Laws;
    calc {
      b;
      { Zero(g, b); Inverse(g, a); }
      g.add(g.add(a, g.neg(a)), b);
      { Comm(g, a, g.neg(a)); Assoc(g, g.neg(a), a, b); }
      g.add(g.neg(a), g.add(a, b));
      { Zero(g, g.neg(a)); }
      g.neg(a);
    }
  }

  lemma NegNeg<P(!new)>(g: Group<P>, a: P)
    requires Laws(g)
    ensures g.neg(g.neg(a)) == a
  {
    hide Laws;
    Inverse(g, a);
    Comm(g, a, g.neg(a));
    NegUnique(g, g.neg(a), a);
  }

  lemma AddThenRemove<P(!new)>(g: Group<P>, a: P, b: P)
    requires Laws(g)
    ensures g.add(g.add(a, b), g.neg(a)) == b
  {
    hide Laws;
    Comm(g, a, b);
    Assoc(g, b, a, g.neg(a));
    Inverse(g, a);
    Zero(g, b);
  }

  lemma RestoreRemoved<P(!new)>(g: Group<P>, a: P, b: P)
    requires Laws(g)
    ensures g.add(b, g.add(a, g.neg(b))) == a
  {
    hide Laws;
    Comm(g, b, g.add(a, g.neg(b)));
    Assoc(g, a, g.neg(b), b);
    Comm(g, g.neg(b), b);
    Inverse(g, b);
    Zero(g, a);
  }

  // (a + b) + (c + d) == (a + c) + (b + d)
  lemma Exchange<P(!new)>(g: Group<P>, a: P, b: P, c: P, d: P)
    requires Laws(g)
    ensures g.add(g.add(a, b), g.add(c, d)) == g.add(g.add(a, c), g.add(b, d))
  {
    hide Laws;
    calc {
      g.add(g.add(a, b), g.add(c, d));
      { Assoc(g, a, b, g.add(c, d)); Assoc(g, b, c, d); }
      g.add(a, g.add(g.add(b, c), d));
      { Comm(g, b, c); Assoc(g, c, b, d); Assoc(g, a, c, g.add(b, d)); }
      g.add(g.add(a, c), g.add(b, d));
    }
  }

  // ---------------------------------------------------------------- multiples

  lemma {:induction false} TimesAdd<P(!new)>(g: Group<P>, a: nat, b: nat, p: P)
    requires Laws(g)
    ensures Times(g, a + b, p) == g.add(Times(g, a, p), Times(g, b, p))
  {
    hide Laws;
    if a == 0 {
      Zero(g, Times(g, b, p));
    } else {
      TimesAdd(g, a - 1, b, p);
      Assoc(g, p, Times(g, a - 1, p), Times(g, b, p));
    }
  }

  lemma {:induction false} TimesSum<P(!new)>(g: Group<P>, k: nat, p: P, q: P)
    requires Laws(g)
    ensures Times(g, k, g.add(p, q)) == g.add(Times(g, k, p), Times(g, k, q))
  {
    hide Laws;
    if k == 0 {
      Zero(g, g.zero);
    } else {
      TimesSum(g, k - 1, p, q);
      Exchange(g, p, q, Times(g, k - 1, p), Times(g, k - 1, q));
    }
  }

  lemma {:induction false} TimesTimes<P(!new)>(g: Group<P>, a: nat, b: nat, p: P)
    requires Laws(g)
    ensures Times(g, a * b, p) == Times(g, a, Times(g, b, p))
  {
    hide Laws;
    if a > 0 {
      TimesTimes(g, a - 1, b, p);
      Distribute(a - 1, 1, b);
      TimesAdd(g, b, (a - 1) * b, p);
    }
  }

  lemma {:induction false} TimesZero<P(!new)>(g: Group<P>, k: nat)
    requires Laws(g)
    ensures Times(g, k, g.zero) == g.zero
  {
    hide Laws;
    if k > 0 {
      TimesZero(g, k - 1);
      Zero(g, g.zero);
    }
  }

  lemma TimesNeg<P(!new)>(g: Group<P>, k: nat, p: P)
    requires Laws(g)
    ensures Times(g, k, g.neg(p)) == g.neg(Times(g, k, p))
  {
    hide Laws;
    TimesSum(g, k, p, g.neg(p));
    Inverse(g, p);
    TimesZero(g, k);
    NegUnique(g, Times(g, k, p), Times(g, k, g.neg(p)));
  }

  // ---------------------------------------------------------------- double and add

  lemma Twice<P(!new)>(g: Group<P>, p: P)
    requires Laws(g)
    ensures Times(g, 2, p) == g.add(p, p)
  {
    hide Laws;
    assert Times(g, 1, p) == g.add(p, g.zero);
    Zero(g, p);
  }

  method Multiply<P(!new)>(g: Group<P>, scalar: nat, point: P) returns (r: P)
    requires Laws(g)
    ensures r == Times(g, scalar, point)
  {
    hide Laws;
    r := g.zero;
    var k, p := scalar, point;
    Zero(g, Times(g, k, p));
    while k != 0
      invariant g.add(r, Times(g, k, p)) == Times(g, scalar, point)
      decreases k
    {
      if k % 2 == 1 {
        Assoc(g, r, p, Times(g, k - 1, p));
        r := g.add(r, p);
      }
      ghost var even := k - k % 2;
      assert g.add(r, Times(g, even, p)) == Times(g, scalar, point);
      TimesTimes(g, k / 2, 2, p);
      assert even == k / 2 * 2;
      Twice(g, p);
      p := g.add(p, p);
      k := k / 2;
    }
    Zero(g, r);
  }
}
