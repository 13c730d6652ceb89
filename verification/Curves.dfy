/**
 The curve the attestation signatures live on, given by its group, its base point of prime
 order and its coordinates. secp256k1 is the curve of the source.
 */
module Curves {
  import opened Wrappers
  import opened Groups
  import opened Modular

  // `lift` finds the point with a given x coordinate and parity of y, if there is one.
  datatype Curve<!P> = Curve(group: Group<P>, base: P, order: nat, x: P -> nat, y: P -> nat,
      lift: (nat, nat) -> Option<P>)

  const TWO256 := 0x1_0000000000000000_0000000000000000_0000000000000000_0000000000000000

  // A point has 32-byte coordinates, is found by them, and negating it flips the parity of y.
  predicate PointAt<P(==)>(c: Curve<P>, p: P) {
    && Times(c.group, c.order, p) == c.group.zero
    && (p != c.group.zero ==>
          && c.x(p) < TWO256 && c.y(p) < TWO256
          && c.lift(c.x(p), c.y(p) % 2) == Some(p)
          && c.x(c.group.neg(p)) == c.x(p) && c.y(c.group.neg(p)) % 2 != c.y(p) % 2)
  }

  predicate LiftAt<P(==)>(c: Curve<P>, x: nat, b: nat) {
    match c.lift(x, b)
    case None => true
    case Some(p) => p != c.group.zero && c.x(p) == x && c.y(p) % 2 == b
  }

  ghost predicate CurveLaws<P(!new)>(c: Curve<P>) {
    && Laws(c.group)
    && Prime(c.order) && 2 < c.order < TWO256
    && c.base != c.group.zero
    && (forall p :: PointAt(c, p))
    && (forall x, b :: LiftAt(c, x, b))
  }

  // The laws contradict nothing: the curve with three points has them.
  datatype Tiny = Infinity | Base | Opposite

  function TinyAdd(p: Tiny, q: Tiny): Tiny {
    match (p, q)
    case (Infinity, _) => q
    case (_, Infinity) => p
    case (Base, Base) => Opposite
    case (Opposite, Opposite) => Base
    case _ => Infinity
  }

  function TinyCurve(): Curve<Tiny> {
    Curve(Group(Infinity, (p, q) => TinyAdd(p, q), p => TinyAdd(p, p)), Base, 3,
          p => 1, p => if p == Base then 1 else 2,
          (x, b) => if x == 1 && b == 1 then Some(Base) else if x == 1 && b == 0 then Some(Opposite) else None)
  }

  lemma TinyTriple(p: Tiny)
    ensures Times(TinyCurve().group, 3, p) == Infinity
  {
    var g := TinyCurve().group;
    assert Times(g, 1, p) == g.add(p, Times(g, 0, p));
    assert Times(g, 2, p) == g.add(p, Times(g, 1, p));
    assert Times(g, 3, p) == g.add(p, Times(g, 2, p));
  }

  lemma LawsConsistent()
    ensures CurveLaws(TinyCurve())
  {
    hide Times;
    var c := TinyCurve();
    forall p: Tiny ensures PointAt(c, p) {
      TinyTriple(p);
    }
    forall a: Tiny, b: Tiny, d: Tiny ensures AssocAt(c.group, a, b, d) {
    }
    assert Laws(c.group);
    assert !Divides(2, 3);
  }

  lemma OrderLaws<P(!new)>(c: Curve<P>, p: P)
    requires CurveLaws(c)
    ensures Laws(c.group) && Prime(c.order) && 2 < c.order < TWO256 && c.base != c.group.zero
    ensures Times(c.group, c.order, p) == c.group.zero
  {
    assert PointAt(c, p);
  }

  lemma LiftPoint<P(!new)>(c: Curve<P>, p: P)
    requires CurveLaws(c) && p != c.group.zero
    ensures c.x(p) < TWO256 && c.y(p) < TWO256
    ensures c.lift(c.x(p), c.y(p) % 2) == Some(p)
  {
    assert PointAt(c, p);
  }

  lemma LiftedPoint<P(!new)>(c: Curve<P>, x: nat, b: nat)
    requires CurveLaws(c) && c.lift(x, b).Some?
    ensures c.lift(x, b).value != c.group.zero && c.x(c.lift(x, b).value) == x
    ensures c.y(c.lift(x, b).value) % 2 == b
  {
    assert LiftAt(c, x, b);
  }

  lemma NegPoint<P(!new)>(c: Curve<P>, p: P)
    requires CurveLaws(c) && p != c.group.zero
    ensures c.group.neg(p) != c.group.zero
    ensures c.x(c.group.neg(p)) == c.x(p) && c.y(c.group.neg(p)) % 2 == 1 - c.y(p) % 2
  {
    assert PointAt(c, p);
    if c.group.neg(p) == c.group.zero {
      OrderLaws(c, p);
      Inverse(c.group, p);
      Zero(c.group, p);
    }
  }

  lemma WholeTurns<P(!new)>(c: Curve<P>, q: nat, r: nat, p: P)
    requires CurveLaws(c)
    ensures Times(c.group, q * c.order + r, p) == Times(c.group, r, p)
  {
    hide *;
    OrderLaws(c, p);
    var (g, n) := (c.group, c.order);
    TimesAdd(g, q * n, r, p);
    TimesTimes(g, q, n, p);
    TimesZero(g, q);
    Zero(g, Times(g, r, p));
  }

  // Multiples depend on the scalar modulo the order only.
  lemma TimesMod<P(!new)>(c: Curve<P>, k: nat, p: P)
    requires CurveLaws(c)
    ensures Times(c.group, k % c.order, p) == Times(c.group, k, p)
  {
    hide *;
    OrderLaws(c, p);
    WholeTurns(c, k / c.order, k % c.order, p);
  }

  lemma TimesOne<P(!new)>(g: Group<P>, p: P)
    requires Laws(g)
    ensures Times(g, 1, p) == p
  {
    hide Laws;
    assert Times(g, 1, p) == g.add(p, Times(g, 0, p));
    Zero(g, p);
  }

  // Multiplying by a and then by its inverse gives the point back, in either order.
  lemma TimesInv<P(!new)>(c: Curve<P>, a: nat, p: P)
    requires CurveLaws(c) && 0 < a < c.order
    ensures Times(c.group, Inv(a, c.order), Times(c.group, a, p)) == p
    ensures Times(c.group, a, Times(c.group, Inv(a, c.order), p)) == p
  {
    hide *;
    OrderLaws(c, p);
    var (g, i) := (c.group, Inv(a, c.order));
    InvLaw(a, c.order);
    TimesTimes(g, i, a, p);
    TimesTimes(g, a, i, p);
    assert i * a == a * i;
    TimesMod(c, i * a, p);
    TimesOne(g, p);
  }

  lemma NonzeroMultiple<P(!new)>(c: Curve<P>, a: nat)
    requires CurveLaws(c) && 0 < a < c.order
    ensures Times(c.group, a, c.base) != c.group.zero
  {
    hide *;
    OrderLaws(c, c.base);
    if Times(c.group, a, c.base) == c.group.zero {
      TimesInv(c, a, c.base);
      TimesZero(c.group, Inv(a, c.order));
    }
  }

  // order - a undoes a.
  lemma TimesComplement<P(!new)>(c: Curve<P>, a: nat, p: P)
    requires CurveLaws(c) && a <= c.order
    ensures Times(c.group, c.order - a, p) == c.group.neg(Times(c.group, a, p))
  {
    hide *;
    OrderLaws(c, p);
    TimesAdd(c.group, a, c.order - a, p);
    NegUnique(c.group, Times(c.group, a, p), Times(c.group, c.order - a, p));
  }
}
