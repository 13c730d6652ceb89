/**
 ECDSA as the minting tool signs and as the verifier recovers and checks: SEC 1, sections
 4.1.3, 4.1.4 and 4.1.6, with low-S signatures and a recovery id.
 */
module Ecdsa {
  import opened Bits
  import opened Wrappers
  import opened BigEndian
  import opened Groups
  import opened Modular
  import opened Curves

  datatype Signature = Signature(r: nat, s: nat)

  // recid: bit 0 is the parity of the nonce point's y, bit 1 says its x was reduced.
  datatype Recoverable = Recoverable(sig: Signature, recid: nat)

  type Hash = seq<byte> -> seq<byte>

  predicate InRange(n: nat, sig: Signature) {
    0 < sig.r < n && 0 < sig.s < n
  }

  // ---------------------------------------------------------------- signing

  function Nonce(hash: Hash, n: nat, priv: nat, prehash: seq<byte>, ctr: nat): nat
    requires n > 0
  {
    FromBE(hash(ToBE(priv, 32) + prehash + ToBE(ctr, 4))) % n
  }

  function Flip(n: nat, sig: Recoverable): Recoverable
    requires sig.sig.s <= n && sig.recid < 2
  {
    if sig.sig.s > n / 2 then Recoverable(Signature(sig.sig.r, n - sig.sig.s), 1 - sig.recid) else sig
  }

  function MulMod(a: nat, b: nat, n: nat): (r: nat)
    requires n > 0
    ensures r < n
  {
    a * b % n
  }

  // One round of the retry loop, with the nonce of this counter.
  function Attempt<P>(c: Curve<P>, hash: Hash, priv: nat, prehash: seq<byte>, ctr: nat): Option<Recoverable>
    requires c.order > 0
  {
    var n := c.order;
    var k := Nonce(hash, n, priv, prehash, ctr);
    if k == 0 then None
    else
      var p := Times(c.group, k, c.base);
      var r := c.x(p);
      if r >= n || r == 0 then None
      else
        var s := MulMod(Inv(k, n), FromBE(prehash) + r * priv, n);
        if s == 0 then None
        else Some(Flip(n, Recoverable(Signature(r, s), c.y(p) % 2)))
  }

  // The counter is printed in four bytes: Python raises after 2^32 attempts.
  const COUNTERS := 0x1_0000_0000

  function SignFrom<P>(c: Curve<P>, hash: Hash, priv: nat, prehash: seq<byte>, ctr: nat): Option<Recoverable>
    requires c.order > 0
    decreases COUNTERS - ctr
  {
    if ctr >= COUNTERS then None
    else
      var a := Attempt(c, hash, priv, prehash, ctr);
      if a.Some? then a else SignFrom(c, hash, priv, prehash, ctr + 1)
  }

  function Sign<P>(c: Curve<P>, hash: Hash, priv: nat, prehash: seq<byte>): Option<Recoverable>
    requires c.order > 0
  {
    SignFrom(c, hash, priv, prehash, 0)
  }

  // The nonce of this counter passes the tests on k, on r and on s.
  predicate Usable<P(==)>(c: Curve<P>, hash: Hash, priv: nat, prehash: seq<byte>, ctr: nat)
    requires c.order > 0
  {
    var k := FromBE(hash(ToBE(priv, 32) + prehash + ToBE(ctr, 4))) % c.order;
    var r := c.x(Times(c.group, k, c.base));
    k != 0 && r < c.order && r != 0 && MulMod(Inv(k, c.order), FromBE(prehash) + r * priv, c.order) != 0
  }

  // The signature made with that nonce: r is the x coordinate of its point, and of s and n - s the
  // low one is taken, with the parity of y flipped along.
  predicate MadeWith<P(==)>(c: Curve<P>, hash: Hash, priv: nat, prehash: seq<byte>, ctr: nat, made: Recoverable)
    requires c.order > 0
  {
    var k := FromBE(hash(ToBE(priv, 32) + prehash + ToBE(ctr, 4))) % c.order;
    var p := Times(c.group, k, c.base);
    var s := MulMod(Inv(k, c.order), FromBE(prehash) + c.x(p) * priv, c.order);
    && made.sig.r == c.x(p)
    && (if s <= c.order / 2 then made.sig.s == s && made.recid == c.y(p) % 2
        else made.sig.s == c.order - s && made.recid == 1 - c.y(p) % 2)
  }

  // The first usable counter below 2^32 makes the signature, if there is one.
  ghost predicate FirstUsable<P(!new)>(c: Curve<P>, hash: Hash, priv: nat, prehash: seq<byte>, r: Option<Recoverable>)
    requires c.order > 0
  {
    match r
    case None => forall ctr :: 0 <= ctr < 0x1_0000_0000 ==> !Usable(c, hash, priv, prehash, ctr)
    case Some(made) =>
      exists ctr :: 0 <= ctr < 0x1_0000_0000
        && Usable(c, hash, priv, prehash, ctr) && MadeWith(c, hash, priv, prehash, ctr, made)
        && forall m :: 0 <= m < ctr ==> !Usable(c, hash, priv, prehash, m)
  }

  lemma AttemptMeaning<P>(c: Curve<P>, hash: Hash, priv: nat, prehash: seq<byte>, ctr: nat)
    requires c.order > 0
    ensures var a := Attempt(c, hash, priv, prehash, ctr);
            && (a.Some? <==> Usable(c, hash, priv, prehash, ctr))
            && (a.Some? ==> MadeWith(c, hash, priv, prehash, ctr, a.value))
  {
    hide Times, Inv, FromBE, ToBE, MulMod;
  }

  // The body of the retry loop; None stands for `continue`.
  method TryNonce<P(!new)>(c: Curve<P>, hash: Hash, priv: nat, prehash: seq<byte>, ctr: nat)
    returns (r: Option<Recoverable>)
    requires CurveLaws(c) && c.order > 0
    ensures r == Attempt(c, hash, priv, prehash, ctr)
    ensures r.Some? <==> Usable(c, hash, priv, prehash, ctr)
    ensures r.Some? ==> MadeWith(c, hash, priv, prehash, ctr, r.value)
  {
    AttemptMeaning(c, hash, priv, prehash, ctr);
    hide Laws, CurveLaws, Inv, Times, MulMod, ToBE, FromBE, Prime;
    OrderLaws(c, c.base);
    var n := c.order;
    var k := FromBE(hash(ToBE(priv, 32) + prehash + ToBE(ctr, 4))) % n;
    assert k == Nonce(hash, n, priv, prehash, ctr);
    hide Nonce;
    if k == 0 {
      return None;
    }
    var p := Multiply(c.group, k, c.base);
    var x := c.x(p);
    if x >= n || x == 0 {
      return None;
    }
    var s := MulMod(Inv(k, n), FromBE(prehash) + x * priv, n);
    if s == 0 {
      return None;
    }
    var recid := c.y(p) % 2;
    if s > n / 2 {
      s := n - s;
      recid := 1 - recid;
    }
    return Some(Recoverable(Signature(x, s), recid));
  }

  lemma {:induction false} SignFromMeaning<P(!new)>(c: Curve<P>, hash: Hash, priv: nat, prehash: seq<byte>, ctr: nat)
    requires c.order > 0 && ctr <= 0x1_0000_0000
    requires forall m :: 0 <= m < ctr ==> !Usable(c, hash, priv, prehash, m)
    ensures FirstUsable(c, hash, priv, prehash, SignFrom(c, hash, priv, prehash, ctr))
    decreases 0x1_0000_0000 - ctr
  {
    hide Usable, MadeWith, Attempt;
    if ctr < 0x1_0000_0000 {
      AttemptMeaning(c, hash, priv, prehash, ctr);
      if !Usable(c, hash, priv, prehash, ctr) {
        SignFromMeaning(c, hash, priv, prehash, ctr + 1);
      }
    }
  }

  method SignPrehash<P(!new)>(c: Curve<P>, hash: Hash, priv: nat, prehash: seq<byte>) returns (r: Option<Recoverable>)
    requires CurveLaws(c) && c.order > 0
    ensures r == Sign(c, hash, priv, prehash)
    ensures FirstUsable(c, hash, priv, prehash, r)
  {
    hide CurveLaws, Attempt, Usable, MadeWith, FirstUsable;
    SignFromMeaning(c, hash, priv, prehash, 0);
    var ctr := 0;
    while ctr < COUNTERS
      invariant ctr <= COUNTERS
      invariant Sign(c, hash, priv, prehash) == SignFrom(c, hash, priv, prehash, ctr)
    {
      r := TryNonce(c, hash, priv, prehash, ctr);
      ctr := ctr + 1;
      if r.Some? {
        return;
      }
    }
    return None;
  }

  // ---------------------------------------------------------------- verification and recovery

  // The point z*G + r*Q.
  function Target<P>(c: Curve<P>, q: P, z: nat, r: nat): P {
    c.group.add(Times(c.group, z, c.base), Times(c.group, r, q))
  }

  // The signing equation s*R == z*G + r*Q for a nonce point R with x coordinate r.
  predicate SigningEquation<P(==)>(c: Curve<P>, q: P, z: nat, p: P, sig: Signature) {
    p != c.group.zero && c.x(p) == sig.r && Times(c.group, sig.s, p) == Target(c, q, z, sig.r)
  }

  // Section 4.1.4: is (r, s) a signature of z under the public key q?
  predicate VerifyEcdsa<P(==)>(c: Curve<P>, q: P, z: nat, sig: Signature)
    requires c.order > 0
  {
    InRange(c.order, sig) &&
    var w := Inv(sig.s, c.order);
    var p := c.group.add(Times(c.group, MulMod(z, w, c.order), c.base), Times(c.group, MulMod(sig.r, w, c.order), q));
    p != c.group.zero && c.x(p) % c.order == sig.r
  }

  // The library verifier also refuses high-S signatures.
  predicate VerifyLowS<P(==)>(c: Curve<P>, q: P, z: nat, sig: Signature)
    requires c.order > 0
  {
    sig.s <= c.order / 2 && VerifyEcdsa(c, q, z, sig)
  }

  function NormalizeS(n: nat, sig: Signature): Signature
    requires sig.s <= n
  {
    if sig.s > n / 2 then Signature(sig.r, n - sig.s) else sig
  }

  // The point a recovery id names: the one with x coordinate r, or r + n for an id of 2 or 3.
  function NoncePoint<P>(c: Curve<P>, sig: Recoverable): Option<P> {
    c.lift(if sig.recid >= 2 then sig.sig.r + c.order else sig.sig.r, sig.recid % 2)
  }

  // r^-1 (s*P - z*G)
  function RecoveredPoint<P>(c: Curve<P>, z: nat, p: P, sig: Signature): P
    requires c.order > 0
  {
    var g := c.group;
    Times(g, Inv(sig.r, c.order), g.add(Times(g, sig.s, p), g.neg(Times(g, z, c.base))))
  }

  // Section 4.1.6: the public key that a recoverable signature of z determines, checked.
  function Recover<P(==)>(c: Curve<P>, z: nat, sig: Recoverable): Option<P>
    requires c.order > 0
  {
    if sig.recid > 3 || !InRange(c.order, sig.sig) then None
    else
      match NoncePoint(c, sig)
      case None => None
      case Some(p) =>
        var q := RecoveredPoint(c, z, p, sig.sig);
        if q == c.group.zero || !VerifyLowS(c, q, z, sig.sig) then None else Some(q)
  }

  // ---------------------------------------------------------------- laws

  lemma MulModIs(a: nat, b: nat, n: nat)
    requires n > 0
    ensures MulMod(a, b, n) == a * b % n && a * b == b * a
  {
  }

  lemma TimesMulMod<P(!new)>(c: Curve<P>, a: nat, b: nat, p: P)
    requires CurveLaws(c) && c.order > 0
    ensures Times(c.group, MulMod(a, b, c.order), p) == Times(c.group, b, Times(c.group, a, p))
    ensures Times(c.group, MulMod(a, b, c.order), p) == Times(c.group, a, Times(c.group, b, p))
  {
    OrderLaws(c, p);
    MulModIs(a, b, c.order);
    hide *;
    TimesMod(c, a * b, p);
    TimesMod(c, b * a, p);
    TimesTimes(c.group, b, a, p);
    TimesTimes(c.group, a, b, p);
  }

  lemma TargetIs<P(!new)>(c: Curve<P>, q: P, z: nat, r: nat)
    ensures Target(c, q, z, r) == c.group.add(Times(c.group, z, c.base), Times(c.group, r, q))
  {
  }

  // The point the verifier computes is the w-fold of z*G + r*Q.
  lemma VerifierPoint<P(!new)>(c: Curve<P>, q: P, z: nat, r: nat, w: nat)
    requires CurveLaws(c) && c.order > 0
    ensures c.group.add(Times(c.group, MulMod(z, w, c.order), c.base), Times(c.group, MulMod(r, w, c.order), q))
            == Times(c.group, w, Target(c, q, z, r))
  {
    hide *;
    OrderLaws(c, q);
    TimesMulMod(c, z, w, c.base);
    TimesMulMod(c, r, w, q);
    TimesSum(c.group, w, Times(c.group, z, c.base), Times(c.group, r, q));
    TargetIs(c, q, z, r);
  }

  // A signature verifies exactly when both numbers lie strictly between 0 and n and the point that
  // solves the equation has x coordinate r mod n.
  lemma VerifyMeaning<P(!new)>(c: Curve<P>, q: P, z: nat, sig: Signature, p: P)
    requires CurveLaws(c)
    requires Times(c.group, sig.s, p) == Target(c, q, z, sig.r)
    ensures VerifyEcdsa(c, q, z, sig)
            <==> 0 < sig.r < c.order && 0 < sig.s < c.order && p != c.group.zero && c.x(p) % c.order == sig.r
  {
    hide Times, Target, Inv, Laws, Prime, CurveLaws, MulMod;
    OrderLaws(c, q);
    if InRange(c.order, sig) {
      VerifierPoint(c, q, z, sig.r, Inv(sig.s, c.order));
      TimesInv(c, sig.s, p);
    }
  }

  lemma SolvedVerifies<P(!new)>(c: Curve<P>, q: P, z: nat, p: P, sig: Signature)
    requires CurveLaws(c) && InRange(c.order, sig) && SigningEquation(c, q, z, p, sig)
    ensures VerifyEcdsa(c, q, z, sig)
  {
    hide Times, Target, Inv, Laws, Prime, CurveLaws, VerifyEcdsa;
    VerifyMeaning(c, q, z, sig, p);
  }

  // Replacing s by n - s replaces the nonce point by its negation and keeps the equation.
  lemma FlipSolution<P(!new)>(c: Curve<P>, q: P, z: nat, p: P, sig: Signature)
    requires CurveLaws(c) && sig.s <= c.order && SigningEquation(c, q, z, p, sig)
    ensures SigningEquation(c, q, z, c.group.neg(p), Signature(sig.r, c.order - sig.s))
  {
    hide Times, Target, Laws, CurveLaws;
    OrderLaws(c, p);
    NegPoint(c, p);
    TimesComplement(c, sig.s, c.group.neg(p));
    TimesNeg(c.group, sig.s, p);
    NegNeg(c.group, Times(c.group, sig.s, p));
  }

  lemma NegZeroIff<P(!new)>(c: Curve<P>, p: P)
    requires CurveLaws(c)
    ensures p == c.group.zero <==> c.group.neg(p) == c.group.zero
  {
    hide CurveLaws, Laws;
    OrderLaws(c, p);
    Inverse(c.group, p);
    Zero(c.group, c.group.neg(p));
    Zero(c.group, p);
  }

  // normalize_s changes no verdict of the plain verification equation.
  lemma FlipVerifies<P(!new)>(c: Curve<P>, q: P, z: nat, sig: Signature)
    requires CurveLaws(c) && InRange(c.order, sig)
    ensures VerifyEcdsa(c, q, z, sig) <==> VerifyEcdsa(c, q, z, Signature(sig.r, c.order - sig.s))
    ensures VerifyLowS(c, q, z, NormalizeS(c.order, sig)) <==> VerifyEcdsa(c, q, z, sig)
  {
    hide Times, Target, Inv, Laws, CurveLaws, VerifyEcdsa;
    OrderLaws(c, q);
    var g := c.group;
    var t := Target(c, q, z, sig.r);
    var p := Times(g, Inv(sig.s, c.order), t);
    TimesInv(c, sig.s, t);
    VerifyMeaning(c, q, z, sig, p);
    TimesComplement(c, sig.s, g.neg(p));
    TimesNeg(g, sig.s, p);
    NegNeg(g, t);
    VerifyMeaning(c, q, z, Signature(sig.r, c.order - sig.s), g.neg(p));
    NegZeroIff(c, p);
    if p != g.zero {
      NegPoint(c, p);
    }
  }

  // A low-S signature in range that solves the signing equation at the point its id names.
  predicate Solved<P(==)>(c: Curve<P>, q: P, z: nat, sig: Recoverable) {
    && InRange(c.order, sig.sig) && sig.sig.s <= c.order / 2 && sig.recid < 2
    && c.lift(sig.sig.r, sig.recid).Some?
    && SigningEquation(c, q, z, c.lift(sig.sig.r, sig.recid).value, sig.sig)
  }

  lemma NonceBound(hash: Hash, n: nat, priv: nat, prehash: seq<byte>, ctr: nat)
    requires n > 0
    ensures Nonce(hash, n, priv, prehash, ctr) < n
  {
  }

  // s = k^-1 (z + r d) mod n gives s * kG == zG + r * dG.
  lemma NonceEquation<P(!new)>(c: Curve<P>, k: nat, z: nat, r: nat, priv: nat)
    requires CurveLaws(c) && 0 < k < c.order
    ensures Times(c.group, MulMod(Inv(k, c.order), z + r * priv, c.order), Times(c.group, k, c.base))
            == Target(c, Times(c.group, priv, c.base), z, r)
  {
    hide *;
    OrderLaws(c, c.base);
    var g := c.group;
    TimesMulMod(c, Inv(k, c.order), z + r * priv, Times(g, k, c.base));
    TimesInv(c, k, c.base);
    TimesAdd(g, z, r * priv, c.base);
    TimesTimes(g, r, priv, c.base);
    TargetIs(c, Times(g, priv, c.base), z, r);
  }

  // What the signing loop produces: a low-S signature whose nonce point the recovery id names.
  lemma AttemptSolves<P(!new)>(c: Curve<P>, hash: Hash, priv: nat, prehash: seq<byte>, ctr: nat)
    requires CurveLaws(c) && c.order > 0
    requires Attempt(c, hash, priv, prehash, ctr).Some?
    ensures Solved(c, Times(c.group, priv, c.base), FromBE(prehash), Attempt(c, hash, priv, prehash, ctr).value)
  {
    hide Times, Target, Inv, Laws, Prime, CurveLaws, Nonce, MulMod;
    OrderLaws(c, c.base);
    var (g, n, z) := (c.group, c.order, FromBE(prehash));
    var k := Nonce(hash, n, priv, prehash, ctr);
    NonceBound(hash, n, priv, prehash, ctr);
    var p := Times(g, k, c.base);
    var q := Times(g, priv, c.base);
    var r := c.x(p);
    var s := MulMod(Inv(k, n), z + r * priv, n);
    NonceEquation(c, k, z, r, priv);
    NonzeroMultiple(c, k);
    LiftPoint(c, p);
    var sig := Signature(r, s);
    assert SigningEquation(c, q, z, p, sig);
    if s > n / 2 {
      FlipSolution(c, q, z, p, sig);
      NegPoint(c, p);
      LiftPoint(c, g.neg(p));
    }
  }

  lemma {:induction false} SignSolves<P(!new)>(c: Curve<P>, hash: Hash, priv: nat, prehash: seq<byte>, ctr: nat)
    requires CurveLaws(c) && c.order > 0
    requires SignFrom(c, hash, priv, prehash, ctr).Some?
    ensures Solved(c, Times(c.group, priv, c.base), FromBE(prehash), SignFrom(c, hash, priv, prehash, ctr).value)
    decreases COUNTERS - ctr
  {
    hide CurveLaws, Attempt, Solved, Times;
    if Attempt(c, hash, priv, prehash, ctr).Some? {
      AttemptSolves(c, hash, priv, prehash, ctr);
    } else {
      SignSolves(c, hash, priv, prehash, ctr + 1);
    }
  }

  lemma RecoveredKey<P(!new)>(c: Curve<P>, q: P, z: nat, p: P, sig: Signature)
    requires CurveLaws(c) && 0 < sig.r < c.order
    requires Times(c.group, sig.s, p) == Target(c, q, z, sig.r)
    ensures var g := c.group;
            Times(g, Inv(sig.r, c.order), g.add(Times(g, sig.s, p), g.neg(Times(g, z, c.base)))) == q
  {
    hide *;
    OrderLaws(c, q);
    TargetIs(c, q, z, sig.r);
    AddThenRemove(c.group, Times(c.group, z, c.base), Times(c.group, sig.r, q));
    TimesInv(c, sig.r, q);
  }

  // Recovery inverts signing, through the low-S flip: it finds exactly the signer's key.
  lemma RecoverSolved<P(!new)>(c: Curve<P>, q: P, z: nat, sig: Recoverable)
    requires CurveLaws(c) && c.order > 0 && q != c.group.zero
    requires Solved(c, q, z, sig)
    ensures Recover(c, z, sig) == Some(q)
  {
    hide Times, Inv, Laws, Prime, CurveLaws, VerifyEcdsa, Target;
    var p := c.lift(sig.sig.r, sig.recid).value;
    RecoveredKey(c, q, z, p, sig.sig);
    SolvedVerifies(c, q, z, p, sig.sig);
  }

  predicate Recovers<P(==)>(c: Curve<P>, q: P, z: nat, sig: Recoverable) {
    && sig.recid <= 3 && InRange(c.order, sig.sig) && sig.sig.s <= c.order / 2
    && q != c.group.zero
    && match c.lift(if sig.recid >= 2 then sig.sig.r + c.order else sig.sig.r, sig.recid % 2)
       case None => false
       case Some(p) =>
         Times(c.group, sig.sig.s, p)
         == c.group.add(Times(c.group, z, c.base), Times(c.group, sig.sig.r, q))
  }

  lemma NonceCoordinate(n: nat, sig: Recoverable)
    requires InRange(n, sig.sig)
    ensures (if sig.recid >= 2 then sig.sig.r + n else sig.sig.r) % n == sig.sig.r
  {
    DivMod(sig.sig.r, 0, n, sig.sig.r);
    DivMod(sig.sig.r + n, 1, n, sig.sig.r);
  }

  lemma RecoveredIs<P(!new)>(c: Curve<P>, z: nat, p: P, sig: Signature)
    requires c.order > 0
    ensures var g := c.group;
            RecoveredPoint(c, z, p, sig)
            == Times(g, Inv(sig.r, c.order), g.add(Times(g, sig.s, p), g.neg(Times(g, z, c.base))))
  {
  }

  lemma RecoveredSolves<P(!new)>(c: Curve<P>, z: nat, p: P, sig: Signature)
    requires CurveLaws(c) && 0 < sig.r < c.order
    ensures Times(c.group, sig.s, p) == Target(c, RecoveredPoint(c, z, p, sig), z, sig.r)
  {
    OrderLaws(c, p);
    RecoveredIs(c, z, p, sig);
    hide *;
    var g := c.group;
    var (a, b) := (Times(g, sig.s, p), Times(g, z, c.base));
    TimesInv(c, sig.r, g.add(a, g.neg(b)));
    TargetIs(c, RecoveredPoint(c, z, p, sig), z, sig.r);
    RestoreRemoved(g, a, b);
  }

  // Recovery returns q exactly when q is a public key under which the named nonce point solves
  // the signing equation, for a low-S signature in range.
  lemma RecoverMeaning<P(!new)>(c: Curve<P>, q: P, z: nat, sig: Recoverable)
    requires CurveLaws(c) && c.order > 0
    ensures Recover(c, z, sig) == Some(q) <==> Recovers(c, q, z, sig)
    ensures Recovers(c, q, z, sig) ==> VerifyLowS(c, q, z, sig.sig)
  {
    hide Times, Inv, Laws, Prime, CurveLaws, VerifyEcdsa, Target;
    OrderLaws(c, q);
    if sig.recid <= 3 && InRange(c.order, sig.sig) && NoncePoint(c, sig).Some? {
      var x := if sig.recid >= 2 then sig.sig.r + c.order else sig.sig.r;
      var p := NoncePoint(c, sig).value;
      var g := c.group;
      var key := RecoveredPoint(c, z, p, sig.sig);
      RecoveredSolves(c, z, p, sig.sig);
      if Times(g, sig.sig.s, p) == Target(c, q, z, sig.sig.r) {
        RecoveredKey(c, q, z, p, sig.sig);
      }
      LiftedPoint(c, x, sig.recid % 2);
      NonceCoordinate(c.order, sig);
      TargetIs(c, q, z, sig.sig.r);
      VerifyMeaning(c, key, z, sig.sig, p);
    }
  }
}
