/**
 Minting, parsing and verifying a card attestation: A0 { 8A certificate, DER challenge signature }
 with certificate = identity key (33) || CA signature (64) || recovery id (1).
 */
module Attestation {
  import opened Bits
  import opened Wrappers
  import opened Text
  import opened TextLaws
  import opened BigEndian
  import opened Groups
  import opened Curves
  import opened Ecdsa
  import Der
  import Tlv
  import Keccak256

  const DOMAIN: seq<byte> := [
    0x6c, 0x6f, 0x67, 0x6f, 0x73, 0x2f, 0x72, 0x6c, 0x6e, 0x2f, 0x6b, 0x65, 0x79, 0x63, 0x61, 0x72, 0x64,
    0x2d, 0x61, 0x74, 0x74, 0x65, 0x73, 0x74, 0x2f, 0x31]

  const TAG_TEMPLATE: byte := 0xA0
  const TAG_CERTIFICATE: byte := 0x8A
  const TAG_SIGNATURE: byte := 0x30

  function BoundChallenge(hash: Hash, idCommitment: seq<byte>): seq<byte> {
    hash(DOMAIN + idCommitment)
  }

  lemma DomainText()
    ensures DOMAIN == Utf8("logos/rln/keycard-attest/1")
  {
    hide Utf8;
    var s := "logos/rln/keycard-attest/1";
    Utf8Ascii(s);
    assert forall i :: 0 <= i < 26 ==> DOMAIN[i] == s[i] as int;
  }

  // What the card signs: the hash of the domain text and the commitment.
  lemma ChallengeMeaning(hash: Hash, idCommitment: seq<byte>)
    ensures BoundChallenge(hash, idCommitment) == hash(Utf8("logos/rln/keycard-attest/1") + idCommitment)
  {
    DomainText();
  }

  // ---------------------------------------------------------------- keys and signatures as bytes

  // SEC 1, section 2.3.3, compressed.
  function Compress<P>(c: Curve<P>, p: P): (k: seq<byte>)
    ensures |k| == 33
  {
    [2 + c.y(p) % 2] + ToBE(c.x(p), 32)
  }

  // SEC 1, section 2.3.4, for 33 bytes.
  function Decompress<P>(c: Curve<P>, k: seq<byte>): Option<P> {
    if |k| != 33 || !(k[0] == 2 || k[0] == 3) then None else c.lift(FromBE(k[1..]), k[0] - 2)
  }

  function CertificateOf(identPub: seq<byte>, sig: Recoverable): seq<byte>
    requires sig.recid < 256
  {
    identPub + ToBE(sig.sig.r, 32) + ToBE(sig.sig.s, 32) + [sig.recid]
  }

  function CaSignature(caSig: seq<byte>): Recoverable
    requires |caSig| == 65
  {
    Recoverable(Signature(FromBE(caSig[..32]), FromBE(caSig[32..64])), caSig[64])
  }

  // ---------------------------------------------------------------- minting

  datatype Minted = Minted(tlv: seq<byte>, challenge: seq<byte>, caPub: seq<byte>, identPub: seq<byte>,
      nullifier: seq<byte>)

  // None when a signing loop runs out of counters.
  function Mint<P(!new)>(c: Curve<P>, hash: Hash, caPriv: nat, cardPriv: nat, idCommitment: seq<byte>): Option<Minted>
    requires c.order > 0
  {
    var identPub := Compress(c, Times(c.group, cardPriv, c.base));
    var challenge := BoundChallenge(hash, idCommitment);
    match Sign(c, hash, caPriv, hash(identPub))
    case None => None
    case Some(ca) =>
      match Sign(c, hash, cardPriv, challenge)
      case None => None
      case Some(card) =>
        if ca.recid >= 256 || !Der.ShortInteger(card.sig.r) || !Der.ShortInteger(card.sig.s) then None
        else
          var template := Tlv.Print(TAG_CERTIFICATE, CertificateOf(identPub, ca)) + Der.Encode(card.sig);
          Some(Minted(Tlv.Print(TAG_TEMPLATE, template), challenge,
                      Compress(c, Times(c.group, caPriv, c.base)), identPub, Keccak256.Digest(identPub)))
  }

  // ---------------------------------------------------------------- parsing

  datatype Attestation = Attestation(identPub: seq<byte>, caSig: seq<byte>, challengeSig: Signature)

  function Parse(order: nat, tlv: seq<byte>): (r: Result<Attestation, string>)
    ensures r.Ok? ==> |r.value.identPub| == 33 && |r.value.caSig| == 65 && InRange(order, r.value.challengeSig)
  {
    match Tlv.Find(tlv, TAG_TEMPLATE)
    case Err(e) => Err(e)
    case Ok((template, _)) =>
      match Tlv.Find(template, TAG_CERTIFICATE)
      case Err(e) => Err(e)
      case Ok((cert, _)) =>
        if |cert| != 98 then Err("certificate must be 98 bytes")
        else
          match Tlv.Find(template, TAG_SIGNATURE)
          case Err(e) => Err(e)
          case Ok((_, der)) =>
            match Der.Decode(order, der)
            case None => Err("challenge sig DER")
            case Some(sig) => Ok(Attestation(cert[..33], cert[33..], sig))
  }

  // ---------------------------------------------------------------- verifying

  datatype Error = Backend(message: string) | InvalidSignature | InvalidInput(message: string)

  function Verify<P(!new,==)>(c: Curve<P>, hash: Hash, att: Attestation, trusted: seq<seq<byte>>, challenge: seq<byte>)
    : Result<seq<byte>, Error>
    requires c.order > 0 && |att.identPub| == 33 && |att.caSig| == 65
  {
    var ca := CaSignature(att.caSig);
    if ca.recid > 3 then Err(InvalidInput("bad CA recovery id"))
    else if !InRange(c.order, ca.sig) then Err(InvalidInput("CA sig"))
    else
      match Recover(c, FromBE(hash(att.identPub)), ca)
      case None => Err(InvalidInput("CA recover"))
      case Some(key) =>
        if Compress(c, key) !in trusted then Err(Backend("attestation CA is not trusted"))
        else
          match Decompress(c, att.identPub)
          case None => Err(InvalidInput("ident pub"))
          case Some(ident) =>
            if att.challengeSig.s <= c.order &&
               VerifyLowS(c, ident, FromBE(challenge), NormalizeS(c.order, att.challengeSig))
            then Ok(Keccak256.Digest(att.identPub))
            else Err(InvalidSignature)
  }

  // ---------------------------------------------------------------- laws

  lemma CompressInverse<P(!new)>(c: Curve<P>, p: P)
    requires CurveLaws(c) && p != c.group.zero
    ensures Decompress(c, Compress(c, p)) == Some(p)
  {
    hide CurveLaws, FromBE, ToBE;
    LiftPoint(c, p);
    WordSizes();
    FromToBE(c.x(p), 32);
    assert Compress(c, p)[1..] == ToBE(c.x(p), 32);
  }

  // A key decompresses to a point exactly when it is that point's compressed form.
  lemma DecompressMeaning<P(!new)>(c: Curve<P>, k: seq<byte>, p: P)
    requires CurveLaws(c)
    ensures Decompress(c, k) == Some(p) <==> p != c.group.zero && k == Compress(c, p)
  {
    hide CurveLaws, FromBE, ToBE;
    if p != c.group.zero && k == Compress(c, p) {
      CompressInverse(c, p);
    }
    if Decompress(c, k) == Some(p) {
      LiftedPoint(c, FromBE(k[1..]), k[0] - 2);
      ToFromBE(k[1..]);
      assert k == [k[0]] + k[1..];
    }
  }

  // Different points have different encodings.
  lemma CompressInjective<P(!new)>(c: Curve<P>, p: P, q: P)
    requires CurveLaws(c) && p != c.group.zero && q != c.group.zero
    requires Compress(c, p) == Compress(c, q)
    ensures p == q
  {
    CompressInverse(c, p);
    CompressInverse(c, q);
  }

  lemma CertificateFields(order: nat, identPub: seq<byte>, sig: Recoverable)
    requires |identPub| == 33 && sig.recid < 2 && InRange(order, sig.sig) && order <= Pow2(8 * 32)
    ensures var cert := CertificateOf(identPub, sig);
            |cert| == 98 && cert[..33] == identPub && CaSignature(cert[33..]) == sig
  {
    hide FromBE, ToBE;
    var (r, s) := (ToBE(sig.sig.r, 32), ToBE(sig.sig.s, 32));
    var cert := CertificateOf(identPub, sig);
    FromToBE(sig.sig.r, 32);
    FromToBE(sig.sig.s, 32);
    assert cert[33..] == r + s + [sig.recid];
    assert cert[33..][..32] == r && cert[33..][32..64] == s;
  }

  // The DER signature is itself a TLV element with tag 0x30.
  lemma DerIsTlv(sig: Signature)
    requires Der.ShortInteger(sig.r) && Der.ShortInteger(sig.s)
    ensures var der := Der.Encode(sig);
            8 <= |der| <= 72 && der == Tlv.Print(TAG_SIGNATURE, der[2..])
  {
    hide Der.EncodeInteger, Der.ShortInteger;
    Der.EncodedSize(sig.r);
    Der.EncodedSize(sig.s);
    var der := Der.Encode(sig);
    assert der == [0x30, |der[2..]|] + der[2..];
  }

  lemma PrintOne(items: seq<Tlv.Item>)
    requires |items| == 1 && Tlv.Printable(items)
    ensures Tlv.PrintAll(items) == Tlv.Print(items[0].tag, items[0].value)
    ensures Tlv.FirstWith(items, items[0].tag) == Some(items[0])
  {
    assert items[1..] == [];
  }

  lemma PrintTwo(items: seq<Tlv.Item>)
    requires |items| == 2 && Tlv.Printable(items)
    ensures Tlv.PrintAll(items) == Tlv.Print(items[0].tag, items[0].value) + Tlv.Print(items[1].tag, items[1].value)
  {
    PrintOne(items[1..]);
  }

  lemma FirstOfTwo(items: seq<Tlv.Item>)
    requires |items| == 2 && items[0].tag != items[1].tag
    ensures Tlv.FirstWith(items, items[0].tag) == Some(items[0])
    ensures Tlv.FirstWith(items, items[1].tag) == Some(items[1])
  {
    assert items[1..][0] == items[1];
  }

  // Parsing the printed template finds the certificate and the challenge signature.
  lemma ParseTemplate(order: nat, cert: seq<byte>, sig: Signature)
    requires |cert| == 98 && order <= Pow2(8 * 32) && InRange(order, sig)
    ensures Der.ShortInteger(sig.r) && Der.ShortInteger(sig.s)
    ensures var template := Tlv.Print(TAG_CERTIFICATE, cert) + Der.Encode(sig);
            |template| < 0x1_0000
                && Parse(order, Tlv.Print(TAG_TEMPLATE, template)) == Ok(Attestation(cert[..33], cert[33..], sig))
  {
    hide Der.Encode, Der.Decode, Der.ShortInteger, Tlv.Find;
    Der.DecodeEncoded(order, sig);
    DerIsTlv(sig);
    var der := Der.Encode(sig);
    var template := Tlv.Print(TAG_CERTIFICATE, cert) + der;
    var items := [Tlv.Item(TAG_CERTIFICATE, cert), Tlv.Item(TAG_SIGNATURE, der[2..])];
    PrintTwo(items);
    Tlv.FindPrinted(items, TAG_CERTIFICATE);
    Tlv.FindPrinted(items, TAG_SIGNATURE);
    FirstOfTwo(items);
    var outer := [Tlv.Item(TAG_TEMPLATE, template)];
    PrintOne(outer);
    Tlv.FindPrinted(outer, TAG_TEMPLATE);
  }

  lemma SignedInRange<P(!new)>(c: Curve<P>, hash: Hash, priv: nat, prehash: seq<byte>)
    requires CurveLaws(c) && c.order > 0 && Sign(c, hash, priv, prehash).Some?
    ensures var sig := Sign(c, hash, priv, prehash).value;
            Solved(c, Times(c.group, priv, c.base), FromBE(prehash), sig) && InRange(c.order, sig.sig) && sig.recid < 2
  {
    hide CurveLaws, SignFrom, Times, SigningEquation;
    SignSolves(c, hash, priv, prehash, 0);
  }

  // A minted attestation parses to the keys and signatures it was made of.
  lemma MintParses<P(!new)>(c: Curve<P>, hash: Hash, caPriv: nat, cardPriv: nat, idCommitment: seq<byte>)
    requires CurveLaws(c) && c.order > 0
    requires Sign(c, hash, caPriv, hash(Compress(c, Times(c.group, cardPriv, c.base)))).Some?
    requires Sign(c, hash, cardPriv, hash(Utf8("logos/rln/keycard-attest/1") + idCommitment)).Some?
    ensures var identPub := Compress(c, Times(c.group, cardPriv, c.base));
            var ca := Sign(c, hash, caPriv, hash(identPub)).value;
            var card := Sign(c, hash, cardPriv, hash(Utf8("logos/rln/keycard-attest/1") + idCommitment)).value;
            var m := Mint(c, hash, caPriv, cardPriv, idCommitment);
            && m.Some?
            && Parse(c.order, m.value.tlv).Ok?
            && var att := Parse(c.order, m.value.tlv).value;
               att.identPub == identPub == m.value.identPub && |att.caSig| == 65 && CaSignature(att.caSig) == ca
                   && att.challengeSig == card.sig
  {
    hide Compress, Sign, Parse, CertificateOf, Times, Tlv.Print, Der.Encode, Der.ShortInteger, Utf8, BoundChallenge;
    ChallengeMeaning(hash, idCommitment);
    var identPub := Compress(c, Times(c.group, cardPriv, c.base));
    var challenge := BoundChallenge(hash, idCommitment);
    var ca := Sign(c, hash, caPriv, hash(identPub)).value;
    var card := Sign(c, hash, cardPriv, challenge).value;
    SignedInRange(c, hash, caPriv, hash(identPub));
    SignedInRange(c, hash, cardPriv, challenge);
    WordSizes();
    OrderLaws(c, c.base);
    CertificateFields(c.order, identPub, ca);
    ParseTemplate(c.order, CertificateOf(identPub, ca), card.sig);
  }

  // What a minted attestation consists of, byte for byte; both signatures were made.
  lemma MintedFields<P(!new)>(c: Curve<P>, hash: Hash, caPriv: nat, cardPriv: nat, idCommitment: seq<byte>)
    requires c.order > 0 && Mint(c, hash, caPriv, cardPriv, idCommitment).Some?
    ensures var m := Mint(c, hash, caPriv, cardPriv, idCommitment).value;
            var ca := Sign(c, hash, caPriv, hash(m.identPub));
            var card := Sign(c, hash, cardPriv, m.challenge);
            && m.identPub == Compress(c, Times(c.group, cardPriv, c.base))
            && m.caPub == Compress(c, Times(c.group, caPriv, c.base))
            && m.challenge == hash(Utf8("logos/rln/keycard-attest/1") + idCommitment)
            && m.nullifier == Keccak256.Digest(m.identPub)
            && ca.Some? && card.Some?
            && ca.value.recid < 256 && Der.ShortInteger(card.value.sig.r) && Der.ShortInteger(card.value.sig.s)
            && var cert := m.identPub + ToBE(ca.value.sig.r, 32) + ToBE(ca.value.sig.s, 32) + [ca.value.recid];
               var der := Der.Encode(card.value.sig);
               && |cert| == 98 && |Tlv.Print(0x8A, cert) + der| < 0x1_0000
               && m.tlv == Tlv.Print(0xA0, Tlv.Print(0x8A, cert) + der)
  {
    hide Compress, Sign, Times, Keccak256.Digest, BoundChallenge, Utf8, ToBE, FromBE, Der.IntegerContent;
    ChallengeMeaning(hash, idCommitment);
  }

  // The end-to-end law: whatever the keys and the commitment, a minted attestation is accepted
  // for its CA and its challenge and yields the nullifier of the card's identity key.
  lemma MintedIsAccepted<P(!new)>(
    c: Curve<P>, hash: Hash, caPriv: nat, cardPriv: nat, idCommitment: seq<byte>, trusted: seq<seq<byte>>)
    requires CurveLaws(c) && 0 < caPriv < c.order && 0 < cardPriv < c.order
    requires Mint(c, hash, caPriv, cardPriv, idCommitment).Some?
    requires Mint(c, hash, caPriv, cardPriv, idCommitment).value.caPub in trusted
    ensures var m := Mint(c, hash, caPriv, cardPriv, idCommitment).value;
            && Parse(c.order, m.tlv).Ok?
            && Parse(c.order, m.tlv).value.identPub == m.identPub
            && m.challenge == hash(Utf8("logos/rln/keycard-attest/1") + idCommitment)
            && m.nullifier == Keccak256.Digest(m.identPub)
            && |m.identPub| == 33 && |Parse(c.order, m.tlv).value.caSig| == 65
            && Verify(c, hash, Parse(c.order, m.tlv).value, trusted,
                      hash(Utf8("logos/rln/keycard-attest/1") + idCommitment))
               == Ok(m.nullifier)
  {
    hide CurveLaws, Sign, Times, Parse, SigningEquation, VerifyEcdsa, Recover, CaSignature, Decompress;
    hide Compress, Keccak256.Digest, Der.ShortInteger, Utf8, BoundChallenge;
    ChallengeMeaning(hash, idCommitment);
    MintedFields(c, hash, caPriv, cardPriv, idCommitment);
    MintParses(c, hash, caPriv, cardPriv, idCommitment);
    var challenge := BoundChallenge(hash, idCommitment);
    var (caKey, cardKey) := (Times(c.group, caPriv, c.base), Times(c.group, cardPriv, c.base));
    NonzeroMultiple(c, caPriv);
    NonzeroMultiple(c, cardPriv);
    var identPub := Compress(c, cardKey);
    var ca := Sign(c, hash, caPriv, hash(identPub)).value;
    SignedInRange(c, hash, caPriv, hash(identPub));
    RecoverSolved(c, caKey, FromBE(hash(identPub)), ca);
    CompressInverse(c, cardKey);
    var card := Sign(c, hash, cardPriv, challenge).value;
    SignedInRange(c, hash, cardPriv, challenge);
    SolvedVerifies(c, cardKey, FromBE(challenge), c.lift(card.sig.r, card.recid).value, card.sig);
    FlipVerifies(c, cardKey, FromBE(challenge), card.sig);
  }

  // The identity key signed the challenge, with s high or low; and a trusted CA key solves the
  // signing equation of the certificate at the point its recovery id names.
  predicate Genuine<P(==)>(
    c: Curve<P>, hash: Hash, att: Attestation, trusted: seq<seq<byte>>, challenge: seq<byte>, ident: P, ca: P)
    requires c.order > 0 && |att.caSig| == 65
  {
    && Decompress(c, att.identPub) == Some(ident)
    && VerifyEcdsa(c, ident, FromBE(challenge), att.challengeSig)
    && Compress(c, ca) in trusted
    && Recovers(c, ca, FromBE(hash(att.identPub)), CaSignature(att.caSig))
  }

  lemma RecoveryNeeds<P(!new)>(c: Curve<P>, z: nat, sig: Recoverable)
    requires c.order > 0
    ensures Recover(c, z, sig).Some? ==> sig.recid <= 3 && InRange(c.order, sig.sig)
  {
  }

  // What acceptance means, for every parsed attestation: in particular an identity key that
  // does not decompress is refused, and so is a certificate no trusted CA signed.
  lemma AcceptedMeaning<P(!new)>(c: Curve<P>, hash: Hash, att: Attestation, trusted: seq<seq<byte>>,
      challenge: seq<byte>)
    requires CurveLaws(c) && c.order > 0 && |att.identPub| == 33 && |att.caSig| == 65
    requires InRange(c.order, att.challengeSig)
    ensures Verify(c, hash, att, trusted, challenge).Ok? <==>
              exists ident, ca :: Genuine(c, hash, att, trusted, challenge, ident, ca)
    ensures Verify(c, hash, att, trusted, challenge).Ok? ==>
              Verify(c, hash, att, trusted, challenge).value == Keccak256.Digest(att.identPub)
  {
    hide CurveLaws, VerifyEcdsa, Recover, Recovers, CaSignature, Decompress, Compress, Keccak256.Digest;
    var z := FromBE(hash(att.identPub));
    var sig := CaSignature(att.caSig);
    RecoveryNeeds(c, z, sig);
    var ident := Decompress(c, att.identPub);
    var key := Recover(c, z, sig);
    if ident.Some? {
      FlipVerifies(c, ident.value, FromBE(challenge), att.challengeSig);
      if key.Some? {
        RecoverMeaning(c, key.value, z, sig);
        assert Verify(c, hash, att, trusted, challenge).Ok? ==>
            Genuine(c, hash, att, trusted, challenge, ident.value, key.value);
      }
    }
    forall p, ca | Genuine(c, hash, att, trusted, challenge, p, ca)
      ensures Verify(c, hash, att, trusted, challenge).Ok?
    {
      RecoverMeaning(c, ca, z, sig);
    }
  }
}
