/**
 The verifier module of the keycard vector: it takes the payload for an attestation and accepts a
 genuine one bound to the requested commitment, with the card's nullifier.
 */
module KeycardVector {
  import opened Bits
  import opened Wrappers
  import opened Text
  import opened Curves
  import opened Ecdsa
  import Attestation
  import Keccak256
  import opened GifterServer

  const AUTH_TYPE := "keycard-attestation"

  const NO_CAS := "config.trusted_cas is empty \U{2014} nothing can verify"

  // The operator's configuration, read as the list of trusted CA keys.
  type TrustedList = Option<string> -> Result<seq<seq<byte>>, string>

  function Reject(reason: string): VerifyReply {
    Verdict(false, Some(reason), None)
  }

  function Judgement<P(!new,==)>(
    c: Curve<P>, hash: Hash, cas: seq<seq<byte>>, payload: seq<byte>, idCommitment: seq<byte>): VerifyReply
    requires c.order > 0
  {
    match Attestation.Parse(c.order, payload)
    case Err(e) => Reject("attestation parse failed: " + e)
    case Ok(att) =>
      match Attestation.Verify(c, hash, att, cas, Attestation.BoundChallenge(hash, idCommitment))
      case Ok(nullifier) => Verdict(true, None, Some(HexEncode(nullifier)))
      case Err(_) => Reject("attestation verification failed")
  }

  // What verify_auth replies: an error for another type or a bad configuration, and otherwise a
  // verdict.
  function Reply<P(!new,==)>(c: Curve<P>, hash: Hash, trusted: TrustedList, req: VerifyRequest): VerifyReply
    requires c.order > 0
  {
    if req.authType != AUTH_TYPE then BadReply("unknown auth_type '" + req.authType + "' on this module")
    else
      var cas := trusted(req.config);
      if cas.Err? then BadReply(cas.error)
      else if |cas.value| == 0 then BadReply(NO_CAS)
      else
        var payload := HexDecode(Strip0x(req.payloadHex));
        var idCommitment := HexDecode(Strip0x(req.idCommitmentHex));
        if payload.None? then Reject("payload hex")
        else if idCommitment.None? then Reject("id_commitment hex")
        else Judgement(c, hash, cas.value, payload.value, idCommitment.value)
  }

  // A request of the gifter is judged by the bytes it carries.
  lemma ReplyToGifter<P(!new)>(
    c: Curve<P>, hash: Hash, trusted: TrustedList, payload: seq<byte>, idCommitment: seq<byte>, rate: u64,
    config: Option<string>)
    requires c.order > 0
    ensures var req := VerifyRequest("keycard-attestation", HexEncode(payload), HexEncode(idCommitment), rate, config);
            Reply(c, hash, trusted, req) ==
            if trusted(config).Err? then BadReply(trusted(config).error)
            else if |trusted(config).value| == 0 then BadReply(NO_CAS)
            else Judgement(c, hash, trusted(config).value, payload, idCommitment)
  {
    hide HexEncode, HexDecode, Strip0x, Judgement;
    HexHasNoPrefix(payload);
    HexRoundTrip(payload);
    HexHasNoPrefix(idCommitment);
    HexRoundTrip(idCommitment);
  }

  // The judgement, in full: the payload parses, a trusted CA signed its identity key, and that
  // key signed the hash of the domain text and this very commitment.
  lemma JudgementMeaning<P(!new)>(
    c: Curve<P>, hash: Hash, cas: seq<seq<byte>>, payload: seq<byte>, idCommitment: seq<byte>)
    requires CurveLaws(c) && c.order > 0
    ensures var reply := Judgement(c, hash, cas, payload, idCommitment);
            var parsed := Attestation.Parse(c.order, payload);
            var challenge := hash(Utf8("logos/rln/keycard-attest/1") + idCommitment);
            && reply.Verdict?
            && (reply.ok <==>
                  parsed.Ok? && exists ident,
                      ca :: Attestation.Genuine(c, hash, parsed.value, cas, challenge, ident, ca))
            && (reply.ok ==> reply.nullifier == Some(HexEncode(Keccak256.Digest(parsed.value.identPub))))
            && (!reply.ok ==> reply.nullifier == None)
  {
    hide CurveLaws, Attestation.Parse, Attestation.Verify, Attestation.Genuine, Attestation.BoundChallenge;
    hide Keccak256.Digest, HexEncode, Utf8;
    Attestation.ChallengeMeaning(hash, idCommitment);
    var parsed := Attestation.Parse(c.order, payload);
    if parsed.Ok? {
      Attestation.AcceptedMeaning(c, hash, parsed.value, cas, hash(Utf8("logos/rln/keycard-attest/1") + idCommitment));
    }
  }

  // Another vector's requests, and unusable configurations, are answered with an error.
  lemma RepliesWithError<P(!new)>(c: Curve<P>, hash: Hash, trusted: TrustedList, req: VerifyRequest)
    requires c.order > 0
    ensures req.authType != "keycard-attestation" || trusted(req.config).Err? || trusted(req.config).value == [] <==>
              Reply(c, hash, trusted, req).BadReply?
  {
    hide HexDecode, Strip0x, Attestation.Parse, Attestation.Verify;
  }

  // Whatever is accepted is accepted with the nullifier of the attestation's identity key.
  lemma AcceptedNullifier<P(!new)>(c: Curve<P>, hash: Hash, cas: seq<seq<byte>>, payload: seq<byte>,
      idCommitment: seq<byte>)
    requires c.order > 0
    ensures var reply := Judgement(c, hash, cas, payload, idCommitment);
            reply.Verdict? &&
            (reply.ok ==>
               && Attestation.Parse(c.order, payload).Ok?
               && reply.nullifier
                   == Some(HexEncode(Keccak256.Digest(Attestation.Parse(c.order, payload).value.identPub))))
  {
    hide Attestation.Parse, Keccak256.Digest, HexEncode;
  }
}
