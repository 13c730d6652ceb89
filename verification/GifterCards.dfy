/**
 The two guarantees together: with the keycard vector as verifier, a card's identity key buys at
 most one membership over every life of a gifter, and a minted attestation of an unspent card is
 granted one.
 */
module GifterCards {
  import opened Bits
  import opened Wrappers
  import opened Text
  import opened Groups
  import opened Curves
  import opened Ecdsa
  import opened Messages
  import opened Nullifiers
  import opened GifterMachine
  import opened GifterServer
  import opened GifterRefinement
  import opened GifterLife
  import Attestation
  import Keccak256
  import KeycardVector

  // The credential of a card: the nullifier of its identity key under the keycard vector.
  function CardCredential(identPub: seq<byte>): Credential {
    Credential(KeycardVector.AUTH_TYPE, HexEncode(Keccak256.Digest(identPub)))
  }

  ghost predicate AnswersAsKeycard<P(!new)>(
    c: Curve<P>, hash: Hash, trusted: KeycardVector.TrustedList, mod: string, env: Env, req: VerifyRequest)
    requires c.order > 0
  {
    env.verify(mod, req) == KeycardVector.Reply(c, hash, trusted, req)
  }

  // A gifter that has the keycard vector verified by its own module.
  ghost predicate KeycardConfigured<P(!new)>(c: Curve<P>, hash: Hash, trusted: KeycardVector.TrustedList, s: Shared,
      env: Env)
    requires c.order > 0
  {
    && s.config.Some?
    && KeycardVector.AUTH_TYPE in s.config.value.verifiers
    && var mod := s.config.value.verifiers[KeycardVector.AUTH_TYPE].mod;
       forall req :: AnswersAsKeycard(c, hash, trusted, mod, env, req)
  }

  // The bytes are a well-formed request of the keycard vector carrying this payload.
  predicate CardRequest(buf: seq<byte>, req: Request) {
    && DecodeRequest(buf) == Ok(req)
    && |req.idCommitment| == 32
    && FromUtf8Lossy(req.authType) == KeycardVector.AUTH_TYPE
  }

  // ---------------------------------------------------------------- one request

  lemma CardJudged<P(!new)>(
    c: Curve<P>, hash: Hash, trusted: KeycardVector.TrustedList, s: Shared, env: Env, req: Request)
    requires c.order > 0 && KeycardConfigured(c, hash, trusted, s, env)
    requires FromUtf8Lossy(req.authType) == KeycardVector.AUTH_TYPE
    ensures var cfg := s.config.value;
            var v := cfg.verifiers[KeycardVector.AUTH_TYPE];
            var j := Judge(cfg, req, EffectiveRate(cfg, req), env);
            var cas := trusted(v.config);
            if cas.Err? || |cas.value| == 0 then j.Denied?
            else
              var reply := KeycardVector.Judgement(c, hash, cas.value, req.authPayload, req.idCommitment);
              && reply.Verdict?
              && (j.Granted? <==> reply.ok)
              && (j.Granted? ==>
                    && Attestation.Parse(c.order, req.authPayload).Ok?
                    && j.cred == Some(CardCredential(Attestation.Parse(c.order, req.authPayload).value.identPub)))
  {
    hide HexEncode, FromUtf8Lossy, KeycardVector.Judgement, KeycardVector.Reply, Attestation.Parse;
    hide Keccak256.Digest, Normalize;
    var cfg := s.config.value;
    var v := cfg.verifiers[KeycardVector.AUTH_TYPE];
    var rate := EffectiveRate(cfg, req);
    assert AnswersAsKeycard(c, hash, trusted, v.mod, env, VerifyRequestOf(req, rate, v.config));
    KeycardVector.ReplyToGifter(c, hash, trusted, req.authPayload, req.idCommitment, rate, v.config);
    var cas := trusted(v.config);
    if cas.Ok? && |cas.value| != 0 {
      KeycardVector.AcceptedNullifier(c, hash, cas.value, req.authPayload, req.idCommitment);
      if KeycardVector.Judgement(c, hash, cas.value, req.authPayload, req.idCommitment).ok {
        HexNormalized(Keccak256.Digest(Attestation.Parse(c.order, req.authPayload).value.identPub));
      }
    }
  }

  // A membership bought with an attestation is bought with the credential of its card.
  lemma CardSpends<P(!new)>(
    c: Curve<P>, hash: Hash, trusted: KeycardVector.TrustedList, s: Shared, env: Env, buf: seq<byte>, req: Request)
    requires c.order > 0 && Ticking(env.clock) && KeycardConfigured(c, hash, trusted, s, env) && CardRequest(buf, req)
    ensures SubmittedBy(s, buf, env) != [] ==>
              && Attestation.Parse(c.order, req.authPayload).Ok?
              && SubmittedBy(s, buf, env)
                  == [CardCredential(Attestation.Parse(c.order, req.authPayload).value.identPub)]
  {
    hide Handle, Judge, DecodeRequest, FromUtf8Lossy, Attestation.Parse, CardCredential;
    hide KeycardVector.Judgement, EffectiveRate;
    CardJudged(c, hash, trusted, s, env, req);
  }

  // ---------------------------------------------------------------- one membership per card

  lemma PrefixAllowed(path: string, events: seq<Event>, n: nat)
    requires AllAllowed(path, events) && n <= |events|
    ensures AllAllowed(path, events[..n])
  {
    hide Allowed, Timed;
  }

  lemma NextLife(disk: map<string, string>, cfg: Config, events: seq<Event>, i: nat)
    requires AllTimed(events) && i < |events| && events[i].Incoming?
    ensures AllTimed(events[..i]) && AllTimed(events[..i + 1]) && Timed(events[i])
    ensures var life := Live(disk, cfg, events[..i]);
            Live(disk, cfg, events[..i + 1]).submitted
            == life.submitted + SubmittedBy(life.shared, events[i].buf, events[i].env)
  {
    hide Handle, SubmittedBy, Timed, Load;
    assert events[..i + 1][..i] == events[..i];
  }

  lemma AfterGrows(life: Life, e: Event)
    requires Timed(e)
    ensures life.submitted <= After(life, e).submitted
  {
    hide Handle, SubmittedBy, Load;
  }

  lemma {:induction false} SubmissionsGrow(disk: map<string, string>, cfg: Config, events: seq<Event>, i: nat, j: nat)
    requires AllTimed(events) && i <= j <= |events|
    ensures AllTimed(events[..i]) && AllTimed(events[..j])
    ensures Live(disk, cfg, events[..i]).submitted <= Live(disk, cfg, events[..j]).submitted
  {
    hide Timed, After;
    if i < j {
      SubmissionsGrow(disk, cfg, events, i, j - 1);
      assert events[..j][..j - 1] == events[..j - 1];
      AfterGrows(Live(disk, cfg, events[..j - 1]), events[j - 1]);
    }
  }

  lemma SubmittedTwice(a: seq<Credential>, b: seq<Credential>, cred: Credential)
    requires a + [cred] <= b
    ensures exists i, j :: 0 <= i < j < |b + [cred]| && (b + [cred])[i] == (b + [cred])[j]
  {
    assert b[|a|] == (a + [cred])[|a|];
    assert (b + [cred])[|a|] == (b + [cred])[|b|];
  }

  lemma AllowedTimed(path: string, events: seq<Event>, i: nat)
    requires AllAllowed(path, events) && i < |events|
    ensures AllTimed(events) && Timed(events[i]) && (events[i].Incoming? ==> Ticking(events[i].env.clock))
  {
  }

  // Of two requests in a life that carry attestations of the same identity key, whatever their
  // commitments and whenever they come, at most one is submitted for registration.
  lemma OneMembershipPerCard<P(!new)>(
    c: Curve<P>, hash: Hash, trusted: KeycardVector.TrustedList,
    path: string, disk: map<string, string>, cfg: Config, events: seq<Event>, i: nat, j: nat, first: Request,
    second: Request)
    requires c.order > 0
    requires FreshStart(path, disk) && FitConfig(path, cfg) && AllAllowed(path, events)
    requires i < j < |events| && events[i].Incoming? && events[j].Incoming?
    requires CardRequest(events[i].buf, first) && CardRequest(events[j].buf, second)
    requires AllTimed(events[..i]) && AllTimed(events[..j])
    requires KeycardConfigured(c, hash, trusted, Live(disk, cfg, events[..i]).shared, events[i].env)
    requires KeycardConfigured(c, hash, trusted, Live(disk, cfg, events[..j]).shared, events[j].env)
    requires Attestation.Parse(c.order, first.authPayload).Ok? && Attestation.Parse(c.order, second.authPayload).Ok?
    requires Attestation.Parse(c.order, first.authPayload).value.identPub
             == Attestation.Parse(c.order, second.authPayload).value.identPub
    ensures Timed(events[i]) && Timed(events[j])
    ensures || SubmittedBy(Live(disk, cfg, events[..i]).shared, events[i].buf, events[i].env) == []
            || SubmittedBy(Live(disk, cfg, events[..j]).shared, events[j].buf, events[j].env) == []
  {
    hide *;
    AllowedTimed(path, events, i);
    AllowedTimed(path, events, j);
    var (a, b) := (Live(disk, cfg, events[..i]), Live(disk, cfg, events[..j]));
    CardSpends(c, hash, trusted, a.shared, events[i].env, events[i].buf, first);
    CardSpends(c, hash, trusted, b.shared, events[j].env, events[j].buf, second);
    NextLife(disk, cfg, events, i);
    NextLife(disk, cfg, events, j);
    SubmissionsGrow(disk, cfg, events, i + 1, j);
    PrefixAllowed(path, events, j + 1);
    NoCredentialBuysTwo(path, disk, cfg, events[..j + 1]);
    var (sa, sb) := (SubmittedBy(a.shared, events[i].buf, events[i].env),
        SubmittedBy(b.shared, events[j].buf, events[j].env));
    if sa != [] && sb != [] {
      SubmittedTwice(a.submitted, b.submitted, sa[0]);
    }
  }

  // ---------------------------------------------------------------- minted attestations

  lemma MintedKey<P(!new)>(c: Curve<P>, hash: Hash, caPriv: nat, cardPriv: nat, idCommitment: seq<byte>)
    requires c.order > 0 && Attestation.Mint(c, hash, caPriv, cardPriv, idCommitment).Some?
    ensures Attestation.Mint(c, hash, caPriv, cardPriv, idCommitment).value.identPub
            == Attestation.Compress(c, Times(c.group, cardPriv, c.base))
  {
    hide Times, Attestation.Compress, Sign, Keccak256.Digest, Attestation.CertificateOf;
  }

  // A minted attestation bound to the requested commitment is registered if and only if the
  // card's credential is not known yet.
  lemma MintedIsGranted<P(!new)>(
    c: Curve<P>, hash: Hash, trusted: KeycardVector.TrustedList, caPriv: nat, cardPriv: nat,
    s: Shared, env: Env, buf: seq<byte>, req: Request)
    requires CurveLaws(c) && c.order > 0 && 0 < caPriv < c.order && 0 < cardPriv < c.order
    requires Ticking(env.clock) && KeycardConfigured(c, hash, trusted, s, env) && CardRequest(buf, req)
    requires var m := Attestation.Mint(c, hash, caPriv, cardPriv, req.idCommitment);
             var cas := trusted(s.config.value.verifiers[KeycardVector.AUTH_TYPE].config);
             m.Some? && req.authPayload == m.value.tlv && cas.Ok? && m.value.caPub in cas.value
    ensures var identPub := Attestation.Compress(c, Times(c.group, cardPriv, c.base));
            Handle(s, buf, env).registration.Some? <==> KeyOf(CardCredential(identPub)) !in KnownOf(s)
  {
    hide CurveLaws, Times, Attestation.Mint, Attestation.Parse, Attestation.Verify, Attestation.Compress;
    hide Attestation.BoundChallenge, Keccak256.Digest, Judge, Register, Settle, DecodeRequest, FromUtf8Lossy;
    hide HexEncode, KeyOf, VerifyCalls, EffectiveRate, Utf8, CardCredential;
    Attestation.ChallengeMeaning(hash, req.idCommitment);
    var cas := trusted(s.config.value.verifiers[KeycardVector.AUTH_TYPE].config).value;
    Attestation.MintedIsAccepted(c, hash, caPriv, cardPriv, req.idCommitment, cas);
    MintedKey(c, hash, caPriv, cardPriv, req.idCommitment);
    CardJudged(c, hash, trusted, s, env, req);
  }

  // In a life, that is: unless the card's key was in the file at first or bought a membership since.
  lemma UnspentCardIsGranted<P(!new)>(
    c: Curve<P>, hash: Hash, trusted: KeycardVector.TrustedList, caPriv: nat, cardPriv: nat,
    path: string, disk: map<string, string>, cfg: Config, events: seq<Event>, env: Env, buf: seq<byte>, req: Request)
    requires CurveLaws(c) && c.order > 0 && 0 < caPriv < c.order && 0 < cardPriv < c.order
    requires FreshStart(path, disk) && FitConfig(path, cfg) && AllAllowed(path, events) && Ticking(env.clock)
    requires KeycardConfigured(c, hash, trusted, Live(disk, cfg, events).shared, env) && CardRequest(buf, req)
    requires var m := Attestation.Mint(c, hash, caPriv, cardPriv, req.idCommitment);
             var config := Live(disk, cfg, events).shared.config.value;
             var cas := trusted(config.verifiers[KeycardVector.AUTH_TYPE].config);
             m.Some? && req.authPayload == m.value.tlv && cas.Ok? && m.value.caPub in cas.value
    ensures var identPub := Attestation.Compress(c, Times(c.group, cardPriv, c.base));
            var life := Live(disk, cfg, events);
            Handle(life.shared, buf, env).registration.Some? <==>
              KeyOf(CardCredential(identPub)) !in Load(path, disk) + SubmittedKeys(life.submitted)
  {
    hide *;
    NoCredentialBuysTwo(path, disk, cfg, events);
    MintedIsGranted(c, hash, trusted, caPriv, cardPriv, Live(disk, cfg, events).shared, env, buf, req);
  }
}
