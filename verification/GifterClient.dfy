/**
 The gifter client, from its arguments to the request message and from the response message to
 its result, and what client and server guarantee together.
 */
module GifterClient {
  import opened Bits
  import opened Wrappers
  import opened Text
  import opened TextLaws
  import opened Wire
  import opened Messages
  import opened MessageLaws
  import opened Nullifiers
  import opened GifterMachine
  import opened GifterServer

  // Parsed arguments; an absent string is empty and an absent rate is zero.
  datatype Args = Args(
    identityCommitment: string,
    rate: u64,
    authType: string,
    authPayload: string,
    authProvider: string,
    authArgs: Option<string>)

  datatype ProduceRequest = ProduceRequest(authType: string, idCommitmentHex: string, args: Option<string>)

  // The payload hex a provider module replies with, or why it does not.
  type Provider = (string, ProduceRequest) -> Result<string, string>

  datatype Prepared = Prepared(idHex: string, requestId: string, request: Request)

  datatype Grant = Grant(leafIndex: u64, idHex: string, txHash: Option<string>, configAccount: Option<string>)

  function IdHex(a: Args): string {
    Lower(Strip0x(a.identityCommitment))
  }

  function PayloadHex(text: string, error: string): Result<seq<byte>, string> {
    match HexDecode(Strip0x(text))
    case None => Err(error)
    case Some(b) => Ok(b)
  }

  // The authentication payload: none for an open gifter, raw hex, or a provider's.
  function Payload(a: Args, produce: Provider): Result<seq<byte>, string> {
    if a.authPayload != "" && a.authProvider != "" then Err("authPayload and authProvider are mutually exclusive")
    else if a.authType == "" then
      if a.authPayload != "" || a.authProvider != "" then Err("authPayload/authProvider need an explicit authType")
          else Ok([])
    else if a.authPayload != "" then PayloadHex(a.authPayload, "authPayload hex")
    else if a.authProvider != "" then
      match produce(a.authProvider, ProduceRequest(a.authType, IdHex(a), a.authArgs))
      case Err(e) => Err(e)
      case Ok(hex) => PayloadHex(hex, "auth provider payload hex")
    else Err("authType '" + a.authType + "' needs authPayload or authProvider")
  }

  function RequestId(idHex: string): string {
    "gift-" + if |idHex| <= 16 then idHex else idHex[..16]
  }

  function Prepare(a: Args, produce: Provider): Result<Prepared, string> {
    if a.identityCommitment == "" then Err("request needs identityCommitment")
    else
      match HexDecode(IdHex(a))
      case None => Err("id_commitment hex")
      case Some(id) =>
        match Payload(a, produce)
        case Err(e) => Err(e)
        case Ok(payload) =>
          Ok(Prepared(IdHex(a), RequestId(IdHex(a)),
                      Request(RequestId(IdHex(a)), Utf8(a.authType), payload, id, if a.rate > 0 then Some(a.rate)
                          else None)))
  }

  // What is reported when a response carries no membership.
  function FailureMessage(resp: Response): string {
    if resp.failure.Some? then resp.failure.value.message
    else resp.error.GetOr("gifter returned no membership")
  }

  function AuthMessage(resp: Response): string {
    if resp.error.Some? then resp.error.value
    else if resp.failure.Some? then resp.failure.value.message
    else "gifter authentication failed"
  }

  function Finish(p: Prepared, bytes: seq<byte>): Result<Grant, string> {
    match DecodeResponse(bytes)
    case Err(e) => Err(e)
    case Ok(resp) =>
      if resp.requestId != p.requestId then Err("gifter response requestId mismatch")
      else if !resp.authSuccess then Err(AuthMessage(resp))
      else
        match resp.success
        case None => Err(FailureMessage(resp))
        case Some(s) =>
          var tx := HexEncode(s.txHash);
          Ok(Grant(s.leafIndex, p.idHex, if tx == "" then None else Some(tx), s.configAccount))
  }

  // The commitment, the vector and its payload are usable.
  predicate Usable(a: Args, produce: Provider) {
    && a.identityCommitment != "" && HexText(Strip0x(a.identityCommitment))
    && if a.authType == "" then a.authPayload == "" && a.authProvider == ""
       else if a.authProvider == "" then a.authPayload != "" && HexText(Strip0x(a.authPayload))
       else
         && a.authPayload == ""
         && var produced := produce(a.authProvider,
              ProduceRequest(a.authType, Lower(Strip0x(a.identityCommitment)), a.authArgs));
            produced.Ok? && HexText(Strip0x(produced.value))
  }

  // A request is prepared exactly for usable arguments, under an id that shows the first sixteen
  // digits of the commitment.
  lemma PrepareMeaning(a: Args, produce: Provider)
    ensures Prepare(a, produce).Ok? <==> Usable(a, produce)
    ensures Prepare(a, produce).Ok? ==>
              var p := Prepare(a, produce).value;
              var hex := Lower(Strip0x(a.identityCommitment));
              && p.idHex == hex
              && p.requestId == "gift-" + hex[..if |hex| < 16 then |hex| else 16]
              && p.request.requestId == p.requestId
              && p.request.authType == Utf8(a.authType)
  {
    hide HexDecode, Lower, Strip0x, Utf8, HexText;
    HexTextAnyCase(Strip0x(a.identityCommitment));
    HexDecodeMeaning(IdHex(a));
    HexDecodeMeaning(Strip0x(a.authPayload));
    var produced := produce(a.authProvider, ProduceRequest(a.authType, IdHex(a), a.authArgs));
    if produced.Ok? {
      HexDecodeMeaning(Strip0x(produced.value));
    }
    assert |IdHex(a)| <= 16 ==> IdHex(a)[..|IdHex(a)|] == IdHex(a);
  }

  // Why the others are turned down.
  lemma PrepareErrors(a: Args, produce: Provider)
    ensures a.identityCommitment == "" ==> Prepare(a, produce) == Err("request needs identityCommitment")
    ensures a.identityCommitment != "" && HexText(Strip0x(a.identityCommitment)) ==>
              && (a.authPayload != "" && a.authProvider != "" ==>
                    Prepare(a, produce) == Err("authPayload and authProvider are mutually exclusive"))
              && (a.authType == "" && (a.authPayload == "") != (a.authProvider == "") ==>
                    Prepare(a, produce) == Err("authPayload/authProvider need an explicit authType"))
              && (a.authType != "" && a.authPayload == "" && a.authProvider == "" ==>
                    Prepare(a, produce) == Err("authType '" + a.authType + "' needs authPayload or authProvider"))
  {
    hide HexDecode, Lower, Strip0x, Utf8, HexText;
    HexTextAnyCase(Strip0x(a.identityCommitment));
    HexDecodeMeaning(IdHex(a));
  }

  lemma HexEmpty(b: seq<byte>)
    ensures HexEncode(b) == "" <==> b == []
  {
  }

  // Whatever bytes come back: a grant only for a successful answer to this very request, and then
  // the membership it carries; otherwise the reason.
  lemma FinishMeaning(p: Prepared, bytes: seq<byte>)
    ensures match DecodeResponse(bytes)
            case Err(e) => Finish(p, bytes) == Err(e)
            case Ok(resp) =>
              && (Finish(p, bytes).Ok? <==> resp.requestId == p.requestId && resp.authSuccess && resp.success.Some?)
              && (Finish(p, bytes).Ok? ==>
                    var (grant, m) := (Finish(p, bytes).value, resp.success.value);
                    && grant.leafIndex == m.leafIndex && grant.idHex == p.idHex
                        && grant.configAccount == m.configAccount
                    && (if m.txHash == [] then grant.txHash == None
                        else grant.txHash.Some? && HexDecode(grant.txHash.value) == Some(m.txHash)))
              && (resp.requestId != p.requestId ==> Finish(p, bytes) == Err("gifter response requestId mismatch"))
              && (resp.requestId == p.requestId && !resp.authSuccess ==>
                    Finish(p, bytes) == Err(
                      match (resp.error, resp.failure)
                      case (Some(e), _) => e
                      case (None, Some(f)) => f.message
                      case (None, None) => "gifter authentication failed"))
              && (resp.requestId == p.requestId && resp.authSuccess && resp.success.None? ==>
                    Finish(p, bytes) == Err(
                      match (resp.failure, resp.error)
                      case (Some(f), _) => f.message
                      case (None, Some(e)) => e
                      case (None, None) => "gifter returned no membership"))
  {
    hide DecodeResponse, HexEncode, HexDecode;
    if DecodeResponse(bytes).Ok? && DecodeResponse(bytes).value.success.Some? {
      var tx := DecodeResponse(bytes).value.success.value.txHash;
      HexEmpty(tx);
      HexRoundTrip(tx);
    }
  }

  // ---------------------------------------------------------------- client and server together

  // The rate the client asks for, capped by the operator.
  function AgreedRate(a: Args, cfg: Config): u64 {
    var asked := if a.rate > 0 then a.rate else 100;
    if asked <= cfg.maxRate then asked else cfg.maxRate
  }

  // Every call of the server carries the client's commitment, type and payload and the agreed rate.
  predicate CallAgrees(a: Args, p: Prepared, cfg: Config, call: Call) {
    match call
    case Verify(mod, r) =>
      && r.idCommitmentHex == p.idHex && r.rate == AgreedRate(a, cfg)
      && r.authType == a.authType && r.payloadHex == HexEncode(p.request.authPayload)
      && a.authType in cfg.verifiers && cfg.verifiers[a.authType] == Verifier(mod, r.config)
    case RegisterMember(account, wallet, idHex, rate) =>
      account == cfg.account && wallet == cfg.wallet && idHex == p.idHex && rate == AgreedRate(a, cfg)
  }

  lemma PreparedFields(a: Args, produce: Provider)
    requires Prepare(a, produce).Ok?
    ensures var p := Prepare(a, produce).value;
            && p.requestId == p.request.requestId
            && HexEncode(p.request.idCommitment) == p.idHex
            && FromUtf8Lossy(p.request.authType) == a.authType
            && p.request.rateLimit == (if a.rate > 0 then Some(a.rate) else None)
  {
    hide HexDecode, HexEncode, Lower, Utf8, FromUtf8Lossy, Strip0x, Payload, RequestId;
    HexCanonical(Strip0x(a.identityCommitment));
    Utf8RoundTrip(a.authType);
  }

  // What the verifier will see as payload: nothing without a type, otherwise the hex that was
  // given or produced, without its prefix and lowercased.
  lemma PreparedPayload(a: Args, produce: Provider)
    requires Prepare(a, produce).Ok?
    ensures var payload := Prepare(a, produce).value.request.authPayload;
            var produced := produce(a.authProvider, ProduceRequest(a.authType, IdHex(a), a.authArgs));
            if a.authType == "" then payload == [] && a.authPayload == "" && a.authProvider == ""
            else if a.authPayload != "" then HexEncode(payload) == Lower(Strip0x(a.authPayload)) && a.authProvider == ""
            else a.authProvider != "" && produced.Ok? && HexEncode(payload) == Lower(Strip0x(produced.value))
  {
    hide HexDecode, HexEncode, Lower, Strip0x, Utf8, RequestId, IdHex;
    if a.authType != "" {
      var text := if a.authPayload != "" then a.authPayload
          else produce(a.authProvider, ProduceRequest(a.authType, IdHex(a), a.authArgs)).value;
      HexIgnoresCase(Strip0x(text));
      HexCanonical(Strip0x(text));
    }
  }

  // The server handles the very request the client prepared.
  lemma ServerSeesRequest(s: Shared, p: Prepared, env: Env)
    requires Ticking(env.clock) && Fits(RequestFields(p.request))
    ensures DecodeRequest(EncodeFields(RequestFields(p.request))) == Ok(p.request)
  {
    RequestRoundTrip(p.request);
  }

  // A message a refused or failed request is answered with.
  function ServerMessage(resp: Response): string {
    if resp.failure.Some? then resp.failure.value.message else ""
  }

  lemma HandledResponse(s: Shared, req: Request, env: Env, buf: seq<byte>)
    requires Ticking(env.clock) && DecodeRequest(buf) == Ok(req)
    ensures var h := Handle(s, buf, env);
            && h.resp.requestId == req.requestId
            && (h.resp.success.Some? <==> h.registration.Some? && h.registration.value.Registered?)
            && (h.resp.success.Some? ==> h.resp.authSuccess && h.resp.success == Some(h.registration.value.success))
            && (h.resp.success.None? ==>
                 h.resp.failure.Some? && (h.resp.error.Some? ==> h.resp.error == Some(h.resp.failure.value.message)))
            && (h.resp.error.None? ==> h.resp.authSuccess)
  {
    hide DecodeRequest, Judge, Register, Settle, VerifyCalls;
  }

  // With bytes delivered unchanged, the client gets leaf L exactly when the server confirmed L,
  // and otherwise the server's message.
  lemma ClientGetsWhatServerConfirmed(a: Args, produce: Provider, s: Shared, env: Env)
    requires Ticking(env.clock) && Prepare(a, produce).Ok?
    requires Fits(RequestFields(Prepare(a, produce).value.request))
    requires ResponseFits(Handle(s, EncodeFields(RequestFields(Prepare(a, produce).value.request)), env).resp)
    ensures var p := Prepare(a, produce).value;
            var h := Handle(s, EncodeFields(RequestFields(p.request)), env);
            var got := Finish(p, EncodeFields(ResponseFields(h.resp)));
            && (got.Ok? <==> h.registration.Some? && h.registration.value.Registered?)
            && (got.Ok? ==>
                  var m := h.registration.value.success;
                  got.value.leafIndex == m.leafIndex && got.value.idHex == p.idHex
                      && got.value.configAccount == m.configAccount
                  && (m.txHash == [] <==> got.value.txHash.None?)
                      && (m.txHash != [] ==> got.value.txHash == Some(HexEncode(m.txHash))))
            && (got.Err? ==> got.error == ServerMessage(h.resp))
  {
    hide Handle, EncodeFields, RequestFields, ResponseFields, DecodeResponse, DecodeRequest, Prepare, HexEncode;
    var p := Prepare(a, produce).value;
    var buf := EncodeFields(RequestFields(p.request));
    PreparedFields(a, produce);
    ServerSeesRequest(s, p, env);
    HandledResponse(s, p.request, env, buf);
    var h := Handle(s, buf, env);
    ResponseRoundTrip(h.resp);
    if h.resp.success.Some? {
      HexEmpty(h.resp.success.value.txHash);
    }
  }

  lemma RateAgrees(a: Args, p: Prepared, cfg: Config)
    requires p.request.rateLimit == (if a.rate > 0 then Some(a.rate) else None)
    ensures EffectiveRate(cfg, p.request) == AgreedRate(a, cfg)
  {
  }

  lemma CallsOfRequest(s: Shared, cfg: Config, req: Request, env: Env)
    requires Ticking(env.clock)
    ensures var rate := EffectiveRate(cfg, req);
            var calls := HandleConfigured(s, cfg, req, env).calls;
            var register := RegisterMember(cfg.account, cfg.wallet, HexEncode(req.idCommitment), rate);
            && (calls == VerifyCalls(cfg, req, rate) || calls == VerifyCalls(cfg, req, rate) + [register])
            && (calls == VerifyCalls(cfg, req, rate) + [register] ==> Judge(cfg, req, rate, env).Granted?)
  {
    hide HexEncode, Register, Settle, KeyOf, VerifyCalls, Judge;
  }

  // The verifier judges the client's commitment at the rate that is then registered; nothing is
  // registered unless the gifter is open or the configured verifier accepted.
  lemma CallsAgree(a: Args, produce: Provider, s: Shared, env: Env)
    requires Ticking(env.clock) && Prepare(a, produce).Ok?
    requires Fits(RequestFields(Prepare(a, produce).value.request)) && s.config.Some?
    ensures var p := Prepare(a, produce).value;
            var cfg := s.config.value;
            var h := Handle(s, EncodeFields(RequestFields(p.request)), env);
            var calls := h.calls;
            && |calls| <= 2
            && (h.registration.Some? <==> calls != [] && calls[|calls| - 1].RegisterMember?)
            && (|p.request.idCommitment| == 32 && a.authType in cfg.verifiers <==> calls != [] && calls[0].Verify?)
            && (forall call :: call in calls ==> CallAgrees(a, p, cfg, call))
            && (forall i :: 0 <= i < |calls| && calls[i].RegisterMember? ==>
                  i == |calls| - 1 &&
                  (cfg.verifiers == map[] ||
                   (i == 1 && calls[0].Verify? && env.verify(calls[0].mod, calls[0].request).Verdict?
                       && env.verify(calls[0].mod, calls[0].request).ok)))
  {
    hide EncodeFields, RequestFields, DecodeRequest, Prepare, HexEncode, Fits, Register, Settle;
    hide FromUtf8Lossy, Normalize, KeyOf;
    var p := Prepare(a, produce).value;
    PreparedFields(a, produce);
    ServerSeesRequest(s, p, env);
    CallsOfRequest(s, s.config.value, p.request, env);
    RateAgrees(a, p, s.config.value);
  }
}
