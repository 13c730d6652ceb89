/**
 The gifter's request handler: authenticate through the configured verifier, reserve the
 credential, register, wait for the registry to confirm, settle the reservation, answer.
 */
module GifterServer {
  import opened Bits
  import opened Wrappers
  import opened Text
  import opened TextLaws
  import opened Messages
  import opened Nullifiers
  import opened GifterMachine

  const DEFAULT_MAX_RATE: u64 := 100
  const CONFIRM_BUDGET := 150_000
  const CONFIRM_POLL := 2_000

  // ---------------------------------------------------------------- the environment

  datatype VerifyRequest = VerifyRequest(authType: string, payloadHex: string, idCommitmentHex: string, rate: u64,
      config: Option<string>)

  datatype VerifyReply =
    | CallFailed(error: string)
    | BadReply(error: string)
    | Verdict(ok: bool, reason: Option<string>, nullifier: Option<string>)

  // The reply of register_member, and the transaction hash it names if any.
  datatype RegisterReply = Refused(error: string) | Accepted(txHash: Option<string>)

  // The reply of get_membership.
  datatype MembershipReply = ReadFailed | Membership(registered: Option<bool>, leafIndex: Option<u64>)

  // Verifier, registry and clock. `read(n)` is the n-th reply of get_membership after a
  // submission; `clock(0)` is the time, in milliseconds, at which the deadline is set and
  // `clock(n + 1)` the time after the n-th read.
  datatype Env = Env(
    verify: (string, VerifyRequest) -> VerifyReply,
    register: (string, string, string, u64) -> RegisterReply,
    read: nat -> MembershipReply,
    clock: nat -> nat)

  // The calls a request makes, in order.
  datatype Call =
    | Verify(mod: string, request: VerifyRequest)
    | RegisterMember(account: string, wallet: string, idCommitmentHex: string, rate: u64)

  predicate Tick(clock: nat -> nat, n: nat) {
    clock(n + 1) >= clock(n) + if n == 0 then 0 else CONFIRM_POLL
  }

  // The clock does not go back and a sleep takes at least the poll interval.
  ghost predicate Ticking(clock: nat -> nat) {
    forall n: nat :: Tick(clock, n)
  }

  // ---------------------------------------------------------------- confirmation

  function ConfirmedLeaf(reply: MembershipReply): Option<u64> {
    if reply.Membership? && reply.registered == Some(true) then reply.leafIndex else None
  }

  lemma {:induction false} ClockBound(clock: nat -> nat, n: nat)
    requires Ticking(clock) && n >= 1
    ensures clock(n) >= clock(0) + CONFIRM_POLL * (n - 1)
  {
    assert Tick(clock, n - 1);
    if n > 1 {
      ClockBound(clock, n - 1);
    }
  }

  predicate Expired(env: Env, n: nat) {
    env.clock(n) >= env.clock(0) + CONFIRM_BUDGET
  }

  // The loop stops at read n: it confirms, or the budget is used up after it.
  predicate StopsAt(env: Env, n: nat) {
    ConfirmedLeaf(env.read(n)).Some? || Expired(env, n + 1)
  }

  // The first read at which the loop stops.
  function StopFrom(env: Env, n: nat): (k: nat)
    requires Ticking(env.clock) && (n > 0 ==> !Expired(env, n))
    ensures n <= k <= 75 && StopsAt(env, k) && forall i :: n <= i < k ==> !StopsAt(env, i)
    decreases 76 - n
  {
    if n > 0 then
      ClockBound(env.clock, n);
      if StopsAt(env, n) then n else StopFrom(env, n + 1)
    else if StopsAt(env, n) then n else
      ClockBound(env.clock, n + 1);
      StopFrom(env, n + 1)
  }

  datatype Registration = Registered(success: Success) | NotSubmitted(message: string) | Unconfirmed(message: string)

  function TxBytes(txHash: Option<string>): seq<byte> {
    if txHash.None? then []
    else
      match HexDecode(Strip0x(txHash.value))
      case Some(b) => b
      case None => []
  }

  function UnconfirmedMessage(tx: seq<byte>): string {
    "registration submitted (tx " + HexEncode(tx) + ") but not on chain within 150s; it may still land"
  }

  function Register(cfg: Config, idCommitment: seq<byte>, rate: u64, env: Env): Registration
    requires Ticking(env.clock)
  {
    match env.register(cfg.account, cfg.wallet, HexEncode(idCommitment), rate)
    case Refused(e) => NotSubmitted(e)
    case Accepted(txHash) =>
      var leaf := ConfirmedLeaf(env.read(StopFrom(env, 0)));
      if leaf.Some? then Registered(Success(leaf.value, [], 0, TxBytes(txHash), Some(cfg.account)))
      else Unconfirmed(UnconfirmedMessage(TxBytes(txHash)))
  }

  // None of the first n replies says registered and names a leaf.
  predicate NoneConfirmed(env: Env, n: nat) {
    forall i :: 0 <= i < n ==>
      !(env.read(i).Membership? && env.read(i).registered == Some(true) && env.read(i).leafIndex.Some?)
  }

  // What the replies and the clock say at the first read at which the loop stops.
  lemma FirstStopMeaning(env: Env)
    requires Ticking(env.clock)
    ensures var k := StopFrom(env, 0);
            var leaf := ConfirmedLeaf(env.read(k));
            && (leaf.Some? ==> env.read(k) == Membership(Some(true), leaf))
            && NoneConfirmed(env, if leaf.Some? then k else k + 1)
            && (forall i :: 0 < i <= k ==> env.clock(i) < env.clock(0) + 150_000)
            && (leaf == None ==> env.clock(k + 1) >= env.clock(0) + 150_000)
  {
    hide Ticking;
    var k := StopFrom(env, 0);
    forall i | 0 < i <= k ensures env.clock(i) < env.clock(0) + 150_000 {
      assert !StopsAt(env, i - 1);
    }
    forall i | 0 <= i < k ensures ConfirmedLeaf(env.read(i)).None? {
      assert !StopsAt(env, i);
    }
  }

  // The poll loop. It makes at least one and at most 76 polls, succeeds exactly with the leaf of
  // the first confirming read, and gives up only when none confirmed and the budget is spent.
  method AwaitConfirmation(env: Env) returns (leaf: Option<u64>, polls: nat)
    requires Ticking(env.clock)
    ensures 1 <= polls <= 76
    ensures leaf.Some? ==> env.read(polls - 1) == Membership(Some(true), leaf)
    ensures NoneConfirmed(env, if leaf.Some? then polls - 1 else polls)
    ensures forall i :: 0 < i < polls ==> env.clock(i) < env.clock(0) + 150_000
    ensures leaf == None ==> env.clock(polls) >= env.clock(0) + 150_000
    ensures leaf == ConfirmedLeaf(env.read(polls - 1)) && polls - 1 == StopFrom(env, 0)
  {
    hide NoneConfirmed;
    FirstStopMeaning(env);
    polls := 0;
    while true
      invariant polls > 0 ==> !Expired(env, polls)
      invariant polls <= 75
      invariant forall i :: 0 <= i < polls ==> !StopsAt(env, i)
      invariant StopFrom(env, 0) == StopFrom(env, polls)
      decreases 76 - polls
    {
      leaf := ConfirmedLeaf(env.read(polls));
      polls := polls + 1;
      if leaf.Some? {
        return;
      }
      if Expired(env, polls) {
        return;
      }
      assert !StopsAt(env, polls - 1);
      ClockBound(env.clock, polls);
    }
  }

  // The n-th reply confirms this leaf, and none before it confirms any.
  predicate ConfirmedAt(env: Env, n: nat, leaf: u64) {
    env.read(n) == Membership(Some(true), Some(leaf)) && NoneConfirmed(env, n)
  }

  // The transaction hash is the hex text after its 0x prefixes, and empty when it is not hex.
  predicate TxMeaning(tx: Option<string>, hash: seq<byte>) {
    match tx
    case None => hash == []
    case Some(text) => if HexText(Strip0x(text)) then HexEncode(hash) == Lower(Strip0x(text)) else hash == []
  }

  // What the registry's answers make of a registration, read by read: the leaf is that of the
  // first reply which says registered and names one, among those made within the budget.
  ghost predicate Answers(cfg: Config, reply: RegisterReply, env: Env, r: Registration) {
    match reply
    case Refused(e) => r == NotSubmitted(e)
    case Accepted(tx) =>
      match r
      case NotSubmitted(_) => false
      case Registered(m) =>
        && (exists n :: 0 <= n <= 75 && ConfirmedAt(env, n, m.leafIndex))
        && TxMeaning(tx, m.txHash)
        && m.configAccount == Some(cfg.account) && m.merkleRoot == [] && m.blockNumber == 0
      case Unconfirmed(message) =>
        && (exists n :: 1 <= n <= 76 && env.clock(n) >= env.clock(0) + 150_000 && NoneConfirmed(env, n))
        && exists hash :: TxMeaning(tx, hash)
             && message == "registration submitted (tx " + HexEncode(hash)
                 + ") but not on chain within 150s; it may still land"
  }

  lemma TxBytesMeaning(tx: Option<string>)
    ensures TxMeaning(tx, TxBytes(tx))
  {
    hide HexEncode, HexDecode, Strip0x, Lower, HexText;
    if tx.Some? {
      var text := Strip0x(tx.value);
      HexDecodeMeaning(text);
      HexIgnoresCase(text);
      if HexDecode(text).Some? {
        HexCanonical(text);
      }
    }
  }

  lemma ConfirmedMeaning(reply: MembershipReply)
    ensures ConfirmedLeaf(reply).Some? <==> reply.Membership? && reply.registered == Some(true) && reply.leafIndex.Some?
    ensures ConfirmedLeaf(reply).Some? ==> reply == Membership(Some(true), ConfirmedLeaf(reply))
  {
  }

  lemma RegisterMeaning(cfg: Config, idCommitment: seq<byte>, rate: u64, env: Env)
    requires Ticking(env.clock)
    ensures Answers(cfg, env.register(cfg.account, cfg.wallet, HexEncode(idCommitment), rate), env,
                    Register(cfg, idCommitment, rate, env))
  {
    hide HexEncode, TxBytes, TxMeaning, ConfirmedLeaf;
    var reply := env.register(cfg.account, cfg.wallet, HexEncode(idCommitment), rate);
    if reply.Accepted? {
      TxBytesMeaning(reply.txHash);
      var n := StopFrom(env, 0);
      forall i | 0 <= i <= n
        ensures ConfirmedLeaf(env.read(i)).Some? <==>
                  env.read(i).Membership? && env.read(i).registered == Some(true) && env.read(i).leafIndex.Some?
        ensures i < n ==> ConfirmedLeaf(env.read(i)).None?
      {
        ConfirmedMeaning(env.read(i));
        assert i < n ==> !StopsAt(env, i);
      }
      ConfirmedMeaning(env.read(n));
      assert NoneConfirmed(env, n);
      if ConfirmedLeaf(env.read(n)).Some? {
        assert ConfirmedAt(env, n, ConfirmedLeaf(env.read(n)).value);
      } else {
        assert NoneConfirmed(env, n + 1);
      }
    }
  }

  method RegisterMembership(cfg: Config, idCommitment: seq<byte>, rate: u64, env: Env) returns (r: Registration)
    requires Ticking(env.clock)
    ensures r == Register(cfg, idCommitment, rate, env)
    ensures Answers(cfg, env.register(cfg.account, cfg.wallet, HexEncode(idCommitment), rate), env, r)
  {
    hide HexEncode, TxBytes, UnconfirmedMessage;
    RegisterMeaning(cfg, idCommitment, rate, env);
    var reply := env.register(cfg.account, cfg.wallet, HexEncode(idCommitment), rate);
    if reply.Refused? {
      return NotSubmitted(reply.error);
    }
    var tx := TxBytes(reply.txHash);
    var leaf, _ := AwaitConfirmation(env);
    if leaf.Some? {
      return Registered(Success(leaf.value, [], 0, tx, Some(cfg.account)));
    }
    return Unconfirmed(UnconfirmedMessage(tx));
  }

  // ---------------------------------------------------------------- authentication

  function FailureResponse(requestId: string, authSuccess: bool, message: string): Response {
    Response(requestId, authSuccess, Some(message), None, Some(Failure(message)))
  }

  // The rate is settled before verification and never above the operator's cap.
  function EffectiveRate(cfg: Config, req: Request): u64 {
    var rate := req.rateLimit.GetOr(DEFAULT_MAX_RATE);
    if rate > cfg.maxRate then cfg.maxRate else rate
  }

  // The smaller of the operator's cap and the requested rate, 100 when none was requested.
  lemma EffectiveRateMeaning(cfg: Config, req: Request)
    ensures var asked := match req.rateLimit { case None => 100 case Some(r) => r };
            EffectiveRate(cfg, req) <= cfg.maxRate && EffectiveRate(cfg, req) <= asked
            && (EffectiveRate(cfg, req) == cfg.maxRate || EffectiveRate(cfg, req) == asked)
  {
  }

  function VerifyRequestOf(req: Request, rate: u64, config: Option<string>): VerifyRequest {
    VerifyRequest(FromUtf8Lossy(req.authType), HexEncode(req.authPayload), HexEncode(req.idCommitment), rate, config)
  }

  // Refused with a message, or granted with the credential it spends if any.
  datatype Authorization = Denied(message: string) | Granted(cred: Option<Credential>, raw: string)

  function Judge(cfg: Config, req: Request, rate: u64, env: Env): Authorization {
    var authType := FromUtf8Lossy(req.authType);
    if cfg.verifiers == map[] then Granted(None, "")
    else if authType !in cfg.verifiers then Denied("unsupported authentication_type: '" + authType + "'")
    else
      var v := cfg.verifiers[authType];
      match env.verify(v.mod, VerifyRequestOf(req, rate, v.config))
      case CallFailed(e) => Denied("auth verifier " + v.mod + ": " + e)
      case BadReply(e) => Denied("auth verifier " + v.mod + ": " + e)
      case Verdict(ok, reason, nullifier) =>
        if !ok then Denied(reason.GetOr("verifier rejected the request"))
        else
          match nullifier
          case None => Granted(None, "")
          case Some(raw) =>
            match Normalize(raw)
            case None => Denied("auth verifier " + v.mod + ": malformed nullifier")
            case Some(nul) => Granted(Some(Credential(authType, nul)), raw)
  }

  function VerifyCalls(cfg: Config, req: Request, rate: u64): seq<Call> {
    var authType := FromUtf8Lossy(req.authType);
    if authType !in cfg.verifiers then []
    else [Verify(cfg.verifiers[authType].mod, VerifyRequestOf(req, rate, cfg.verifiers[authType].config))]
  }

  // ---------------------------------------------------------------- one request

  // The shared state a request polls and updates.
  datatype Shared = Shared(config: Option<Config>, consumed: Option<set<string>>, disk: map<string, string>)

  function KnownOf(s: Shared): set<string> {
    if s.consumed.None? then {} else s.consumed.value
  }

  // The answer, the state after it, the calls made, and the registration if one was attempted.
  datatype Handled = Handled(resp: Response, shared: Shared, calls: seq<Call>, registration: Option<Registration>)

  function Settle(s: Shared, cfg: Config, cred: Option<Credential>, r: Registration): Shared {
    if cred.None? then s
    else
      var key := KeyOf(cred.value);
      match r
      case Registered(_) => s.(disk := Append(cfg.path, s.disk, key))
      case Unconfirmed(_) => s.(disk := Append(cfg.path, s.disk, key))
      case NotSubmitted(_) => if s.consumed.Some? then s.(consumed := Some(s.consumed.value - {key})) else s
  }

  function ResponseTo(requestId: string, r: Registration): Response {
    match r
    case Registered(success) => Response(requestId, true, None, Some(success), None)
    case NotSubmitted(m) => Response(requestId, true, None, None, Some(Failure(m)))
    case Unconfirmed(m) => Response(requestId, true, None, None, Some(Failure(m)))
  }

  function RegisterAndSettle(s: Shared, cfg: Config, req: Request, rate: u64, cred: Option<Credential>,
      env: Env): Handled
    requires Ticking(env.clock)
  {
    var r := Register(cfg, req.idCommitment, rate, env);
    Handled(ResponseTo(req.requestId, r), Settle(s, cfg, cred, r),
            VerifyCalls(cfg, req, rate) + [RegisterMember(cfg.account, cfg.wallet, HexEncode(req.idCommitment), rate)],
            Some(r))
  }

  function HandleConfigured(s: Shared, cfg: Config, req: Request, env: Env): Handled
    requires Ticking(env.clock)
  {
    var rate := EffectiveRate(cfg, req);
    match Judge(cfg, req, rate, env)
    case Denied(m) => Handled(FailureResponse(req.requestId, false, m), s, VerifyCalls(cfg, req, rate), None)
    case Granted(cred, _) =>
      if cred.None? then RegisterAndSettle(s, cfg, req, rate, cred, env)
      else
        var key := KeyOf(cred.value);
        if key in KnownOf(s) then
          Handled(FailureResponse(req.requestId, false, "credential already used: " + key),
              s.(consumed := Some(KnownOf(s))),
                  VerifyCalls(cfg, req, rate), None)
        else RegisterAndSettle(s.(consumed := Some(KnownOf(s) + {key})), cfg, req, rate, cred, env)
  }

  function Handle(s: Shared, buf: seq<byte>, env: Env): Handled
    requires Ticking(env.clock)
  {
    match DecodeRequest(buf)
    case Err(e) => Handled(FailureResponse("N/A", false, "decode error: " + e), s, [], None)
    case Ok(req) =>
      if |req.idCommitment| != 32 then
        Handled(FailureResponse(req.requestId, true, "identity_commitment must be 32 bytes"), s, [], None)
      else if s.config.None? then
        Handled(FailureResponse(req.requestId, true, "gifter not configured"), s, [], None)
      else HandleConfigured(s, s.config.value, req, env)
  }

  // ---------------------------------------------------------------- who is registered

  // The gifter is open, or the verifier configured for the request's type accepts it at the
  // effective rate and asks for no replay protection or for a credential not spent yet.
  predicate Entitled(s: Shared, cfg: Config, req: Request, env: Env) {
    cfg.verifiers == map[] ||
    var authType := FromUtf8Lossy(req.authType);
    && authType in cfg.verifiers
    && var v := cfg.verifiers[authType];
       var reply := env.verify(v.mod, VerifyRequestOf(req, EffectiveRate(cfg, req), v.config));
       && reply.Verdict? && reply.ok
       && (reply.nullifier.Some? ==>
             && Normalize(reply.nullifier.value).Some?
             && KeyText(authType, Normalize(reply.nullifier.value).value) !in KnownOf(s))
  }

  // A registration is attempted exactly for a well-formed request of an entitled caller, and
  // auth_success is false exactly when the request was unreadable or its caller not entitled.
  lemma RegistrationMeaning(s: Shared, buf: seq<byte>, env: Env)
    requires Ticking(env.clock)
    ensures var h := Handle(s, buf, env);
            match DecodeRequest(buf)
            case Err(_) => h.registration == None && !h.resp.authSuccess
            case Ok(req) =>
              && (h.registration.Some? <==>
                   |req.idCommitment| == 32 && s.config.Some? && Entitled(s, s.config.value, req, env))
              && (!h.resp.authSuccess <==>
                   |req.idCommitment| == 32 && s.config.Some? && !Entitled(s, s.config.value, req, env))
  {
    hide DecodeRequest, Register, Normalize, VerifyRequestOf, FromUtf8Lossy, HexEncode, Append, KeyText;
  }

  function Refusal(requestId: string, authSuccess: bool, message: string): Response {
    Response(requestId, authSuccess, Some(message), None, Some(Failure(message)))
  }

  // The reason a well-formed request is refused, in the words of the answer.
  predicate WhyRefused(s: Shared, cfg: Config, req: Request, env: Env, why: string) {
    var authType := FromUtf8Lossy(req.authType);
    if authType !in cfg.verifiers then why == "unsupported authentication_type: '" + authType + "'"
    else
      var v := cfg.verifiers[authType];
      match env.verify(v.mod, VerifyRequestOf(req, EffectiveRate(cfg, req), v.config))
      case CallFailed(e) => why == "auth verifier " + v.mod + ": " + e
      case BadReply(e) => why == "auth verifier " + v.mod + ": " + e
      case Verdict(false, None, _) => why == "verifier rejected the request"
      case Verdict(false, Some(reason), _) => why == reason
      case Verdict(true, _, nullifier) =>
        nullifier.Some? &&
        match Normalize(nullifier.value)
        case None => why == "auth verifier " + v.mod + ": malformed nullifier"
        case Some(nul) => why == "credential already used: " + (authType + ":" + nul)
  }

  // The texts of the answers, and what each carries.
  lemma AnswerMeaning(s: Shared, buf: seq<byte>, env: Env)
    requires Ticking(env.clock)
    ensures var h := Handle(s, buf, env);
            match DecodeRequest(buf)
            case Err(e) => h.resp == Refusal("N/A", false, "decode error: " + e) && h.calls == []
            case Ok(req) =>
              if |req.idCommitment| != 32 then
                h.resp == Refusal(req.requestId, true, "identity_commitment must be 32 bytes") && h.calls == []
              else if s.config.None? then h.resp == Refusal(req.requestId, true, "gifter not configured")
                  && h.calls == []
              else
                match h.registration
                case None =>
                  exists why :: WhyRefused(s, s.config.value, req, env, why)
                      && h.resp == Refusal(req.requestId, false, why)
                case Some(Registered(m)) => h.resp == Response(req.requestId, true, None, Some(m), None)
                case Some(NotSubmitted(e)) => h.resp == Response(req.requestId, true, None, None, Some(Failure(e)))
                case Some(Unconfirmed(e)) => h.resp == Response(req.requestId, true, None, None, Some(Failure(e)))
  {
    hide DecodeRequest, Register, Normalize, VerifyRequestOf, FromUtf8Lossy, HexEncode, Append, VerifyCalls;
    var req := DecodeRequest(buf);
    var h := Handle(s, buf, env);
    if req.Ok? && |req.value.idCommitment| == 32 && s.config.Some? && h.registration.None? {
      assert WhyRefused(s, s.config.value, req.value, env, h.resp.error.value);
    }
  }

  // The verifier is shown the request as it is.
  lemma VerifierSees(req: Request, rate: u64, config: Option<string>)
    ensures var r := VerifyRequestOf(req, rate, config);
            && HexDecode(r.payloadHex) == Some(req.authPayload)
                && HexDecode(r.idCommitmentHex) == Some(req.idCommitment)
            && r.authType == FromUtf8Lossy(req.authType) && r.rate == rate && r.config == config
  {
    HexRoundTrip(req.authPayload);
    HexRoundTrip(req.idCommitment);
  }

  // A request that registers nothing leaves the store as it was, and one that is refunded too.
  lemma UnspentUnchanged(s: Shared, buf: seq<byte>, env: Env)
    requires Ticking(env.clock)
    ensures var h := Handle(s, buf, env);
            h.registration.None? || h.registration.value.NotSubmitted? ==>
                h.shared.disk == s.disk && KnownOf(h.shared) == KnownOf(s)
  {
    hide DecodeRequest, Register, Normalize, VerifyRequestOf, FromUtf8Lossy, HexEncode, KeyOf;
  }

  // ---------------------------------------------------------------- the server object

  class Gifter {
    var config: Option<Config>
    var consumed: Option<set<string>>
    var serving: bool
    var workers: nat
    var disk: map<string, string>
    var calls: seq<Call>

    ghost function View(): Shared
      reads this
    {
      Shared(config, consumed, disk)
    }

    // A process that has just started, on the disk it finds.
    constructor (disk: map<string, string>)
      ensures View() == Shared(None, None, disk) && !serving && workers == 0 && calls == []
    {
      config, consumed, serving, workers, this.disk, calls := None, None, false, 0, disk, [];
    }

    // Merges the file into memory, replaces the configuration, and mounts and spawns once.
    method Serve(cfg: Config, mounts: bool) returns (ok: bool)
      requires workers == Digit(serving)
      modifies this
      ensures View() == Shared(Some(cfg), Some(old(KnownOf(View())) + Load(cfg.path, old(disk))), old(disk))
      ensures ok <==> old(serving) || mounts
      ensures serving == ok && workers == Digit(serving)
      ensures calls == old(calls)
    {
      hide Load, Lines, Lower, Trim;
      var loaded := LoadNullifiers(cfg.path, disk);
      consumed := Some(consumed.GetOr({}) + loaded);
      config := Some(cfg);
      var was := serving;
      serving := true;
      if !was {
        if !mounts {
          serving := false;
          return false;
        }
        workers := workers + 1;
      }
      return true;
    }

    method CallVerifier(mod: string, request: VerifyRequest, env: Env) returns (r: VerifyReply)
      modifies this`calls
      ensures r == env.verify(mod, request) && calls == old(calls) + [Verify(mod, request)]
    {
      calls := calls + [Verify(mod, request)];
      r := env.verify(mod, request);
    }

    // Everything up to the reservation; None when the request may go on to register.
    method Authorize(cfg: Config, req: Request, rate: u64, env: Env)
      returns (refusal: Option<string>, cred: Option<Credential>)
      modifies this`calls, this`consumed
      ensures calls == old(calls) + VerifyCalls(cfg, req, rate)
      ensures match Judge(cfg, req, rate, env)
              case Denied(m) => refusal == Some(m) && consumed == old(consumed)
              case Granted(c, _) =>
                cred == c &&
                if c.None? then refusal == None && consumed == old(consumed)
                else if KeyOf(c.value) in old(KnownOf(View())) then
                  refusal == Some("credential already used: " + KeyOf(c.value))
                      && consumed == Some(old(KnownOf(View())))
                else refusal == None && consumed == Some(old(KnownOf(View())) + {KeyOf(c.value)})
    {
      var authType := FromUtf8Lossy(req.authType);
      cred := None;
      if cfg.verifiers == map[] {
        return None, None;
      }
      if authType !in cfg.verifiers {
        return Some("unsupported authentication_type: '" + authType + "'"), None;
      }
      var v := cfg.verifiers[authType];
      var reply := CallVerifier(v.mod, VerifyRequestOf(req, rate, v.config), env);
      match reply {
        case CallFailed(e) => return Some("auth verifier " + v.mod + ": " + e), None;
        case BadReply(e) => return Some("auth verifier " + v.mod + ": " + e), None;
        case Verdict(ok, reason, nullifier) =>
          if !ok {
            return Some(reason.GetOr("verifier rejected the request")), None;
          }
          if nullifier == None {
            return None, None;
          }
          var nul := Normalize(nullifier.value);
          if nul == None {
            return Some("auth verifier " + v.mod + ": malformed nullifier"), None;
          }
          cred := Some(Credential(authType, nul.value));
          var key := authType + ":" + nul.value;
          var known := consumed.GetOr({});
          consumed := Some(known);
          if key in known {
            return Some("credential already used: " + key), cred;
          }
          consumed := Some(known + {key});
          return None, cred;
      }
    }

    method AppendNullifier(path: string, key: string)
      modifies this`disk
      ensures disk == Append(path, old(disk), key)
      ensures path == "" ==> disk == old(disk)
      ensures path != "" ==>
                path in disk && disk == old(disk)[path := disk[path]]
                && disk[path] == (if path in old(disk) then old(disk)[path] else "") + key + "\n"
    {
      if path == "" {
        return;
      }
      var contents := if path in disk then disk[path] else "";
      disk := disk[path := contents + key + "\n"];
    }

    method HandleRequest(buf: seq<byte>, env: Env) returns (resp: Response)
      requires |buf| <= MAX_LEN && Ticking(env.clock)
      modifies this
      ensures var h := Handle(old(View()), buf, env);
              resp == h.resp && View() == h.shared && calls == old(calls) + h.calls
      ensures serving == old(serving) && workers == old(workers)
    {
      hide Register, VerifyRequestOf, Normalize, FromUtf8Lossy, Append, DecodeRequest, HexEncode, Answers;
      var decoded := ReadRequest(buf);
      if decoded.Err? {
        return FailureResponse("N/A", false, "decode error: " + decoded.error);
      }
      var req := decoded.value;
      if |req.idCommitment| != 32 {
        return FailureResponse(req.requestId, true, "identity_commitment must be 32 bytes");
      }
      if config == None {
        return FailureResponse(req.requestId, true, "gifter not configured");
      }
      var cfg := config.value;
      var rate := EffectiveRate(cfg, req);
      var refusal, cred := Authorize(cfg, req, rate, env);
      if refusal.Some? {
        return FailureResponse(req.requestId, false, refusal.value);
      }
      calls := calls + [RegisterMember(cfg.account, cfg.wallet, HexEncode(req.idCommitment), rate)];
      var r := RegisterMembership(cfg, req.idCommitment, rate, env);
      if cred.Some? {
        var key := KeyOf(cred.value);
        if r.NotSubmitted? {
          if consumed.Some? {
            consumed := Some(consumed.value - {key});
          }
        } else {
          AppendNullifier(cfg.path, key);
        }
      }
      return ResponseTo(req.requestId, r);
    }
  }
}
