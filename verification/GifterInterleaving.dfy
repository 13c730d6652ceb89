/**
 Requests interrupted by serve calls. The handler touches the shared state three times: it takes
 the configuration, reserves the credential, and settles. Other threads may serve in between, and
 the guarantees of whole lives survive that.
 */
module GifterInterleaving {
  import opened Bits
  import opened Wrappers
  import opened Messages
  import opened Nullifiers
  import opened GifterMachine
  import opened GifterRuns
  import opened GifterLaws
  import opened GifterServer
  import opened GifterRefinement

  predicate ServeStep(step: Step) {
    step.ServeMerge? || step.ServeConfigure? || step.ServeSwap? || step.MountFails? || step.MountSucceeds?
  }

  predicate ServeSteps(steps: seq<Step>) {
    forall i :: 0 <= i < |steps| ==> ServeStep(steps[i])
  }

  // What other threads do between the snapshot and the verdict, between the verdict and the
  // acceptance of the registration, and between that and the settlement.
  datatype Gaps = Gaps(beforeVerdict: seq<Step>, beforeRegister: seq<Step>, beforeSettle: seq<Step>)

  predicate ServeGaps(gaps: Gaps) {
    ServeSteps(gaps.beforeVerdict) && ServeSteps(gaps.beforeRegister) && ServeSteps(gaps.beforeSettle)
  }

  // ---------------------------------------------------------------- the interrupted handler

  function SharedOf(m: State): Shared {
    Shared(m.config, m.consumed, m.disk)
  }

  function WithShared(m: State, s: Shared, w: Worker): State {
    m.(config := s.config, consumed := s.consumed, disk := s.disk, workers := [w])
  }

  datatype Ruling = Halt(message: string) | GoOn(cred: Option<Credential>)

  // The verdict and the reservation, on the set as it is by then.
  function Rule(s: Shared, cfg: Config, req: Request, env: Env): (Shared, Ruling) {
    match Judge(cfg, req, EffectiveRate(cfg, req), env)
    case Denied(m) => (s, Halt(m))
    case Granted(None, _) => (s, GoOn(None))
    case Granted(Some(cred), _) =>
      var key := KeyOf(cred);
      if key in KnownOf(s) then (s.(consumed := Some(KnownOf(s))), Halt("credential already used: " + key))
      else (s.(consumed := Some(KnownOf(s) + {key})), GoOn(Some(cred)))
  }

  // After register_member answered.
  function Called(m: State, cfg: Config, cred: Option<Credential>, r: Registration): State {
    if r.NotSubmitted? then m.(workers := [Refunding(cfg, cred)])
    else m.(workers := [Submitted(cfg, cred)], submitted := Recorded(m, cred))
  }

  function InterruptedRegister(m: State, cfg: Config, req: Request, cred: Option<Credential>, env: Env, gaps: Gaps)
    : Option<(State, Response)>
    requires Ticking(env.clock)
  {
    var r := Register(cfg, req.idCommitment, EffectiveRate(cfg, req), env);
    match Exec(Called(m, cfg, cred, r), gaps.beforeSettle)
    case None => None
    case Some(m3) =>
      Some((WithShared(m3, Settle(SharedOf(m3), cfg, cred, r), Idle), ResponseTo(req.requestId, r)))
  }

  function InterruptedVerdict(m: State, cfg: Config, req: Request, env: Env, gaps: Gaps): Option<(State, Response)>
    requires Ticking(env.clock)
  {
    var (s, ruling) := Rule(SharedOf(m), cfg, req, env);
    match ruling
    case Halt(message) => Some((WithShared(m, s, Idle), FailureResponse(req.requestId, false, message)))
    case GoOn(cred) =>
      match Exec(WithShared(m, s, Reserved(cfg, cred)), gaps.beforeRegister)
      case None => None
      case Some(m2) => InterruptedRegister(m2, cfg, req, cred, env, gaps)
  }

  // The state after the request and its answer, if the serve steps in the gaps can be taken.
  function Interrupted(m: State, buf: seq<byte>, env: Env, gaps: Gaps): Option<(State, Response)>
    requires Ticking(env.clock)
  {
    match DecodeRequest(buf)
    case Err(e) => Some((m, FailureResponse("N/A", false, "decode error: " + e)))
    case Ok(req) =>
      if |req.idCommitment| != 32 then
        Some((m, FailureResponse(req.requestId, true, "identity_commitment must be 32 bytes")))
      else if m.config.None? then Some((m, FailureResponse(req.requestId, true, "gifter not configured")))
      else
        match Exec(m.(workers := [Judging(m.config.value)]), gaps.beforeVerdict)
        case None => None
        case Some(m1) => InterruptedVerdict(m1, m.config.value, req, env, gaps)
  }

  function RegisterSteps(r: Registration, gaps: Gaps): seq<Step> {
    var steps := SettleSteps(r);
    [steps[0]] + (gaps.beforeSettle + [steps[1]])
  }

  function VerdictSteps(m: State, cfg: Config, req: Request, env: Env, gaps: Gaps): seq<Step>
    requires Ticking(env.clock)
  {
    var step := JudgeStep(Judge(cfg, req, EffectiveRate(cfg, req), env));
    var (_, ruling) := Rule(SharedOf(m), cfg, req, env);
    match ruling
    case Halt(_) => [step]
    case GoOn(_) =>
      [step] + (gaps.beforeRegister
          + RegisterSteps(Register(cfg, req.idCommitment, EffectiveRate(cfg, req), env), gaps))
  }

  // The atomic steps of an interrupted request.
  function InterruptedSteps(m: State, buf: seq<byte>, env: Env, gaps: Gaps): seq<Step>
    requires Ticking(env.clock)
  {
    var req := DecodeRequest(buf);
    if req.Err? || |req.value.idCommitment| != 32 || m.config.None? then []
    else
      match Exec(m.(workers := [Judging(m.config.value)]), gaps.beforeVerdict)
      case None => []
      case Some(m1) => [Snapshot(0)] + (gaps.beforeVerdict + VerdictSteps(m1, m.config.value, req.value, env, gaps))
  }

  // ---------------------------------------------------------------- serving leaves the worker alone

  lemma ServeKeepsWorker(m: State, step: Step)
    requires Accounted(m) && |m.workers| == 1 && ServeStep(step) && Enabled(m, step)
    ensures var n := Next(m, step);
            Accounted(n) && n.workers == m.workers && n.submitted == m.submitted && n.disk == m.disk
  {
    hide Load, Known, MountingIn;
    AccountedStep(m, step);
    MountingMembers(m.callers, step.t);
  }

  lemma {:induction false} GapKeepsWorker(m: State, steps: seq<Step>)
    requires Accounted(m) && |m.workers| == 1 && ServeSteps(steps) && Exec(m, steps).Some?
    ensures var n := Exec(m, steps).value;
            Accounted(n) && n.workers == m.workers && n.submitted == m.submitted && n.disk == m.disk
  {
    hide Accounted, Enabled, Next, ServeStep;
    if steps != [] {
      GapKeepsWorker(m, steps[..|steps| - 1]);
      assert ServeStep(steps[|steps| - 1]);
      ServeKeepsWorker(Exec(m, steps[..|steps| - 1]).value, steps[|steps| - 1]);
    }
  }

  lemma SameAccount(m: State, n: State)
    requires Accounted(m) && n.callers == m.callers && n.serving == m.serving && |n.workers| == |m.workers|
    ensures Accounted(n)
  {
  }

  // ---------------------------------------------------------------- one step at a time

  lemma OneStep(m: State, step: Step)
    requires Enabled(m, step)
    ensures Exec(m, [step]) == Some(Next(m, step))
  {
    hide Enabled, Next, Exec;
    ExecOne(m, step, []);
    ExecNone(Next(m, step));
    assert [step] + [] == [step];
  }

  lemma VerdictStep(m: State, cfg: Config, req: Request, env: Env)
    requires m.workers == [Judging(cfg)]
    ensures var (s, ruling) := Rule(SharedOf(m), cfg, req, env);
            Exec(m, [JudgeStep(Judge(cfg, req, EffectiveRate(cfg, req), env))])
            == Some(WithShared(m, s, if ruling.Halt? then Idle else Reserved(cfg, ruling.cred)))
  {
    hide Exec, KeyOf, Judge, Normalize, EffectiveRate;
    var j := Judge(cfg, req, EffectiveRate(cfg, req), env);
    JudgedCredential(cfg, req, EffectiveRate(cfg, req), env);
    assert j.Granted? && j.cred.Some? ==> Credential(j.cred.value.authType, j.cred.value.nul) == j.cred.value;
    OneStep(m, JudgeStep(j));
    var (s, ruling) := Rule(SharedOf(m), cfg, req, env);
    assert Known(m) == KnownOf(SharedOf(m));
    assert Next(m, JudgeStep(j)) == WithShared(m, s, if ruling.Halt? then Idle else Reserved(cfg, ruling.cred));
  }

  lemma CallStep(m: State, cfg: Config, cred: Option<Credential>, r: Registration)
    requires m.workers == [Reserved(cfg, cred)]
    ensures Exec(m, [SettleSteps(r)[0]]) == Some(Called(m, cfg, cred, r))
  {
    hide Exec;
    OneStep(m, SettleSteps(r)[0]);
    assert Next(m, SettleSteps(r)[0]) == Called(m, cfg, cred, r);
  }

  lemma SettleStep(m: State, cfg: Config, cred: Option<Credential>, r: Registration)
    requires m.workers == [if r.NotSubmitted? then Refunding(cfg, cred) else Submitted(cfg, cred)]
    ensures Exec(m, [SettleSteps(r)[1]]) == Some(WithShared(m, Settle(SharedOf(m), cfg, cred, r), Idle))
  {
    hide Exec, KeyOf, Append;
    OneStep(m, SettleSteps(r)[1]);
    assert Next(m, SettleSteps(r)[1]) == WithShared(m, Settle(SharedOf(m), cfg, cred, r), Idle);
  }

  // ---------------------------------------------------------------- the interrupted handler refines

  // An accounted state with one idle worker, which is where requests begin and end.
  predicate Ready(m: State) {
    Accounted(m) && m.workers == [Idle]
  }

  lemma RegisterRefines(m: State, cfg: Config, req: Request, cred: Option<Credential>, env: Env, gaps: Gaps)
    requires Ticking(env.clock) && ServeGaps(gaps)
    requires Accounted(m) && m.workers == [Reserved(cfg, cred)]
    requires InterruptedRegister(m, cfg, req, cred, env, gaps).Some?
    ensures var r := Register(cfg, req.idCommitment, EffectiveRate(cfg, req), env);
            var n := InterruptedRegister(m, cfg, req, cred, env, gaps).value.0;
            Exec(m, RegisterSteps(r, gaps)) == Some(n) && Ready(n)
  {
    hide Exec, Settle, Register, EffectiveRate, Accounted, ServeSteps;
    var r := Register(cfg, req.idCommitment, EffectiveRate(cfg, req), env);
    var called := Called(m, cfg, cred, r);
    CallStep(m, cfg, cred, r);
    SameAccount(m, called);
    GapKeepsWorker(called, gaps.beforeSettle);
    var m3 := Exec(called, gaps.beforeSettle).value;
    SettleStep(m3, cfg, cred, r);
    SameAccount(m3, WithShared(m3, Settle(SharedOf(m3), cfg, cred, r), Idle));
    ExecAppend(called, gaps.beforeSettle, [SettleSteps(r)[1]]);
    ExecAppend(m, [SettleSteps(r)[0]], gaps.beforeSettle + [SettleSteps(r)[1]]);
  }

  lemma VerdictRefines(m: State, cfg: Config, req: Request, env: Env, gaps: Gaps)
    requires Ticking(env.clock) && ServeGaps(gaps)
    requires Accounted(m) && m.workers == [Judging(cfg)]
    requires InterruptedVerdict(m, cfg, req, env, gaps).Some?
    ensures var n := InterruptedVerdict(m, cfg, req, env, gaps).value.0;
            Exec(m, VerdictSteps(m, cfg, req, env, gaps)) == Some(n) && Ready(n)
  {
    hide Exec, Register, EffectiveRate, Accounted, ServeSteps, Rule, Judge, InterruptedRegister, RegisterSteps;
    var (s, ruling) := Rule(SharedOf(m), cfg, req, env);
    var step := JudgeStep(Judge(cfg, req, EffectiveRate(cfg, req), env));
    VerdictStep(m, cfg, req, env);
    if ruling.Halt? {
      SameAccount(m, WithShared(m, s, Idle));
    } else {
      var reserved := WithShared(m, s, Reserved(cfg, ruling.cred));
      SameAccount(m, reserved);
      GapKeepsWorker(reserved, gaps.beforeRegister);
      var m2 := Exec(reserved, gaps.beforeRegister).value;
      RegisterRefines(m2, cfg, req, ruling.cred, env, gaps);
      var rest := RegisterSteps(Register(cfg, req.idCommitment, EffectiveRate(cfg, req), env), gaps);
      ExecAppend(reserved, gaps.beforeRegister, rest);
      ExecAppend(m, [step], gaps.beforeRegister + rest);
    }
  }

  // However the serve steps of other threads fall into a request, it is a run of the machine that
  // ends with the worker idle.
  lemma InterruptedRefines(m: State, buf: seq<byte>, env: Env, gaps: Gaps)
    requires Ticking(env.clock) && ServeGaps(gaps) && Ready(m)
    requires Interrupted(m, buf, env, gaps).Some?
    ensures var n := Interrupted(m, buf, env, gaps).value.0;
            Exec(m, InterruptedSteps(m, buf, env, gaps)) == Some(n) && Ready(n)
  {
    hide Exec, DecodeRequest, Accounted, ServeSteps, InterruptedVerdict, VerdictSteps;
    var req := DecodeRequest(buf);
    if req.Err? || |req.value.idCommitment| != 32 || m.config.None? {
      ExecNone(m);
    } else {
      var cfg := m.config.value;
      var judging := m.(workers := [Judging(cfg)]);
      OneStep(m, Snapshot(0));
      assert Next(m, Snapshot(0)) == judging;
      SameAccount(m, judging);
      GapKeepsWorker(judging, gaps.beforeVerdict);
      var m1 := Exec(judging, gaps.beforeVerdict).value;
      VerdictRefines(m1, cfg, req.value, env, gaps);
      var rest := VerdictSteps(m1, cfg, req.value, env, gaps);
      ExecAppend(judging, gaps.beforeVerdict, rest);
      ExecAppend(m, [Snapshot(0)], gaps.beforeVerdict + rest);
    }
  }

  // Without interruptions this is the handler.
  lemma UninterruptedIsHandle(s: Shared, callers: map<nat, Caller>, submitted: seq<Credential>, buf: seq<byte>,
      env: Env)
    requires Ticking(env.clock)
    ensures var h := Handle(s, buf, env);
            Interrupted(Around(s, callers, submitted), buf, env, Gaps([], [], []))
            == Some((Around(h.shared, callers, submitted + SubmittedBy(s, buf, env)), h.resp))
  {
    hide Exec, DecodeRequest, Judge, Register, Settle, KeyOf, EffectiveRate, VerifyCalls;
    var m := Around(s, callers, submitted);
    assert submitted + [] == submitted;
    var req := DecodeRequest(buf);
    if req.Ok? && |req.value.idCommitment| == 32 && s.config.Some? {
      var cfg := s.config.value;
      var m1 := m.(workers := [Judging(cfg)]);
      ExecNone(m1);
      var (s1, ruling) := Rule(SharedOf(m1), cfg, req.value, env);
      if ruling.GoOn? {
        var m2 := WithShared(m1, s1, Reserved(cfg, ruling.cred));
        ExecNone(m2);
        ExecNone(Called(m2, cfg, ruling.cred,
            Register(cfg, req.value.idCommitment, EffectiveRate(cfg, req.value), env)));
      }
    }
  }

  // ---------------------------------------------------------------- lives with interruptions

  datatype Happening =
    | Request(buf: seq<byte>, env: Env, gaps: Gaps)
    | Serving(step: Step)
    | Restart(cfg: Config)

  predicate GapsFit(path: string, gaps: Gaps) {
    FitSteps(path, gaps.beforeVerdict) && FitSteps(path, gaps.beforeRegister) && FitSteps(path, gaps.beforeSettle)
  }

  ghost predicate Possible(path: string, h: Happening) {
    match h
    case Request(_, env, gaps) => Ticking(env.clock) && ServeGaps(gaps) && GapsFit(path, gaps)
    case Serving(step) => ServeStep(step) && FitStep(path, step)
    case Restart(cfg) => FitConfig(path, cfg)
  }

  ghost predicate AllPossible(path: string, hs: seq<Happening>) {
    forall i :: 0 <= i < |hs| ==> Possible(path, hs[i])
  }

  function Happens(m: State, h: Happening): Option<State>
    requires h.Request? ==> Ticking(h.env.clock)
  {
    match h
    case Request(buf, env, gaps) =>
      (match Interrupted(m, buf, env, gaps) case None => None case Some((n, _)) => Some(n))
    case Serving(step) => if Enabled(m, step) then Some(Next(m, step)) else None
    case Restart(cfg) => Some(Up(cfg, Load(cfg.path, m.disk), Idle, m.disk, m.submitted))
  }

  function StepsFor(m: State, h: Happening): seq<Step>
    requires h.Request? ==> Ticking(h.env.clock)
  {
    match h
    case Request(buf, env, gaps) => InterruptedSteps(m, buf, env, gaps)
    case Serving(step) => [step]
    case Restart(cfg) => [Crash] + Boot(cfg)
  }

  // Steps that keep every promise wherever they are taken.
  predicate Calm(path: string, steps: seq<Step>) {
    forall i :: 0 <= i < |steps| ==> FitStep(path, steps[i]) && Quiet(steps[i])
  }

  lemma CalmMeaning(path: string, steps: seq<Step>)
    requires Calm(path, steps)
    ensures FitSteps(path, steps) && forall i :: 0 <= i < |steps| ==> Quiet(steps[i])
  {
  }

  lemma NothingCalm(path: string)
    ensures Calm(path, [])
  {
  }

  lemma StepCalm(path: string, step: Step)
    requires FitStep(path, step) && Quiet(step)
    ensures Calm(path, [step])
  {
  }

  lemma ServeCalm(path: string, steps: seq<Step>)
    requires ServeSteps(steps) && FitSteps(path, steps)
    ensures Calm(path, steps)
  {
  }

  lemma CalmAppend(path: string, a: seq<Step>, b: seq<Step>)
    requires Calm(path, a) && Calm(path, b)
    ensures Calm(path, a + b)
  {
  }

  lemma RegisterCalm(path: string, r: Registration, gaps: Gaps)
    requires ServeGaps(gaps) && GapsFit(path, gaps)
    ensures Calm(path, RegisterSteps(r, gaps))
  {
    hide FitConfig, ServeSteps, FitSteps, Calm;
    var steps := SettleSteps(r);
    StepCalm(path, steps[0]);
    StepCalm(path, steps[1]);
    ServeCalm(path, gaps.beforeSettle);
    CalmAppend(path, gaps.beforeSettle, [steps[1]]);
    CalmAppend(path, [steps[0]], gaps.beforeSettle + [steps[1]]);
  }

  lemma VerdictCalm(path: string, m: State, cfg: Config, req: Request, env: Env, gaps: Gaps)
    requires Ticking(env.clock) && ServeGaps(gaps) && GapsFit(path, gaps)
    ensures Calm(path, VerdictSteps(m, cfg, req, env, gaps))
  {
    hide Exec, FitConfig, Rule, Judge, Register, EffectiveRate, ServeSteps, FitSteps, Calm, RegisterSteps;
    var step := JudgeStep(Judge(cfg, req, EffectiveRate(cfg, req), env));
    var r := Register(cfg, req.idCommitment, EffectiveRate(cfg, req), env);
    StepCalm(path, step);
    RegisterCalm(path, r, gaps);
    ServeCalm(path, gaps.beforeRegister);
    CalmAppend(path, gaps.beforeRegister, RegisterSteps(r, gaps));
    CalmAppend(path, [step], gaps.beforeRegister + RegisterSteps(r, gaps));
  }

  lemma RequestQuiet(path: string, m: State, buf: seq<byte>, env: Env, gaps: Gaps)
    requires Ticking(env.clock) && ServeGaps(gaps) && GapsFit(path, gaps)
    ensures var steps := InterruptedSteps(m, buf, env, gaps);
            FitSteps(path, steps) && forall i :: 0 <= i < |steps| ==> Quiet(steps[i])
  {
    hide Exec, DecodeRequest, FitConfig, Rule, Judge, Register, EffectiveRate, ServeSteps, FitSteps, Calm;
    hide VerdictSteps, JudgeStep;
    var steps := InterruptedSteps(m, buf, env, gaps);
    var req := DecodeRequest(buf);
    NothingCalm(path);
    if steps != [] {
      var cfg := m.config.value;
      var m1 := Exec(m.(workers := [Judging(cfg)]), gaps.beforeVerdict).value;
      var rest := VerdictSteps(m1, cfg, req.value, env, gaps);
      VerdictCalm(path, m1, cfg, req.value, env, gaps);
      ServeCalm(path, gaps.beforeVerdict);
      CalmAppend(path, gaps.beforeVerdict, rest);
      StepCalm(path, Snapshot(0));
      CalmAppend(path, [Snapshot(0)], gaps.beforeVerdict + rest);
    }
    CalmMeaning(path, steps);
  }

  lemma ServingReady(m: State, step: Step)
    requires Ready(m) && ServeStep(step) && Enabled(m, step)
    ensures Ready(Next(m, step))
  {
    hide Accounted, Next, Enabled, ServeStep;
    ServeKeepsWorker(m, step);
  }

  lemma UpReady(cfg: Config, known: set<string>, disk: map<string, string>, submitted: seq<Credential>)
    ensures Ready(Up(cfg, known, Idle, disk, submitted))
  {
    assert MountingIn(map[]) == {};
  }

  lemma RestartReady(path: string, m: State, cfg: Config)
    requires Ready(m) && FitConfig(path, cfg)
    ensures Exec(m, [Crash] + Boot(cfg)) == Some(Up(cfg, Load(cfg.path, m.disk), Idle, m.disk, m.submitted))
    ensures Ready(Up(cfg, Load(cfg.path, m.disk), Idle, m.disk, m.submitted))
    ensures BenignRun(path, m, [Crash] + Boot(cfg))
  {
    hide Exec, PromisedRun, Load, FitConfig;
    IdleCrash(m);
    BootRun(cfg, m.disk, m.submitted);
    QuietRun(Down(m.disk, m.submitted), Boot(cfg));
    PromisedAppend(m, [Crash], Boot(cfg));
    ExecAppend(m, [Crash], Boot(cfg));
    UpReady(cfg, Load(cfg.path, m.disk), m.disk, m.submitted);
  }

  lemma HappeningRun(path: string, m: State, h: Happening)
    requires Ready(m) && Possible(path, h)
    requires Happens(m, h).Some?
    ensures Exec(m, StepsFor(m, h)) == Happens(m, h) && Ready(Happens(m, h).value)
    ensures BenignRun(path, m, StepsFor(m, h))
  {
    hide Exec, PromisedRun, Interrupted, InterruptedSteps, Enabled, Next, Load, FitConfig, Boot, Ready;
    hide ServeGaps, GapsFit;
    match h
    case Request(buf, env, gaps) =>
      InterruptedRefines(m, buf, env, gaps);
      RequestQuiet(path, m, buf, env, gaps);
      QuietRun(m, StepsFor(m, h));
    case Serving(step) =>
      OneStep(m, step);
      ServingReady(m, step);
      QuietRun(m, [step]);
    case Restart(cfg) => RestartReady(path, m, cfg);
  }

  // The states and steps of a life in which serve steps fall anywhere; None when one of them
  // could not be taken.
  ghost function Lived(path: string, disk: map<string, string>, cfg: Config, hs: seq<Happening>): Option<State>
    requires AllPossible(path, hs)
  {
    if hs == [] then Some(Up(cfg, Load(cfg.path, disk), Idle, disk, []))
    else
      var n := |hs| - 1;
      match Lived(path, disk, cfg, hs[..n])
      case None => None
      case Some(m) => Happens(m, hs[n])
  }

  ghost function LivedSteps(path: string, disk: map<string, string>, cfg: Config, hs: seq<Happening>): seq<Step>
    requires AllPossible(path, hs)
  {
    if hs == [] then Boot(cfg)
    else
      var n := |hs| - 1;
      match Lived(path, disk, cfg, hs[..n])
      case None => []
      case Some(m) => LivedSteps(path, disk, cfg, hs[..n]) + StepsFor(m, hs[n])
  }

  lemma BootKeeps(path: string, cfg: Config)
    requires FitConfig(path, cfg)
    ensures FitSteps(path, Boot(cfg)) && forall i :: 0 <= i < |Boot(cfg)| ==> Quiet(Boot(cfg)[i])
  {
  }

  lemma {:induction false} LivedIsRun(path: string, disk: map<string, string>, cfg: Config, hs: seq<Happening>)
    requires FitConfig(path, cfg) && AllPossible(path, hs) && Lived(path, disk, cfg, hs).Some?
    ensures Exec(Start(disk), LivedSteps(path, disk, cfg, hs)) == Lived(path, disk, cfg, hs)
    ensures BenignRun(path, Start(disk), LivedSteps(path, disk, cfg, hs))
    ensures Ready(Lived(path, disk, cfg, hs).value)
  {
    hide Exec, PromisedRun, Load, FitConfig, FitStep, StepsFor, Happens, Boot, Ready, ServeGaps, GapsFit, ServeStep;
    if hs == [] {
      BootRun(cfg, disk, []);
      BootKeeps(path, cfg);
      QuietRun(Start(disk), Boot(cfg));
      UpReady(cfg, Load(cfg.path, disk), disk, []);
    } else {
      var n := |hs| - 1;
      LivedIsRun(path, disk, cfg, hs[..n]);
      var m := Lived(path, disk, cfg, hs[..n]).value;
      HappeningRun(path, m, hs[n]);
      ExecAppend(Start(disk), LivedSteps(path, disk, cfg, hs[..n]), StepsFor(m, hs[n]));
      PromisedAppend(Start(disk), LivedSteps(path, disk, cfg, hs[..n]), StepsFor(m, hs[n]));
    }
  }

  // Wherever serve calls interrupt requests, each credential is submitted at most once, and
  // between requests the memory is the file.
  lemma InterruptionsBuyNothing(path: string, disk: map<string, string>, cfg: Config, hs: seq<Happening>)
    requires FreshStart(path, disk) && FitConfig(path, cfg) && AllPossible(path, hs)
    requires Lived(path, disk, cfg, hs).Some?
    ensures var m := Lived(path, disk, cfg, hs).value;
            && (forall i, j :: 0 <= i < j < |m.submitted| ==> m.submitted[i] != m.submitted[j])
            && (forall i :: 0 <= i < |m.submitted| ==> KeyOf(m.submitted[i]) !in Load(path, disk))
            && Known(m) == Load(path, disk) + SubmittedKeys(m.submitted)
            && (m.consumed.Some? ==> m.consumed.value == Load(path, m.disk))
  {
    hide Exec, BenignRun, Load, FitConfig, LivedSteps, Lived, FreshStart, KeyOf, SubmittedKeys, AllPossible;
    LivedIsRun(path, disk, cfg, hs);
    AtMostOnce(path, disk, LivedSteps(path, disk, cfg, hs));
    InvRun(path, disk, LivedSteps(path, disk, cfg, hs));
    assert Held(Lived(path, disk, cfg, hs).value) == None;
  }
}
