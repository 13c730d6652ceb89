/**
 The gifter server as a transition system: any number of serve callers, the worker, the file and
 restarts, one atomic access to the shared state per step.
 */
module GifterMachine {
  import opened Bits
  import opened Wrappers
  import opened Nullifiers

  datatype Verifier = Verifier(mod: string, config: Option<string>)

  // What `serve` was given; an empty verifier map is an open gifter.
  datatype Config = Config(account: string, wallet: string, verifiers: map<string, Verifier>, path: string,
      maxRate: u64)

  datatype Credential = Credential(authType: string, nul: string)

  function KeyOf(c: Credential): string {
    KeyText(c.authType, c.nul)
  }

  // A worker between requests, after reading the configuration, holding a reservation before
  // register_member, after it was accepted, and after it failed.
  datatype Worker =
    | Idle
    | Judging(cfg: Config)
    | Reserved(cfg: Config, cred: Option<Credential>)
    | Submitted(cfg: Config, cred: Option<Credential>)
    | Refunding(cfg: Config, cred: Option<Credential>)

  // A serve call after merging the file, after storing its configuration, and while mounting.
  datatype Caller = Merged(cfg: Config) | Configured | Mounting

  datatype State = State(
    consumed: Option<set<string>>,
    config: Option<Config>,
    serving: bool,
    callers: map<nat, Caller>,
    workers: seq<Worker>,
    disk: map<string, string>,
    submitted: seq<Credential>)  // history: registrations submitted for a credential

  datatype Step =
    | ServeMerge(t: nat, cfg: Config)
    | ServeConfigure(t: nat)
    | ServeSwap(t: nat)
    | MountFails(t: nat)
    | MountSucceeds(t: nat)
    | Snapshot(w: nat)
    | Refuse(w: nat)
    | Reserve(w: nat, authType: string, nullifier: string)
    | Proceed(w: nat)
    | Accept(w: nat)
    | Reject(w: nat, landed: bool)
    | Rollback(w: nat)
    | Persist(w: nat)
    | Crash

  function Known(s: State): set<string> {
    if s.consumed.None? then {} else s.consumed.value
  }

  predicate Enabled(s: State, step: Step) {
    match step
    case ServeMerge(t, _) => t !in s.callers
    case ServeConfigure(t) => t in s.callers && s.callers[t].Merged?
    case ServeSwap(t) => t in s.callers && s.callers[t].Configured?
    case MountFails(t) => t in s.callers && s.callers[t].Mounting?
    case MountSucceeds(t) => t in s.callers && s.callers[t].Mounting?
    case Snapshot(w) => w < |s.workers| && s.workers[w].Idle? && s.config.Some?
    case Refuse(w) => w < |s.workers| && s.workers[w].Judging?
    case Reserve(w, authType, nullifier) =>
      w < |s.workers| && s.workers[w].Judging? && authType in s.workers[w].cfg.verifiers && Normalize(nullifier).Some?
    case Proceed(w) => w < |s.workers| && s.workers[w].Judging?
    case Accept(w) => w < |s.workers| && s.workers[w].Reserved?
    case Reject(w, _) => w < |s.workers| && s.workers[w].Reserved?
    case Rollback(w) => w < |s.workers| && s.workers[w].Refunding?
    case Persist(w) => w < |s.workers| && s.workers[w].Submitted?
    case Crash => true
  }

  function Recorded(s: State, cred: Option<Credential>): seq<Credential> {
    if cred.None? then s.submitted else s.submitted + [cred.value]
  }

  // A step of a serve caller.
  function ServeNext(s: State, step: Step): State
    requires Enabled(s, step)
        && (step.ServeMerge? || step.ServeConfigure? || step.ServeSwap? || step.MountFails? || step.MountSucceeds?)
  {
    match step
    case ServeMerge(t, cfg) =>
      s.(consumed := Some(Known(s) + Load(cfg.path, s.disk)), callers := s.callers[t := Merged(cfg)])
    case ServeConfigure(t) => s.(config := Some(s.callers[t].cfg), callers := s.callers[t := Configured])
    case ServeSwap(t) =>
      if s.serving then s.(callers := s.callers - {t}) else s.(serving := true, callers := s.callers[t := Mounting])
    case MountFails(t) => s.(serving := false, callers := s.callers - {t})
    case MountSucceeds(t) => s.(workers := s.workers + [Idle], callers := s.callers - {t})
  }

  // Inserting the key of a credential, or finding it there.
  function ReserveNext(s: State, w: nat, cred: Credential): State
    requires w < |s.workers| && s.workers[w].Judging?
  {
    var key := KeyOf(cred);
    if key in Known(s) then s.(consumed := Some(Known(s)), workers := s.workers[w := Idle])
    else s.(consumed := Some(Known(s) + {key}), workers := s.workers[w := Reserved(s.workers[w].cfg, Some(cred))])
  }

  // Reading the configuration and judging a request, up to the reservation.
  function JudgeNext(s: State, step: Step): State
    requires Enabled(s, step) && (step.Snapshot? || step.Refuse? || step.Reserve? || step.Proceed?)
  {
    hide Normalize, KeyText, KeyOf;
    match step
    case Snapshot(w) => s.(workers := s.workers[w := Judging(s.config.value)])
    case Refuse(w) => s.(workers := s.workers[w := Idle])
    case Reserve(w, authType, nullifier) => ReserveNext(s, w, Credential(authType, Normalize(nullifier).value))
    case Proceed(w) => s.(workers := s.workers[w := Reserved(s.workers[w].cfg, None)])
  }

  // Registering, and settling the reservation.
  function SettleNext(s: State, step: Step): State
    requires Enabled(s, step) && (step.Accept? || step.Reject? || step.Rollback? || step.Persist?)
  {
    var cred := s.workers[step.w].cred;
    match step
    case Accept(w) =>
      s.(workers := s.workers[w := Submitted(s.workers[w].cfg, cred)], submitted := Recorded(s, cred))
    case Reject(w, landed) =>
      s.(workers := s.workers[w := Refunding(s.workers[w].cfg, cred)],
         submitted := if landed then Recorded(s, cred) else s.submitted)
    case Rollback(w) =>
      s.(workers := s.workers[w := Idle],
         consumed := if cred.Some? && s.consumed.Some? then Some(s.consumed.value - {KeyOf(cred.value)})
             else s.consumed)
    case Persist(w) =>
      s.(workers := s.workers[w := Idle],
         disk := if cred.Some? then Append(s.workers[w].cfg.path, s.disk, KeyOf(cred.value)) else s.disk)
  }

  function Next(s: State, step: Step): State
    requires Enabled(s, step)
  {
    if step.Crash? then State(None, None, false, map[], [], s.disk, s.submitted)
    else if step.Snapshot? || step.Refuse? || step.Reserve? || step.Proceed? then JudgeNext(s, step)
    else if step.Accept? || step.Reject? || step.Rollback? || step.Persist? then SettleNext(s, step)
    else ServeNext(s, step)
  }

  function Exec(s: State, steps: seq<Step>): Option<State> {
    if steps == [] then Some(s)
    else
      match Exec(s, steps[..|steps| - 1])
      case None => None
      case Some(m) =>
        var step := steps[|steps| - 1];
        if Enabled(m, step) then Some(Next(m, step)) else None
  }

  function Start(disk: map<string, string>): State {
    State(None, None, false, map[], [], disk, [])
  }

  // ---------------------------------------------------------------- one worker

  function MountingIn(callers: map<nat, Caller>): set<nat> {
    set t | t in callers && callers[t].Mounting?
  }

  function MountingCallers(s: State): set<nat> {
    MountingIn(s.callers)
  }

  lemma MountingPut(callers: map<nat, Caller>, t: nat, c: Caller)
    requires t !in MountingIn(callers)
    ensures |MountingIn(callers[t := c])| == |MountingIn(callers)| + Digit(c.Mounting?)
  {
    assert MountingIn(callers[t := c]) == MountingIn(callers) + if c.Mounting? then {t} else {};
  }

  lemma MountingRemoved(callers: map<nat, Caller>, t: nat)
    ensures |MountingIn(callers - {t})| == |MountingIn(callers)| - Digit(t in MountingIn(callers))
  {
    assert MountingIn(callers - {t}) == MountingIn(callers) - {t};
  }

  // Workers spawned plus callers mounting is one exactly when SERVING is set.
  predicate Accounted(s: State) {
    |s.workers| + |MountingCallers(s)| == Digit(s.serving)
  }

  lemma MountingMembers(callers: map<nat, Caller>, t: nat)
    ensures t in MountingIn(callers) <==> t in callers && callers[t].Mounting?
  {
  }

  lemma AccountedServe(s: State, step: Step)
    requires Accounted(s) && Enabled(s, step)
    requires step.ServeMerge? || step.ServeConfigure? || step.ServeSwap? || step.MountFails? || step.MountSucceeds?
    ensures Accounted(Next(s, step))
  {
    hide Load, Known, MountingIn, JudgeNext, SettleNext;
    MountingMembers(s.callers, step.t);
    match step
    case ServeMerge(t, cfg) => MountingPut(s.callers, t, Merged(cfg));
    case ServeConfigure(t) => MountingPut(s.callers, t, Configured);
    case ServeSwap(t) =>
      MountingPut(s.callers, t, Mounting);
      MountingRemoved(s.callers, t);
    case MountFails(t) => MountingRemoved(s.callers, t);
    case MountSucceeds(t) => MountingRemoved(s.callers, t);
  }

  // The worker's own steps neither create nor end workers and leave the callers alone.
  lemma WorkerStep(s: State, step: Step)
    requires Enabled(s, step)
    requires !step.ServeMerge? && !step.ServeConfigure? && !step.ServeSwap? && !step.MountFails?
        && !step.MountSucceeds? && !step.Crash?
    ensures var s' := Next(s, step);
            |s'.workers| == |s.workers| && s'.callers == s.callers && s'.serving == s.serving && s'.config == s.config
  {
    hide Load, KeyOf, Append, Normalize, Known, Recorded;
  }

  lemma AccountedStep(s: State, step: Step)
    requires Accounted(s) && Enabled(s, step)
    ensures Accounted(Next(s, step))
  {
    if step.Crash? {
      assert MountingIn(map[]) == {};
    } else if step.ServeMerge? || step.ServeConfigure? || step.ServeSwap? || step.MountFails? || step.MountSucceeds? {
      AccountedServe(s, step);
    } else {
      WorkerStep(s, step);
    }
  }

  lemma AccountedBound(s: State)
    requires Accounted(s)
    ensures |s.workers| <= 1
  {
  }

  lemma {:induction false} AtMostOneWorker(disk: map<string, string>, steps: seq<Step>)
    requires Exec(Start(disk), steps).Some?
    ensures var s := Exec(Start(disk), steps).value;
            Accounted(s) && |s.workers| <= 1 && (s.serving <==> |s.workers| + |MountingCallers(s)| == 1)
  {
    hide Enabled, Next;
    if steps == [] {
      assert MountingCallers(Start(disk)) == {};
    } else {
      var init := steps[..|steps| - 1];
      AtMostOneWorker(disk, init);
      AccountedStep(Exec(Start(disk), init).value, steps[|steps| - 1]);
    }
  }

  // ---------------------------------------------------------------- the environment's part

  predicate FitConfig(path: string, cfg: Config) {
    cfg.path == path && forall t :: t in cfg.verifiers ==> StorableType(t)
  }

  // An error from register_member means nothing was submitted, and no crash falls between an
  // accepted submission and its append.
  predicate Promised(s: State, step: Step) {
    match step
    case Reject(_, landed) => !landed
    case Crash => forall w :: 0 <= w < |s.workers| ==> !(s.workers[w].Submitted? && s.workers[w].cred.Some?)
    case _ => true
  }

  predicate PromisedRun(s: State, steps: seq<Step>) {
    steps == [] ||
    var init := steps[..|steps| - 1];
    && PromisedRun(s, init)
    && Exec(s, init).Some?
    && Enabled(Exec(s, init).value, steps[|steps| - 1])
    && Promised(Exec(s, init).value, steps[|steps| - 1])
  }

  // The nullifier path never changes and every vector name is storable.
  predicate FitStep(path: string, step: Step) {
    step.ServeMerge? ==> FitConfig(path, step.cfg)
  }

  predicate FitSteps(path: string, steps: seq<Step>) {
    forall i :: 0 <= i < |steps| ==> FitStep(path, steps[i])
  }

  predicate Benign(path: string, s: State, step: Step) {
    FitStep(path, step) && Promised(s, step)
  }

  predicate BenignRun(path: string, s: State, steps: seq<Step>) {
    FitSteps(path, steps) && PromisedRun(s, steps)
  }

  predicate FreshStart(path: string, disk: map<string, string>) {
    path != "" && (path in disk ==> Complete(disk[path]))
  }

  // ---------------------------------------------------------------- the invariant

  // The credential the worker holds, and the one it has submitted but not yet written down.
  function Held(s: State): Option<Credential> {
    if s.workers == [] || s.workers[0].Idle? || s.workers[0].Judging? then None else s.workers[0].cred
  }

  function Unwritten(s: State): Option<Credential> {
    if s.workers != [] && s.workers[0].Submitted? then s.workers[0].cred else None
  }

  function KeysIn(cred: Option<Credential>): set<string> {
    if cred.None? then {} else {KeyOf(cred.value)}
  }

  function SubmittedKeys(cs: seq<Credential>): set<string> {
    set c | c in cs :: KeyOf(c)
  }

  predicate WorkerFits(path: string, w: Worker) {
    !w.Idle? ==> FitConfig(path, w.cfg)
  }

  predicate ConfigsFit(path: string, s: State) {
    && (s.config.Some? ==> FitConfig(path, s.config.value))
    && (forall t :: t in s.callers && s.callers[t].Merged? ==> FitConfig(path, s.callers[t].cfg))
    && (s.workers != [] ==> WorkerFits(path, s.workers[0]))
  }

  // The set in memory is what a restart would read back, plus the reservation in flight.
  predicate MemoryMatchesFile(path: string, s: State) {
    match s.consumed
    case None => s.workers == [] && s.callers == map[]
    case Some(known) => known == Load(path, s.disk) + KeysIn(Held(s))
  }

  predicate HeldIsNew(path: string, s: State) {
    Held(s).Some? ==> KeyOf(Held(s).value) !in Load(path, s.disk) && Storable(KeyOf(Held(s).value))
  }

  predicate Distinct(cs: seq<Credential>) {
    forall i, j :: 0 <= i < j < |cs| ==> KeyOf(cs[i]) != KeyOf(cs[j])
  }

  // The file holds what it held at first and every submitted credential but the unwritten one.
  predicate FileMatchesHistory(path: string, disk: map<string, string>, s: State) {
    && Load(path, s.disk) + KeysIn(Unwritten(s)) == Load(path, disk) + SubmittedKeys(s.submitted)
    && Load(path, disk) !! SubmittedKeys(s.submitted)
    && Distinct(s.submitted)
  }

  predicate Inv(path: string, disk: map<string, string>, s: State) {
    && FreshStart(path, s.disk)
    && |s.workers| <= 1
    && ConfigsFit(path, s)
    && MemoryMatchesFile(path, s)
    && HeldIsNew(path, s)
    && FileMatchesHistory(path, disk, s)
  }

  lemma InvStart(path: string, disk: map<string, string>)
    requires FreshStart(path, disk)
    ensures Inv(path, disk, Start(disk))
  {
  }

  lemma ServeKeepsInv(path: string, disk: map<string, string>, s: State, step: Step)
    requires Inv(path, disk, s) && Accounted(s) && Enabled(s, step) && Benign(path, s, step)
    requires step.ServeMerge? || step.ServeConfigure? || step.ServeSwap? || step.MountFails? || step.MountSucceeds?
    ensures Inv(path, disk, Next(s, step))
  {
    hide Load, KeyOf, Storable, Complete, SubmittedKeys, StorableType, Accounted;
    AccountedStep(s, step);
    var s' := Next(s, step);
    AccountedBound(s');
    assert Held(s') == Held(s) && Unwritten(s') == Unwritten(s);
  }

  lemma SubmittedKeysSnoc(cs: seq<Credential>, c: Credential)
    ensures SubmittedKeys(cs + [c]) == SubmittedKeys(cs) + {KeyOf(c)}
  {
    assert forall x :: x in cs + [c] <==> x in cs || x == c;
  }

  lemma KeyIsText(c: Credential)
    ensures KeyOf(c) == KeyText(c.authType, c.nul)
  {
  }

  lemma ReserveKeepsInv(path: string, disk: map<string, string>, s: State, step: Step)
    requires Inv(path, disk, s) && Enabled(s, step) && step.Reserve?
    ensures Inv(path, disk, Next(s, step))
  {
    hide Load, KeyOf, Storable, Complete, Normalize, SubmittedKeys, StorableType, Distinct, KeyText;
    var cred := Credential(step.authType, Normalize(step.nullifier).value);
    NormalizeNormalizes(step.nullifier);
    KeyIsText(cred);
    KeyStorable(cred.authType, cred.nul);
  }

  lemma NewKeyDistinct(cs: seq<Credential>, c: Credential)
    requires Distinct(cs) && KeyOf(c) !in SubmittedKeys(cs)
    ensures Distinct(cs + [c])
  {
    forall i | 0 <= i < |cs| ensures KeyOf(cs[i]) != KeyOf(c) {
      assert cs[i] in cs;
    }
  }

  lemma AcceptKeepsInv(path: string, disk: map<string, string>, s: State, step: Step)
    requires Inv(path, disk, s) && Enabled(s, step) && step.Accept?
    ensures Inv(path, disk, Next(s, step))
  {
    hide Load, KeyOf, Storable, Complete, FitConfig, SubmittedKeys;
    var cred := s.workers[0].cred;
    if cred.Some? {
      SubmittedKeysSnoc(s.submitted, cred.value);
      NewKeyDistinct(s.submitted, cred.value);
      assert KeyOf(cred.value) !in Load(path, disk) + SubmittedKeys(s.submitted);
    }
  }

  lemma PersistKeepsInv(path: string, disk: map<string, string>, s: State, step: Step)
    requires Inv(path, disk, s) && Enabled(s, step) && step.Persist?
    ensures Inv(path, disk, Next(s, step))
  {
    hide Load, KeyOf, Storable, Complete, Append, SubmittedKeys;
    var cred := s.workers[0].cred;
    if cred.Some? {
      AppendStorable(path, s.disk, KeyOf(cred.value));
    }
  }

  lemma CrashKeepsInv(path: string, disk: map<string, string>, s: State)
    requires Inv(path, disk, s) && Benign(path, s, Crash)
    ensures Inv(path, disk, Next(s, Crash))
  {
    hide Load, KeyOf, Storable, Complete, SubmittedKeys;
    assert Unwritten(s) == None;
  }

  lemma OtherStepsKeepInv(path: string, disk: map<string, string>, s: State, step: Step)
    requires Inv(path, disk, s) && Enabled(s, step) && Benign(path, s, step)
    requires step.Snapshot? || step.Refuse? || step.Proceed? || step.Reject? || step.Rollback?
    ensures Inv(path, disk, Next(s, step))
  {
    hide Load, KeyOf, Storable, Complete, SubmittedKeys, FitConfig;
    if step.Rollback? && s.workers[0].cred.Some? {
      assert Known(s) - KeysIn(Held(s)) == Load(path, s.disk);
    }
  }

  lemma InvStep(path: string, disk: map<string, string>, s: State, step: Step)
    requires Inv(path, disk, s) && Accounted(s) && Enabled(s, step) && Benign(path, s, step)
    ensures Inv(path, disk, Next(s, step))
  {
    hide Inv, Enabled, Next, Benign, Accounted;
    match step
    case Reserve(_, _, _) => ReserveKeepsInv(path, disk, s, step);
    case Accept(_) => AcceptKeepsInv(path, disk, s, step);
    case Persist(_) => PersistKeepsInv(path, disk, s, step);
    case Crash => CrashKeepsInv(path, disk, s);
    case Snapshot(_) => OtherStepsKeepInv(path, disk, s, step);
    case Refuse(_) => OtherStepsKeepInv(path, disk, s, step);
    case Proceed(_) => OtherStepsKeepInv(path, disk, s, step);
    case Reject(_, _) => OtherStepsKeepInv(path, disk, s, step);
    case Rollback(_) => OtherStepsKeepInv(path, disk, s, step);
    case _ => ServeKeepsInv(path, disk, s, step);
  }

  lemma {:induction false} InvRun(path: string, disk: map<string, string>, steps: seq<Step>)
    requires FreshStart(path, disk) && BenignRun(path, Start(disk), steps)
    ensures Exec(Start(disk), steps).Some? && Inv(path, disk, Exec(Start(disk), steps).value)
    ensures Accounted(Exec(Start(disk), steps).value)
  {
    hide Inv, Enabled, Next, FitStep, Promised, Accounted, FreshStart;
    if steps == [] {
      InvStart(path, disk);
    } else {
      var init := steps[..|steps| - 1];
      InvRun(path, disk, init);
      assert FitStep(path, steps[|steps| - 1]);
      InvStep(path, disk, Exec(Start(disk), init).value, steps[|steps| - 1]);
    }
    AtMostOneWorker(disk, steps);
  }
}
