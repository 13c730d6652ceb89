/**
 Exactly which configurations keep the guarantee: those under which no credential can be
 submitted twice as long as the environment keeps its promises.
 */
module GifterConfigurations {
  import opened Wrappers
  import opened Text
  import opened Nullifiers
  import opened GifterMachine
  import opened GifterRuns
  import opened GifterLaws

  // Every serve call is given this configuration.
  predicate ServesOnly(cfg: Config, steps: seq<Step>) {
    forall i :: 0 <= i < |steps| && steps[i].ServeMerge? ==> steps[i].cfg == cfg
  }

  // A run on a finished file, with this configuration, that keeps every promise.
  predicate OrderlyRun(cfg: Config, disk: map<string, string>, steps: seq<Step>) {
    && (cfg.path in disk ==> Complete(disk[cfg.path]))
    && ServesOnly(cfg, steps)
    && PromisedRun(Start(disk), steps)
    && Exec(Start(disk), steps).Some?
  }

  predicate SubmitsOnce(disk: map<string, string>, steps: seq<Step>) {
    match Exec(Start(disk), steps)
    case None => true
    case Some(s) => forall i, j :: 0 <= i < j < |s.submitted| ==> s.submitted[i] != s.submitted[j]
  }

  ghost predicate NeverTwice(cfg: Config) {
    forall disk, steps :: OrderlyRun(cfg, disk, steps) ==> SubmitsOnce(disk, steps)
  }

  // The gifter is open, or it has a nullifier file that keeps the names of all its vectors.
  predicate Sound(cfg: Config) {
    cfg.verifiers == map[] || (cfg.path != "" && forall t :: t in cfg.verifiers ==> StorableType(t))
  }

  // ---------------------------------------------------------------- sound configurations

  predicate WorkerCredentialless(cfg: Config, w: Worker) {
    match w
    case Idle => true
    case Judging(c) => c == cfg
    case Reserved(c, cred) => c == cfg && cred == None
    case Submitted(c, cred) => c == cfg && cred == None
    case Refunding(c, cred) => c == cfg && cred == None
  }

  // An open gifter asks for no credentials.
  predicate Credentialless(cfg: Config, s: State) {
    && s.submitted == []
    && (s.config.Some? ==> s.config.value == cfg)
    && (forall t :: t in s.callers && s.callers[t].Merged? ==> s.callers[t].cfg == cfg)
    && (forall w :: 0 <= w < |s.workers| ==> WorkerCredentialless(cfg, s.workers[w]))
  }

  lemma CredentiallessStep(cfg: Config, s: State, step: Step)
    requires cfg.verifiers == map[] && Credentialless(cfg, s) && Enabled(s, step)
    requires step.ServeMerge? ==> step.cfg == cfg
    ensures Credentialless(cfg, Next(s, step))
  {
    hide Load, Append, KeyOf, Normalize, Known;
  }

  lemma {:induction false} CredentiallessRun(cfg: Config, disk: map<string, string>, steps: seq<Step>)
    requires cfg.verifiers == map[] && ServesOnly(cfg, steps) && Exec(Start(disk), steps).Some?
    ensures Credentialless(cfg, Exec(Start(disk), steps).value)
  {
    hide Enabled, Next, WorkerCredentialless;
    if steps != [] {
      var init := steps[..|steps| - 1];
      CredentiallessRun(cfg, disk, init);
      CredentiallessStep(cfg, Exec(Start(disk), init).value, steps[|steps| - 1]);
    }
  }

  lemma SoundNeverTwice(cfg: Config, disk: map<string, string>, steps: seq<Step>)
    requires Sound(cfg) && OrderlyRun(cfg, disk, steps)
    ensures SubmitsOnce(disk, steps)
  {
    hide Exec, PromisedRun, Load, KeyOf, Complete, StorableType;
    if cfg.verifiers == map[] {
      CredentiallessRun(cfg, disk, steps);
    } else {
      AtMostOnce(cfg.path, disk, steps);
    }
  }

  // ---------------------------------------------------------------- unsound configurations

  // Spend a credential, write it down, restart cleanly, spend it again.
  function SpendAgain(cfg: Config, c: Credential): seq<Step> {
    Boot(cfg) + Spend(c) + [Persist(0)] + [Crash] + (Boot(cfg) + Spend(c))
  }

  // Booting on a file without the credential's key and spending it.
  lemma BootAndSpend(cfg: Config, c: Credential, disk: map<string, string>, submitted: seq<Credential>)
    requires c.authType in cfg.verifiers && Normalized(c.nul) && KeyOf(c) !in Load(cfg.path, disk)
    ensures Exec(Down(disk, submitted), Boot(cfg) + Spend(c))
            == Some(Up(cfg, Load(cfg.path, disk) + {KeyOf(c)}, Submitted(cfg, Some(c)), disk, submitted + [c]))
  {
    hide Exec, KeyOf, Normalized, Boot, Spend, Load;
    BootRun(cfg, disk, submitted);
    SpendRun(cfg, c, Load(cfg.path, disk), disk, submitted);
    ExecAppend(Down(disk, submitted), Boot(cfg), Spend(c));
  }

  lemma PersistRun(cfg: Config, c: Credential, known: set<string>, disk: map<string, string>,
      submitted: seq<Credential>)
    ensures Exec(Up(cfg, known, Submitted(cfg, Some(c)), disk, submitted), [Persist(0)])
            == Some(Up(cfg, known, Idle, Append(cfg.path, disk, KeyOf(c)), submitted))
  {
    hide Exec, KeyOf, Append;
    var s := Up(cfg, known, Submitted(cfg, Some(c)), disk, submitted);
    ExecOne(s, Persist(0), []);
    ExecNone(Next(s, Persist(0)));
    assert [Persist(0)] + [] == [Persist(0)];
    assert Next(s, Persist(0)).workers == [Idle];
  }

  lemma SpendingIsQuiet(cfg: Config, c: Credential)
    ensures var steps := Boot(cfg) + Spend(c);
            && (forall i :: 0 <= i < |steps| ==> Quiet(steps[i]))
            && (forall i :: 0 <= i < |steps + [Persist(0)]| ==> Quiet((steps + [Persist(0)])[i]))
    ensures ServesOnly(cfg, SpendAgain(cfg, c))
  {
  }

  lemma NothingLoaded(path: string)
    ensures Load(path, map[]) == {}
  {
  }

  lemma NotLoaded(path: string, c: Credential)
    requires Normalized(c.nul) && (path == "" || !StorableType(c.authType))
    ensures KeyOf(c) !in Load(path, Append(path, map[], KeyOf(c)))
  {
    hide Keys, Storable, Normalized, StorableType;
    KeyStorable(c.authType, c.nul);
    if KeyOf(c) in Load(path, Append(path, map[], KeyOf(c))) {
      LoadedStorable(Append(path, map[], KeyOf(c))[path], KeyOf(c));
    }
  }

  // Without a file, or with a vector name the file does not keep, every credential of that vector
  // can be submitted again after a clean restart, with every promise kept.
  lemma UnsoundSpendsTwice(cfg: Config, c: Credential)
    requires c.authType in cfg.verifiers && Normalized(c.nul)
    requires cfg.path == "" || !StorableType(c.authType)
    ensures var steps := SpendAgain(cfg, c);
            OrderlyRun(cfg, map[], steps) && Exec(Start(map[]), steps).value.submitted == [c, c]
  {
    hide Exec, PromisedRun, KeyOf, Normalized, Boot, Spend, Append, Load, StorableType;
    var key := KeyOf(c);
    var spend := Boot(cfg) + Spend(c);
    NothingLoaded(cfg.path);
    BootAndSpend(cfg, c, map[], []);
    PersistRun(cfg, c, {} + {key}, map[], [] + [c]);
    var disk := Append(cfg.path, map[], key);
    var idle := Up(cfg, {} + {key}, Idle, disk, [] + [c]);
    ExecAppend(Start(map[]), spend, [Persist(0)]);
    assert [] + [c] == [c];
    IdleCrash(idle);
    ExecAppend(Start(map[]), spend + [Persist(0)], [Crash]);
    NotLoaded(cfg.path, c);
    BootAndSpend(cfg, c, disk, [c]);
    ExecAppend(Start(map[]), spend + [Persist(0)] + [Crash], spend);
    SpendingIsQuiet(cfg, c);
    QuietRun(Start(map[]), spend + [Persist(0)]);
    PromisedAppend(Start(map[]), spend + [Persist(0)], [Crash]);
    QuietRun(Down(disk, [c]), spend);
    PromisedAppend(Start(map[]), spend + [Persist(0)] + [Crash], spend);
  }

  // ---------------------------------------------------------------- exactly the sound ones

  lemma ZeroIsNormalized()
    ensures Normalized("0")
  {
    assert LowerChar('0') == '0';
  }

  lemma UnsoundTwice(cfg: Config, t: string)
    requires t in cfg.verifiers && (cfg.path == "" || !StorableType(t))
    ensures !NeverTwice(cfg)
  {
    hide Exec, PromisedRun, SpendAgain, StorableType, Normalized, ServesOnly;
    var c := Credential(t, "0");
    ZeroIsNormalized();
    UnsoundSpendsTwice(cfg, c);
    var cs := Exec(Start(map[]), SpendAgain(cfg, c)).value.submitted;
    assert cs[0] == cs[1];
    assert !SubmitsOnce(map[], SpendAgain(cfg, c));
  }

  // As long as nothing else fails, no credential can be submitted twice if and only if the gifter
  // is open, or has a nullifier file and storable vector names only.
  lemma ConfigurationMeaning(cfg: Config)
    ensures NeverTwice(cfg) <==> Sound(cfg)
  {
    hide OrderlyRun, SubmitsOnce, StorableType;
    if Sound(cfg) {
      forall disk, steps | OrderlyRun(cfg, disk, steps) ensures SubmitsOnce(disk, steps) {
        SoundNeverTwice(cfg, disk, steps);
      }
    } else {
      var t :| t in cfg.verifiers && (cfg.path == "" || !StorableType(t));
      UnsoundTwice(cfg, t);
    }
  }
}
