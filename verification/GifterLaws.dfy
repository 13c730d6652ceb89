/**
 What the transition system guarantees over every run, and the runs that break it when one of
 the environment's promises is broken.
 */
module GifterLaws {
  import opened Wrappers
  import opened Nullifiers
  import opened GifterMachine
  import opened GifterRuns

  // ---------------------------------------------------------------- safety

  // Each credential is submitted at most once, and never one the file already held, over every
  // interleaving of serve calls, requests and restarts.
  lemma AtMostOnce(path: string, disk: map<string, string>, steps: seq<Step>)
    requires FreshStart(path, disk) && BenignRun(path, Start(disk), steps)
    ensures Exec(Start(disk), steps).Some?
    ensures var cs := Exec(Start(disk), steps).value.submitted;
            && (forall i, j :: 0 <= i < j < |cs| ==> cs[i] != cs[j])
            && (forall i :: 0 <= i < |cs| ==> KeyOf(cs[i]) !in Load(path, disk))
  {
    hide Exec, BenignRun, FreshStart, Load, KeyOf;
    InvRun(path, disk, steps);
    var cs := Exec(Start(disk), steps).value.submitted;
    forall i | 0 <= i < |cs| ensures KeyOf(cs[i]) in SubmittedKeys(cs) {
      assert cs[i] in cs;
    }
  }

  // In flight the memory is the file plus the one reservation; otherwise it is the file.
  lemma MemoryIsFile(path: string, disk: map<string, string>, steps: seq<Step>)
    requires FreshStart(path, disk) && BenignRun(path, Start(disk), steps)
    ensures Exec(Start(disk), steps).Some?
    ensures var s := Exec(Start(disk), steps).value;
            && (s.consumed.Some? ==> s.consumed.value == Load(path, s.disk) + KeysIn(Held(s)))
            && (Held(s).Some? ==> KeyOf(Held(s).value) !in Load(path, s.disk))
  {
    hide Exec, BenignRun, FreshStart, Load, KeyOf;
    InvRun(path, disk, steps);
  }

  // A restart between requests, followed by serve, brings back the same set.
  lemma RestartUnobservable(path: string, disk: map<string, string>, steps: seq<Step>, t: nat, cfg: Config)
    requires FreshStart(path, disk) && BenignRun(path, Start(disk), steps) && FitConfig(path, cfg)
    requires Exec(Start(disk), steps).Some?
    requires Exec(Start(disk), steps).value.consumed.Some? && Held(Exec(Start(disk), steps).value).None?
    ensures var s := Exec(Start(disk), steps).value;
            Next(Next(s, Crash), ServeMerge(t, cfg)).consumed == s.consumed
  {
    hide Exec, BenignRun, FreshStart, Load, KeyOf;
    InvRun(path, disk, steps);
  }

  // ---------------------------------------------------------------- availability

  // A worker that judges holds nothing, and refuses what is known.
  lemma ReserveOutcome(s: State, authType: string, nullifier: string)
    requires Enabled(s, Reserve(0, authType, nullifier)) && Normalize(nullifier).Some?
    ensures Held(s) == None && Unwritten(s) == None && s.workers != []
    ensures var s' := Next(s, Reserve(0, authType, nullifier));
            s'.workers != [] && (s'.workers[0].Idle? <==> KeyText(authType, Normalize(nullifier).value) in Known(s))
  {
    hide Normalize, KeyText;
  }

  // A credential is refused exactly when its key was in the file at first or was submitted since.
  lemma RefusedMeaning(path: string, disk: map<string, string>, steps: seq<Step>, authType: string, nullifier: string)
    requires FreshStart(path, disk) && BenignRun(path, Start(disk), steps)
    requires Exec(Start(disk), steps).Some?
    requires Normalize(nullifier).Some? && Enabled(Exec(Start(disk), steps).value, Reserve(0, authType, nullifier))
    ensures var s := Exec(Start(disk), steps).value;
            var key := KeyText(authType, Normalize(nullifier).value);
            var after := Next(s, Reserve(0, authType, nullifier)).workers;
            after != [] && (after[0].Idle? <==> key in Load(path, disk) + SubmittedKeys(s.submitted))
  {
    hide Exec, BenignRun, FreshStart, Load, SubmittedKeys, Normalize, Enabled, Next, KeyText;
    InvRun(path, disk, steps);
    ReserveOutcome(Exec(Start(disk), steps).value, authType, nullifier);
  }

  lemma RollbackOutcome(s: State)
    requires Enabled(s, Rollback(0)) && Held(s).Some? && s.consumed.Some?
    ensures Next(s, Rollback(0)).consumed == Some(s.consumed.value - {KeyOf(Held(s).value)})
  {
    hide KeyOf;
  }

  lemma HeldInMemory(path: string, disk: map<string, string>, s: State)
    requires Inv(path, disk, s) && Held(s).Some?
    ensures s.consumed == Some(Load(path, s.disk) + {KeyOf(Held(s).value)})
        && KeyOf(Held(s).value) !in Load(path, s.disk)
  {
    hide FreshStart, ConfigsFit, FileMatchesHistory, Load, KeyOf;
  }

  // What was rolled back can be reserved again.
  lemma RefundedIsSpendable(path: string, disk: map<string, string>, steps: seq<Step>, s: State)
    requires FreshStart(path, disk) && BenignRun(path, Start(disk), steps) && Exec(Start(disk), steps) == Some(s)
    requires Enabled(s, Rollback(0)) && Held(s).Some?
    ensures var s' := Next(s, Rollback(0));
            KeyOf(Held(s).value) !in Known(s') && s'.consumed == Some(Load(path, s.disk))
  {
    hide Exec, BenignRun, FreshStart, Load, KeyOf, Next, Inv, Enabled, Held;
    InvRun(path, disk, steps);
    HeldInMemory(path, disk, s);
    RollbackOutcome(s);
  }

  predicate CredentialsNormalized(s: State) {
    && (forall c :: c in s.submitted ==> Normalized(c.nul))
    && (forall w :: 0 <= w < |s.workers| && !s.workers[w].Idle? && !s.workers[w].Judging? && s.workers[w].cred.Some? ==>
          Normalized(s.workers[w].cred.value.nul))
  }

  lemma NormalizedStep(s: State, step: Step)
    requires CredentialsNormalized(s) && Enabled(s, step)
    ensures CredentialsNormalized(Next(s, step))
  {
    hide Normalized, Normalize, Load, Append, KeyOf;
    if step.Reserve? {
      NormalizeNormalizes(step.nullifier);
    }
  }

  lemma NormalizedStart(disk: map<string, string>)
    ensures CredentialsNormalized(Start(disk))
  {
  }

  lemma {:induction false} NormalizedRun(disk: map<string, string>, steps: seq<Step>)
    requires Exec(Start(disk), steps).Some?
    ensures CredentialsNormalized(Exec(Start(disk), steps).value)
  {
    hide Enabled, Next, CredentialsNormalized;
    if steps == [] {
      NormalizedStart(disk);
    } else {
      var init := steps[..|steps| - 1];
      NormalizedRun(disk, init);
      NormalizedStep(Exec(Start(disk), init).value, steps[|steps| - 1]);
    }
  }

  // With colon-free vector names nobody is refused for another vector's credential.
  lemma RefusedOnlyIfSpent(path: string, disk: map<string, string>, steps: seq<Step>, authType: string,
      nullifier: string)
    requires FreshStart(path, disk) && BenignRun(path, Start(disk), steps)
    requires Exec(Start(disk), steps).Some?
    requires Normalize(nullifier).Some? && Enabled(Exec(Start(disk), steps).value, Reserve(0, authType, nullifier))
    requires ':' !in authType && forall c :: c in Exec(Start(disk), steps).value.submitted ==> ':' !in c.authType
    ensures var s := Exec(Start(disk), steps).value;
            var cred := Credential(authType, Normalize(nullifier).value);
            var after := Next(s, Reserve(0, authType, nullifier)).workers;
            after != [] && (after[0].Idle? <==> KeyOf(cred) in Load(path, disk) || cred in s.submitted)
  {
    hide Exec, BenignRun, FreshStart, Load, Normalize, Next, Normalized, KeyText, Enabled;
    NormalizeNormalizes(nullifier);
    RefusedMeaning(path, disk, steps, authType, nullifier);
    NormalizedRun(disk, steps);
    var s := Exec(Start(disk), steps).value;
    var cred := Credential(authType, Normalize(nullifier).value);
    forall c | c in s.submitted ensures KeyOf(c) == KeyOf(cred) <==> c == cred {
      ColonFreeTypesNeverCollide(c.authType, c.nul, authType, cred.nul);
    }
  }

  // ---------------------------------------------------------------- runs that break a promise

  // A crash between submission and append: any credential can be submitted twice.
  lemma CrashInWindowSpendsTwice(cfg: Config, c: Credential)
    requires c.authType in cfg.verifiers && Normalized(c.nul)
    ensures var steps := Boot(cfg) + Spend(c) + [Crash] + Boot(cfg) + Spend(c);
            Exec(Start(map[]), steps).Some? && Exec(Start(map[]), steps).value.submitted == [c, c]
  {
    hide Exec, KeyOf, Normalized, Boot, Spend;
    var (boot, spend) := (Boot(cfg), Spend(c));
    BootRun(cfg, map[], []);
    SpendRun(cfg, c, {}, map[], []);
    ExecAppend(Start(map[]), boot, spend);
    var s := Up(cfg, {} + {KeyOf(c)}, Submitted(cfg, Some(c)), map[], [c]);
    ExecOne(s, Crash, []);
    ExecNone(Down(map[], [c]));
    assert [Crash] + [] == [Crash] && [] + [c] == [c];
    ExecAppend(Start(map[]), boot + spend, [Crash]);
    BootRun(cfg, map[], [c]);
    SpendRun(cfg, c, {}, map[], [c]);
    ExecAppend(Start(map[]), boot + spend + [Crash], boot);
    ExecAppend(Start(map[]), boot + spend + [Crash] + boot, spend);
  }

  // An error reported for a submission that landed: any credential can be submitted twice.
  lemma LandedErrorSpendsTwice(cfg: Config, c: Credential)
    requires c.authType in cfg.verifiers && Normalized(c.nul)
    ensures var failed := [Snapshot(0), Reserve(0, c.authType, c.nul), Reject(0, true), Rollback(0)];
            var steps := Boot(cfg) + failed + Spend(c);
            Exec(Start(map[]), steps).Some? && Exec(Start(map[]), steps).value.submitted == [c, c]
  {
    hide Exec, KeyOf, Normalized, Boot, Spend, Normalize;
    var failed := [Snapshot(0), Reserve(0, c.authType, c.nul), Reject(0, true), Rollback(0)];
    NormalizeFixed(c.nul);
    BootRun(cfg, map[], []);
    var s0 := Up(cfg, {}, Idle, map[], []);
    var s1 := Next(s0, failed[0]);
    var s2 := Next(s1, failed[1]);
    var s3 := Next(s2, failed[2]);
    var s4 := Next(s3, failed[3]);
    assert s4 == Up(cfg, {}, Idle, map[], [c]);
    ExecOne(s0, failed[0], failed[1..]);
    ExecOne(s1, failed[1], failed[2..]);
    ExecOne(s2, failed[2], failed[3..]);
    ExecOne(s3, failed[3], []);
    ExecNone(s4);
    assert failed == [failed[0]] + failed[1..] && failed[1..] == [failed[1]] + failed[2..];
    assert failed[2..] == [failed[2]] + failed[3..] && failed[3..] == [failed[3]] + [];
    SpendRun(cfg, c, {}, map[], [c]);
    ExecAppend(Start(map[]), Boot(cfg), failed);
    ExecAppend(Start(map[]), Boot(cfg) + failed, Spend(c));
  }
}
