/**
 Runs of the transition system: composing them, and the two runs every life is made of, booting
 a gifter and spending a credential.
 */
module GifterRuns {
  import opened Wrappers
  import opened Nullifiers
  import opened GifterMachine

  lemma ExecNone(s: State)
    ensures Exec(s, []) == Some(s)
  {
  }

  lemma {:induction false} ExecAppend(s: State, a: seq<Step>, b: seq<Step>)
    ensures Exec(s, a + b) == if Exec(s, a).None? then None else Exec(Exec(s, a).value, b)
  {
    hide Enabled, Next;
    if b == [] {
      assert a + b == a;
    } else {
      var c := b[..|b| - 1];
      assert (a + b)[..|a + b| - 1] == a + c;
      ExecAppend(s, a, c);
    }
  }

  lemma ExecOne(s: State, step: Step, rest: seq<Step>)
    requires Enabled(s, step)
    ensures Exec(s, [step] + rest) == Exec(Next(s, step), rest)
  {
    hide Enabled, Next;
    ExecAppend(s, [step], rest);
    assert [step][..0] == [];
    assert Exec(s, [step]) == Some(Next(s, step));
  }

  // ---------------------------------------------------------------- runs that keep the promises

  lemma {:induction false} PromisedAppend(s: State, a: seq<Step>, b: seq<Step>)
    requires PromisedRun(s, a) && Exec(s, a).Some? && PromisedRun(Exec(s, a).value, b)
    ensures PromisedRun(s, a + b)
  {
    hide Enabled, Next, Promised;
    if b == [] {
      assert a + b == a;
    } else {
      var c := b[..|b| - 1];
      PromisedAppend(s, a, c);
      assert (a + b)[..|a + b| - 1] == a + c;
      ExecAppend(s, a, c);
    }
  }

  // Steps that keep the promises in whatever state they are taken.
  predicate Quiet(step: Step) {
    !step.Crash? && (step.Reject? ==> !step.landed)
  }

  lemma {:induction false} QuietRun(s: State, steps: seq<Step>)
    requires Exec(s, steps).Some? && forall i :: 0 <= i < |steps| ==> Quiet(steps[i])
    ensures PromisedRun(s, steps)
  {
    hide Enabled, Next;
    if steps != [] {
      QuietRun(s, steps[..|steps| - 1]);
      assert Quiet(steps[|steps| - 1]);
    }
  }

  // A process that is not running.
  function Down(disk: map<string, string>, submitted: seq<Credential>): State {
    State(None, None, false, map[], [], disk, submitted)
  }

  lemma CrashIsDown(s: State)
    requires s.workers == [Idle]
    ensures Enabled(s, Crash) && Promised(s, Crash) && Next(s, Crash) == Down(s.disk, s.submitted)
  {
  }

  // A crash between requests keeps them too.
  lemma IdleCrash(s: State)
    requires s.workers == [Idle]
    ensures PromisedRun(s, [Crash]) && Exec(s, [Crash]) == Some(Down(s.disk, s.submitted))
  {
    hide Enabled, Next, Exec, Promised;
    CrashIsDown(s);
    ExecNone(s);
    assert [Crash][..0] == [];
    ExecOne(s, Crash, []);
    ExecNone(Next(s, Crash));
    assert [Crash] + [] == [Crash];
  }

  // ---------------------------------------------------------------- booting and spending

  function Boot(cfg: Config): seq<Step> {
    [ServeMerge(0, cfg), ServeConfigure(0), ServeSwap(0), MountSucceeds(0)]
  }

  function Spend(c: Credential): seq<Step> {
    [Snapshot(0), Reserve(0, c.authType, c.nul), Accept(0)]
  }

  function Up(cfg: Config, known: set<string>, worker: Worker, disk: map<string, string>,
      submitted: seq<Credential>): State {
    State(Some(known), Some(cfg), true, map[], [worker], disk, submitted)
  }

  lemma BootRun(cfg: Config, disk: map<string, string>, submitted: seq<Credential>)
    ensures Exec(Down(disk, submitted), Boot(cfg)) == Some(Up(cfg, Load(cfg.path, disk), Idle, disk, submitted))
  {
    hide Load, Exec;
    var s0 := Down(disk, submitted);
    var steps := Boot(cfg);
    assert {} + Load(cfg.path, disk) == Load(cfg.path, disk);
    var s1 := Next(s0, steps[0]);
    var s2 := Next(s1, steps[1]);
    var s3 := Next(s2, steps[2]);
    var s4 := Next(s3, steps[3]);
    assert s4 == Up(cfg, Load(cfg.path, disk), Idle, disk, submitted);
    ExecOne(s0, steps[0], steps[1..]);
    ExecOne(s1, steps[1], steps[2..]);
    ExecOne(s2, steps[2], steps[3..]);
    ExecOne(s3, steps[3], []);
    ExecNone(s4);
    assert steps == [steps[0]] + steps[1..];
    assert steps[1..] == [steps[1]] + steps[2..] && steps[2..] == [steps[2]] + steps[3..]
        && steps[3..] == [steps[3]] + [];
  }

  lemma SpendRun(cfg: Config, c: Credential, known: set<string>, disk: map<string, string>, submitted: seq<Credential>)
    requires c.authType in cfg.verifiers && Normalized(c.nul) && KeyOf(c) !in known
    ensures Exec(Up(cfg, known, Idle, disk, submitted), Spend(c))
            == Some(Up(cfg, known + {KeyOf(c)}, Submitted(cfg, Some(c)), disk, submitted + [c]))
  {
    hide Exec, KeyOf, Normalize, Normalized;
    NormalizeFixed(c.nul);
    var s0 := Up(cfg, known, Idle, disk, submitted);
    var steps := Spend(c);
    var s1 := Next(s0, steps[0]);
    var s2 := Next(s1, steps[1]);
    var s3 := Next(s2, steps[2]);
    assert s3 == Up(cfg, known + {KeyOf(c)}, Submitted(cfg, Some(c)), disk, submitted + [c]);
    ExecOne(s0, steps[0], steps[1..]);
    ExecOne(s1, steps[1], steps[2..]);
    ExecOne(s2, steps[2], []);
    ExecNone(s3);
    assert steps == [steps[0]] + steps[1..] && steps[1..] == [steps[1]] + steps[2..] && steps[2..] == [steps[2]] + [];
  }
}
