/**
 One request of the server is a run of the transition system: the handler's steps, interleaved
 with nothing, take the shared state where the handler leaves it.
 */
module GifterRefinement {
  import opened Bits
  import opened Wrappers
  import opened Text
  import opened Messages
  import opened Nullifiers
  import opened GifterMachine
  import opened GifterRuns
  import opened GifterServer

  // A machine state with one idle worker around the server's shared state.
  function Around(s: Shared, callers: map<nat, Caller>, submitted: seq<Credential>): State {
    State(s.consumed, s.config, true, callers, [Idle], s.disk, submitted)
  }

  function SettleSteps(r: Registration): seq<Step> {
    if r.NotSubmitted? then [Reject(0, false), Rollback(0)] else [Accept(0), Persist(0)]
  }

  function JudgeStep(j: Authorization): Step {
    match j
    case Denied(_) => Refuse(0)
    case Granted(cred, raw) => if cred.None? then Proceed(0) else Reserve(0, cred.value.authType, raw)
  }

  // The atomic steps a request takes.
  function StepsOf(s: Shared, buf: seq<byte>, env: Env): seq<Step>
    requires Ticking(env.clock)
  {
    var req := DecodeRequest(buf);
    if req.Err? || |req.value.idCommitment| != 32 || s.config.None? then []
    else
      var j := Judge(s.config.value, req.value, EffectiveRate(s.config.value, req.value), env);
      var r := Handle(s, buf, env).registration;
      [Snapshot(0), JudgeStep(j)] + if r.None? then [] else SettleSteps(r.value)
  }

  // The credentials a request submits: the granted one unless nothing was submitted.
  function SubmittedBy(s: Shared, buf: seq<byte>, env: Env): seq<Credential>
    requires Ticking(env.clock)
  {
    var req := DecodeRequest(buf);
    if req.Err? || |req.value.idCommitment| != 32 || s.config.None? then []
    else
      var j := Judge(s.config.value, req.value, EffectiveRate(s.config.value, req.value), env);
      var r := Handle(s, buf, env).registration;
      if j.Granted? && j.cred.Some? && r.Some? && !r.value.NotSubmitted? then [j.cred.value] else []
  }

  lemma SettleRefines(s: Shared, cfg: Config, cred: Option<Credential>, r: Registration, callers: map<nat, Caller>,
      submitted: seq<Credential>)
    ensures var m := Around(s, callers, submitted).(workers := [Reserved(cfg, cred)]);
            Exec(m, SettleSteps(r)) ==
            Some(Around(Settle(s, cfg, cred, r), callers,
                        submitted + if cred.Some? && !r.NotSubmitted? then [cred.value] else []))
  {
    hide Exec, Append, KeyOf;
    var m := Around(s, callers, submitted).(workers := [Reserved(cfg, cred)]);
    var steps := SettleSteps(r);
    assert steps == [steps[0]] + [steps[1]] && [steps[1]] + [] == [steps[1]];
    assert submitted + [] == submitted;
    var m1 := Next(m, steps[0]);
    var m2 := Next(m1, steps[1]);
    ExecOne(m, steps[0], [steps[1]]);
    ExecOne(m1, steps[1], []);
    ExecNone(m2);
    assert m2.workers == [Idle];
  }

  lemma JudgedCredential(cfg: Config, req: Request, rate: u64, env: Env)
    ensures var j := Judge(cfg, req, rate, env);
            j.Granted? && j.cred.Some? ==>
              j.cred.value.authType in cfg.verifiers && Normalize(j.raw) == Some(j.cred.value.nul)
  {
    hide Normalize, FromUtf8Lossy, VerifyRequestOf;
  }

  // The first two steps: the snapshot and the verdict.
  lemma JudgeRefines(s: Shared, req: Request, env: Env, callers: map<nat, Caller>, submitted: seq<Credential>)
    requires s.config.Some?
    ensures var cfg := s.config.value;
            var j := Judge(cfg, req, EffectiveRate(cfg, req), env);
            var m := Around(s, callers, submitted);
            Exec(m, [Snapshot(0), JudgeStep(j)]) == Some(
              if j.Denied? then m
              else if j.cred.None? then m.(workers := [Reserved(cfg, None)])
              else if KeyOf(j.cred.value) in KnownOf(s) then m.(consumed := Some(KnownOf(s)))
              else m.(consumed := Some(KnownOf(s) + {KeyOf(j.cred.value)}), workers := [Reserved(cfg, j.cred)]))
  {
    hide Exec, KeyOf, Judge, Normalize;
    var cfg := s.config.value;
    var j := Judge(cfg, req, EffectiveRate(cfg, req), env);
    var m := Around(s, callers, submitted);
    JudgedCredential(cfg, req, EffectiveRate(cfg, req), env);
    var steps := [Snapshot(0), JudgeStep(j)];
    assert steps == [steps[0]] + [steps[1]] && [steps[1]] + [] == [steps[1]];
    var m1 := Next(m, steps[0]);
    assert m1.workers == [Judging(cfg)];
    assert j.Granted? && j.cred.Some? ==> Credential(j.cred.value.authType, j.cred.value.nul) == j.cred.value;
    var m2 := Next(m1, steps[1]);
    assert Known(m1) == KnownOf(s);
    if j.Denied? {
      assert m2 == m;
    } else if j.cred.None? {
      assert m2 == m.(workers := [Reserved(cfg, None)]);
    } else if KeyOf(j.cred.value) in KnownOf(s) {
      assert m2 == m.(consumed := Some(KnownOf(s)));
    } else {
      assert m2 == m.(consumed := Some(KnownOf(s) + {KeyOf(j.cred.value)}), workers := [Reserved(cfg, j.cred)]);
    }
    ExecOne(m, steps[0], [steps[1]]);
    ExecOne(m1, steps[1], []);
    ExecNone(m2);
  }

  lemma SettleStepsBenign(r: Registration)
    ensures var steps := SettleSteps(r);
            forall i :: 0 <= i < |steps| ==> Quiet(steps[i]) && !steps[i].ServeMerge?
  {
  }

  // The handler refines the machine, by steps that break none of the environment's promises.
  lemma HandleRefines(s: Shared, buf: seq<byte>, env: Env, callers: map<nat, Caller>, submitted: seq<Credential>)
    requires Ticking(env.clock)
    ensures Exec(Around(s, callers, submitted), StepsOf(s, buf, env))
            == Some(Around(Handle(s, buf, env).shared, callers, submitted + SubmittedBy(s, buf, env)))
    ensures var steps := StepsOf(s, buf, env);
            forall i :: 0 <= i < |steps| ==> Quiet(steps[i]) && !steps[i].ServeMerge?
  {
    hide Exec, KeyOf, Judge, Settle, Register, DecodeRequest, VerifyCalls, EffectiveRate, SettleSteps;
    var m := Around(s, callers, submitted);
    var req := DecodeRequest(buf);
    assert submitted + [] == submitted;
    if req.Err? || |req.value.idCommitment| != 32 || s.config.None? {
      ExecNone(m);
    } else {
      var cfg := s.config.value;
      var j := Judge(cfg, req.value, EffectiveRate(cfg, req.value), env);
      var r := Handle(s, buf, env).registration;
      JudgeRefines(s, req.value, env, callers, submitted);
      var prefix := [Snapshot(0), JudgeStep(j)];
      if r.None? {
        assert prefix + [] == prefix;
      } else {
        var reserved := if j.cred.None? then s else s.(consumed := Some(KnownOf(s) + {KeyOf(j.cred.value)}));
        ExecAppend(m, prefix, SettleSteps(r.value));
        SettleRefines(reserved, cfg, j.cred, r.value, callers, submitted);
        SettleStepsBenign(r.value);
      }
    }
  }
}
