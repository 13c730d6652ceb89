/**
 The life of a gifter: requests handled byte for byte, serve called again, and restarts. Every
 such life is a run of the transition system, so no credential ever buys two memberships.
 */
module GifterLife {
  import opened Bits
  import opened Wrappers
  import opened Nullifiers
  import opened GifterMachine
  import opened GifterRuns
  import opened GifterLaws
  import opened GifterServer
  import opened GifterRefinement

  datatype Event =
    | Incoming(buf: seq<byte>, env: Env)
    | Refresh(cfg: Config)
    | Restart(cfg: Config)

  // What a request was answered, and the calls it made.
  datatype Answer = Answer(resp: Messages.Response, calls: seq<Call>)

  // The shared state, the credentials submitted so far, and the answers given.
  datatype Life = Life(shared: Shared, submitted: seq<Credential>, answers: seq<Answer>)

  ghost predicate Timed(e: Event) {
    e.Incoming? ==> Ticking(e.env.clock)
  }

  ghost predicate AllTimed(events: seq<Event>) {
    forall i :: 0 <= i < |events| ==> Timed(events[i])
  }

  ghost predicate Allowed(path: string, e: Event) {
    Timed(e) && (e.Refresh? || e.Restart? ==> FitConfig(path, e.cfg))
  }

  ghost predicate AllAllowed(path: string, events: seq<Event>)
    ensures AllAllowed(path, events) ==> AllTimed(events)
  {
    forall i :: 0 <= i < |events| ==> Allowed(path, events[i])
  }

  ghost function After(life: Life, e: Event): Life
    requires Timed(e)
  {
    var s := life.shared;
    match e
    case Incoming(buf, env) =>
      var h := Handle(s, buf, env);
      Life(h.shared, life.submitted + SubmittedBy(s, buf, env), life.answers + [Answer(h.resp, h.calls)])
    case Refresh(cfg) => life.(shared := Shared(Some(cfg), Some(KnownOf(s) + Load(cfg.path, s.disk)), s.disk))
    case Restart(cfg) => life.(shared := Shared(Some(cfg), Some(Load(cfg.path, s.disk)), s.disk))
  }

  ghost function From(life: Life, events: seq<Event>): Life
    requires AllTimed(events)
  {
    if events == [] then life
    else After(From(life, events[..|events| - 1]), events[|events| - 1])
  }

  function Birth(disk: map<string, string>, cfg: Config): Life {
    Life(Shared(Some(cfg), Some(Load(cfg.path, disk)), disk), [], [])
  }

  ghost function Live(disk: map<string, string>, cfg: Config, events: seq<Event>): Life
    requires AllTimed(events)
  {
    From(Birth(disk, cfg), events)
  }

  // ---------------------------------------------------------------- lives are runs

  function RefreshSteps(cfg: Config): seq<Step> {
    [ServeMerge(0, cfg), ServeConfigure(0), ServeSwap(0)]
  }

  ghost function EventSteps(life: Life, e: Event): seq<Step>
    requires Timed(e)
  {
    match e
    case Incoming(buf, env) => StepsOf(life.shared, buf, env)
    case Refresh(cfg) => RefreshSteps(cfg)
    case Restart(cfg) => [Crash] + Boot(cfg)
  }

  function StateOf(life: Life): State {
    Around(life.shared, map[], life.submitted)
  }

  lemma RefreshRun(cfg: Config, life: Life)
    ensures Exec(StateOf(life), RefreshSteps(cfg)) == Some(StateOf(After(life, Refresh(cfg))))
  {
    hide Exec, Load;
    var steps := RefreshSteps(cfg);
    var s0 := StateOf(life);
    var s1 := Next(s0, steps[0]);
    var s2 := Next(s1, steps[1]);
    var s3 := Next(s2, steps[2]);
    assert Known(s0) == KnownOf(life.shared);
    assert s3 == StateOf(After(life, Refresh(cfg)));
    ExecOne(s0, steps[0], steps[1..]);
    ExecOne(s1, steps[1], steps[2..]);
    ExecOne(s2, steps[2], []);
    ExecNone(s3);
    assert steps == [steps[0]] + steps[1..] && steps[1..] == [steps[1]] + steps[2..] && steps[2..] == [steps[2]] + [];
  }

  lemma BootIsQuiet(cfg: Config)
    ensures forall i :: 0 <= i < |Boot(cfg)| ==> Quiet(Boot(cfg)[i])
  {
  }

  lemma RestartRun(cfg: Config, life: Life)
    ensures Exec(StateOf(life), [Crash] + Boot(cfg)) == Some(StateOf(After(life, Restart(cfg))))
    ensures PromisedRun(StateOf(life), [Crash] + Boot(cfg))
  {
    hide Exec, PromisedRun, Load, Boot;
    IdleCrash(StateOf(life));
    BootRun(cfg, life.shared.disk, life.submitted);
    BootIsQuiet(cfg);
    QuietRun(Down(life.shared.disk, life.submitted), Boot(cfg));
    PromisedAppend(StateOf(life), [Crash], Boot(cfg));
    ExecAppend(StateOf(life), [Crash], Boot(cfg));
  }

  lemma EventRun(life: Life, e: Event)
    requires Timed(e)
    ensures Exec(StateOf(life), EventSteps(life, e)) == Some(StateOf(After(life, e)))
    ensures PromisedRun(StateOf(life), EventSteps(life, e))
  {
    hide Exec, PromisedRun, StepsOf, SubmittedBy, Handle, Boot, Load, Around;
    match e
    case Incoming(buf, env) =>
      HandleRefines(life.shared, buf, env, map[], life.submitted);
      QuietRun(StateOf(life), EventSteps(life, e));
    case Refresh(cfg) =>
      RefreshRun(cfg, life);
      QuietRun(StateOf(life), EventSteps(life, e));
    case Restart(cfg) => RestartRun(cfg, life);
  }

  lemma EventFits(path: string, life: Life, e: Event)
    requires Allowed(path, e)
    ensures FitSteps(path, EventSteps(life, e))
  {
    hide Exec, StepsOf, SubmittedBy, Handle, Load, FitConfig;
    if e.Incoming? {
      HandleRefines(life.shared, e.buf, e.env, map[], life.submitted);
    }
  }

  ghost function LifeSteps(disk: map<string, string>, cfg: Config, events: seq<Event>): seq<Step>
    requires AllTimed(events)
  {
    if events == [] then Boot(cfg)
    else
      var n := |events| - 1;
      LifeSteps(disk, cfg, events[..n]) + EventSteps(Live(disk, cfg, events[..n]), events[n])
  }

  lemma BootFits(path: string, cfg: Config)
    requires FitConfig(path, cfg)
    ensures FitSteps(path, Boot(cfg))
  {
  }

  lemma {:induction false} LifeIsRun(path: string, disk: map<string, string>, cfg: Config, events: seq<Event>)
    requires FitConfig(path, cfg) && AllAllowed(path, events)
    ensures Exec(Start(disk), LifeSteps(disk, cfg, events)) == Some(StateOf(Live(disk, cfg, events)))
    ensures BenignRun(path, Start(disk), LifeSteps(disk, cfg, events))
  {
    hide Exec, PromisedRun, Load, FitConfig, FitStep, EventSteps, After, Boot;
    if events == [] {
      BootRun(cfg, disk, []);
      BootIsQuiet(cfg);
      BootFits(path, cfg);
      QuietRun(Start(disk), Boot(cfg));
    } else {
      var n := |events| - 1;
      var before := Live(disk, cfg, events[..n]);
      LifeIsRun(path, disk, cfg, events[..n]);
      EventRun(before, events[n]);
      EventFits(path, before, events[n]);
      ExecAppend(Start(disk), LifeSteps(disk, cfg, events[..n]), EventSteps(before, events[n]));
      PromisedAppend(Start(disk), LifeSteps(disk, cfg, events[..n]), EventSteps(before, events[n]));
    }
  }

  // ---------------------------------------------------------------- what lives guarantee

  // Once served, a gifter always has a configuration and a set.
  predicate Served(life: Life) {
    life.shared.consumed.Some? && life.shared.config.Some?
  }

  lemma ServedAfter(life: Life, e: Event)
    requires Timed(e) && Served(life)
    ensures Served(After(life, e))
  {
    hide Load, Judge, Register, KeyOf, Append, EffectiveRate, VerifyCalls, SubmittedBy;
  }

  lemma {:induction false} AlwaysServing(disk: map<string, string>, cfg: Config, events: seq<Event>)
    requires AllTimed(events)
    ensures Served(Live(disk, cfg, events))
  {
    hide Load, After, Timed;
    if events != [] {
      AlwaysServing(disk, cfg, events[..|events| - 1]);
      ServedAfter(Live(disk, cfg, events[..|events| - 1]), events[|events| - 1]);
    }
  }

  // Whatever requests arrive, however they are answered and however often the gifter restarts,
  // each credential is submitted at most once, between requests the memory is the file, and it
  // holds exactly the keys it held at first and those of the credentials submitted.
  lemma NoCredentialBuysTwo(path: string, disk: map<string, string>, cfg: Config, events: seq<Event>)
    requires FreshStart(path, disk) && FitConfig(path, cfg) && AllAllowed(path, events)
    ensures var life := Live(disk, cfg, events);
            && (forall i, j :: 0 <= i < j < |life.submitted| ==> life.submitted[i] != life.submitted[j])
            && (forall i :: 0 <= i < |life.submitted| ==> KeyOf(life.submitted[i]) !in Load(path, disk))
            && life.shared.consumed == Some(Load(path, life.shared.disk))
            && KnownOf(life.shared) == Load(path, disk) + SubmittedKeys(life.submitted)
  {
    hide Exec, BenignRun, Load, FitConfig, LifeSteps, Live, FreshStart, KeyOf, SubmittedKeys;
    LifeIsRun(path, disk, cfg, events);
    AtMostOnce(path, disk, LifeSteps(disk, cfg, events));
    var m := StateOf(Live(disk, cfg, events));
    InvRun(path, disk, LifeSteps(disk, cfg, events));
    assert Held(m) == None && Unwritten(m) == None;
    AlwaysServing(disk, cfg, events);
  }

  lemma {:induction false} FromAppend(life: Life, a: seq<Event>, b: seq<Event>)
    requires AllTimed(a) && AllTimed(b)
    ensures AllTimed(a + b) && From(life, a + b) == From(From(life, a), b)
  {
    hide After, Timed;
    if b == [] {
      assert a + b == a;
    } else {
      var c := b[..|b| - 1];
      FromAppend(life, a, c);
      assert (a + b)[..|a + b| - 1] == a + c;
    }
  }

  lemma CurrentFits(path: string, disk: map<string, string>, cfg: Config, events: seq<Event>)
    requires FreshStart(path, disk) && FitConfig(path, cfg) && AllAllowed(path, events)
    ensures var current := Live(disk, cfg, events).shared.config; current.Some? && FitConfig(path, current.value)
  {
    hide Exec, BenignRun, Load, FitConfig, LifeSteps, Live, FreshStart;
    LifeIsRun(path, disk, cfg, events);
    InvRun(path, disk, LifeSteps(disk, cfg, events));
    AlwaysServing(disk, cfg, events);
  }

  lemma PathFits(path: string, cfg: Config)
    requires FitConfig(path, cfg)
    ensures cfg.path == path
  {
  }

  lemma OneEvent(life: Life, e: Event)
    requires Timed(e)
    ensures AllTimed([e]) && From(life, [e]) == After(life, e)
  {
    assert [e][..0] == [];
    assert From(life, [e][..0]) == life;
  }

  // In a life a request is answered, makes its calls and leaves the shared state exactly as the
  // handler says for the state it meets, and nothing else is answered.
  lemma AnswersGiven(disk: map<string, string>, cfg: Config, events: seq<Event>, e: Event)
    requires AllTimed(events) && Timed(e)
    ensures AllTimed(events + [e])
    ensures var before := Live(disk, cfg, events);
            var after := Live(disk, cfg, events + [e]);
            match e
            case Incoming(buf, env) =>
              var h := Handle(before.shared, buf, env);
              after.answers == before.answers + [Answer(h.resp, h.calls)] && after.shared == h.shared
            case _ => after.answers == before.answers && after.submitted == before.submitted
  {
    hide Handle, SubmittedBy, Load;
    OneEvent(Live(disk, cfg, events), e);
    FromAppend(Birth(disk, cfg), events, [e]);
  }

  lemma RestartKeeps(path: string, life: Life, cfg: Config)
    requires life.shared.config == Some(cfg) && cfg.path == path
    requires life.shared.consumed == Some(Load(path, life.shared.disk))
    ensures After(life, Restart(cfg)) == life
  {
  }

  // A restart with the current configuration, anywhere in a life, changes nothing at all: every
  // later answer and call, the submissions, the memory and the file are the same.
  lemma RestartInvisible(path: string, disk: map<string, string>, cfg: Config, before: seq<Event>, after: seq<Event>)
    requires FreshStart(path, disk) && FitConfig(path, cfg) && AllAllowed(path, before) && AllAllowed(path, after)
    ensures var current := Live(disk, cfg, before).shared.config;
            && current.Some?
            && AllTimed(before + [Restart(current.value)] + after) && AllTimed(before + after)
            && Live(disk, cfg, before + [Restart(current.value)] + after) == Live(disk, cfg, before + after)
  {
    hide Load, FitConfig, FreshStart, From, KeyOf, SubmittedKeys;
    CurrentFits(path, disk, cfg, before);
    var current := Live(disk, cfg, before).shared.config.value;
    PathFits(path, current);
    NoCredentialBuysTwo(path, disk, cfg, before);
    var life := Live(disk, cfg, before);
    RestartKeeps(path, life, current);
    assert AllTimed([Restart(current)]);
    FromAppend(Birth(disk, cfg), before, [Restart(current)]);
    OneEvent(life, Restart(current));
    FromAppend(Birth(disk, cfg), before + [Restart(current)], after);
    FromAppend(Birth(disk, cfg), before, after);
  }
}
