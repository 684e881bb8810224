/** All interleavings of request threads, the reaper and the Qwen service itself.
    The lock makes `begin`, `end` and `reap_once` atomic, so a run is a sequence of
    such steps; a thread that was granted a lease is proxying until it ends it. */
module LeaseRuns {
  import opened LeaseManager

  datatype System = System(
    router: Router,
    holders: map<nat, Alias>,      // request threads between a granted begin and their end
    granted: multiset<Alias>,      // every begin granted so far
    ended: multiset<Alias>,        // every end so far
    qwenUp: bool,                  // is the Qwen service running?
    reaperAlive: bool)             // has no reap ended in an unhandled exception?

  datatype Event =
    | Request(thread: nat, k: nat, replies: BeginReplies, upAfter: bool)
    | Finish(thread: nat, now: real)
    | ReapTick(now: real, cleanups: nat -> ReapReply, upAfter: bool)
    | QwenDown

  function Start(models: seq<ModelSpec>, qwenUp: bool): System {
    System(Initial(models), map[], multiset{}, multiset{}, qwenUp, true)
  }

  function RequestOutcome(models: seq<ModelSpec>, maxTemp: int, e: Event): Outcome
    requires e.Request? && e.k < |models|
  {
    BeginOutcome(models, maxTemp, models[e.k], e.replies)
  }

  /** Only the router starts Qwen.  The service may go down, fail to start or fail to stop
      at any time, and a probe may answer anything: a failing helper reads as not active. */
  ghost predicate Enabled(models: seq<ModelSpec>, maxTemp: int, s: System, e: Event)
    requires Covers(models, s.router)
  {
    match e
    case Request(thread, k, replies, upAfter) =>
      && thread !in s.holders && k < |models|
      && (upAfter ==> s.qwenUp || RequestOutcome(models, maxTemp, e).attemptedStart)
    case Finish(thread, now) => thread in s.holders && s.holders[thread] in s.router.active
    case ReapTick(now, cleanups, upAfter) =>
      && s.reaperAlive && (upAfter ==> s.qwenUp)
      && (StopQwen !in Reap(models, s.router, now, cleanups).actions ==> upAfter == s.qwenUp)
    case QwenDown => true
  }

  ghost function Next(models: seq<ModelSpec>, maxTemp: int, s: System, e: Event): System
    requires Covers(models, s.router) && Enabled(models, maxTemp, s, e)
  {
    match e
    case Request(thread, k, replies, upAfter) =>
      var alias, outcome := models[k].alias, RequestOutcome(models, maxTemp, e);
      var s' := s.(router := AfterBegin(s.router, alias, outcome), qwenUp := upAfter);
      if outcome.Granted?
      then s'.(holders := s.holders[thread := alias], granted := s.granted + multiset{alias})
      else s'
    case Finish(thread, now) =>
      var alias := s.holders[thread];
      s.(router := AfterEnd(s.router, alias, now), holders := s.holders - {thread}, ended := s.ended + multiset{alias})
    case ReapTick(now, cleanups, upAfter) =>
      var reaped := Reap(models, s.router, now, cleanups);
      s.(router := reaped.router, qwenUp := upAfter, reaperAlive := !reaped.raised)
    case QwenDown => s.(qwenUp := false)
  }

  ghost predicate Step(models: seq<ModelSpec>, maxTemp: int, s: System, e: Event, s': System) {
    Covers(models, s.router) && Enabled(models, maxTemp, s, e) && s' == Next(models, maxTemp, s, e)
  }

  ghost predicate IsRun(models: seq<ModelSpec>, maxTemp: int, states: seq<System>, events: seq<Event>) {
    && |states| == |events| + 1
    && states[0] == Start(models, states[0].qwenUp)
    && forall n | 0 <= n < |events| :: Step(models, maxTemp, states[n], events[n], states[n + 1])
  }

  /* ---- Leases are counted correctly ---- */

  ghost function HoldersOf(s: System, alias: Alias): set<nat> {
    set t | t in s.holders && s.holders[t] == alias
  }

  ghost predicate LeaseInvariant(models: seq<ModelSpec>, s: System) {
    && Covers(models, s.router)
    && (forall t | t in s.holders :: s.holders[t] in s.router.active)
    && (forall a | a in s.router.active ::
          s.router.active[a] == |HoldersOf(s, a)| && s.granted[a] == s.ended[a] + |HoldersOf(s, a)|)
  }

  lemma {:induction false} GrantAddsHolder(s: System, thread: nat, alias: Alias, s': System, a: Alias)
    requires thread !in s.holders && s'.holders == s.holders[thread := alias]
    ensures |HoldersOf(s', a)| == |HoldersOf(s, a)| + if a == alias then 1 else 0
  {
    if a == alias {
      assert HoldersOf(s', a) == HoldersOf(s, a) + {thread};
    } else {
      assert HoldersOf(s', a) == HoldersOf(s, a);
    }
  }

  lemma {:induction false} RequestKeepsLeases(models: seq<ModelSpec>, maxTemp: int, s: System, e: Event)
    requires LeaseInvariant(models, s) && e.Request? && Enabled(models, maxTemp, s, e)
    ensures LeaseInvariant(models, Next(models, maxTemp, s, e))
  {
    var s', alias := Next(models, maxTemp, s, e), models[e.k].alias;
    if RequestOutcome(models, maxTemp, e).Granted? {
      forall a | a in s'.router.active
        ensures |HoldersOf(s', a)| == |HoldersOf(s, a)| + if a == alias then 1 else 0
      {
        GrantAddsHolder(s, e.thread, alias, s', a);
      }
    } else {
      assert forall a :: HoldersOf(s', a) == HoldersOf(s, a);
    }
  }

  lemma {:induction false} FinishKeepsLeases(models: seq<ModelSpec>, maxTemp: int, s: System, e: Event)
    requires LeaseInvariant(models, s) && e.Finish? && Enabled(models, maxTemp, s, e)
    ensures LeaseInvariant(models, Next(models, maxTemp, s, e))
    ensures var alias := s.holders[e.thread];
            Next(models, maxTemp, s, e).router.active[alias] == s.router.active[alias] - 1
  {
    var s', alias := Next(models, maxTemp, s, e), s.holders[e.thread];
    assert e.thread in HoldersOf(s, alias);
    forall a | a in s'.router.active
      ensures s'.router.active[a] == |HoldersOf(s', a)| && s'.granted[a] == s'.ended[a] + |HoldersOf(s', a)|
    {
      if a == alias {
        assert HoldersOf(s', a) == HoldersOf(s, a) - {e.thread};
      } else {
        assert HoldersOf(s', a) == HoldersOf(s, a);
      }
    }
  }

  lemma {:induction false} StepKeepsLeases(models: seq<ModelSpec>, maxTemp: int, s: System, e: Event)
    requires LeaseInvariant(models, s) && Enabled(models, maxTemp, s, e)
    ensures LeaseInvariant(models, Next(models, maxTemp, s, e))
  {
    match e
    case Request(_, _, _, _) => RequestKeepsLeases(models, maxTemp, s, e);
    case Finish(_, _) => FinishKeepsLeases(models, maxTemp, s, e);
    case ReapTick(_, _, _) | QwenDown =>
      var s' := Next(models, maxTemp, s, e);
      forall a | a in s'.router.active
        ensures s'.router.active[a] == |HoldersOf(s', a)| && s'.granted[a] == s'.ended[a] + |HoldersOf(s', a)|
      {
        assert HoldersOf(s', a) == HoldersOf(s, a);
      }
  }

  /** In every state of every run the counter of an alias is the number of threads
      holding its lease, which is granted begins minus ends. */
  lemma {:induction false} ActiveCountsLeases(models: seq<ModelSpec>, maxTemp: int, states: seq<System>, events: seq<Event>, n: nat)
    requires IsRun(models, maxTemp, states, events) && n < |states|
    ensures LeaseInvariant(models, states[n])
  {
    if n == 0 {
      forall a | a in states[0].router.active
        ensures |HoldersOf(states[0], a)| == 0
      {
        assert HoldersOf(states[0], a) == {};
      }
    } else {
      ActiveCountsLeases(models, maxTemp, states, events, n - 1);
      assert Step(models, maxTemp, states[n - 1], events[n - 1], states[n]);
      StepKeepsLeases(models, maxTemp, states[n - 1], events[n - 1]);
    }
  }

  /** `max(0, active - 1)` never clamps, and no reap stops Qwen or names an Ollama alias
      while a thread holds the lease. */
  lemma {:induction false} ClampAndReaperAreHarmless(models: seq<ModelSpec>, maxTemp: int, states: seq<System>, events: seq<Event>, n: nat)
    requires ValidConfig(models) && IsRun(models, maxTemp, states, events) && n < |events|
    ensures Step(models, maxTemp, states[n], events[n], states[n + 1])
    ensures events[n].Finish? ==>
        var alias := states[n].holders[events[n].thread];
        states[n + 1].router.active[alias] == states[n].router.active[alias] - 1 >= 0
    ensures events[n].ReapTick? ==>
        var actions := Reap(models, states[n].router, events[n].now, events[n].cleanups).actions;
        && (StopQwen in actions ==> HoldersOf(states[n], QWEN_ALIAS) == {})
        && (forall b, m | Unload(b, m) in actions ::
              exists i :: 0 <= i < |models| && models[i].kind.Ollama? && models[i].backend == b && models[i].backendModel == m
                          && forall t | t in states[n].holders :: states[n].holders[t] != models[i].alias)
  {
    var s, e := states[n], events[n];
    ActiveCountsLeases(models, maxTemp, states, events, n);
    assert Step(models, maxTemp, s, e, states[n + 1]);
    if e.Finish? {
      FinishKeepsLeases(models, maxTemp, s, e);
      assert e.thread in HoldersOf(s, s.holders[e.thread]);
    }
    if e.ReapTick? {
      ReapSparesLeasedAliases(models, s.router, e.now, e.cleanups);
      forall i | 0 <= i < |models| && !Leased(s.router, models[i].alias)
        ensures forall t | t in s.holders :: s.holders[t] != models[i].alias
      {
        assert HoldersOf(s, models[i].alias) == {};
        assert forall t | t in s.holders && s.holders[t] == models[i].alias :: t in HoldersOf(s, models[i].alias);
      }
      if StopQwen in Reap(models, s.router, e.now, e.cleanups).actions {
        var i := ReapActsOnIdleModelsOnly(models, s.router, e.now, e.cleanups, |models|, StopQwen);
      }
    }
  }

  /* ---- Aliases that share a backend model ---- */

  // On every run no reap unloads an Ollama model that some alias holds a lease on.
  ghost predicate SparesLeasedModels(models: seq<ModelSpec>, maxTemp: int) {
    forall states: seq<System>, events: seq<Event>, n: nat, j: nat | IsRun(models, maxTemp, states, events) && n < |events| && events[n].ReapTick? ::
      SparesModel(models, states[n], events[n], j)
  }

  ghost predicate SparesModel(models: seq<ModelSpec>, s: System, e: Event, j: nat)
    requires e.ReapTick?
  {
    j < |models| && models[j].kind.Ollama? && HoldersOf(s, models[j].alias) != {} && Covers(models, s.router) ==>
      Unload(models[j].backend, models[j].backendModel) !in Reap(models, s.router, e.now, e.cleanups).actions
  }

  /** Leases are counted per alias but models are unloaded by backend name, so leased
      models survive every reap of every run exactly when no two Ollama aliases share one. */
  lemma {:induction false} LeasedModelsSurviveIffDistinct(models: seq<ModelSpec>, maxTemp: int)
    requires ValidConfig(models)
    ensures SparesLeasedModels(models, maxTemp) <==> DistinctBackendModels(models)
  {
    if DistinctBackendModels(models) {
      forall states: seq<System>, events: seq<Event>, n: nat, j: nat | IsRun(models, maxTemp, states, events) && n < |events| && events[n].ReapTick?
        ensures SparesModel(models, states[n], events[n], j)
      {
        ActiveCountsLeases(models, maxTemp, states, events, n);
        if j < |models| && models[j].kind.Ollama? && HoldersOf(states[n], models[j].alias) != {} {
          DistinctModelsSurvive(models, states[n].router, events[n].now, events[n].cleanups, j);
        }
      }
    } else {
      var i: nat, j: nat :| i < j < |models| && models[i].kind.Ollama? && models[j].kind.Ollama?
        && models[i].backend == models[j].backend && models[i].backendModel == models[j].backendModel;
      var states, events := SharedModelTrace(models, maxTemp, i, j);
      assert !SparesModel(models, states[3], events[3], j);
    }
  }

  /** One alias is used and given back, the other is leased, and the first one's idle time
      passes: the reaper unloads the model under the second lease. */
  lemma {:induction false} SharedModelTrace(models: seq<ModelSpec>, maxTemp: int, i: nat, j: nat)
    returns (states: seq<System>, events: seq<Event>)
    requires ValidConfig(models) && i < j < |models| && models[i].kind.Ollama? && models[j].kind.Ollama?
    requires models[i].backend == models[j].backend && models[i].backendModel == models[j].backendModel
    ensures IsRun(models, maxTemp, states, events) && |events| == 4 && events[3].ReapTick?
    ensures !SparesModel(models, states[3], events[3], j)
  {
    var answers: nat -> ReapReply := k => ReapReply(ProbeRaised(true), Fine);
    states, events := FirstLease(models, maxTemp, i);
    var s := states[2];
    assert Idle(s.router, models[i], 3601.0);
    var e, e' := Request(1, j, SeemsDown(), false), ReapTick(3601.0, answers, false);
    var mid := GrantOllama(models, maxTemp, s, e);
    assert models[i].alias != models[j].alias;
    assert 1 in HoldersOf(mid, models[j].alias);
    IdleOllamaIsUnloaded(models, mid.router, 3601.0, answers, i);
    var s' := Next(models, maxTemp, mid, e');
    TwoMoreSteps(models, maxTemp, states, events, e, mid, e', s');
    states, events := states + [mid, s'], events + [e, e'];
  }

  lemma {:induction false} TwoMoreSteps(models: seq<ModelSpec>, maxTemp: int, states: seq<System>, events: seq<Event>,
                                        e: Event, mid: System, e': Event, s': System)
    requires IsRun(models, maxTemp, states, events)
    requires Step(models, maxTemp, states[|events|], e, mid) && Step(models, maxTemp, mid, e', s')
    ensures IsRun(models, maxTemp, states + [mid, s'], events + [e, e'])
  {
    LongerRun(models, maxTemp, states, events, e, mid);
    LongerRun(models, maxTemp, states + [mid], events + [e], e', s');
    assert states + [mid] + [s'] == states + [mid, s'] && events + [e] + [e'] == events + [e, e'];
  }

  lemma TwoStepRun(models: seq<ModelSpec>, maxTemp: int, s0: System, e0: Event, s1: System, e1: Event, s2: System)
    requires s0 == Start(models, s0.qwenUp)
    requires Step(models, maxTemp, s0, e0, s1) && Step(models, maxTemp, s1, e1, s2)
    ensures IsRun(models, maxTemp, [s0, s1, s2], [e0, e1])
  {
  }

  lemma LongerRun(models: seq<ModelSpec>, maxTemp: int, states: seq<System>, events: seq<Event>, e: Event, s': System)
    requires IsRun(models, maxTemp, states, events) && Step(models, maxTemp, states[|events|], e, s')
    ensures IsRun(models, maxTemp, states + [s'], events + [e])
  {
  }

  // The end of a lease.
  lemma GiveBack(models: seq<ModelSpec>, maxTemp: int, s: System, e: Event) returns (s': System)
    requires Covers(models, s.router) && e.Finish? && e.thread in s.holders && s.holders[e.thread] in s.router.active
    requires s.router.active[s.holders[e.thread]] >= 1
    ensures Step(models, maxTemp, s, e, s') && s'.qwenUp == s.qwenUp && s'.reaperAlive == s.reaperAlive && Covers(models, s'.router)
    ensures var a := s.holders[e.thread];
            && s'.holders == s.holders - {e.thread} && s'.router.lastUsed == s.router.lastUsed[a := e.now]
            && s'.router.active == s.router.active[a := s.router.active[a] - 1]
  {
    s' := Next(models, maxTemp, s, e);
  }

  // A granted Ollama request.
  lemma GrantOllama(models: seq<ModelSpec>, maxTemp: int, s: System, e: Event) returns (s': System)
    requires Covers(models, s.router) && (e.Request? && e.upAfter ==> s.qwenUp) && e.Request? && e.k < |models|
    requires models[e.k].kind.Ollama? && e.thread !in s.holders && e.replies.probe == ServiceActive(false)
    ensures Step(models, maxTemp, s, e, s') && s'.qwenUp == e.upAfter && s'.reaperAlive == s.reaperAlive && Covers(models, s'.router)
    ensures s'.holders == s.holders[e.thread := models[e.k].alias] && s'.router.lastUsed == s.router.lastUsed
    ensures s'.router.active == s.router.active[models[e.k].alias := s.router.active[models[e.k].alias] + 1]
  {
    s' := Next(models, maxTemp, s, e);
  }

  // Qwen seems down, whatever else is asked.
  function SeemsDown(): BeginReplies {
    BeginReplies(ServiceActive(false), k => Ps(200, false), GpuRaised, StartRaised, false)
  }

  // One Ollama lease from begin to end.
  lemma {:induction false} UseOllama(models: seq<ModelSpec>, maxTemp: int, s: System, k: nat, now: real)
    returns (e: Event, mid: System, e': Event, s': System)
    requires Covers(models, s.router) && !s.qwenUp && s.holders == map[] && k < |models| && models[k].kind.Ollama?
    requires s.router.active[models[k].alias] >= 0
    ensures Step(models, maxTemp, s, e, mid) && Step(models, maxTemp, mid, e', s')
    ensures e.Request? && e'.Finish? && !mid.qwenUp && !s'.qwenUp && s'.reaperAlive == s.reaperAlive && Covers(models, s'.router)
    ensures s'.holders == map[] && s'.router == s.router.(lastUsed := s.router.lastUsed[models[k].alias := now])
  {
    e, e' := Request(0, k, SeemsDown(), false), Finish(0, now);
    mid := GrantOllama(models, maxTemp, s, e);
    assert mid.holders == map[0 := models[k].alias];
    s' := GiveBack(models, maxTemp, mid, e');
    assert s'.holders == map[];
    EndUndoesBegin(s.router, models[k].alias, false, now);
  }

  /* ---- Qwen and Ollama ---- */

  // The probe takes a running Qwen for one that is down.
  ghost predicate Misread(s: System, e: Event) {
    e.Request? && s.qwenUp && e.replies.probe == ServiceActive(false)
  }

  /** An Ollama request is granted exactly when the probe answers that Qwen is down, which
      it then is unless the answer was a misreading; a refused one changes nothing. */
  lemma {:induction false} OllamaGrantedIff(models: seq<ModelSpec>, maxTemp: int, s: System, e: Event)
    requires Covers(models, s.router) && Enabled(models, maxTemp, s, e)
    requires e.Request? && models[e.k].kind.Ollama?
    ensures var s' := Next(models, maxTemp, s, e);
            && (s'.qwenUp ==> s.qwenUp)
            && if e.replies.probe == ServiceActive(false)
               then s'.holders == s.holders[e.thread := models[e.k].alias] && (s'.qwenUp ==> Misread(s, e))
               else s'.router == s.router && s'.holders == s.holders
  {
  }

  ghost predicate OllamaLeased(models: seq<ModelSpec>, r: Router) {
    exists i :: 0 <= i < |models| && models[i].kind.Ollama? && Leased(r, models[i].alias)
  }

  ghost predicate Exclusive(models: seq<ModelSpec>, s: System) {
    s.qwenUp ==> !OllamaLeased(models, s.router)
  }

  /** An Ollama model with an active lease shows in its backend's /api/ps answer, or
      that call raises, by the time Qwen is next requested. */
  ghost predicate LeasesVisible(models: seq<ModelSpec>, s: System, e: Event) {
    e.Request? && e.k < |models| && models[e.k].kind.ColibriQwen? ==>
      forall i: nat | i < |models| && models[i].kind.Ollama? && Leased(s.router, models[i].alias) ::
        e.replies.ps(i).PsRaised? || ShowsResident(e.replies.ps(i))
  }

  lemma {:induction false} ClearBackendIsSilent(models: seq<ModelSpec>, ps: nat -> PsReply, k: nat, i: nat)
    requires k <= i < |models| && models[i].kind.Ollama? && BackendsClear(models, ps, k)
    ensures !ps(i).PsRaised? && !ShowsResident(ps(i))
    decreases i - k
  {
    if k < i {
      ClearBackendIsSilent(models, ps, k + 1, i);
    }
  }

  // A Qwen request that finds Qwen down, every backend silent and the GPUs free while an
  // Ollama lease is active, and whose start takes effect.
  ghost predicate StartsBesideOllama(models: seq<ModelSpec>, maxTemp: int, s: System, e: Event) {
    && e.Request? && e.k < |models| && models[e.k].kind.ColibriQwen? && e.upAfter && !s.qwenUp
    && e.replies.probe == ServiceActive(false) && BackendsClear(models, e.replies.ps, 0) && GpusClear(e.replies.gpu, maxTemp)
    && OllamaLeased(models, s.router)
  }

  // An Ollama request whose probe misreads a Qwen that goes on running.
  ghost predicate GrantsBesideQwen(models: seq<ModelSpec>, s: System, e: Event) {
    Misread(s, e) && e.k < |models| && models[e.k].kind.Ollama? && e.upAfter
  }

  lemma {:induction false} OllamaLeaseSurvivesQwenRequest(models: seq<ModelSpec>, r: Router, k: nat, outcome: Outcome)
    requires ValidConfig(models) && Covers(models, r) && k < |models| && models[k].kind.ColibriQwen?
    ensures OllamaLeased(models, AfterBegin(r, models[k].alias, outcome)) <==> OllamaLeased(models, r)
  {
    var r' := AfterBegin(r, models[k].alias, outcome);
    forall i | 0 <= i < |models| && models[i].kind.Ollama?
      ensures Leased(r', models[i].alias) <==> Leased(r, models[i].alias)
    {
      assert i < k || k < i;
    }
  }

  lemma {:induction false} QwenRequestLosesExclusionIff(models: seq<ModelSpec>, maxTemp: int, s: System, e: Event)
    requires ValidConfig(models) && LeaseInvariant(models, s) && Exclusive(models, s) && Enabled(models, maxTemp, s, e)
    requires e.Request? && models[e.k].kind.ColibriQwen?
    ensures !Exclusive(models, Next(models, maxTemp, s, e)) <==> StartsBesideOllama(models, maxTemp, s, e)
  {
    OllamaLeaseSurvivesQwenRequest(models, s.router, e.k, RequestOutcome(models, maxTemp, e));
  }

  lemma {:induction false} OllamaRequestLosesExclusionIff(models: seq<ModelSpec>, maxTemp: int, s: System, e: Event)
    requires ValidConfig(models) && LeaseInvariant(models, s) && Exclusive(models, s) && Enabled(models, maxTemp, s, e)
    requires e.Request? && models[e.k].kind.Ollama?
    ensures !Exclusive(models, Next(models, maxTemp, s, e)) <==> GrantsBesideQwen(models, s, e)
  {
    OllamaGrantedIff(models, maxTemp, s, e);
    if GrantsBesideQwen(models, s, e) {
      assert Leased(Next(models, maxTemp, s, e).router, models[e.k].alias);
    }
  }

  /** Exactly when one step from an exclusive state loses exclusion. */
  lemma {:induction false} ExclusionLostIff(models: seq<ModelSpec>, maxTemp: int, s: System, e: Event)
    requires ValidConfig(models) && LeaseInvariant(models, s) && Exclusive(models, s) && Enabled(models, maxTemp, s, e)
    ensures !Exclusive(models, Next(models, maxTemp, s, e))
            <==> StartsBesideOllama(models, maxTemp, s, e) || GrantsBesideQwen(models, s, e)
  {
    var s' := Next(models, maxTemp, s, e);
    match e
    case Request(_, k, _, _) =>
      if models[k].kind.ColibriQwen? {
        QwenRequestLosesExclusionIff(models, maxTemp, s, e);
      } else {
        OllamaRequestLosesExclusionIff(models, maxTemp, s, e);
      }
    case Finish(thread, now) =>
      forall i | 0 <= i < |models| && Leased(s'.router, models[i].alias)
        ensures Leased(s.router, models[i].alias)
      {
        FinishKeepsLeases(models, maxTemp, s, e);
      }
    case ReapTick(_, _, _) =>
    case QwenDown =>
  }

  /** On every run whose Ollama leases are visible when Qwen is requested and whose probes
      misread nothing, Qwen never runs while an Ollama lease is active. */
  lemma {:induction false} VisibleLeasesKeepExclusion(models: seq<ModelSpec>, maxTemp: int, states: seq<System>, events: seq<Event>, n: nat)
    requires ValidConfig(models) && IsRun(models, maxTemp, states, events) && n < |states|
    requires forall m | 0 <= m < |events| :: LeasesVisible(models, states[m], events[m]) && !Misread(states[m], events[m])
    ensures Exclusive(models, states[n])
  {
    if n > 0 {
      var s, e := states[n - 1], events[n - 1];
      VisibleLeasesKeepExclusion(models, maxTemp, states, events, n - 1);
      ActiveCountsLeases(models, maxTemp, states, events, n - 1);
      assert Step(models, maxTemp, s, e, states[n]) && LeasesVisible(models, s, e);
      ExclusionLostIff(models, maxTemp, s, e);
      if StartsBesideOllama(models, maxTemp, s, e) {
        var i :| 0 <= i < |models| && models[i].kind.Ollama? && Leased(s.router, models[i].alias);
        ClearBackendIsSilent(models, e.replies.ps, 0, i);
      }
    }
  }

  lemma {:induction false} SilentBackendsAreClear(models: seq<ModelSpec>, ps: nat -> PsReply, k: nat)
    requires k <= |models| && forall i: nat :: ps(i) == Ps(200, false)
    ensures BackendsClear(models, ps, k)
    decreases |models| - k
  {
    if k < |models| {
      SilentBackendsAreClear(models, ps, k + 1);
    }
  }

  /** Without that assumption two steps suffice, for every configuration with both
      kinds: an Ollama lease is granted, its model is not loaded yet, Qwen is started. */
  lemma {:induction false} CoResidencyTrace(models: seq<ModelSpec>, maxTemp: int, ollama: nat, qwen: nat)
    returns (states: seq<System>, events: seq<Event>)
    requires ValidConfig(models) && ollama < |models| && qwen < |models|
    requires models[ollama].kind.Ollama? && models[qwen].kind.ColibriQwen?
    ensures IsRun(models, maxTemp, states, events) && |events| == 2
    ensures events[0].Request? && events[0].k == ollama && events[1].Request? && events[1].k == qwen
    ensures states[2].qwenUp && Leased(states[2].router, models[ollama].alias) && Leased(states[2].router, QWEN_ALIAS)
  {
    var s0 := Start(models, false);
    var e0 := Request(0, ollama, SeemsDown(), false);
    var s1 := GrantOllama(models, maxTemp, s0, e0);
    var e1, s2 := StartQwen(models, maxTemp, s1, 1, qwen);
    assert models[ollama].alias != QWEN_ALIAS by {
      assert ollama < qwen || qwen < ollama;
    }
    TwoStepRun(models, maxTemp, s0, e0, s1, e1, s2);
    states, events := [s0, s1, s2], [e0, e1];
  }

  /** Nor is visibility enough: Qwen is started and healthy, and the probe of the next Ollama
      request fails to see it. */
  lemma {:induction false} MisreadProbeTrace(models: seq<ModelSpec>, maxTemp: int, ollama: nat, qwen: nat)
    returns (states: seq<System>, events: seq<Event>)
    requires ValidConfig(models) && ollama < |models| && qwen < |models|
    requires models[ollama].kind.Ollama? && models[qwen].kind.ColibriQwen?
    ensures IsRun(models, maxTemp, states, events) && |events| == 2
    ensures forall m | 0 <= m < 2 :: LeasesVisible(models, states[m], events[m])
    ensures states[2].qwenUp && Leased(states[2].router, models[ollama].alias) && Leased(states[2].router, QWEN_ALIAS)
  {
    var s0 := Start(models, false);
    var e0, s1 := StartQwen(models, maxTemp, s0, 0, qwen);
    var e1 := Request(1, ollama, SeemsDown(), true);
    var s2 := GrantOllama(models, maxTemp, s1, e1);
    assert models[ollama].alias != QWEN_ALIAS by {
      assert ollama < qwen || qwen < ollama;
    }
    TwoStepRun(models, maxTemp, s0, e0, s1, e1, s2);
    states, events := [s0, s1, s2], [e0, e1];
  }

  // A Qwen request that starts the service, with the answers that let it.
  lemma {:induction false} StartQwen(models: seq<ModelSpec>, maxTemp: int, s: System, thread: nat, qwen: nat)
    returns (e: Event, s': System)
    requires Covers(models, s.router) && !s.qwenUp && thread !in s.holders && qwen < |models| && models[qwen].kind.ColibriQwen?
    ensures e.Request? && e.k == qwen && e.replies.probe == ServiceActive(false) && Step(models, maxTemp, s, e, s')
    ensures s'.qwenUp && Covers(models, s'.router) && s'.reaperAlive == s.reaperAlive
    ensures s'.holders == s.holders[thread := models[qwen].alias] && s'.router.lastUsed == s.router.lastUsed
    ensures s'.router.active == s.router.active[models[qwen].alias := s.router.active[models[qwen].alias] + 1]
  {
    var ps: nat -> PsReply := k => Ps(200, false);
    SilentBackendsAreClear(models, ps, 0);
    e := Request(thread, qwen, BeginReplies(ServiceActive(false), ps, Gpu([maxTemp - 1, maxTemp - 1], [0, 0]), Started, true), true);
    assert RequestOutcome(models, maxTemp, e) == Granted(true);
    s' := Next(models, maxTemp, s, e);
  }

  /* ---- A Qwen that is left running ---- */

  // Qwen is up, nobody holds its lease, and the reaper has no last-use time for it or has
  // ended in an exception.
  ghost predicate Stranded(models: seq<ModelSpec>, s: System) {
    && Covers(models, s.router) && s.qwenUp && QWEN_ALIAS in s.router.lastUsed && HoldersOf(s, QWEN_ALIAS) == {}
    && (s.router.lastUsed[QWEN_ALIAS] == 0.0 || !s.reaperAlive)
  }

  // Not a Qwen request, and the service does not go down by itself.
  ghost predicate LeavesQwenAlone(models: seq<ModelSpec>, e: Event) {
    && !e.QwenDown?
    && (e.Request? ==> e.k < |models| && models[e.k].kind.Ollama? && models[e.k].alias != QWEN_ALIAS && e.upAfter)
  }

  // Whatever follows, as long as it leaves Qwen alone, Qwen goes on running.
  ghost predicate StaysUp(models: seq<ModelSpec>, maxTemp: int, s: System) {
    forall states: seq<System>, events: seq<Event> | GoesOn(models, maxTemp, s, states, events) :: states[|events|].qwenUp
  }

  ghost predicate GoesOn(models: seq<ModelSpec>, maxTemp: int, s: System, states: seq<System>, events: seq<Event>) {
    && |states| == |events| + 1 && states[0] == s
    && forall n | 0 <= n < |events| :: Step(models, maxTemp, states[n], events[n], states[n + 1]) && LeavesQwenAlone(models, events[n])
  }

  /** A running Qwen without a holder is left running for good exactly when it has no
      last-use time or the reaper is dead. */
  lemma {:induction false} StrandedIff(models: seq<ModelSpec>, maxTemp: int, s: System, qwen: nat)
    requires ValidConfig(models) && LeaseInvariant(models, s) && qwen < |models| && models[qwen].kind.ColibriQwen?
    requires s.qwenUp && HoldersOf(s, QWEN_ALIAS) == {}
    ensures Stranded(models, s) <==> StaysUp(models, maxTemp, s)
  {
    if Stranded(models, s) {
      forall states: seq<System>, events: seq<Event> | GoesOn(models, maxTemp, s, states, events)
        ensures states[|events|].qwenUp
      {
        StrandedRun(models, maxTemp, states, events, 0, |events|);
      }
    } else {
      var e := ReapTick(s.router.lastUsed[QWEN_ALIAS] + 3600.0, WILLING, false);
      ReapStopsQwenIff(models, s.router, e.now, WILLING, qwen);
      var s' := Next(models, maxTemp, s, e);
      assert GoesOn(models, maxTemp, s, [s, s'], [e]);
    }
  }

  /** The steps that strand Qwen: a refused request that leaves it up without a last-use
      time or reaper; the end of its last lease without a reaper or at clock zero; a reap that
      ends in an exception, or that forgets Qwen while it stays up, because the probe did not
      see it or the stop had no effect. */
  ghost predicate Strands(models: seq<ModelSpec>, maxTemp: int, s: System, e: Event, qwen: nat)
    requires Covers(models, s.router) && Enabled(models, maxTemp, s, e)
    requires QWEN_ALIAS in s.router.lastUsed && qwen < |models|
  {
    match e
    case Request(_, k, _, upAfter) =>
      && models[k].kind.ColibriQwen? && upAfter && RequestOutcome(models, maxTemp, e).Refused?
      && HoldersOf(s, QWEN_ALIAS) == {} && (s.router.lastUsed[QWEN_ALIAS] == 0.0 || !s.reaperAlive)
    case Finish(thread, now) => s.qwenUp && HoldersOf(s, QWEN_ALIAS) == {thread} && (now == 0.0 || !s.reaperAlive)
    case ReapTick(now, cleanups, upAfter) =>
      && upAfter && HoldersOf(s, QWEN_ALIAS) == {}
      && (!NoneRaises(models, s.router, now, cleanups, |models|)
          || (Idle(s.router, models[qwen], now) && CleanupEnding(models[qwen], cleanups(qwen)) == Fine))
    case QwenDown => false
  }

  lemma {:induction false} RequestStrandsIff(models: seq<ModelSpec>, maxTemp: int, s: System, e: Event, qwen: nat)
    requires ValidConfig(models) && LeaseInvariant(models, s) && Enabled(models, maxTemp, s, e) && e.Request?
    requires qwen < |models| && models[qwen].kind.ColibriQwen? && !Stranded(models, s)
    ensures Stranded(models, Next(models, maxTemp, s, e)) <==> Strands(models, maxTemp, s, e, qwen)
  {
    var s', alias := Next(models, maxTemp, s, e), models[e.k].alias;
    if RequestOutcome(models, maxTemp, e).Granted? {
      GrantHolders(s, e.thread, alias, s', QWEN_ALIAS);
    } else {
      assert HoldersOf(s', QWEN_ALIAS) == HoldersOf(s, QWEN_ALIAS);
    }
  }

  lemma GrantHolders(s: System, thread: nat, alias: Alias, s': System, a: Alias)
    requires thread !in s.holders && s'.holders == s.holders[thread := alias]
    ensures HoldersOf(s', a) == HoldersOf(s, a) + if a == alias then {thread} else {}
  {
  }

  lemma {:induction false} FinishStrandsIff(models: seq<ModelSpec>, maxTemp: int, s: System, e: Event, qwen: nat)
    requires ValidConfig(models) && LeaseInvariant(models, s) && Enabled(models, maxTemp, s, e) && e.Finish?
    requires qwen < |models| && models[qwen].kind.ColibriQwen? && !Stranded(models, s)
    ensures Stranded(models, Next(models, maxTemp, s, e)) <==> Strands(models, maxTemp, s, e, qwen)
  {
    var s' := Next(models, maxTemp, s, e);
    assert HoldersOf(s', QWEN_ALIAS) == HoldersOf(s, QWEN_ALIAS) - {e.thread};
    assert e.thread in HoldersOf(s, s.holders[e.thread]);
  }

  lemma {:induction false} ReapStrandsIff(models: seq<ModelSpec>, maxTemp: int, s: System, e: Event, qwen: nat)
    requires ValidConfig(models) && LeaseInvariant(models, s) && Enabled(models, maxTemp, s, e) && e.ReapTick?
    requires qwen < |models| && models[qwen].kind.ColibriQwen? && !Stranded(models, s)
    ensures Stranded(models, Next(models, maxTemp, s, e)) <==> Strands(models, maxTemp, s, e, qwen)
  {
    var s' := Next(models, maxTemp, s, e);
    assert HoldersOf(s', QWEN_ALIAS) == HoldersOf(s, QWEN_ALIAS);
    ReapRaisesIff(models, s.router, e.now, e.cleanups, |models|);
    ReapForgetsIff(models, s.router, e.now, e.cleanups, |models|, qwen);
  }

  /** From every state of every run a step strands Qwen exactly when it is one of those. */
  lemma {:induction false} StepStrandsIff(models: seq<ModelSpec>, maxTemp: int, s: System, e: Event, qwen: nat)
    requires ValidConfig(models) && LeaseInvariant(models, s) && Enabled(models, maxTemp, s, e)
    requires qwen < |models| && models[qwen].kind.ColibriQwen? && !Stranded(models, s)
    ensures Stranded(models, Next(models, maxTemp, s, e)) <==> Strands(models, maxTemp, s, e, qwen)
  {
    match e
    case Request(_, _, _, _) => RequestStrandsIff(models, maxTemp, s, e, qwen);
    case Finish(_, _) => FinishStrandsIff(models, maxTemp, s, e, qwen);
    case ReapTick(_, _, _) => ReapStrandsIff(models, maxTemp, s, e, qwen);
    case QwenDown =>
  }

  /** A Qwen request that leaves the service up but not healthy strands it exactly when no
      thread holds its lease and the reaper is dead or has no last-use time from an earlier
      lease. */
  lemma {:induction false} HealthTimeoutStrandsQwenIff(models: seq<ModelSpec>, maxTemp: int, s: System, e: Event)
    requires ValidConfig(models) && LeaseInvariant(models, s) && Enabled(models, maxTemp, s, e)
    requires e.Request? && models[e.k].kind.ColibriQwen? && e.upAfter && !e.replies.healthy
    ensures Stranded(models, Next(models, maxTemp, s, e))
            <==> HoldersOf(s, QWEN_ALIAS) == {} && (s.router.lastUsed[QWEN_ALIAS] == 0.0 || !s.reaperAlive)
  {
    assert models[e.k].alias == QWEN_ALIAS;
    assert HoldersOf(Next(models, maxTemp, s, e), QWEN_ALIAS) == HoldersOf(s, QWEN_ALIAS);
  }

  /** A used Qwen without a holder is asked to stop by a reap after its idle time exactly
      when the probe finds it up and no earlier idle model's clean-up raised unhandled. */
  lemma {:induction false} UsedQwenIsAskedToStopIff(models: seq<ModelSpec>, maxTemp: int, s: System, e: Event, qwen: nat)
    requires ValidConfig(models) && LeaseInvariant(models, s) && Enabled(models, maxTemp, s, e)
    requires qwen < |models| && models[qwen].kind.ColibriQwen?
    requires s.router.lastUsed[QWEN_ALIAS] != 0.0 && HoldersOf(s, QWEN_ALIAS) == {}
    requires e.ReapTick? && e.now >= s.router.lastUsed[QWEN_ALIAS] + models[qwen].idleSeconds as real
    ensures StopQwen in Reap(models, s.router, e.now, e.cleanups).actions
            <==> e.cleanups(qwen).probe == ServiceActive(true) && NoneRaises(models, s.router, e.now, e.cleanups, qwen)
  {
    ReapStopsQwenIff(models, s.router, e.now, e.cleanups, qwen);
  }

  /** A router restarted beside a running Qwen is stranded from the first moment. */
  lemma {:induction false} RestartStrandsQwen(models: seq<ModelSpec>, qwen: nat)
    requires ValidConfig(models) && qwen < |models| && models[qwen].kind.ColibriQwen?
    ensures Stranded(models, Start(models, true))
  {
    assert models[qwen] in models;
    assert HoldersOf(Start(models, true), QWEN_ALIAS) == {};
  }

  // Both kinds are leased and given back, one after the other.
  lemma {:induction false} UsedOneByOne(models: seq<ModelSpec>, maxTemp: int, ollama: nat, qwen: nat)
    returns (states: seq<System>, events: seq<Event>)
    requires ValidConfig(models) && ollama < qwen < |models| && models[ollama].kind.Ollama? && models[qwen].kind.ColibriQwen?
    ensures IsRun(models, maxTemp, states, events) && |events| == 4
    ensures !states[0].qwenUp && events[1].Finish? && !states[2].qwenUp && events[3].Finish?
    ensures Covers(models, states[4].router) && states[4].qwenUp && states[4].reaperAlive && states[4].holders == map[]
    ensures Idle(states[4].router, models[ollama], 3602.0) && Idle(states[4].router, models[qwen], 3602.0)
  {
    BothIdle(models, ollama, qwen);
    states, events := FirstLease(models, maxTemp, ollama);
    var e, mid, e', s' := UseQwen(models, maxTemp, states[2], qwen, 2.0);
    TwoMoreSteps(models, maxTemp, states, events, e, mid, e', s');
    states, events := states + [mid, s'], events + [e, e'];
  }

  // A run of one Ollama lease from begin to end.
  lemma {:induction false} FirstLease(models: seq<ModelSpec>, maxTemp: int, k: nat) returns (states: seq<System>, events: seq<Event>)
    requires k < |models| && models[k].kind.Ollama?
    ensures IsRun(models, maxTemp, states, events) && |events| == 2 && events[1].Finish?
    ensures !states[0].qwenUp && !states[2].qwenUp && states[2].reaperAlive && states[2].holders == map[]
    ensures states[2].router == Initial(models).(lastUsed := Initial(models).lastUsed[models[k].alias := 1.0])
  {
    var s0 := Start(models, false);
    var e0, s1, e1, s2 := UseOllama(models, maxTemp, s0, k, 1.0);
    TwoStepRun(models, maxTemp, s0, e0, s1, e1, s2);
    states, events := [s0, s1, s2], [e0, e1];
  }

  lemma {:induction false} BothIdle(models: seq<ModelSpec>, i: nat, j: nat)
    requires ValidConfig(models) && i < j < |models|
    ensures var r := Initial(models);
            var r' := r.(lastUsed := r.lastUsed[models[i].alias := 1.0][models[j].alias := 2.0]);
            Covers(models, r') && Idle(r', models[i], 3602.0) && Idle(r', models[j], 3602.0)
  {
    assert models[i].alias != models[j].alias;
  }

  // One Qwen lease from begin to end; Qwen goes on running.
  lemma {:induction false} UseQwen(models: seq<ModelSpec>, maxTemp: int, s: System, k: nat, now: real)
    returns (e: Event, mid: System, e': Event, s': System)
    requires Covers(models, s.router) && !s.qwenUp && s.holders == map[] && k < |models| && models[k].kind.ColibriQwen?
    requires s.router.active[models[k].alias] >= 0
    ensures Step(models, maxTemp, s, e, mid) && Step(models, maxTemp, mid, e', s')
    ensures e.Request? && e'.Finish? && s'.qwenUp && s'.reaperAlive == s.reaperAlive && Covers(models, s'.router)
    ensures s'.holders == map[] && s'.router == s.router.(lastUsed := s.router.lastUsed[models[k].alias := now])
  {
    e, mid := StartQwen(models, maxTemp, s, 1, k);
    assert mid.holders == map[1 := models[k].alias];
    e' := Finish(1, now);
    s' := GiveBack(models, maxTemp, mid, e');
    assert s'.holders == map[];
    EndUndoesBegin(s.router, models[k].alias, true, now);
  }

  /** A cut-off unload reply strands a Qwen that was used and given back: an Ollama alias
      configured before it and Qwen itself are leased and ended, and the reap that finds both
      idle ends in an exception at the first. */
  lemma {:induction false} CutOffReplyStrandsQwen(models: seq<ModelSpec>, maxTemp: int, ollama: nat, qwen: nat)
    returns (states: seq<System>, events: seq<Event>)
    requires ValidConfig(models) && ollama < qwen < |models| && models[ollama].kind.Ollama? && models[qwen].kind.ColibriQwen?
    ensures IsRun(models, maxTemp, states, events) && |events| == 5
    ensures forall m | 0 <= m < 5 :: !Misread(states[m], events[m])
    ensures events[4].ReapTick? && events[4].cleanups(qwen) == ReapReply(ServiceActive(true), Fine)
    ensures Stranded(models, states[5]) && states[5].router.lastUsed[QWEN_ALIAS] != 0.0
  {
    var cleanups: nat -> ReapReply := k => ReapReply(ServiceActive(true), if k == ollama then Uncaught else Fine);
    var e := ReapTick(3602.0, cleanups, true);
    states, events := UsedOneByOne(models, maxTemp, ollama, qwen);
    var s' := CutShort(models, maxTemp, states[4], e, ollama, qwen);
    LongerRun(models, maxTemp, states, events, e, s');
    states, events := states + [s'], events + [e];
  }

  // A reap that ends at an idle Ollama model before it comes to an idle Qwen.
  lemma {:induction false} CutShort(models: seq<ModelSpec>, maxTemp: int, s: System, e: Event, ollama: nat, qwen: nat) returns (s': System)
    requires ValidConfig(models) && Covers(models, s.router) && s.reaperAlive && s.qwenUp && s.holders == map[]
    requires ollama < qwen < |models| && models[ollama].kind.Ollama? && models[qwen].kind.ColibriQwen?
    requires e.ReapTick? && e.upAfter && Idle(s.router, models[ollama], e.now) && Idle(s.router, models[qwen], e.now)
    requires e.cleanups(ollama).call == Uncaught
    ensures Step(models, maxTemp, s, e, s') && Stranded(models, s') && s'.router.lastUsed[QWEN_ALIAS] != 0.0
  {
    assert !NoneRaises(models, s.router, e.now, e.cleanups, qwen);
    ReapStopsQwenIff(models, s.router, e.now, e.cleanups, qwen);
    ReapRaisesIff(models, s.router, e.now, e.cleanups, |models|);
    ReapForgetsIff(models, s.router, e.now, e.cleanups, |models|, qwen);
    s' := Next(models, maxTemp, s, e);
    assert HoldersOf(s', QWEN_ALIAS) == {};
  }

  lemma {:induction false} ReapSkipsNeverUsed(models: seq<ModelSpec>, r: Router, now: real, replies: nat -> ReapReply, k: nat)
    requires ValidConfig(models) && Covers(models, r) && k <= |models|
    requires QWEN_ALIAS in r.lastUsed && r.lastUsed[QWEN_ALIAS] == 0.0
    ensures StopQwen !in ReapFirst(models, r, now, replies, k).actions
    ensures QWEN_ALIAS in ReapFirst(models, r, now, replies, k).router.lastUsed
    ensures ReapFirst(models, r, now, replies, k).router.lastUsed[QWEN_ALIAS] == 0.0
  {
    if k > 0 {
      ReapSkipsNeverUsed(models, r, now, replies, k - 1);
    }
  }

  /** From there, as long as nobody requests Qwen and the service does not go down by
      itself, no step stops Qwen, and every Ollama request is refused whose probe does not
      misread it. */
  lemma {:induction false} StrandedQwenBlocksOllama(models: seq<ModelSpec>, maxTemp: int, s: System, e: Event)
    requires ValidConfig(models) && Stranded(models, s) && Enabled(models, maxTemp, s, e)
    requires LeavesQwenAlone(models, e)
    ensures Stranded(models, Next(models, maxTemp, s, e))
    ensures e.Request? && !Misread(s, e) ==> RequestOutcome(models, maxTemp, e).Refused?
  {
    var s' := Next(models, maxTemp, s, e);
    match e
    case Request(_, k, _, _) =>
      assert forall t | t in HoldersOf(s', QWEN_ALIAS) :: t in HoldersOf(s, QWEN_ALIAS);
    case Finish(thread, now) =>
      assert thread in HoldersOf(s, s.holders[thread]);
      assert HoldersOf(s', QWEN_ALIAS) == {};
    case ReapTick(now, cleanups, upAfter) =>
      ReapSkipsNeverUsed(models, s.router, now, cleanups, |models|);
      assert HoldersOf(s', QWEN_ALIAS) == HoldersOf(s, QWEN_ALIAS);
  }

  lemma {:induction false} StrandedRun(models: seq<ModelSpec>, maxTemp: int, states: seq<System>, events: seq<Event>, from: nat, n: nat)
    requires ValidConfig(models) && |states| == |events| + 1 && from <= n < |states|
    requires forall m | from <= m < |events| :: Step(models, maxTemp, states[m], events[m], states[m + 1])
    requires forall m | from <= m < |events| :: LeavesQwenAlone(models, events[m])
    requires Stranded(models, states[from])
    ensures Stranded(models, states[n])
    ensures n < |events| ==> Step(models, maxTemp, states[n], events[n], states[n + 1])
    ensures n < |events| && events[n].Request? && !Misread(states[n], events[n]) ==> RequestOutcome(models, maxTemp, events[n]).Refused?
    decreases n
  {
    assert n < |events| ==> Step(models, maxTemp, states[n], events[n], states[n + 1]);
    assert from < n ==> Step(models, maxTemp, states[n - 1], events[n - 1], states[n]);
    if from < n {
      StrandedRun(models, maxTemp, states, events, from, n - 1);
      StrandedQwenBlocksOllama(models, maxTemp, states[n - 1], events[n - 1]);
    }
    if n < |events| {
      StrandedQwenBlocksOllama(models, maxTemp, states[n], events[n]);
    }
  }
}
