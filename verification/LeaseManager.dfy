/** The router's lease manager: one lock, a counter and a last-use time per model,
    and the conservative start/stop policy that keeps Qwen and Ollama apart.  Every
    answer of the outside world (service helper, /api/ps, nvidia-smi, health) is a
    parameter. */
module LeaseManager {

  type Alias = string

  datatype Kind = ColibriQwen | Ollama

  // `backend` is the server the configured URL resolves to and `backendModel` the model the
  // server takes the name for, not their spellings: two URLs of one host and port are one
  // backend, and a name with and without its default tag is one model.
  datatype ModelSpec = ModelSpec(alias: Alias, backend: string, backendModel: string, kind: Kind, idleSeconds: int)

  const QWEN_ALIAS: Alias := "wiplash/qwen35b"
  const MEMORY_LIMIT_MIB: int := 256

  ghost predicate ValidConfig(models: seq<ModelSpec>) {
    && (forall i, j | 0 <= i < j < |models| :: models[i].alias != models[j].alias)
    && (forall i | 0 <= i < |models| ::
          (models[i].kind.ColibriQwen? ==> models[i].alias == QWEN_ALIAS) && 15 <= models[i].idleSeconds <= 3600)
  }

  /** What `load` checks of aliases, kinds and idle times. */
  lemma ValidConfigIff(models: seq<ModelSpec>)
    ensures ValidConfig(models)
            <==> && (forall i, j | 0 <= i < |models| && 0 <= j < |models| && models[i].alias == models[j].alias :: i == j)
                 && (forall i | 0 <= i < |models| && models[i].kind == ColibriQwen :: models[i].alias == "wiplash/qwen35b")
                 && (forall i | 0 <= i < |models| :: 15 <= models[i].idleSeconds && models[i].idleSeconds <= 3600)
  {
  }

  /* ---- What the outside world answers ---- */

  // How a call ended: it returned, raised one of the exceptions its caller handles, or
  // raised anything else.
  datatype Ending = Fine | Caught | Uncaught

  // `qwen_is_active` also answers false whenever the helper itself fails.
  datatype Probe = ProbeRaised(caught: bool) | ServiceActive(up: bool)
  datatype PsReply = PsRaised | Ps(status: int, resident: bool)
  datatype GpuReply = GpuRaised | Gpu(temperatures: seq<int>, memoryUsed: seq<int>)
  datatype StartReply = StartRaised | Started

  // Everything one `begin` may observe; `ps` is indexed like the configured models.
  datatype BeginReplies = BeginReplies(probe: Probe, ps: nat -> PsReply, gpu: GpuReply, start: StartReply, healthy: bool)

  // The probe, if Qwen is asked about, and how the stop or unload ended.
  datatype ReapReply = ReapReply(probe: Probe, call: Ending)

  datatype Action = StopQwen | Unload(backend: string, backendModel: string)

  // `begin` either grants a lease or raises; a refusal may come after a start was attempted.
  datatype Outcome = Granted(attemptedStart: bool) | Refused(attemptedStart: bool)

  datatype Router = Router(active: map<Alias, int>, lastUsed: map<Alias, real>)

  ghost predicate Covers(models: seq<ModelSpec>, r: Router) {
    forall i | 0 <= i < |models| :: models[i].alias in r.active && models[i].alias in r.lastUsed
  }

  function Initial(models: seq<ModelSpec>): (r: Router)
    ensures Covers(models, r)
    ensures forall a | a in r.active :: r.active[a] == 0
    ensures forall a | a in r.lastUsed :: r.lastUsed[a] == 0.0
  {
    Router(map spec | spec in models :: spec.alias := 0, map spec | spec in models :: spec.alias := 0.0)
  }

  /* ---- begin ---- */

  predicate ShowsResident(reply: PsReply) {
    reply.Ps? && reply.status == 200 && reply.resident
  }

  // No Ollama backend from index k on raises or reports a resident model.
  predicate BackendsClear(models: seq<ModelSpec>, ps: nat -> PsReply, k: nat)
    requires k <= |models|
    decreases |models| - k
  {
    k == |models| ||
    ((models[k].kind.Ollama? ==> !ps(k).PsRaised? && !ShowsResident(ps(k))) && BackendsClear(models, ps, k + 1))
  }

  predicate GpusClear(gpu: GpuReply, maxTemp: int) {
    gpu.Gpu?
    && (forall i | 0 <= i < |gpu.temperatures| :: gpu.temperatures[i] < maxTemp)
    && (forall i | 0 <= i < |gpu.memoryUsed| :: gpu.memoryUsed[i] <= MEMORY_LIMIT_MIB)
  }

  function QwenOutcome(models: seq<ModelSpec>, maxTemp: int, replies: BeginReplies): Outcome {
    if replies.probe.ProbeRaised? then Refused(false)
    else if replies.probe.up then (if replies.healthy then Granted(false) else Refused(false))
    else if !BackendsClear(models, replies.ps, 0) || !GpusClear(replies.gpu, maxTemp) then Refused(false)
    else if replies.start.Started? && replies.healthy then Granted(true)
    else Refused(true)
  }

  lemma {:induction false} BackendsClearIff(models: seq<ModelSpec>, ps: nat -> PsReply, k: nat)
    requires k <= |models|
    ensures BackendsClear(models, ps, k)
            <==> forall i: nat | k <= i < |models| && models[i].kind.Ollama? ::
                   !ps(i).PsRaised? && (ps(i).status == 200 ==> !ps(i).resident)
    decreases |models| - k
  {
    if k < |models| {
      BackendsClearIff(models, ps, k + 1);
      if models[k].kind.Ollama? && (ps(k).PsRaised? || ShowsResident(ps(k))) {
        assert !BackendsClear(models, ps, k);
      }
    }
  }

  lemma {:induction false} GpusClearIff(gpu: GpuReply, maxTemp: int)
    ensures GpusClear(gpu, maxTemp)
            <==> gpu.Gpu? && (forall t | t in gpu.temperatures :: t < maxTemp) && (forall mib | mib in gpu.memoryUsed :: mib <= 256)
  {
    if gpu.Gpu? && (forall t | t in gpu.temperatures :: t < maxTemp) && (forall mib | mib in gpu.memoryUsed :: mib <= 256) {
      forall i | 0 <= i < |gpu.temperatures|
        ensures gpu.temperatures[i] < maxTemp
      {
        assert gpu.temperatures[i] in gpu.temperatures;
      }
      forall i | 0 <= i < |gpu.memoryUsed|
        ensures gpu.memoryUsed[i] <= MEMORY_LIMIT_MIB
      {
        assert gpu.memoryUsed[i] in gpu.memoryUsed;
      }
    }
  }

  /** A begin(qwen) attempts a start exactly when the probe says that Qwen is down, no Ollama
      backend raised or shows a resident model, and both GPUs are cool and at most 256 MiB
      in use; it is granted exactly when Qwen is then healthy, having been found up or started. */
  lemma {:induction false} QwenOutcomeIff(models: seq<ModelSpec>, maxTemp: int, replies: BeginReplies)
    ensures var outcome := QwenOutcome(models, maxTemp, replies);
            && (outcome.attemptedStart
                <==> && replies.probe == ServiceActive(false)
                     && (forall i: nat | i < |models| && models[i].kind.Ollama? ::
                           !replies.ps(i).PsRaised? && (replies.ps(i).status == 200 ==> !replies.ps(i).resident))
                     && replies.gpu.Gpu? && (forall t | t in replies.gpu.temperatures :: t < maxTemp)
                     && (forall mib | mib in replies.gpu.memoryUsed :: mib <= 256))
            && (outcome.Granted?
                <==> replies.healthy
                     && (replies.probe == ServiceActive(true) || (outcome.attemptedStart && replies.start.Started?)))
  {
    BackendsClearIff(models, replies.ps, 0);
    GpusClearIff(replies.gpu, maxTemp);
  }

  function OllamaOutcome(replies: BeginReplies): Outcome {
    if replies.probe.ProbeRaised? || replies.probe.up then Refused(false) else Granted(false)
  }

  function BeginOutcome(models: seq<ModelSpec>, maxTemp: int, spec: ModelSpec, replies: BeginReplies): Outcome {
    if spec.kind.ColibriQwen? then QwenOutcome(models, maxTemp, replies) else OllamaOutcome(replies)
  }

  function AfterBegin(r: Router, alias: Alias, outcome: Outcome): Router
    requires alias in r.active
  {
    if outcome.Granted? then r.(active := r.active[alias := r.active[alias] + 1]) else r
  }

  function AfterEnd(r: Router, alias: Alias, now: real): Router
    requires alias in r.active
  {
    Router(r.active[alias := if r.active[alias] - 1 > 0 then r.active[alias] - 1 else 0], r.lastUsed[alias := now])
  }

  /* ---- reap_once ---- */

  predicate Idle(r: Router, spec: ModelSpec, now: real)
    requires spec.alias in r.active && spec.alias in r.lastUsed
  {
    r.active[spec.alias] == 0 && r.lastUsed[spec.alias] != 0.0
    && now - r.lastUsed[spec.alias] >= spec.idleSeconds as real
  }

  function CleanupEnding(spec: ModelSpec, reply: ReapReply): Ending {
    if spec.kind.Ollama? then reply.call
    else if reply.probe.ProbeRaised? then (if reply.probe.caught then Caught else Uncaught)
    else if reply.probe.up then reply.call
    else Fine
  }

  function CleanupActions(spec: ModelSpec, reply: ReapReply): seq<Action> {
    if spec.kind.Ollama? then [Unload(spec.backend, spec.backendModel)]
    else if reply.probe.ServiceActive? && reply.probe.up then [StopQwen]
    else []
  }

  /** What the clean-up of an idle model asks for, and how it ends: an unload for Ollama; for
      Qwen a stop if the probe sees it, nothing if not, and the probe's own exception. */
  lemma CleanupIs(spec: ModelSpec, reply: ReapReply)
    ensures spec.kind == Ollama ==>
              CleanupActions(spec, reply) == [Unload(spec.backend, spec.backendModel)] && CleanupEnding(spec, reply) == reply.call
    ensures spec.kind == ColibriQwen && reply.probe == ServiceActive(true) ==>
              CleanupActions(spec, reply) == [StopQwen] && CleanupEnding(spec, reply) == reply.call
    ensures spec.kind == ColibriQwen && reply.probe == ServiceActive(false) ==>
              CleanupActions(spec, reply) == [] && CleanupEnding(spec, reply) == Fine
    ensures spec.kind == ColibriQwen && reply.probe == ProbeRaised(true) ==>
              CleanupActions(spec, reply) == [] && CleanupEnding(spec, reply) == Caught
    ensures spec.kind == ColibriQwen && reply.probe == ProbeRaised(false) ==>
              CleanupActions(spec, reply) == [] && CleanupEnding(spec, reply) == Uncaught
  {
  }

  // `raised`: an exception nobody handles ended the visit.
  datatype Reaped = Reaped(router: Router, stopped: seq<Alias>, actions: seq<Action>, raised: bool)

  function ReapFirst(models: seq<ModelSpec>, r: Router, now: real, replies: nat -> ReapReply, k: nat): (out: Reaped)
    requires Covers(models, r) && k <= |models|
    ensures Covers(models, out.router) && out.router.active == r.active
  {
    if k == 0 then Reaped(r, [], [], false)
    else
      var before := ReapFirst(models, r, now, replies, k - 1);
      var spec, reply := models[k - 1], replies(k - 1);
      if before.raised || !Idle(before.router, spec, now) then before
      else
        var acted := before.(actions := before.actions + CleanupActions(spec, reply));
        match CleanupEnding(spec, reply)
        case Caught => acted
        case Uncaught => acted.(raised := true)
        case Fine => acted.(router := before.router.(lastUsed := before.router.lastUsed[spec.alias := 0.0]),
                            stopped := before.stopped + [spec.alias])
  }

  function Reap(models: seq<ModelSpec>, r: Router, now: real, replies: nat -> ReapReply): Reaped
    requires Covers(models, r)
  {
    ReapFirst(models, r, now, replies, |models|)
  }

  class LeaseManager {
    const models: seq<ModelSpec>
    const maxTemp: int
    var active: map<Alias, int>
    var lastUsed: map<Alias, real>

    ghost function View(): Router
      reads this
    {
      Router(active, lastUsed)
    }

    constructor (models: seq<ModelSpec>, maxTemp: int)
      ensures this.models == models && this.maxTemp == maxTemp && View() == Initial(models)
    {
      this.models, this.maxTemp := models, maxTemp;
      active := map spec | spec in models :: spec.alias := 0;
      lastUsed := map spec | spec in models :: spec.alias := 0.0;
    }

    method Begin(spec: ModelSpec, replies: BeginReplies) returns (outcome: Outcome)
      requires Covers(models, View()) && spec in models
      modifies this`active
      ensures outcome == BeginOutcome(models, maxTemp, spec, replies)
      ensures View() == AfterBegin(old(View()), spec.alias, outcome)
    {
      if spec.kind.ColibriQwen? {
        outcome := PrepareQwen(replies);
      } else {
        outcome := PrepareOllama(replies);
      }
      if outcome.Granted? {
        active := active[spec.alias := active[spec.alias] + 1];
      }
    }

    method PrepareQwen(replies: BeginReplies) returns (outcome: Outcome)
      ensures outcome == QwenOutcome(models, maxTemp, replies)
      ensures outcome.attemptedStart
              <==> && replies.probe == ServiceActive(false)
                   && (forall i: nat | i < |models| && models[i].kind.Ollama? ::
                         !replies.ps(i).PsRaised? && (replies.ps(i).status == 200 ==> !replies.ps(i).resident))
                   && replies.gpu.Gpu? && (forall t | t in replies.gpu.temperatures :: t < maxTemp)
                   && (forall mib | mib in replies.gpu.memoryUsed :: mib <= 256)
      ensures outcome.Granted?
              <==> replies.healthy
                   && (replies.probe == ServiceActive(true) || (outcome.attemptedStart && replies.start.Started?))
    {
      QwenOutcomeIff(models, maxTemp, replies);
      if replies.probe.ProbeRaised? { return Refused(false); }
      if !replies.probe.up {
        for k := 0 to |models|
          invariant BackendsClear(models, replies.ps, 0) <==> BackendsClear(models, replies.ps, k)
        {
          if models[k].kind.Ollama? {
            if replies.ps(k).PsRaised? { return Refused(false); }
            if replies.ps(k).status == 200 && replies.ps(k).resident { return Refused(false); }
          }
        }
        if replies.gpu.GpuRaised? { return Refused(false); }
        if exists i | 0 <= i < |replies.gpu.temperatures| :: replies.gpu.temperatures[i] >= maxTemp { return Refused(false); }
        if exists i | 0 <= i < |replies.gpu.memoryUsed| :: replies.gpu.memoryUsed[i] > MEMORY_LIMIT_MIB { return Refused(false); }
        if replies.start.StartRaised? { return Refused(true); }
      }
      if !replies.healthy { return Refused(!replies.probe.up); }
      return Granted(!replies.probe.up);
    }

    method PrepareOllama(replies: BeginReplies) returns (outcome: Outcome)
      ensures outcome == OllamaOutcome(replies)
    {
      if replies.probe.ProbeRaised? || replies.probe.up { return Refused(false); }
      return Granted(false);
    }

    method End(spec: ModelSpec, now: real)
      requires Covers(models, View()) && spec in models
      modifies this`active, this`lastUsed
      ensures View() == AfterEnd(old(View()), spec.alias, now)
    {
      active := active[spec.alias := if active[spec.alias] - 1 > 0 then active[spec.alias] - 1 else 0];
      lastUsed := lastUsed[spec.alias := now];
    }

    method ReapOnce(now: real, replies: nat -> ReapReply) returns (stopped: seq<Alias>, actions: seq<Action>, raised: bool)
      requires Covers(models, View())
      modifies this`lastUsed
      ensures Reaped(View(), stopped, actions, raised) == Reap(models, old(View()), now, replies)
    {
      stopped, actions, raised := [], [], false;
      for k := 0 to |models|
        invariant Covers(models, View()) && active == old(active) && !raised
        invariant Reaped(View(), stopped, actions, raised) == ReapFirst(models, old(View()), now, replies, k)
      {
        var spec := models[k];
        if active[spec.alias] != 0 || lastUsed[spec.alias] == 0.0 { continue; }
        if now - lastUsed[spec.alias] < spec.idleSeconds as real { continue; }
        actions := actions + CleanupActions(spec, replies(k));
        var ending := CleanupEnding(spec, replies(k));
        if ending == Uncaught {
          raised := true;
          RaisedIsFinal(models, old(View()), now, replies, k + 1, |models|);
          return;
        }
        if ending == Caught { continue; }
        lastUsed := lastUsed[spec.alias := 0.0];
        stopped := stopped + [spec.alias];
      }
    }
  }

  // After an unhandled exception no further model is visited.
  lemma {:induction false} RaisedIsFinal(models: seq<ModelSpec>, r: Router, now: real, replies: nat -> ReapReply, k: nat, n: nat)
    requires Covers(models, r) && k <= n <= |models| && ReapFirst(models, r, now, replies, k).raised
    ensures ReapFirst(models, r, now, replies, n) == ReapFirst(models, r, now, replies, k)
  {
    if k < n { RaisedIsFinal(models, r, now, replies, k, n - 1); }
  }

  /* ---- A lease, from its begin to its end ---- */

  /** `end` gives back exactly what the granted `begin` took: what remains of the pair is
      the last-use time. */
  lemma EndUndoesBegin(r: Router, alias: Alias, attemptedStart: bool, now: real)
    requires alias in r.active && r.active[alias] >= 0
    ensures AfterEnd(AfterBegin(r, alias, Granted(attemptedStart)), alias, now) == r.(lastUsed := r.lastUsed[alias := now])
  {
    assert r.active[alias := r.active[alias] + 1][alias := r.active[alias]] == r.active;
  }

  /** What an `end` means to the reaper: the model is up for clean-up, its idle time later,
      exactly when that was the last lease. */
  lemma EndedModelIsIdleIff(models: seq<ModelSpec>, r: Router, spec: ModelSpec, now: real, later: real)
    requires Covers(models, r) && spec in models && r.active[spec.alias] >= 0
    ensures Idle(AfterEnd(r, spec.alias, now), spec, later)
            <==> r.active[spec.alias] <= 1 && now != 0.0 && later >= now + spec.idleSeconds as real
  {
  }

  /* ---- What a reap may do ---- */

  ghost predicate Leased(r: Router, alias: Alias) {
    alias in r.active && r.active[alias] != 0
  }

  /** Every action of a reap comes from an idle model without a lease. */
  lemma {:induction false} ReapActsOnIdleModelsOnly(models: seq<ModelSpec>, r: Router, now: real, replies: nat -> ReapReply, k: nat, action: Action)
    returns (i: nat)
    requires Covers(models, r) && k <= |models| && action in ReapFirst(models, r, now, replies, k).actions
    ensures i < k && action in CleanupActions(models[i], replies(i)) && !Leased(r, models[i].alias)
  {
    assert k > 0;
    var before := ReapFirst(models, r, now, replies, k - 1);
    if action in before.actions {
      i := ReapActsOnIdleModelsOnly(models, r, now, replies, k - 1, action);
    } else {
      i := k - 1;
    }
  }

  /** Qwen is never stopped under its own lease, and an alias holding a lease is never
      the reason for an unload. */
  lemma {:induction false} ReapSparesLeasedAliases(models: seq<ModelSpec>, r: Router, now: real, replies: nat -> ReapReply)
    requires ValidConfig(models) && Covers(models, r)
    ensures StopQwen in Reap(models, r, now, replies).actions ==> !Leased(r, QWEN_ALIAS)
    ensures forall b, m | Unload(b, m) in Reap(models, r, now, replies).actions ::
        exists i :: 0 <= i < |models| && models[i].kind.Ollama? && models[i].backend == b && models[i].backendModel == m
                    && !Leased(r, models[i].alias)
  {
    if StopQwen in Reap(models, r, now, replies).actions {
      var i := ReapActsOnIdleModelsOnly(models, r, now, replies, |models|, StopQwen);
    }
    forall b, m | Unload(b, m) in Reap(models, r, now, replies).actions
      ensures exists i :: 0 <= i < |models| && models[i].kind.Ollama? && models[i].backend == b && models[i].backendModel == m
                          && !Leased(r, models[i].alias)
    {
      var i := ReapActsOnIdleModelsOnly(models, r, now, replies, |models|, Unload(b, m));
    }
  }

  ghost predicate DistinctBackendModels(models: seq<ModelSpec>) {
    forall i, j | 0 <= i < j < |models| && models[i].kind.Ollama? && models[j].kind.Ollama? ::
      models[i].backend != models[j].backend || models[i].backendModel != models[j].backendModel
  }

  lemma {:induction false} ReapKeepsOthersIdle(models: seq<ModelSpec>, r: Router, now: real, replies: nat -> ReapReply, k: nat, i: nat)
    requires ValidConfig(models) && Covers(models, r) && k <= i < |models|
    ensures ReapFirst(models, r, now, replies, k).router.lastUsed[models[i].alias] == r.lastUsed[models[i].alias]
  {
    if k > 0 {
      ReapKeepsOthersIdle(models, r, now, replies, k - 1, i);
    }
  }

  lemma {:induction false} ReapKeepsActions(models: seq<ModelSpec>, r: Router, now: real, replies: nat -> ReapReply, k: nat, n: nat, action: Action)
    requires Covers(models, r) && k <= n <= |models| && action in ReapFirst(models, r, now, replies, k).actions
    ensures action in ReapFirst(models, r, now, replies, n).actions
  {
    if k < n {
      ReapKeepsActions(models, r, now, replies, k, n - 1, action);
    }
  }

  // No clean-up of the first k models ends in an unhandled exception.
  ghost predicate NoneRaises(models: seq<ModelSpec>, r: Router, now: real, replies: nat -> ReapReply, k: nat)
    requires Covers(models, r) && k <= |models|
  {
    forall i: nat | i < k && Idle(r, models[i], now) :: CleanupEnding(models[i], replies(i)) != Uncaught
  }

  lemma NoneRaisesStep(models: seq<ModelSpec>, r: Router, now: real, replies: nat -> ReapReply, k: nat)
    requires Covers(models, r) && k < |models|
    ensures NoneRaises(models, r, now, replies, k + 1)
            <==> NoneRaises(models, r, now, replies, k) && (Idle(r, models[k], now) ==> CleanupEnding(models[k], replies(k)) != Uncaught)
  {
  }

  /** A reap is cut short, and its thread with it, exactly when the clean-up of some idle
      model ends in an exception that is not one of the three handled ones. */
  lemma {:induction false} ReapRaisesIff(models: seq<ModelSpec>, r: Router, now: real, replies: nat -> ReapReply, k: nat)
    requires ValidConfig(models) && Covers(models, r) && k <= |models|
    ensures ReapFirst(models, r, now, replies, k).raised <==> !NoneRaises(models, r, now, replies, k)
  {
    if k > 0 {
      ReapRaisesIff(models, r, now, replies, k - 1);
      ReapKeepsOthersIdle(models, r, now, replies, k - 1, k - 1);
      NoneRaisesStep(models, r, now, replies, k - 1);
    }
  }

  // An idle Ollama model is unloaded by every reap that reaches it.
  lemma {:induction false} IdleOllamaIsUnloaded(models: seq<ModelSpec>, r: Router, now: real, replies: nat -> ReapReply, i: nat)
    requires ValidConfig(models) && Covers(models, r) && i < |models| && models[i].kind.Ollama? && Idle(r, models[i], now)
    requires NoneRaises(models, r, now, replies, i)
    ensures Unload(models[i].backend, models[i].backendModel) in Reap(models, r, now, replies).actions
  {
    ReapKeepsOthersIdle(models, r, now, replies, i, i);
    ReapRaisesIff(models, r, now, replies, i);
    ReapKeepsActions(models, r, now, replies, i + 1, |models|, Unload(models[i].backend, models[i].backendModel));
  }

  /** A model's last-use time is gone after a reap exactly when it had none, or the reap
      reached the idle model and its clean-up returned. */
  lemma {:induction false} ReapForgetsIff(models: seq<ModelSpec>, r: Router, now: real, replies: nat -> ReapReply, k: nat, i: nat)
    requires ValidConfig(models) && Covers(models, r) && i < k <= |models|
    ensures ReapFirst(models, r, now, replies, k).router.lastUsed[models[i].alias] == 0.0
            <==> r.lastUsed[models[i].alias] == 0.0
                 || (Idle(r, models[i], now) && NoneRaises(models, r, now, replies, i) && CleanupEnding(models[i], replies(i)) == Fine)
  {
    if k == i + 1 {
      ReapKeepsOthersIdle(models, r, now, replies, i, i);
      ReapRaisesIff(models, r, now, replies, i);
    } else {
      ReapForgetsIff(models, r, now, replies, k - 1, i);
    }
  }

  ghost predicate AskedToStop(models: seq<ModelSpec>, r: Router, now: real, replies: nat -> ReapReply, qwen: nat)
    requires Covers(models, r) && qwen < |models|
  {
    Idle(r, models[qwen], now) && replies(qwen).probe == ServiceActive(true) && NoneRaises(models, r, now, replies, qwen)
  }

  /** A reap asks Qwen to stop exactly when its model is idle, the probe finds it running,
      and no earlier idle model's clean-up raised unhandled. */
  lemma {:induction false} ReapStopsQwenIff(models: seq<ModelSpec>, r: Router, now: real, replies: nat -> ReapReply, qwen: nat)
    requires ValidConfig(models) && Covers(models, r) && qwen < |models| && models[qwen].kind.ColibriQwen?
    ensures StopQwen in Reap(models, r, now, replies).actions <==> AskedToStop(models, r, now, replies, qwen)
  {
    ReapKeepsOthersIdle(models, r, now, replies, qwen, qwen);
    ReapRaisesIff(models, r, now, replies, qwen);
    if AskedToStop(models, r, now, replies, qwen) {
      ReapKeepsActions(models, r, now, replies, qwen + 1, |models|, StopQwen);
    }
    if StopQwen in Reap(models, r, now, replies).actions {
      var i := ReapStopComesFrom(models, r, now, replies, |models|);
      assert i < qwen || i == qwen || qwen < i;
    }
  }

  // The stop in a reap is that of a Qwen model it reached.
  lemma {:induction false} ReapStopComesFrom(models: seq<ModelSpec>, r: Router, now: real, replies: nat -> ReapReply, k: nat)
    returns (i: nat)
    requires ValidConfig(models) && Covers(models, r) && k <= |models| && StopQwen in ReapFirst(models, r, now, replies, k).actions
    ensures i < k && models[i].kind.ColibriQwen? && AskedToStop(models, r, now, replies, i)
  {
    assert k > 0;
    if StopQwen in ReapFirst(models, r, now, replies, k - 1).actions {
      i := ReapStopComesFrom(models, r, now, replies, k - 1);
    } else {
      i := k - 1;
      ReapStopIsLast(models, r, now, replies, i);
    }
  }

  lemma {:induction false} ReapStopIsLast(models: seq<ModelSpec>, r: Router, now: real, replies: nat -> ReapReply, i: nat)
    requires ValidConfig(models) && Covers(models, r) && i < |models|
    requires StopQwen in ReapFirst(models, r, now, replies, i + 1).actions && StopQwen !in ReapFirst(models, r, now, replies, i).actions
    ensures models[i].kind.ColibriQwen? && AskedToStop(models, r, now, replies, i)
  {
    ReapKeepsOthersIdle(models, r, now, replies, i, i);
    ReapRaisesIff(models, r, now, replies, i);
  }

  /** No reap, at any time and with any answers, asks Qwen to stop exactly when Qwen is
      leased or was never used since its last clean-up. */
  lemma {:induction false} ReaperNeverStopsQwenIff(models: seq<ModelSpec>, r: Router, qwen: nat)
    requires ValidConfig(models) && Covers(models, r) && qwen < |models| && models[qwen].kind.ColibriQwen?
    ensures (forall now: real, replies: nat -> ReapReply :: StopQwen !in Reap(models, r, now, replies).actions)
            <==> Leased(r, QWEN_ALIAS) || r.lastUsed[QWEN_ALIAS] == 0.0
  {
    forall now: real, replies: nat -> ReapReply
      ensures StopQwen in Reap(models, r, now, replies).actions <==> AskedToStop(models, r, now, replies, qwen)
    {
      ReapStopsQwenIff(models, r, now, replies, qwen);
    }
    if !Leased(r, QWEN_ALIAS) && r.lastUsed[QWEN_ALIAS] != 0.0 {
      assert StopQwen in Reap(models, r, r.lastUsed[QWEN_ALIAS] + 3600.0, WILLING).actions;
    }
  }

  // Every probe finds Qwen running and every clean-up returns.
  const WILLING: nat -> ReapReply := k => ReapReply(ServiceActive(true), Fine)

  lemma {:induction false} DistinctModelsSurvive(models: seq<ModelSpec>, r: Router, now: real, replies: nat -> ReapReply, j: nat)
    requires ValidConfig(models) && DistinctBackendModels(models) && Covers(models, r)
    requires j < |models| && models[j].kind.Ollama? && Leased(r, models[j].alias)
    ensures Unload(models[j].backend, models[j].backendModel) !in Reap(models, r, now, replies).actions
  {
    var action := Unload(models[j].backend, models[j].backendModel);
    if action in Reap(models, r, now, replies).actions {
      var i := ReapActsOnIdleModelsOnly(models, r, now, replies, |models|, action);
    }
  }
}
