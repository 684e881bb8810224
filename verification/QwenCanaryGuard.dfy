/** The guarded run of the Qwen canary: preflight, power cap, child process, watch
    loop, termination, cooldown and power restore.  Every external call has a scripted
    reply, so a run is a function of its replies and may fail at any step. */
module QwenCanaryGuard {
  import opened Rounding

  const SAFE_POWER_W: real := 125.0
  const WATCHDOG_SECONDS: real := 1800.0
  const TEMP_LIMIT_C: real := 65.0
  const COOLDOWN_LIMIT_C: real := 40.0
  const MIN_COOLDOWN_SECONDS: real := 300.0
  const MAX_COOLDOWN_SECONDS: real := 900.0

  // Seconds between two readings of the monotonic clock.
  type Delay = d: real | 0.0 <= d witness 0.0

  // How an external call ends.  Caught: OSError, RuntimeError or SubprocessError.
  // Uncaught: anything else, such as the ValueError of an unparsable reading.
  datatype Ending = Fine | Caught | Uncaught

  datatype Gpu = Gpu(index: int, temperature: real, powerLimit: real, memoryUsed: real)
  datatype Fan = NoReading | Rpm(rpm: real)
  datatype Sample = Sample(gpus: seq<Gpu>, fans: seq<Fan>)

  datatype Reason = NoReason | ArtifactMissing | TemperatureLimit | FanCritical | NotCoolOrIdle | MissingTargetGpu
                  | WatchdogTimeout | NewFanEvent | EngineFailed | CooldownTimeout | GuardError
  datatype Action = TermProcessGroup | KillProcessGroup
  datatype Status = Fail | DryRun | Pass
  datatype Limit = Limit(gpu: int, watts: int)
  datatype Child = NotStarted | Running | Reaped(code: int)
  datatype Cooldown = NotRun | Ended(failure: Reason, checks: nat, elapsed: real)

  /* ---- Scripted replies ---- */

  datatype Reading = Reading(gpuEnding: Ending, gpus: seq<Gpu>, fanEnding: Ending, fans: seq<Fan>)
  datatype Events = Events(ending: Ending, ids: set<string>)
  datatype Poll = StillRunning | ExitedWith(code: int)

  // One turn of the watch loop; the delays precede its three clock readings.
  datatype Tick = Tick(poll: Poll, reading: Reading, first: Delay, second: Delay, events: Events, third: Delay)
  datatype CoolTick = CoolTick(reading: Reading, events: Events, delay: Delay)

  // A wait that is still running when its timeout expires raises TimeoutExpired.
  datatype Stop = Stop(poll: Poll, term: Ending, wait: Poll, kill: Ending, lastWait: Poll)

  datatype Env = Env(dryRun: bool, artifacts: bool, preflight: Reading, baseline: Events, caps: nat -> Ending,
                     mkdir: Ending, openOut: Ending, openErr: Ending, spawn: Ending, spin: Delay, ticks: nat -> Tick,
                     stop: Stop, closeOut: Ending, readOut: Ending, closeErr: Ending, readErr: Ending,
                     cool: nat -> CoolTick, stopAgain: Stop, lateOut: Ending, lateErr: Ending, restores: nat -> Ending)

  /* ---- Readings ---- */

  function ReadingEnding(r: Reading): Ending {
    if r.gpuEnding != Fine then r.gpuEnding
    else if |r.gpus| < 2 then Caught
    else if r.fanEnding != Fine then r.fanEnding
    else if |r.fans| < 8 then Caught
    else Fine
  }

  function SampleOf(r: Reading): Sample {
    Sample(r.gpus, r.fans)
  }

  function UnsafeReason(s: Sample, requireIdle: bool): Reason {
    if exists g :: g in s.gpus && g.temperature >= TEMP_LIMIT_C then TemperatureLimit
    else if exists f :: f in s.fans && (f.NoReading? || f.rpm < 500.0) then FanCritical
    else if requireIdle && exists g :: g in s.gpus && (g.temperature > COOLDOWN_LIMIT_C || g.memoryUsed != 0.0) then NotCoolOrIdle
    else NoReason
  }

  // What the guard promises of every recorded sample of a passing run.
  ghost predicate Safe(s: Sample) {
    && |s.gpus| >= 2 && |s.fans| >= 8
    && (forall g | g in s.gpus :: g.temperature < 65.0)
    && (forall f | f in s.fans :: f.Rpm? && f.rpm >= 500.0)
  }

  ghost predicate Cool(s: Sample) {
    forall g | g in s.gpus :: g.temperature <= 40.0
  }

  lemma NoReasonMeansSafe(r: Reading, requireIdle: bool)
    requires ReadingEnding(r) == Fine && UnsafeReason(SampleOf(r), requireIdle) == NoReason
    ensures Safe(SampleOf(r)) && (requireIdle ==> Cool(SampleOf(r)) && forall g | g in r.gpus :: g.memoryUsed == 0.0)
  {
  }

  lemma SafeIff(s: Sample)
    ensures Safe(s) <==> && |s.gpus| >= 2 && |s.fans| >= 8
                         && (forall g | g in s.gpus :: !(g.temperature >= 65.0))
                         && (forall f | f in s.fans :: f != NoReading && !(f.rpm < 500.0))
    ensures Cool(s) <==> forall g | g in s.gpus :: !(g.temperature > 40.0)
  {
  }

  /* ---- The remembered power limits: a dictionary in insertion order ---- */

  datatype Saved = Saved(gpu: int, watts: real)

  function Put(saved: seq<Saved>, gpu: int, watts: real): seq<Saved> {
    if saved == [] then [Saved(gpu, watts)]
    else if saved[0].gpu == gpu then [Saved(gpu, watts)] + saved[1..]
    else [saved[0]] + Put(saved[1..], gpu, watts)
  }

  function Originals(gpus: seq<Gpu>): seq<Saved> {
    if gpus == [] then []
    else
      var g, before := gpus[|gpus| - 1], Originals(gpus[..|gpus| - 1]);
      if g.index == 0 || g.index == 1 then Put(before, g.index, g.powerLimit) else before
  }

  function Keys(saved: seq<Saved>): set<int> {
    set s | s in saved :: s.gpu
  }

  /* ---- The run as a function of its replies ---- */

  datatype State = State(telemetry: seq<Sample>, reason: Reason, actions: seq<Action>, limits: seq<Limit>, child: Child,
                         outOpen: bool, errOpen: bool, cooldown: Cooldown, restoreError: bool, powerRestored: bool,
                         status: Status)
  datatype Step = Step(state: State, ending: Ending)

  const START := State([], NoReason, [], [], NotStarted, false, false, NotRun, false, false, Fail)

  function Record(s: State, sample: Sample): State {
    s.(telemetry := s.telemetry + [sample])
  }

  function SetLimit(s: State, gpu: int, watts: real): State {
    s.(limits := s.limits + [Limit(gpu, RoundEven(watts))])
  }

  function Terminate(s: State, stop: Stop): Step {
    if stop.poll.ExitedWith? then Step(s.(child := Reaped(stop.poll.code)), Fine)
    else if stop.term != Fine then Step(s, stop.term)
    else if stop.wait.ExitedWith? then Step(s.(child := Reaped(stop.wait.code), actions := s.actions + [TermProcessGroup]), Fine)
    else if stop.kill != Fine then Step(s, stop.kill)
    else if stop.lastWait.StillRunning? then Step(s, Caught)
    else Step(s.(child := Reaped(stop.lastWait.code), actions := s.actions + [TermProcessGroup, KillProcessGroup]), Fine)
  }

  // One turn of a polling loop: it ends the loop, or leaves a state and two clock marks.
  datatype Turn = Done(step: Step) | Again(state: State, now: real, nextBmc: real)

  function WatchTurn(s: State, t: Tick, baseline: set<string>, now: real, deadline: real, nextBmc: real): (turn: Turn)
    ensures turn.Again? ==> now < deadline && turn.now >= now + 1.0
  {
    if t.poll.ExitedWith? then Done(Step(s.(child := Reaped(t.poll.code)), Fine))
    else if ReadingEnding(t.reading) != Fine then Done(Step(s, ReadingEnding(t.reading)))
    else
      var seen, reason := Record(s, SampleOf(t.reading)), UnsafeReason(SampleOf(t.reading), false);
      var at := now + t.first;
      var checked := at + t.second;
      if at >= deadline then Done(Step(seen.(reason := WatchdogTimeout), Fine))
      else if reason != NoReason then Done(Step(seen.(reason := reason), Fine))
      else if checked < nextBmc then Again(seen, checked + t.third + 1.0, nextBmc)
      else if t.events.ending != Fine then Done(Step(seen, t.events.ending))
      else if t.events.ids - baseline != {} then Done(Step(seen.(reason := NewFanEvent), Fine))
      else Again(seen, checked + t.third + 1.0, checked + t.third + 5.0)
  }

  // The watch loop from turn i on, with the clock at `now`.
  function Watch(s: State, ticks: nat -> Tick, baseline: set<string>, i: nat, now: real, deadline: real, nextBmc: real): Step
    decreases (deadline - now).Floor
  {
    match WatchTurn(s, ticks(i), baseline, now, deadline, nextBmc)
    case Done(step) => step
    case Again(next, later, mark) => Watch(next, ticks, baseline, i + 1, later, deadline, mark)
  }

  function CoolTurn(s: State, t: CoolTick, baseline: set<string>, i: nat, elapsed: real): (turn: Turn)
    ensures turn.Again? ==> elapsed < MAX_COOLDOWN_SECONDS && turn.now >= elapsed + 5.0
  {
    var seen, reason := Record(s, SampleOf(t.reading)), UnsafeReason(SampleOf(t.reading), false);
    var at := elapsed + t.delay;
    if ReadingEnding(t.reading) != Fine then Done(Step(s, ReadingEnding(t.reading)))
    else if reason != NoReason then Done(Step(seen.(cooldown := Ended(reason, i + 1, elapsed)), Fine))
    else if t.events.ending != Fine then Done(Step(seen, t.events.ending))
    else if t.events.ids - baseline != {} then Done(Step(seen.(cooldown := Ended(NewFanEvent, i + 1, elapsed)), Fine))
    else if at >= MIN_COOLDOWN_SECONDS && forall g | g in t.reading.gpus :: g.temperature <= COOLDOWN_LIMIT_C then
      Done(Step(seen.(cooldown := Ended(NoReason, i + 1, at)), Fine))
    else if at >= MAX_COOLDOWN_SECONDS then Done(Step(seen.(cooldown := Ended(CooldownTimeout, i + 1, at)), Fine))
    else Again(seen, at + 5.0, 0.0)
  }

  // The cooldown from check i on, `elapsed` seconds after its start.
  function CoolDown(s: State, cool: nat -> CoolTick, baseline: set<string>, i: nat, elapsed: real): Step
    decreases (MAX_COOLDOWN_SECONDS - elapsed).Floor
  {
    match CoolTurn(s, cool(i), baseline, i, elapsed)
    case Done(step) => step
    case Again(next, later, _) => CoolDown(next, cool, baseline, i + 1, later)
  }

  function ApplyCaps(s: State, env: Env): Step {
    var first := SetLimit(s, 0, SAFE_POWER_W);
    if env.caps(0) != Fine then Step(first, env.caps(0)) else Step(SetLimit(first, 1, SAFE_POWER_W), env.caps(1))
  }

  function Launch(s: State, env: Env): Step {
    if env.mkdir != Fine then Step(s, env.mkdir)
    else if env.openOut != Fine then Step(s, env.openOut)
    else if env.openErr != Fine then Step(s.(outOpen := true), env.openErr)
    else if env.spawn != Fine then Step(s.(outOpen := true, errOpen := true), env.spawn)
    else Step(s.(outOpen := true, errOpen := true, child := Running), Fine)
  }

  // After the watch loop: stop the child it gave up on, or judge the one that exited.
  function Settle(s: State, env: Env): Step {
    if s.reason != NoReason then Terminate(s, env.stop)
    else if s.child.Reaped? && s.child.code != 0 then Step(s.(reason := EngineFailed), Fine)
    else Step(s, Fine)
  }

  function KeepOutput(s: State, env: Env): Step {
    if env.closeOut != Fine then Step(s, env.closeOut)
    else if env.readOut != Fine then Step(s.(outOpen := false), env.readOut)
    else if env.closeErr != Fine then Step(s.(outOpen := false), env.closeErr)
    else Step(s.(outOpen := false, errOpen := false), env.readErr)
  }

  function Cooling(s: State, env: Env): Step {
    var c := CoolDown(s, env.cool, env.baseline.ids, 0, 0.0);
    if c.ending == Fine && c.state.cooldown.Ended? && c.state.reason == NoReason
    then Step(c.state.(reason := c.state.cooldown.failure), Fine) else c
  }

  // Everything under the caps, up to the first exception.
  function Guarded(s: State, env: Env): Step {
    var capped := ApplyCaps(s, env);
    if capped.ending != Fine then capped
    else
      var launched := Launch(capped.state, env);
      if launched.ending != Fine then launched
      else
        var watched := Watch(launched.state, env.ticks, env.baseline.ids, 0, env.spin, WATCHDOG_SECONDS, env.spin);
        if watched.ending != Fine then watched
        else
          var settled := Settle(watched.state, env);
          if settled.ending != Fine then settled
          else
            var kept := KeepOutput(settled.state, env);
            if kept.ending != Fine then kept else Cooling(kept.state, env)
  }

  // The try block: how it ends, whether by an early return, and what it remembered.
  datatype Tried = Tried(step: Step, early: bool, original: seq<Saved>)

  function TryBlock(env: Env): Tried {
    var failure := if ReadingEnding(env.preflight) != Fine then ReadingEnding(env.preflight) else env.baseline.ending;
    var seen := Record(START, SampleOf(env.preflight));
    var reason, original := UnsafeReason(SampleOf(env.preflight), true), Originals(env.preflight.gpus);
    if failure != Fine then Tried(Step(START, failure), false, [])
    else if reason != NoReason then Tried(Step(seen.(reason := reason), Fine), true, [])
    else if Keys(original) != {0, 1} then Tried(Step(seen.(reason := MissingTargetGpu), Fine), true, original)
    else Tried(Guarded(seen, env), false, original)
  }

  function Handled(tried: Step, env: Env): Step {
    if tried.ending != Caught then tried
    else
      var failed := tried.state.(reason := GuardError);
      if failed.child == NotStarted then Step(failed, Fine) else Terminate(failed, env.stopAgain)
  }

  function Restore(s: State, original: seq<Saved>, k: nat, restores: nat -> Ending): Step
    requires k <= |original|
    decreases |original| - k
  {
    if k == |original| then Step(s.(powerRestored := original != [] && !s.restoreError), Fine)
    else
      var asked := SetLimit(s, original[k].gpu, original[k].watts);
      match restores(k)
      case Fine => Restore(asked, original, k + 1, restores)
      case Caught => Restore(asked.(restoreError := true), original, k + 1, restores)
      case Uncaught => Step(asked, Uncaught)
  }

  function Finally(s: State, env: Env, original: seq<Saved>): Step {
    if s.outOpen && env.lateOut != Fine then Step(s, env.lateOut)
    else if s.errOpen && env.lateErr != Fine then Step(s.(outOpen := false), env.lateErr)
    else Restore(s.(outOpen := false, errOpen := false), original, 0, env.restores)
  }

  datatype Exit = Returned | Raised
  datatype Outcome = Outcome(state: State, exit: Exit)

  function Run(env: Env): Outcome {
    if env.dryRun then Outcome(START.(status := DryRun), Returned)
    else if !env.artifacts then Outcome(START.(reason := ArtifactMissing), Returned)
    else
      var tried := TryBlock(env);
      var handled := Handled(tried.step, env);
      var last := Finally(handled.state, env, tried.original);
      if last.ending != Fine || handled.ending != Fine then Outcome(last.state, Raised)
      else if !tried.early && last.state.reason == NoReason && last.state.powerRestored
      then Outcome(last.state.(status := Pass), Returned)
      else Outcome(last.state, Returned)
  }

  /* ---- The guard itself ---- */

  class Guard {
    var telemetry: seq<Sample>
    var reason: Reason
    var actions: seq<Action>
    var limits: seq<Limit>
    var child: Child
    var outOpen: bool
    var errOpen: bool
    var cooldown: Cooldown
    var restoreError: bool
    var powerRestored: bool
    var status: Status

    function View(): State
      reads this
    {
      State(telemetry, reason, actions, limits, child, outOpen, errOpen, cooldown, restoreError, powerRestored, status)
    }

    constructor ()
      ensures View() == START
    {
      telemetry, reason, actions, limits, child := [], NoReason, [], [], NotStarted;
      outOpen, errOpen, cooldown := false, false, NotRun;
      restoreError, powerRestored, status := false, false, Fail;
    }

    method SetPowerLimit(gpu: int, watts: real)
      modifies this
      ensures View() == SetLimit(old(View()), gpu, watts)
    {
      limits := limits + [Limit(gpu, RoundEven(watts))];
    }

    method TerminateGroup(stop: Stop) returns (ending: Ending)
      modifies this
      ensures Step(View(), ending) == Terminate(old(View()), stop)
    {
      if stop.poll.ExitedWith? {
        child := Reaped(stop.poll.code);
        return Fine;
      }
      if stop.term != Fine { return stop.term; }
      var done := [TermProcessGroup];
      if stop.wait.ExitedWith? {
        child := Reaped(stop.wait.code);
      } else {
        if stop.kill != Fine { return stop.kill; }
        if stop.lastWait.StillRunning? { return Caught; }
        child := Reaped(stop.lastWait.code);
        done := done + [KillProcessGroup];
      }
      actions := actions + done;
      return Fine;
    }

    // One turn of the watch loop; `going` says whether there is another.
    method WatchOnce(t: Tick, baseline: set<string>, now: real, deadline: real, nextBmc: real)
      returns (going: bool, ending: Ending, later: real, mark: real)
      modifies this
      ensures WatchTurn(old(View()), t, baseline, now, deadline, nextBmc)
              == if going then Again(View(), later, mark) else Done(Step(View(), ending))
    {
      going, ending, later, mark := false, Fine, now, nextBmc;
      if t.poll.ExitedWith? {
        child := Reaped(t.poll.code);
        return;
      }
      ending := ReadingEnding(t.reading);
      if ending != Fine { return; }
      telemetry := telemetry + [SampleOf(t.reading)];
      later := later + t.first;
      if later >= deadline {
        reason := WatchdogTimeout;
        return;
      }
      var unsafe := UnsafeReason(SampleOf(t.reading), false);
      if unsafe != NoReason {
        reason := unsafe;
        return;
      }
      later := later + t.second;
      if later >= nextBmc {
        ending := t.events.ending;
        if ending != Fine { return; }
        if t.events.ids - baseline != {} {
          reason := NewFanEvent;
          return;
        }
        mark := later + t.third + 5.0;
      }
      later := later + t.third + 1.0;
      going := true;
    }

    method WatchChild(env: Env) returns (ending: Ending)
      modifies this
      ensures Step(View(), ending)
              == Watch(old(View()), env.ticks, env.baseline.ids, 0, env.spin, WATCHDOG_SECONDS, env.spin)
    {
      ghost var goal := Watch(View(), env.ticks, env.baseline.ids, 0, env.spin, WATCHDOG_SECONDS, env.spin);
      var now, nextBmc, i := env.spin, env.spin, 0;
      while true
        invariant 0 <= i && goal == Watch(View(), env.ticks, env.baseline.ids, i, now, WATCHDOG_SECONDS, nextBmc)
        decreases (WATCHDOG_SECONDS - now).Floor
      {
        var going;
        going, ending, now, nextBmc := WatchOnce(env.ticks(i), env.baseline.ids, now, WATCHDOG_SECONDS, nextBmc);
        if !going { return; }
        i := i + 1;
      }
    }

    method CoolOnce(t: CoolTick, baseline: set<string>, i: nat, elapsed: real)
      returns (going: bool, ending: Ending, later: real)
      modifies this
      ensures CoolTurn(old(View()), t, baseline, i, elapsed)
              == if going then Again(View(), later, 0.0) else Done(Step(View(), ending))
    {
      going, later := false, elapsed;
      ending := ReadingEnding(t.reading);
      if ending != Fine { return; }
      var unsafe := UnsafeReason(SampleOf(t.reading), false);
      telemetry := telemetry + [SampleOf(t.reading)];
      if unsafe != NoReason {
        cooldown := Ended(unsafe, i + 1, elapsed);
        return;
      }
      ending := t.events.ending;
      if ending != Fine { return; }
      if t.events.ids - baseline != {} {
        cooldown := Ended(NewFanEvent, i + 1, elapsed);
        return;
      }
      later := elapsed + t.delay;
      if later >= MIN_COOLDOWN_SECONDS && forall g | g in t.reading.gpus :: g.temperature <= COOLDOWN_LIMIT_C {
        cooldown := Ended(NoReason, i + 1, later);
        return;
      }
      if later >= MAX_COOLDOWN_SECONDS {
        cooldown := Ended(CooldownTimeout, i + 1, later);
        return;
      }
      later := later + 5.0;
      going := true;
    }

    method AwaitCooldown(env: Env) returns (ending: Ending)
      modifies this
      ensures Step(View(), ending) == CoolDown(old(View()), env.cool, env.baseline.ids, 0, 0.0)
    {
      ghost var goal := CoolDown(View(), env.cool, env.baseline.ids, 0, 0.0);
      var i, elapsed := 0, 0.0;
      while true
        invariant 0 <= i && goal == CoolDown(View(), env.cool, env.baseline.ids, i, elapsed)
        decreases (MAX_COOLDOWN_SECONDS - elapsed).Floor
      {
        var going;
        going, ending, elapsed := CoolOnce(env.cool(i), env.baseline.ids, i, elapsed);
        if !going { return; }
        i := i + 1;
      }
    }

    method CapAndLaunch(env: Env) returns (ending: Ending)
      modifies this
      ensures var capped := ApplyCaps(old(View()), env);
              Step(View(), ending) == if capped.ending != Fine then capped else Launch(capped.state, env)
    {
      SetPowerLimit(0, SAFE_POWER_W);
      if env.caps(0) != Fine { return env.caps(0); }
      SetPowerLimit(1, SAFE_POWER_W);
      if env.caps(1) != Fine { return env.caps(1); }
      if env.mkdir != Fine { return env.mkdir; }
      if env.openOut != Fine { return env.openOut; }
      outOpen := true;
      if env.openErr != Fine { return env.openErr; }
      errOpen := true;
      if env.spawn != Fine { return env.spawn; }
      child := Running;
      return Fine;
    }

    method SettleAndKeep(env: Env) returns (ending: Ending)
      modifies this
      ensures var settled := Settle(old(View()), env);
              Step(View(), ending) == if settled.ending != Fine then settled else KeepOutput(settled.state, env)
    {
      if reason != NoReason {
        ending := TerminateGroup(env.stop);
        if ending != Fine { return; }
      } else if child.Reaped? && child.code != 0 {
        reason := EngineFailed;
      }
      if env.closeOut != Fine { return env.closeOut; }
      outOpen := false;
      if env.readOut != Fine { return env.readOut; }
      if env.closeErr != Fine { return env.closeErr; }
      errOpen := false;
      return env.readErr;
    }

    method RunGuarded(env: Env) returns (ending: Ending)
      modifies this
      ensures Step(View(), ending) == Guarded(old(View()), env)
    {
      ending := CapAndLaunch(env);
      if ending != Fine { return; }
      ending := WatchChild(env);
      if ending != Fine { return; }
      ending := SettleAndKeep(env);
      if ending != Fine { return; }
      ending := AwaitCooldown(env);
      if ending == Fine && cooldown.Ended? && reason == NoReason { reason := cooldown.failure; }
    }

    method RememberLimits(gpus: seq<Gpu>) returns (original: seq<Saved>)
      ensures original == Originals(gpus)
    {
      original := [];
      for k := 0 to |gpus|
        invariant original == Originals(gpus[..k])
      {
        assert gpus[..k + 1][..k] == gpus[..k];
        if gpus[k].index == 0 || gpus[k].index == 1 { original := Put(original, gpus[k].index, gpus[k].powerLimit); }
      }
      assert gpus[..|gpus|] == gpus;
    }

    method Try(env: Env) returns (ending: Ending, early: bool, original: seq<Saved>)
      requires View() == START
      modifies this
      ensures Tried(Step(View(), ending), early, original) == TryBlock(env)
    {
      early, original := false, [];
      ending := ReadingEnding(env.preflight);
      if ending != Fine { return; }
      ending := env.baseline.ending;
      if ending != Fine { return; }
      telemetry := telemetry + [SampleOf(env.preflight)];
      reason := UnsafeReason(SampleOf(env.preflight), true);
      if reason != NoReason {
        early := true;
        return;
      }
      original := RememberLimits(env.preflight.gpus);
      if Keys(original) != {0, 1} {
        reason := MissingTargetGpu;
        early := true;
        return;
      }
      ending := RunGuarded(env);
    }

    method CleanUp(env: Env, original: seq<Saved>) returns (ending: Ending)
      modifies this
      ensures Step(View(), ending) == Finally(old(View()), env, original)
    {
      if outOpen {
        if env.lateOut != Fine { return env.lateOut; }
        outOpen := false;
      }
      if errOpen {
        if env.lateErr != Fine { return env.lateErr; }
        errOpen := false;
      }
      ghost var goal := Restore(View(), original, 0, env.restores);
      for k := 0 to |original|
        invariant goal == Restore(View(), original, k, env.restores)
      {
        SetPowerLimit(original[k].gpu, original[k].watts);
        if env.restores(k) == Uncaught { return Uncaught; }
        if env.restores(k) == Caught { restoreError := true; }
      }
      powerRestored := original != [] && !restoreError;
      return Fine;
    }

    method HandleError(env: Env) returns (ending: Ending)
      modifies this
      ensures Step(View(), ending) == Handled(Step(old(View()), Caught), env)
    {
      reason := GuardError;
      ending := Fine;
      if child != NotStarted { ending := TerminateGroup(env.stopAgain); }
    }

    /** `run`: try, except, finally, and the verdict. */
    method Execute(env: Env) returns (exit: Exit)
      requires View() == START
      modifies this
      ensures Outcome(View(), exit) == Run(env)
    {
      if env.dryRun {
        status := DryRun;
        return Returned;
      }
      if !env.artifacts {
        reason := ArtifactMissing;
        return Returned;
      }
      var ending, early, original := Try(env);
      if ending == Caught { ending := HandleError(env); }
      var last := CleanUp(env, original);
      if last != Fine || ending != Fine { return Raised; }
      if !early && reason == NoReason && powerRestored { status := Pass; }
      return Returned;
    }
  }
}
