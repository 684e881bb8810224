/** What holds of every run of the Qwen canary guard, however its calls end. */
module QwenCanaryRuns {
  import opened Rounding
  import opened QwenCanaryGuard

  /* ---- The remembered limits ---- */

  ghost predicate DistinctKeys(saved: seq<Saved>) {
    forall i, j | 0 <= i < j < |saved| :: saved[i].gpu != saved[j].gpu
  }

  // `watts` is the limit of the last listed GPU with that index.
  ghost predicate LimitOf(gpus: seq<Gpu>, gpu: int, watts: real) {
    exists k | 0 <= k < |gpus| :: IsLast(gpus, k, gpu) && gpus[k].powerLimit == watts
  }

  ghost predicate IsLast(gpus: seq<Gpu>, k: nat, gpu: int) {
    k < |gpus| && gpus[k].index == gpu && forall j | k < j < |gpus| :: gpus[j].index != gpu
  }

  lemma {:induction false} PutUpdates(saved: seq<Saved>, gpu: int, watts: real)
    requires DistinctKeys(saved)
    ensures DistinctKeys(Put(saved, gpu, watts)) && Keys(Put(saved, gpu, watts)) == Keys(saved) + {gpu}
    ensures forall s :: s in Put(saved, gpu, watts) <==> s == Saved(gpu, watts) || (s in saved && s.gpu != gpu)
  {
    var put := Put(saved, gpu, watts);
    if saved != [] {
      var tail := saved[1..];
      assert saved == [saved[0]] + tail;
      PutUpdates(tail, gpu, watts);
      assert forall s | s in tail :: s.gpu != saved[0].gpu;
      if saved[0].gpu == gpu {
        assert put == [Saved(gpu, watts)] + tail;
      } else {
        assert put == [saved[0]] + Put(tail, gpu, watts);
        assert forall s | s in Put(tail, gpu, watts) :: s.gpu != saved[0].gpu;
      }
    }
    assert forall s :: s in put <==> s == Saved(gpu, watts) || (s in saved && s.gpu != gpu);
    assert Saved(gpu, watts) in put;
    forall k | k in Keys(saved)
      ensures k in Keys(put)
    {
      var s :| s in saved && s.gpu == k;
      if k != gpu { assert s in put; }
    }
  }

  lemma {:induction false} OriginalsRemember(gpus: seq<Gpu>)
    ensures DistinctKeys(Originals(gpus)) && Keys(Originals(gpus)) <= {0, 1}
    ensures forall s | s in Originals(gpus) :: LimitOf(gpus, s.gpu, s.watts)
    ensures forall s | s in Originals(gpus) ::
              exists k :: 0 <= k < |gpus| && gpus[k].index == s.gpu && gpus[k].powerLimit == s.watts
                          && forall j | k < j < |gpus| :: gpus[j].index != s.gpu
  {
    if gpus != [] {
      var n := |gpus| - 1;
      var before, g := Originals(gpus[..n]), gpus[n];
      OriginalsRemember(gpus[..n]);
      PutUpdates(before, g.index, g.powerLimit);
      forall s | s in Originals(gpus)
        ensures LimitOf(gpus, s.gpu, s.watts)
      {
        if g.index in {0, 1} && s == Saved(g.index, g.powerLimit) {
          assert IsLast(gpus, n, s.gpu);
        } else {
          assert s.gpu != g.index by { assert s.gpu in Keys(Originals(gpus)); }
          var k :| 0 <= k < n && IsLast(gpus[..n], k, s.gpu) && gpus[..n][k].powerLimit == s.watts;
          assert IsLast(gpus, k, s.gpu) by {
            forall j | k < j < |gpus|
              ensures gpus[j].index != s.gpu
            {
              if j < n { assert gpus[j] == gpus[..n][j]; }
            }
          }
        }
      }
    }
  }

  lemma {:induction false} KeysSize(saved: seq<Saved>)
    requires DistinctKeys(saved)
    ensures |Keys(saved)| == |saved|
  {
    if saved != [] {
      var n := |saved| - 1;
      KeysSize(saved[..n]);
      assert saved == saved[..n] + [saved[n]];
      assert Keys(saved) == Keys(saved[..n]) + {saved[n].gpu};
      assert forall s | s in saved[..n] :: s.gpu != saved[n].gpu;
    }
  }

  lemma {:induction false} BothMeansTwo(saved: seq<Saved>)
    requires DistinctKeys(saved) && Keys(saved) == {0, 1}
    ensures |saved| == 2 && {saved[0].gpu, saved[1].gpu} == {0, 1}
  {
    KeysSize(saved);
    assert |{0, 1}| == 2;
    assert saved == [saved[0], saved[1]];
    assert Keys(saved) == {saved[0].gpu, saved[1].gpu};
  }

  /* ---- The two polling loops ---- */

  ghost predicate NewSafe(s: State, r: State) {
    forall k | |s.telemetry| <= k < |r.telemetry| :: Safe(r.telemetry[k])
  }

  ghost predicate Grows(s: State, r: State) {
    |s.telemetry| <= |r.telemetry| && r.telemetry[..|s.telemetry|] == s.telemetry
  }

  ghost predicate WatchesOnly(s: State, r: State) {
    Grows(s, r) && r == s.(telemetry := r.telemetry, reason := r.reason, child := r.child)
  }

  /** The loop ends with a reaped child exactly when it gives no reason, and then every
      sample it recorded is safe; it records at most one sample a second. */
  lemma {:induction false} WatchEnds(s: State, ticks: nat -> Tick, baseline: set<string>, i: nat, now: real, deadline: real, nextBmc: real)
    requires s.child == Running && s.reason == NoReason
    ensures var r := Watch(s, ticks, baseline, i, now, deadline, nextBmc);
            && WatchesOnly(s, r.state)
            && (if r.ending == Fine && r.state.reason == NoReason then r.state.child.Reaped? else r.state.child == Running)
            && (r.ending != Fine ==> r.state.reason == NoReason)
            && (r.state.reason == NoReason ==> NewSafe(s, r.state))
            && (|r.state.telemetry| - |s.telemetry|) as real <= if now < deadline then 2.0 + deadline - now else 1.0
    decreases (deadline - now).Floor
  {
    var turn := WatchTurn(s, ticks(i), baseline, now, deadline, nextBmc);
    WatchTurnEnds(s, ticks(i), baseline, now, deadline, nextBmc);
    if turn.Again? {
      WatchEnds(turn.state, ticks, baseline, i + 1, turn.now, deadline, turn.nextBmc);
    }
  }

  lemma WatchTurnEnds(s: State, t: Tick, baseline: set<string>, now: real, deadline: real, nextBmc: real)
    requires s.child == Running && s.reason == NoReason
    ensures var turn := WatchTurn(s, t, baseline, now, deadline, nextBmc);
            if turn.Again? then turn.state == Record(s, SampleOf(t.reading)) && Safe(SampleOf(t.reading))
            else
              && WatchesOnly(s, turn.step.state) && |turn.step.state.telemetry| <= |s.telemetry| + 1
              && (if turn.step.ending == Fine && turn.step.state.reason == NoReason
                  then turn.step.state.child.Reaped? else turn.step.state.child == Running)
              && (turn.step.ending != Fine ==> turn.step.state.reason == NoReason)
              && (turn.step.state.reason == NoReason ==> NewSafe(s, turn.step.state))
  {
    if ReadingEnding(t.reading) == Fine && UnsafeReason(SampleOf(t.reading), false) == NoReason {
      NoReasonMeansSafe(t.reading, false);
    }
  }

  ghost predicate CoolsOnly(s: State, r: State) {
    Grows(s, r) && r == s.(telemetry := r.telemetry, cooldown := r.cooldown)
  }

  // A cooldown that reports no failure: checks i..n, `elapsed` seconds after its start.
  ghost predicate Cooled(s: State, r: State, cool: nat -> CoolTick, baseline: set<string>, i: nat) {
    && r.cooldown.Ended? && i < r.cooldown.checks && r.cooldown.elapsed >= 300.0 && NewSafe(s, r)
    && |r.telemetry| > |s.telemetry| && Cool(r.telemetry[|r.telemetry| - 1])
    && forall j: nat | i <= j < r.cooldown.checks :: cool(j).events.ids <= baseline
  }

  lemma {:induction false} CoolDownEnds(s: State, cool: nat -> CoolTick, baseline: set<string>, i: nat, elapsed: real)
    ensures var r := CoolDown(s, cool, baseline, i, elapsed);
            && CoolsOnly(s, r.state)
            && (r.ending == Fine ==> r.state.cooldown.Ended?)
            && (r.ending == Fine && r.state.cooldown.failure == NoReason ==> Cooled(s, r.state, cool, baseline, i))
            && 5.0 * (|r.state.telemetry| - |s.telemetry|) as real <= if elapsed < 900.0 then 10.0 + 900.0 - elapsed else 5.0
    decreases (MAX_COOLDOWN_SECONDS - elapsed).Floor
  {
    var turn := CoolTurn(s, cool(i), baseline, i, elapsed);
    CoolTurnEnds(s, cool(i), baseline, i, elapsed);
    if turn.Again? {
      CoolDownEnds(turn.state, cool, baseline, i + 1, turn.now);
    }
  }

  lemma CoolTurnEnds(s: State, t: CoolTick, baseline: set<string>, i: nat, elapsed: real)
    ensures var turn := CoolTurn(s, t, baseline, i, elapsed);
            if turn.Again? then turn.state == Record(s, SampleOf(t.reading)) && Safe(SampleOf(t.reading)) && t.events.ids <= baseline
            else
              && CoolsOnly(s, turn.step.state) && |turn.step.state.telemetry| <= |s.telemetry| + 1
              && (turn.step.ending == Fine ==> turn.step.state.cooldown.Ended?)
              && (turn.step.ending == Fine && turn.step.state.cooldown.failure == NoReason ==>
                    && turn.step.state.telemetry == s.telemetry + [SampleOf(t.reading)]
                    && turn.step.state.cooldown.checks == i + 1 && turn.step.state.cooldown.elapsed >= 300.0
                    && Safe(SampleOf(t.reading)) && Cool(SampleOf(t.reading)) && t.events.ids <= baseline)
  {
    if ReadingEnding(t.reading) == Fine && UnsafeReason(SampleOf(t.reading), false) == NoReason {
      NoReasonMeansSafe(t.reading, false);
    }
    if t.events.ids - baseline == {} { NothingNew(t.events.ids, baseline); }
  }

  lemma {:induction false} NothingNew(ids: set<string>, baseline: set<string>)
    requires ids - baseline == {}
    ensures ids <= baseline
  {
    forall e | e in ids
      ensures e in baseline
    {
      assert e in baseline || e in ids - baseline;
    }
  }

  /* ---- The guarded part, end to end ---- */

  function Watched(s: State, env: Env): Step {
    Watch(s, env.ticks, env.baseline.ids, 0, env.spin, WATCHDOG_SECONDS, env.spin)
  }

  ghost predicate Samples(s: State, r: State, most: real) {
    Grows(s, r) && (|r.telemetry| - |s.telemetry|) as real <= most
  }

  // What the part before the closing of the handles leaves alone.
  ghost predicate SameCleanup(s: State, r: State) {
    r.limits == s.limits && r.restoreError == s.restoreError && r.powerRestored == s.powerRestored && r.status == s.status
  }

  lemma CappedFacts(s: State, env: Env)
    ensures var r := ApplyCaps(s, env);
            && r.state == s.(limits := s.limits + Capped(env))
            && (r.ending == Fine <==> env.caps(0) == Fine && env.caps(1) == Fine)
  {
    assert RoundEven(125.0) == 125;
    assert (s.limits + [Limit(0, 125)]) + [Limit(1, 125)] == s.limits + [Limit(0, 125), Limit(1, 125)];
  }

  /** A termination that returns has reaped the child and reports the signals it took: none,
      TERM, or TERM and then KILL.  One that raises changes nothing and reports nothing, even
      after a signal was sent. */
  lemma TerminateFacts(s: State, stop: Stop)
    ensures var r := Terminate(s, stop);
            && SameCleanup(s, r.state) && r.state == s.(actions := r.state.actions, child := r.state.child)
            && (if r.ending == Fine
                then r.state.child.Reaped? && exists sent :: r.state.actions == s.actions + sent && Escalates(sent)
                else r.state == s)
    ensures var r := Terminate(s, stop);
            && (r.ending == Fine <==>
                  stop.poll != StillRunning
                  || (stop.term == Fine && (stop.wait != StillRunning || (stop.kill == Fine && stop.lastWait != StillRunning))))
            && (r.ending == Uncaught <==>
                  stop.poll == StillRunning
                  && (stop.term == Uncaught || (stop.term == Fine && stop.wait == StillRunning && stop.kill == Uncaught)))
            && (r.ending == Fine ==>
                  if stop.poll != StillRunning then r.state.actions == s.actions && r.state.child == Reaped(stop.poll.code)
                  else if stop.wait != StillRunning
                  then r.state.actions == s.actions + [TermProcessGroup] && r.state.child == Reaped(stop.wait.code)
                  else r.state.actions == s.actions + [TermProcessGroup, KillProcessGroup] && r.state.child == Reaped(stop.lastWait.code))
  {
    var r := Terminate(s, stop);
    if r.ending == Fine {
      var sent := if stop.poll.ExitedWith? then [] else if stop.wait.ExitedWith? then [TermProcessGroup]
                  else [TermProcessGroup, KillProcessGroup];
      assert r.state.actions == s.actions + sent && Escalates(sent);
    }
  }

  predicate Escalates(sent: seq<Action>) {
    sent <= [TermProcessGroup, KillProcessGroup]
  }

  // From the watch loop to the stored output, for a launched child.
  lemma SettledFacts(s: State, env: Env)
    requires s.child == Running && s.reason == NoReason
    ensures var w := Watched(s, env); var r := Settle(w.state, env);
            w.ending == Fine ==>
              && SameCleanup(s, r.state) && r.state.telemetry == w.state.telemetry && r.state.cooldown == s.cooldown
              && (if r.ending == Fine then r.state.child.Reaped? else r.state.child == Running)
              && (r.ending == Fine && r.state.reason == NoReason ==> r.state.child == Reaped(0) && NewSafe(s, w.state))
  {
    WatchEnds(s, env.ticks, env.baseline.ids, 0, env.spin, WATCHDOG_SECONDS, env.spin);
    TerminateFacts(Watched(s, env).state, env.stop);
  }

  lemma CoolingFacts(s: State, env: Env)
    ensures var r := Cooling(s, env);
            && SameCleanup(s, r.state) && r.state.child == s.child && Samples(s, r.state, 182.0)
            && r.state.outOpen == s.outOpen && r.state.errOpen == s.errOpen
            && (r.ending == Fine && r.state.reason == NoReason ==>
                  s.reason == NoReason && r.state.cooldown.Ended? && r.state.cooldown.failure == NoReason
                  && Cooled(s, r.state, env.cool, env.baseline.ids, 0))
  {
    CoolDownEnds(s, env.cool, env.baseline.ids, 0, 0.0);
  }

  function Capped(env: Env): seq<Limit> {
    if env.caps(0) == Fine then [Limit(0, 125), Limit(1, 125)] else [Limit(0, 125)]
  }

  // A guarded part that ends without an exception has reaped its child; without a reason
  // either, it is everything the verdict stands for.
  ghost predicate Guards(s: State, r: Step, env: Env) {
    && r.state.limits == s.limits + Capped(env) && !r.state.restoreError && !r.state.powerRestored && r.state.status == Fail
    && Samples(s, r.state, 1984.0)
    && (r.ending == Fine ==> r.state.child.Reaped?)
    && (r.ending == Fine && r.state.reason == NoReason ==> Succeeds(s, r.state, env))
  }

  ghost predicate Succeeds(s: State, r: State, env: Env) {
    && env.caps(0) == Fine && env.caps(1) == Fine && r.child == Reaped(0) && NewSafe(s, r)
    && |r.telemetry| > |s.telemetry| && Cool(r.telemetry[|r.telemetry| - 1])
    && r.cooldown.Ended? && r.cooldown.failure == NoReason && r.cooldown.elapsed >= 300.0 && r.cooldown.checks > 0
    && forall j: nat | j < r.cooldown.checks :: env.cool(j).events.ids <= env.baseline.ids
  }

  function KeepAndCool(s: State, env: Env): Step {
    var kept := KeepOutput(s, env);
    if kept.ending != Fine then kept else Cooling(kept.state, env)
  }

  lemma KeepAndCoolFacts(s: State, env: Env)
    ensures var r := KeepAndCool(s, env);
            && SameCleanup(s, r.state) && r.state.child == s.child && Samples(s, r.state, 182.0)
            && (r.ending == Fine && r.state.reason == NoReason ==>
                  s.reason == NoReason && r.state.cooldown.Ended? && r.state.cooldown.failure == NoReason
                  && Cooled(s, r.state, env.cool, env.baseline.ids, 0))
  {
    CoolingFacts(KeepOutput(s, env).state, env);
  }

  // The part that runs once the child is started.
  function Supervised(s: State, env: Env): Step {
    var watched := Watched(s, env);
    if watched.ending != Fine then watched
    else
      var settled := Settle(watched.state, env);
      if settled.ending != Fine then settled else KeepAndCool(settled.state, env)
  }

  lemma {:induction false} SupervisedFacts(s: State, env: Env)
    requires s.child == Running && s.reason == NoReason
    requires env.caps(0) == Fine && env.caps(1) == Fine
    ensures var r := Supervised(s, env);
            && SameCleanup(s, r.state) && Samples(s, r.state, 1984.0)
            && (r.ending == Fine ==> r.state.child.Reaped?)
            && (r.ending == Fine && r.state.reason == NoReason ==> Succeeds(s, r.state, env))
  {
    WatchEnds(s, env.ticks, env.baseline.ids, 0, env.spin, WATCHDOG_SECONDS, env.spin);
    var watched := Watched(s, env);
    if watched.ending == Fine {
      SettledFacts(s, env);
      var settled := Settle(watched.state, env);
      if settled.ending == Fine {
        var r := KeepAndCool(settled.state, env);
        KeepAndCoolFacts(settled.state, env);
        SamplesAdd(s, settled.state, r.state);
        if r.ending == Fine && r.state.reason == NoReason { SafeAdd(s, settled.state, r.state); }
      }
    }
  }

  lemma SamplesAdd(s: State, m: State, r: State)
    requires Samples(s, m, 1802.0) && Samples(m, r, 182.0)
    ensures Samples(s, r, 1984.0)
  {
    assert r.telemetry[..|s.telemetry|] == r.telemetry[..|m.telemetry|][..|s.telemetry|];
  }

  lemma SafeAdd(s: State, m: State, r: State)
    requires NewSafe(s, m) && Grows(m, r) && NewSafe(m, r)
    ensures NewSafe(s, r)
  {
    forall k | |s.telemetry| <= k < |r.telemetry|
      ensures Safe(r.telemetry[k])
    {
      if k < |m.telemetry| { assert r.telemetry[k] == r.telemetry[..|m.telemetry|][k]; }
    }
  }

  lemma {:induction false} GuardedFacts(s: State, env: Env)
    requires s == Record(START, SampleOf(env.preflight))
    ensures Guards(s, Guarded(s, env), env)
  {
    CappedFacts(s, env);
    var capped := ApplyCaps(s, env);
    var launched := Launch(capped.state, env);
    if capped.ending == Fine && launched.ending == Fine {
      SupervisedFacts(launched.state, env);
      assert Guarded(s, env) == Supervised(launched.state, env);
    }
  }

  /* ---- The whole run ---- */

  // The preflight passed: the caps are about to be applied.
  ghost predicate Preflighted(env: Env) {
    && !env.dryRun && env.artifacts && ReadingEnding(env.preflight) == Fine && env.baseline.ending == Fine
    && UnsafeReason(SampleOf(env.preflight), true) == NoReason && Keys(Originals(env.preflight.gpus)) == {0, 1}
  }

  // The state in which the clean-up starts.
  function BeforeCleanUp(env: Env): Step {
    Handled(TryBlock(env).step, env)
  }

  // Closing an output handle that is still open raises and skips the power restore.
  ghost predicate CloseFails(env: Env) {
    var s := BeforeCleanUp(env).state;
    (s.outOpen && env.lateOut != Fine) || (s.errOpen && env.lateErr != Fine)
  }

  lemma {:induction false} RestoreFacts(s: State, original: seq<Saved>, restores: nat -> Ending)
    requires |original| == 2 && !s.restoreError
    ensures var r := Restore(s, original, 0, restores);
            var asked := [Limit(original[0].gpu, RoundEven(original[0].watts)), Limit(original[1].gpu, RoundEven(original[1].watts))];
            && r.state.limits == s.limits + (if restores(0) == Uncaught then [asked[0]] else asked)
            && r.state == s.(limits := r.state.limits, restoreError := r.state.restoreError, powerRestored := r.state.powerRestored)
            && (r.ending == Fine <==> restores(0) != Uncaught && restores(1) != Uncaught)
            && (r.state.powerRestored && !s.powerRestored ==> restores(0) == Fine && restores(1) == Fine)
  {
    var one := SetLimit(s, original[0].gpu, original[0].watts);
    var s1 := if restores(0) == Caught then one.(restoreError := true) else one;
    var two := SetLimit(s1, original[1].gpu, original[1].watts);
    var s2 := if restores(1) == Caught then two.(restoreError := true) else two;
    assert Restore(s1, original, 1, restores) == if restores(1) == Uncaught then Step(two, Uncaught) else Restore(s2, original, 2, restores);
  }

  function RestoreRequests(env: Env): seq<Limit> {
    var original := Originals(env.preflight.gpus);
    seq(|original|, k requires 0 <= k < |original| => Limit(original[k].gpu, RoundEven(original[k].watts)))
  }

  // How many of the two restore requests are issued.
  ghost function RestoreCount(env: Env): nat {
    if CloseFails(env) then 0 else if env.restores(0) == Uncaught then 1 else 2
  }

  lemma BeforeCleanUpFacts(env: Env)
    requires Preflighted(env)
    ensures var r, tried := BeforeCleanUp(env), TryBlock(env).step;
            && Guards(Record(START, SampleOf(env.preflight)), tried, env)
            && r.state.limits == Capped(env) && !r.state.restoreError && !r.state.powerRestored && r.state.status == Fail
            && r.state.telemetry == tried.state.telemetry && |r.state.telemetry| <= 1985
            && (r.ending == Fine ==> r.state.child != Running)
            && (r.ending == Fine && r.state.reason == NoReason ==> r == tried)
  {
    var s := Record(START, SampleOf(env.preflight));
    GuardedFacts(s, env);
    assert [] + Capped(env) == Capped(env);
    var tried := TryBlock(env).step;
    if tried.ending == Caught {
      TerminateFacts(tried.state.(reason := GuardError), env.stopAgain);
    }
  }

  /** The power commands of every run that passes its preflight: the caps, then the
      first RestoreCount of the two restores. */
  lemma {:induction false} LimitsOfRun(env: Env)
    requires Preflighted(env)
    ensures |RestoreRequests(env)| == 2
    ensures Run(env).state.limits == Capped(env) + RestoreRequests(env)[..RestoreCount(env)]
  {
    BeforeCleanUpFacts(env);
    var s, original := BeforeCleanUp(env).state, Originals(env.preflight.gpus);
    OriginalsRemember(env.preflight.gpus);
    BothMeansTwo(original);
    RestoreFacts(s.(outOpen := false, errOpen := false), original, env.restores);
    assert Capped(env) + RestoreRequests(env)[..0] == Capped(env);
    assert RestoreRequests(env)[..1] == [RestoreRequests(env)[0]];
    assert RestoreRequests(env)[..2] == [RestoreRequests(env)[0], RestoreRequests(env)[1]];
  }

  // After the caps, `gpu` was asked back to its preflight limit, rounded to whole watts.
  ghost predicate RestoreAttempted(env: Env, gpu: int) {
    exists k | |Capped(env)| <= k < |Run(env).state.limits| :: IsRestore(env, Run(env).state.limits[k], gpu)
  }

  ghost predicate IsRestore(env: Env, limit: Limit, gpu: int) {
    limit.gpu == gpu && exists w :: LimitOf(env.preflight.gpus, gpu, w) && limit.watts == RoundEven(w)
  }

  /** What asking a GPU back means: its own preflight limit, from its last row, in whole watts. */
  lemma IsRestoreIff(env: Env, limit: Limit, gpu: int)
    ensures IsRestore(env, limit, gpu)
            <==> && limit.gpu == gpu
                 && exists k :: 0 <= k < |env.preflight.gpus| && env.preflight.gpus[k].index == gpu
                                && limit.watts == RoundEven(env.preflight.gpus[k].powerLimit)
                                && forall j | k < j < |env.preflight.gpus| :: env.preflight.gpus[j].index != gpu
  {
    var gpus := env.preflight.gpus;
    if k :| 0 <= k < |gpus| && gpus[k].index == gpu && limit.watts == RoundEven(gpus[k].powerLimit)
            && forall j | k < j < |gpus| :: gpus[j].index != gpu {
      assert IsLast(gpus, k, gpu);
      assert LimitOf(gpus, gpu, gpus[k].powerLimit);
    }
  }

  lemma {:induction false} RequestIsRestore(env: Env, k: nat)
    requires Preflighted(env) && k < 2 && |RestoreRequests(env)| == 2
    ensures IsRestore(env, RestoreRequests(env)[k], Originals(env.preflight.gpus)[k].gpu)
  {
    var original := Originals(env.preflight.gpus);
    OriginalsRemember(env.preflight.gpus);
    assert original[k] in original;
    assert LimitOf(env.preflight.gpus, original[k].gpu, original[k].watts);
  }

  /** Whatever fails, both GPUs are asked back to their preflight limits, unless closing
      an open output handle raises or the first restore raises something uncaught. */
  lemma {:induction false} BothRestoredIff(env: Env)
    requires Preflighted(env)
    ensures RestoreAttempted(env, 0) && RestoreAttempted(env, 1)
            <==> !CloseFails(env) && env.restores(0) != Uncaught
  {
    LimitsOfRun(env);
    var limits, caps, requests := Run(env).state.limits, Capped(env), RestoreRequests(env);
    OriginalsRemember(env.preflight.gpus);
    BothMeansTwo(Originals(env.preflight.gpus));
    assert requests[0].gpu != requests[1].gpu && {requests[0].gpu, requests[1].gpu} == {0, 1};
    if RestoreCount(env) == 2 {
      RequestIsRestore(env, 0);
      RequestIsRestore(env, 1);
      assert limits[|caps|] == requests[0] && limits[|caps| + 1] == requests[1];
      assert IsRestore(env, limits[|caps|], requests[0].gpu) && IsRestore(env, limits[|caps| + 1], requests[1].gpu);
    } else {
      assert forall k | |caps| <= k < |limits| :: limits[k] == requests[0];
    }
  }

  /** A restore gives back exactly the preflight limit just when that is a whole number of watts. */
  lemma RestoreIsExactIffWhole(watts: real)
    ensures RoundEven(watts) as real == watts <==> watts.Floor as real == watts
  {
  }

  /** The verdict, exactly. */
  lemma {:induction false} PassIff(env: Env)
    ensures Run(env).state.status == Pass <==>
              && Preflighted(env) && TryBlock(env).step.ending == Fine && TryBlock(env).step.state.reason == NoReason
              && env.restores(0) == Fine && env.restores(1) == Fine
  {
    if Preflighted(env) {
      BeforeCleanUpFacts(env);
      var s, original := BeforeCleanUp(env).state, Originals(env.preflight.gpus);
      OriginalsRemember(env.preflight.gpus);
      BothMeansTwo(original);
      RestoreFacts(s.(outOpen := false, errOpen := false), original, env.restores);
      if TryBlock(env).step.ending == Fine { ClosedWhenFine(env); }
      RestoredIff(s.(outOpen := false, errOpen := false), original, env.restores);
    } else {
      RestoreKeepsRest(BeforeCleanUp(env).state.(outOpen := false, errOpen := false), TryBlock(env).original, 0, env.restores);
    }
  }

  lemma ClosedWhenFine(env: Env)
    requires Preflighted(env) && TryBlock(env).step.ending == Fine
    ensures !TryBlock(env).step.state.outOpen && !TryBlock(env).step.state.errOpen
  {
    var s := Record(START, SampleOf(env.preflight));
    var launched := Launch(ApplyCaps(s, env).state, env);
    CappedFacts(s, env);
    assert Guarded(s, env) == Supervised(launched.state, env);
    CoolingFacts(KeepOutput(Settle(Watched(launched.state, env).state, env).state, env).state, env);
  }

  lemma {:induction false} RestoredIff(s: State, original: seq<Saved>, restores: nat -> Ending)
    requires |original| == 2 && !s.restoreError && !s.powerRestored
    ensures Restore(s, original, 0, restores).state.powerRestored <==> restores(0) == Fine && restores(1) == Fine
  {
    var one := SetLimit(s, original[0].gpu, original[0].watts);
    var s1 := if restores(0) == Caught then one.(restoreError := true) else one;
    var two := SetLimit(s1, original[1].gpu, original[1].watts);
    var s2 := if restores(1) == Caught then two.(restoreError := true) else two;
    assert Restore(s1, original, 1, restores) == if restores(1) == Uncaught then Step(two, Uncaught) else Restore(s2, original, 2, restores);
  }

  /** What `pass` vouches for: the caps held, the child exited 0, every recorded sample was
      safe, the cooldown saw five minutes and ended cool without a new critical event, and
      both limits were given back. */
  lemma {:induction false} PassMeans(env: Env)
    requires Run(env).state.status == Pass
    ensures var r := Run(env);
            && r.exit == Returned && r.state.child == Reaped(0)
            && |r.state.telemetry| >= 2 && (forall k | 0 <= k < |r.state.telemetry| :: Safe(r.state.telemetry[k]))
            && Cool(r.state.telemetry[0]) && Cool(r.state.telemetry[|r.state.telemetry| - 1])
            && r.state.cooldown.Ended? && r.state.cooldown.elapsed >= 300.0
            && (forall j: nat | j < r.state.cooldown.checks :: env.cool(j).events.ids <= env.baseline.ids)
            && r.state.limits == [Limit(0, 125), Limit(1, 125)] + RestoreRequests(env) && |RestoreRequests(env)| == 2
            && env.caps(0) == env.caps(1) == env.restores(0) == env.restores(1) == Fine
  {
    PassIff(env);
    LimitsOfRun(env);
    BeforeCleanUpFacts(env);
    ClosedWhenFine(env);
    NoReasonMeansSafe(env.preflight, true);
    var s, tried := Record(START, SampleOf(env.preflight)), TryBlock(env).step;
    GuardedFacts(s, env);
    assert Succeeds(s, tried.state, env);
    PassKeeps(env);
    assert tried.state.telemetry[..1][0] == tried.state.telemetry[0];
  }

  // The clean-up and the verdict leave the evidence of the try block alone.
  lemma {:induction false} PassKeeps(env: Env)
    requires Preflighted(env) && TryBlock(env).step.ending == Fine && TryBlock(env).step.state.reason == NoReason
    ensures var r, t := Run(env).state, TryBlock(env).step.state;
            r.telemetry == t.telemetry && r.child == t.child && r.cooldown == t.cooldown
    ensures env.restores(0) == env.restores(1) == Fine ==> Run(env).exit == Returned
  {
    var s, original := BeforeCleanUp(env).state, Originals(env.preflight.gpus);
    BeforeCleanUpFacts(env);
    OriginalsRemember(env.preflight.gpus);
    BothMeansTwo(original);
    ClosedWhenFine(env);
    RestoreFacts(s.(outOpen := false, errOpen := false), original, env.restores);
  }

  // The clean-up never touches the child.
  lemma {:induction false} RestoreKeepsRest(s: State, original: seq<Saved>, k: nat, restores: nat -> Ending)
    requires k <= |original|
    ensures Restore(s, original, k, restores).state.child == s.child
    ensures Restore(s, original, k, restores).state.telemetry == s.telemetry
    ensures Restore(s, original, k, restores).state.status == s.status && Restore(s, original, k, restores).state.reason == s.reason
    decreases |original| - k
  {
    if k < |original| {
      var asked := SetLimit(s, original[k].gpu, original[k].watts);
      RestoreKeepsRest(asked, original, k + 1, restores);
      RestoreKeepsRest(asked.(restoreError := true), original, k + 1, restores);
    }
  }

  // The exception that ended the try block is not handled, or its handler raises too.
  ghost predicate Abandons(tried: Step, env: Env) {
    tried.ending == Uncaught || (tried.ending == Caught && Terminate(tried.state, env.stopAgain).ending != Fine)
  }

  /** The child outlives the guard exactly when the exception that ended the try block
      while it ran was uncaught or its handler raised; `run` then raises, never returns. */
  lemma {:induction false} ChildLeftRunningIff(env: Env)
    requires Preflighted(env)
    ensures var tried := TryBlock(env).step;
            Run(env).state.child == Running <==> tried.state.child == Running && Abandons(tried, env)
    ensures Run(env).state.child == Running ==> Run(env).exit == Raised
  {
    var tried := TryBlock(env).step;
    BeforeCleanUpFacts(env);
    if tried.ending == Caught {
      TerminateFacts(tried.state.(reason := GuardError), env.stopAgain);
      TerminateFacts(tried.state, env.stopAgain);
    }
    RestoreKeepsRest(BeforeCleanUp(env).state.(outOpen := false, errOpen := false), TryBlock(env).original, 0, env.restores);
  }

  /** Every run ends within its two deadlines: at most 1985 samples. */
  lemma {:induction false} RunIsBounded(env: Env)
    ensures |Run(env).state.telemetry| <= 1985
  {
    if Preflighted(env) { BeforeCleanUpFacts(env); }
    RestoreKeepsRest(BeforeCleanUp(env).state.(outOpen := false, errOpen := false), TryBlock(env).original, 0, env.restores);
  }

  /* ---- Runs in which the clean-up falls short ---- */

  const FANS: seq<Fan> := [Rpm(900.0), Rpm(900.0), Rpm(900.0), Rpm(900.0), Rpm(900.0), Rpm(900.0), Rpm(900.0), Rpm(900.0)]
  const IDLE := Reading(Fine, [Gpu(0, 30.0, 250.0, 0.0), Gpu(1, 30.0, 250.0, 0.0)], Fine, FANS)
  const QUIET := Events(Fine, {})

  // Nothing fails but what the arguments say.
  function Script(openErr: Ending, tick: Tick, lateOut: Ending): Env {
    Env(false, true, IDLE, QUIET, (k: nat) => Fine, Fine, Fine, openErr, Fine, 0.0, (k: nat) => tick,
        Stop(ExitedWith(0), Fine, ExitedWith(0), Fine, ExitedWith(0)), Fine, Fine, Fine, Fine,
        (k: nat) => CoolTick(IDLE, QUIET, 300.0), Stop(ExitedWith(0), Fine, ExitedWith(0), Fine, ExitedWith(0)),
        lateOut, Fine, (k: nat) => Fine)
  }

  lemma IdlePreflight(openErr: Ending, tick: Tick, lateOut: Ending)
    ensures Preflighted(Script(openErr, tick, lateOut))
    ensures Originals(IDLE.gpus) == [Saved(0, 250.0), Saved(1, 250.0)]
  {
    var gpus := IDLE.gpus;
    assert gpus[..1] == [gpus[0]] && gpus[..1][..0] == [];
    assert Originals(gpus[..1]) == [Saved(0, 250.0)];
    assert [Saved(0, 250.0)][1..] == [];
    assert Put([Saved(0, 250.0)], 1, 250.0) == [Saved(0, 250.0)] + Put([], 1, 250.0);
    assert Keys(Originals(gpus)) == {0, 1} by {
      assert Saved(0, 250.0) in Originals(gpus) && Saved(1, 250.0) in Originals(gpus);
    }
  }

  /** A close that fails in the clean-up leaves both GPUs at the cap. */
  lemma {:induction false} CloseFailureKeepsCap(tick: Tick)
    ensures var r := Run(Script(Caught, tick, Caught));
            r.exit == Raised && r.state.limits == [Limit(0, 125), Limit(1, 125)]
  {
    var env := Script(Caught, tick, Caught);
    IdlePreflight(Caught, tick, Caught);
    LimitsOfRun(env);
    CappedFacts(Record(START, SampleOf(IDLE)), env);
    assert BeforeCleanUp(env).state.outOpen;
  }

  /** A reading that cannot be parsed lifts the cap and leaves the child running. */
  lemma {:induction false} UnparsedReadingLiftsCap(tick: Tick)
    requires tick.poll == StillRunning && ReadingEnding(tick.reading) == Uncaught
    ensures var r := Run(Script(Fine, tick, Fine));
            && r.exit == Raised && r.state.child == Running
            && r.state.limits == [Limit(0, 125), Limit(1, 125), Limit(0, 250), Limit(1, 250)]
  {
    var env := Script(Fine, tick, Fine);
    IdlePreflight(Fine, tick, Fine);
    LimitsOfRun(env);
    var s := Record(START, SampleOf(IDLE));
    CappedFacts(s, env);
    var launched := Launch(ApplyCaps(s, env).state, env);
    assert Watched(launched.state, env) == Step(launched.state, Uncaught);
    assert TryBlock(env).step == Step(launched.state, Uncaught);
    ChildLeftRunningIff(env);
    assert RoundEven(250.0) == 250;
  }

  /** The verdict can be reached. */
  lemma {:induction false} QuietRunPasses(tick: Tick)
    requires tick.poll == ExitedWith(0)
    ensures Run(Script(Fine, tick, Fine)).state.status == Pass
  {
    var env := Script(Fine, tick, Fine);
    IdlePreflight(Fine, tick, Fine);
    var s := Record(START, SampleOf(IDLE));
    CappedFacts(s, env);
    var launched := Launch(ApplyCaps(s, env).state, env);
    var watched := Watched(launched.state, env);
    assert watched == Step(launched.state.(child := Reaped(0)), Fine);
    var kept := KeepOutput(Settle(watched.state, env).state, env);
    assert CoolTurn(kept.state, env.cool(0), {}, 0, 0.0).Done?;
    PassIff(env);
  }
}
