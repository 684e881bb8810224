/** The canary's two loops and its verdict in terms of the scripted replies alone: clocks
    summed from the delays, plain comparisons of the readings, and none of the functions
    the run is computed with. */
module QwenCanaryVerdict {
  import opened QwenCanaryGuard
  import opened QwenCanaryRuns

  /* ---- What a reading must be ---- */

  // Complete, nothing too hot, every fan turning.
  ghost predicate Healthy(r: Reading) {
    && r.gpuEnding == Fine && |r.gpus| >= 2 && r.fanEnding == Fine && |r.fans| >= 8
    && (forall g | g in r.gpus :: g.temperature < 65.0)
    && (forall f | f in r.fans :: f != NoReading && f.rpm >= 500.0)
  }

  ghost predicate AllCool(r: Reading) {
    forall g | g in r.gpus :: g.temperature <= 40.0
  }

  ghost predicate NothingNewIn(e: Events, baseline: set<string>) {
    e.ending == Fine && e.ids <= baseline
  }

  lemma HealthyIff(r: Reading)
    ensures Healthy(r) <==> ReadingEnding(r) == Fine && UnsafeReason(SampleOf(r), false) == NoReason
    ensures Healthy(r) && AllCool(r) && (forall g | g in r.gpus :: g.memoryUsed == 0.0)
            <==> ReadingEnding(r) == Fine && UnsafeReason(SampleOf(r), true) == NoReason
  {
  }

  // All telemetry was read: two GPUs or more, eight fans or more.
  ghost predicate Complete(r: Reading) {
    r.gpuEnding == Fine && |r.gpus| >= 2 && r.fanEnding == Fine && |r.fans| >= 8
  }

  /** How a reading ends: with the exception of the first query that raised, or with the one
      that missing telemetry raises. */
  lemma ReadingEndingIs(r: Reading)
    ensures ReadingEnding(r) == Fine <==> Complete(r)
    ensures ReadingEnding(r) == Uncaught
            <==> r.gpuEnding == Uncaught || (r.gpuEnding == Fine && |r.gpus| >= 2 && r.fanEnding == Uncaught)
  {
  }

  /** The reason a sample gives, by what comes first: heat, then fans, then work on the GPUs. */
  lemma UnsafeReasonIs(s: Sample, requireIdle: bool)
    ensures var hot := exists g :: g in s.gpus && g.temperature >= 65.0;
            var stalled := exists f :: f in s.fans && (f == NoReading || f.rpm < 500.0);
            var busy := exists g :: g in s.gpus && (g.temperature > 40.0 || g.memoryUsed != 0.0);
            UnsafeReason(s, requireIdle)
            == if hot then TemperatureLimit else if stalled then FanCritical else if requireIdle && busy then NotCoolOrIdle else NoReason
  {
  }

  /* ---- The watch loop ---- */

  // When turn k polls the child.
  function StartOf(ticks: nat -> Tick, spin: real, k: nat): real {
    if k == 0 then spin
    else
      var t := ticks(k - 1);
      StartOf(ticks, spin, k - 1) + t.first + t.second + t.third + 1.0
  }

  // When the next reading of the events is due at turn k: at once, then five seconds after
  // the clock reading that followed the last one.
  function DueOf(ticks: nat -> Tick, spin: real, k: nat): real {
    if k == 0 then spin
    else
      var t, start, due := ticks(k - 1), StartOf(ticks, spin, k - 1), DueOf(ticks, spin, k - 1);
      if start + t.first + t.second >= due then start + t.first + t.second + t.third + 5.0 else due
  }

  /** The two clocks, step by step. */
  lemma WatchClockSteps(ticks: nat -> Tick, spin: real, k: nat)
    ensures StartOf(ticks, spin, 0) == DueOf(ticks, spin, 0) == spin
    ensures StartOf(ticks, spin, k + 1) == StartOf(ticks, spin, k) + ticks(k).first + ticks(k).second + ticks(k).third + 1.0
    ensures var checked := StartOf(ticks, spin, k) + ticks(k).first + ticks(k).second;
            DueOf(ticks, spin, k + 1) == if checked >= DueOf(ticks, spin, k) then checked + ticks(k).third + 5.0 else DueOf(ticks, spin, k)
  {
  }

  // A turn that is followed by another: the child runs, the deadline is ahead, the reading
  // is healthy, and if the events were due they were read without anything new.
  ghost predicate GoesOnWatching(t: Tick, baseline: set<string>, start: real, due: real) {
    && t.poll == StillRunning && Healthy(t.reading) && start + t.first < 1800.0
    && (start + t.first + t.second >= due ==> NothingNewIn(t.events, baseline))
  }

  ghost predicate TurnGoesOn(ticks: nat -> Tick, baseline: set<string>, spin: real, k: nat) {
    GoesOnWatching(ticks(k), baseline, StartOf(ticks, spin, k), DueOf(ticks, spin, k))
  }

  ghost predicate WatchedUntil(ticks: nat -> Tick, baseline: set<string>, spin: real, n: nat) {
    forall k: nat | k < n :: TurnGoesOn(ticks, baseline, spin, k)
  }

  lemma WatchTurnIff(s: State, t: Tick, baseline: set<string>, start: real, due: real)
    ensures var turn := WatchTurn(s, t, baseline, start, 1800.0, due);
            && (turn.Again? <==> GoesOnWatching(t, baseline, start, due))
            && (turn.Again? ==>
                  && turn.state == s.(telemetry := s.telemetry + [Sample(t.reading.gpus, t.reading.fans)])
                  && turn.now == start + t.first + t.second + t.third + 1.0
                  && turn.nextBmc == if start + t.first + t.second >= due then start + t.first + t.second + t.third + 5.0 else due)
            && (turn.Done? && s.reason == NoReason ==>
                  (turn.step.ending == Fine && turn.step.state.reason == NoReason <==> t.poll.ExitedWith?))
            && (t.poll.ExitedWith? ==> turn == Done(Step(s.(child := Reaped(t.poll.code)), Fine)))
  {
    HealthyIff(t.reading);
    if t.events.ids - baseline == {} { NothingNew(t.events.ids, baseline); }
  }

  // The turn the loop ends with, and the state it ends in.
  lemma {:induction false} WatchEndsAt(s: State, ticks: nat -> Tick, baseline: set<string>, spin: real, i: nat)
    returns (n: nat, mid: State)
    ensures i <= n && (forall k: nat | i <= k < n :: TurnGoesOn(ticks, baseline, spin, k)) && !TurnGoesOn(ticks, baseline, spin, n)
    ensures mid == s.(telemetry := mid.telemetry)
    ensures var turn := WatchTurn(mid, ticks(n), baseline, StartOf(ticks, spin, n), 1800.0, DueOf(ticks, spin, n));
            turn.Done? && Watch(s, ticks, baseline, i, StartOf(ticks, spin, i), 1800.0, DueOf(ticks, spin, i)) == turn.step
    decreases (1800.0 - StartOf(ticks, spin, i)).Floor
  {
    var turn := WatchTurn(s, ticks(i), baseline, StartOf(ticks, spin, i), 1800.0, DueOf(ticks, spin, i));
    WatchTurnIff(s, ticks(i), baseline, StartOf(ticks, spin, i), DueOf(ticks, spin, i));
    if turn.Again? {
      n, mid := WatchEndsAt(turn.state, ticks, baseline, spin, i + 1);
    } else {
      n, mid := i, s;
    }
  }

  lemma {:induction false} OneEnd(ticks: nat -> Tick, baseline: set<string>, spin: real, n: nat, m: nat)
    requires WatchedUntil(ticks, baseline, spin, n) && !TurnGoesOn(ticks, baseline, spin, n)
    requires WatchedUntil(ticks, baseline, spin, m) && !TurnGoesOn(ticks, baseline, spin, m)
    ensures m == n
  {
  }

  /** The watch loop ends without a reason exactly when all turns before some exit poll went
      on. */
  lemma {:induction false} WatchEndsCleanIff(s: State, ticks: nat -> Tick, baseline: set<string>, spin: real)
    requires s.reason == NoReason
    ensures var r := Watch(s, ticks, baseline, 0, spin, 1800.0, spin);
            && (r.ending == Fine && r.state.reason == NoReason
                <==> exists n: nat :: ticks(n).poll.ExitedWith? && WatchedUntil(ticks, baseline, spin, n))
            && (forall n: nat | ticks(n).poll.ExitedWith? && WatchedUntil(ticks, baseline, spin, n) ::
                  r.state.child == Reaped(ticks(n).poll.code))
  {
    var n, mid := WatchEndsAt(s, ticks, baseline, spin, 0);
    WatchTurnIff(mid, ticks(n), baseline, StartOf(ticks, spin, n), DueOf(ticks, spin, n));
    assert WatchedUntil(ticks, baseline, spin, n);
    forall m: nat | ticks(m).poll.ExitedWith? && WatchedUntil(ticks, baseline, spin, m)
      ensures m == n
    {
      OneEnd(ticks, baseline, spin, n, m);
    }
  }

  /** Why the watch loop ends, for every script: the first turn that does not go on, and what
      its replies make of the run, in the order in which the code looks at them. */
  lemma {:induction false} WatchEndsBecause(s: State, ticks: nat -> Tick, baseline: set<string>, spin: real) returns (n: nat)
    requires s.reason == NoReason && s.child == Running
    ensures WatchedUntil(ticks, baseline, spin, n)
    ensures var r, t := Watch(s, ticks, baseline, 0, spin, 1800.0, spin), ticks(n);
            var at := StartOf(ticks, spin, n) + t.first;
            var due := at + t.second >= DueOf(ticks, spin, n);
            var hot := exists g :: g in t.reading.gpus && g.temperature >= 65.0;
            if t.poll != StillRunning then r.ending == Fine && r.state.reason == NoReason && r.state.child == Reaped(t.poll.code)
            else
              && r.state.child == Running
              && if !Complete(t.reading) then r.ending == ReadingEnding(t.reading) && r.state.reason == NoReason
                 else if at >= 1800.0 then r.ending == Fine && r.state.reason == WatchdogTimeout
                 else if hot then r.ending == Fine && r.state.reason == TemperatureLimit
                 else if !Healthy(t.reading) then r.ending == Fine && r.state.reason == FanCritical
                 else due && if t.events.ending != Fine then r.ending == t.events.ending && r.state.reason == NoReason
                             else r.ending == Fine && r.state.reason == NewFanEvent && !(t.events.ids <= baseline)
  {
    var mid;
    n, mid := WatchEndsAt(s, ticks, baseline, spin, 0);
    WatchTurnIff(mid, ticks(n), baseline, StartOf(ticks, spin, n), DueOf(ticks, spin, n));
    ReadingEndingIs(ticks(n).reading);
    UnsafeReasonIs(SampleOf(ticks(n).reading), false);
    HealthyIff(ticks(n).reading);
  }

  /** What that means, turn by turn: up to the exit every reading was healthy and in time,
      and the first turn, and each turn five seconds or more after the last reading of the
      events, read them and saw nothing new. */
  lemma {:induction false} WatchReadsWhenDue(s: State, ticks: nat -> Tick, baseline: set<string>, spin: real) returns (n: nat)
    requires s.reason == NoReason
    requires var r := Watch(s, ticks, baseline, 0, spin, 1800.0, spin); r.ending == Fine && r.state.reason == NoReason
    ensures ticks(n).poll.ExitedWith?
    ensures forall k: nat | k < n ::
              && ticks(k).poll == StillRunning && StartOf(ticks, spin, k) + ticks(k).first < 1800.0
              && (forall g | g in ticks(k).reading.gpus :: g.temperature < 65.0)
              && (forall f | f in ticks(k).reading.fans :: f != NoReading && f.rpm >= 500.0)
              && (k == 0 || StartOf(ticks, spin, k) + ticks(k).first + ticks(k).second >= DueOf(ticks, spin, k) ==>
                    ticks(k).events.ending == Fine && ticks(k).events.ids <= baseline)
  {
    WatchEndsCleanIff(s, ticks, baseline, spin);
    n :| ticks(n).poll.ExitedWith? && WatchedUntil(ticks, baseline, spin, n);
    forall k: nat | k < n
      ensures GoesOnWatching(ticks(k), baseline, StartOf(ticks, spin, k), DueOf(ticks, spin, k))
    {
      assert TurnGoesOn(ticks, baseline, spin, k);
    }
  }

  /* ---- The cooldown ---- */

  // How long the cooldown has lasted before check k.
  function ElapsedAt(cool: nat -> CoolTick, k: nat): real {
    if k == 0 then 0.0 else ElapsedAt(cool, k - 1) + cool(k - 1).delay + 5.0
  }

  lemma CoolClockSteps(cool: nat -> CoolTick, k: nat)
    ensures ElapsedAt(cool, 0) == 0.0 && ElapsedAt(cool, k + 1) == ElapsedAt(cool, k) + cool(k).delay + 5.0
  {
  }

  ghost predicate SoundCheck(t: CoolTick, baseline: set<string>) {
    Healthy(t.reading) && NothingNewIn(t.events, baseline)
  }

  ghost predicate CoolsEnough(t: CoolTick, elapsed: real) {
    elapsed + t.delay >= 300.0 && AllCool(t.reading)
  }

  ghost predicate CheckGoesOn(cool: nat -> CoolTick, baseline: set<string>, k: nat) {
    SoundCheck(cool(k), baseline) && !CoolsEnough(cool(k), ElapsedAt(cool, k)) && ElapsedAt(cool, k) + cool(k).delay < 900.0
  }

  // Checks 0 to n - 1 were sound, not yet enough, and inside the time allowed; check n was enough.
  ghost predicate CooledAt(cool: nat -> CoolTick, baseline: set<string>, n: nat) {
    && (forall k: nat | k < n :: CheckGoesOn(cool, baseline, k))
    && SoundCheck(cool(n), baseline) && CoolsEnough(cool(n), ElapsedAt(cool, n))
  }

  lemma CoolTurnIff(s: State, t: CoolTick, baseline: set<string>, i: nat, elapsed: real)
    ensures var turn := CoolTurn(s, t, baseline, i, elapsed);
            && (turn.Again? <==> SoundCheck(t, baseline) && !CoolsEnough(t, elapsed) && elapsed + t.delay < 900.0)
            && (turn.Again? ==> turn.now == elapsed + t.delay + 5.0
                                && turn.state == s.(telemetry := s.telemetry + [Sample(t.reading.gpus, t.reading.fans)]))
            && (turn.Done? ==> (turn.step.ending == Fine && turn.step.state.cooldown.Ended? && turn.step.state.cooldown.failure == NoReason
                                <==> SoundCheck(t, baseline) && CoolsEnough(t, elapsed)) || turn.step.ending != Fine)
            && (SoundCheck(t, baseline) && CoolsEnough(t, elapsed) ==>
                  turn.Done? && turn.step.ending == Fine && turn.step.state.cooldown == Ended(NoReason, i + 1, elapsed + t.delay))
            && (turn.Done? && turn.step.ending == Fine ==> turn.step.state.cooldown.Ended?)
            && (turn.Done? && turn.step.ending != Fine ==> !SoundCheck(t, baseline))
  {
    HealthyIff(t.reading);
    if t.events.ids - baseline == {} { NothingNew(t.events.ids, baseline); }
  }

  lemma {:induction false} CoolDownEndsAt(s: State, cool: nat -> CoolTick, baseline: set<string>, i: nat)
    returns (n: nat, mid: State)
    ensures i <= n && (forall k: nat | i <= k < n :: CheckGoesOn(cool, baseline, k)) && !CheckGoesOn(cool, baseline, n)
    ensures mid == s.(telemetry := mid.telemetry)
    ensures var turn := CoolTurn(mid, cool(n), baseline, n, ElapsedAt(cool, n));
            turn.Done? && CoolDown(s, cool, baseline, i, ElapsedAt(cool, i)) == turn.step
    decreases (900.0 - ElapsedAt(cool, i)).Floor
  {
    var turn := CoolTurn(s, cool(i), baseline, i, ElapsedAt(cool, i));
    CoolTurnIff(s, cool(i), baseline, i, ElapsedAt(cool, i));
    if turn.Again? {
      n, mid := CoolDownEndsAt(turn.state, cool, baseline, i + 1);
    } else {
      n, mid := i, s;
    }
  }

  lemma {:induction false} OneCoolEnd(cool: nat -> CoolTick, baseline: set<string>, n: nat, m: nat)
    requires (forall k: nat | k < n :: CheckGoesOn(cool, baseline, k)) && !CheckGoesOn(cool, baseline, n)
    requires CooledAt(cool, baseline, m)
    ensures m == n
  {
    assert !CheckGoesOn(cool, baseline, m);
  }

  /** The cooldown ends without a failure exactly at the first check that is cool after five
      minutes, every check up to it being sound and in time. */
  lemma {:induction false} CoolDownEndsCleanIff(s: State, cool: nat -> CoolTick, baseline: set<string>)
    ensures var r := CoolDown(s, cool, baseline, 0, 0.0);
            && (r.ending == Fine ==> r.state.cooldown.Ended?)
            && (r.ending == Fine && r.state.cooldown.failure == NoReason <==> exists n: nat :: CooledAt(cool, baseline, n))
            && (forall n: nat | CooledAt(cool, baseline, n) ::
                  r.state.cooldown == Ended(NoReason, n + 1, ElapsedAt(cool, n) + cool(n).delay))
  {
    var n, mid := CoolDownEndsAt(s, cool, baseline, 0);
    CoolTurnIff(mid, cool(n), baseline, n, ElapsedAt(cool, n));
    if SoundCheck(cool(n), baseline) && CoolsEnough(cool(n), ElapsedAt(cool, n)) {
      assert CooledAt(cool, baseline, n);
    }
    forall m: nat | CooledAt(cool, baseline, m)
      ensures m == n
    {
      OneCoolEnd(cool, baseline, n, m);
    }
  }

  /** Why the cooldown ends, for every script. */
  lemma {:induction false} CoolDownEndsBecause(s: State, cool: nat -> CoolTick, baseline: set<string>) returns (n: nat)
    ensures forall k: nat | k < n :: CheckGoesOn(cool, baseline, k)
    ensures var r, t := CoolDown(s, cool, baseline, 0, 0.0), cool(n);
            var at := ElapsedAt(cool, n) + t.delay;
            var hot := exists g :: g in t.reading.gpus && g.temperature >= 65.0;
            if !Complete(t.reading) then r == Step(r.state, ReadingEnding(t.reading)) && r.state.cooldown == s.cooldown
            else if hot then r.ending == Fine && r.state.cooldown == Ended(TemperatureLimit, n + 1, ElapsedAt(cool, n))
            else if !Healthy(t.reading) then r.ending == Fine && r.state.cooldown == Ended(FanCritical, n + 1, ElapsedAt(cool, n))
            else if t.events.ending != Fine then r == Step(r.state, t.events.ending) && r.state.cooldown == s.cooldown
            else if !(t.events.ids <= baseline) then r.ending == Fine && r.state.cooldown == Ended(NewFanEvent, n + 1, ElapsedAt(cool, n))
            else if at >= 300.0 && AllCool(t.reading) then r.ending == Fine && r.state.cooldown == Ended(NoReason, n + 1, at)
            else at >= 900.0 && r.ending == Fine && r.state.cooldown == Ended(CooldownTimeout, n + 1, at)
  {
    var mid;
    n, mid := CoolDownEndsAt(s, cool, baseline, 0);
    CoolTurnIff(mid, cool(n), baseline, n, ElapsedAt(cool, n));
    ReadingEndingIs(cool(n).reading);
    UnsafeReasonIs(SampleOf(cool(n).reading), false);
    HealthyIff(cool(n).reading);
    if cool(n).events.ids - baseline == {} { NothingNew(cool(n).events.ids, baseline); }
  }

  /* ---- The verdict ---- */

  lemma {:induction false} RemembersIff(gpus: seq<Gpu>, k: int)
    ensures k in Keys(Originals(gpus)) <==> (k == 0 || k == 1) && exists g :: g in gpus && g.index == k
  {
    if gpus != [] {
      var n := |gpus| - 1;
      RemembersIff(gpus[..n], k);
      OriginalsRemember(gpus[..n]);
      PutUpdates(Originals(gpus[..n]), gpus[n].index, gpus[n].powerLimit);
      assert gpus == gpus[..n] + [gpus[n]];
    }
  }

  // The two target GPUs are listed, and everything is healthy, cool and idle.
  ghost predicate Ready(env: Env) {
    && !env.dryRun && env.artifacts && env.baseline.ending == Fine
    && Healthy(env.preflight) && AllCool(env.preflight) && (forall g | g in env.preflight.gpus :: g.memoryUsed == 0.0)
    && (exists g :: g in env.preflight.gpus && g.index == 0) && (exists g :: g in env.preflight.gpus && g.index == 1)
  }

  lemma {:induction false} PreflightedIff(env: Env)
    ensures Preflighted(env) <==> Ready(env)
  {
    HealthyIff(env.preflight);
    RemembersIff(env.preflight.gpus, 0);
    RemembersIff(env.preflight.gpus, 1);
    OriginalsRemember(env.preflight.gpus);
  }

  ghost predicate ExitsCleanly(env: Env) {
    exists n: nat :: env.ticks(n).poll == ExitedWith(0) && WatchedUntil(env.ticks, env.baseline.ids, env.spin, n)
  }

  ghost predicate CoolsDown(env: Env) {
    exists n: nat :: CooledAt(env.cool, env.baseline.ids, n)
  }

  lemma {:induction false} KeepAndCoolIff(s: State, env: Env)
    ensures var r := KeepAndCool(s, env);
            r.ending == Fine && r.state.reason == NoReason
            <==> && s.reason == NoReason && env.closeOut == Fine && env.readOut == Fine && env.closeErr == Fine && env.readErr == Fine
                 && CoolsDown(env)
  {
    var kept := KeepOutput(s, env).state;
    CoolDownEndsCleanIff(kept, env.cool, env.baseline.ids);
    CoolDownEnds(kept, env.cool, env.baseline.ids, 0, 0.0);
  }

  lemma {:induction false} SupervisedIff(s: State, env: Env)
    requires s.child == Running && s.reason == NoReason
    ensures var r := Supervised(s, env);
            r.ending == Fine && r.state.reason == NoReason
            <==> && ExitsCleanly(env) && CoolsDown(env)
                 && env.closeOut == Fine && env.readOut == Fine && env.closeErr == Fine && env.readErr == Fine
  {
    var watched := Watched(s, env);
    WatchEndsCleanIff(s, env.ticks, env.baseline.ids, env.spin);
    WatchEnds(s, env.ticks, env.baseline.ids, 0, env.spin, WATCHDOG_SECONDS, env.spin);
    TerminateFacts(watched.state, env.stop);
    KeepAndCoolIff(Settle(watched.state, env).state, env);
    if watched.ending == Fine && watched.state.reason == NoReason {
      var n: nat :| env.ticks(n).poll.ExitedWith? && WatchedUntil(env.ticks, env.baseline.ids, env.spin, n);
    }
  }

  lemma {:induction false} GuardedIff(s: State, env: Env)
    requires s == Record(START, SampleOf(env.preflight))
    ensures var r := Guarded(s, env);
            r.ending == Fine && r.state.reason == NoReason
            <==> && env.caps(0) == Fine && env.caps(1) == Fine
                 && env.mkdir == Fine && env.openOut == Fine && env.openErr == Fine && env.spawn == Fine
                 && ExitsCleanly(env) && CoolsDown(env)
                 && env.closeOut == Fine && env.readOut == Fine && env.closeErr == Fine && env.readErr == Fine
  {
    CappedFacts(s, env);
    var launched := Launch(ApplyCaps(s, env).state, env);
    if env.caps(0) == Fine && env.caps(1) == Fine && launched.ending == Fine {
      assert Guarded(s, env) == Supervised(launched.state, env);
      SupervisedIff(launched.state, env);
    }
  }

  /** The handler: only a handled exception reaches it, it names itself as the reason, and it
      signals nobody before a child was started. */
  lemma HandledIs(tried: Step, env: Env)
    ensures tried.ending != Caught ==> Handled(tried, env) == tried
    ensures tried.ending == Caught && tried.state.child == NotStarted ==>
              Handled(tried, env) == Step(tried.state.(reason := GuardError), Fine)
    ensures tried.ending == Caught && tried.state.child != NotStarted ==>
              Handled(tried, env) == Terminate(tried.state.(reason := GuardError), env.stopAgain)
  {
  }

  /** The verdict in terms of the replies: pass exactly when the preflight is healthy, cool,
      idle and complete, both caps and all preparations succeed, the child exits 0 after
      turns that all went on, its output is kept, the cooldown ends clean, and both restores
      succeed. */
  lemma {:induction false} PassExactly(env: Env)
    ensures Run(env).state.status == Pass
            <==> && Ready(env)
                 && env.caps(0) == Fine && env.caps(1) == Fine
                 && env.mkdir == Fine && env.openOut == Fine && env.openErr == Fine && env.spawn == Fine
                 && ExitsCleanly(env)
                 && env.closeOut == Fine && env.readOut == Fine && env.closeErr == Fine && env.readErr == Fine
                 && CoolsDown(env)
                 && env.restores(0) == Fine && env.restores(1) == Fine
  {
    PassIff(env);
    PreflightedIff(env);
    GuardedIff(Record(START, SampleOf(env.preflight)), env);
  }
}
