/** The telemetry watchdog's sliding window and the polling loop that feeds it. */
module Watchdog {

  type Delay = d: real | 0.0 <= d witness 0.0

  const WINDOW: nat := 11
  const POLL_SECONDS: real := 0.05

  datatype Option<T> = None | Some(value: T)
  // Sensor readings in the order of the collector's dictionary, each name once.
  datatype Sensor = Sensor(name: string, value: real)
  datatype Telemetry = Telemetry(timestamp: real, temperatures: seq<Sensor>, fanCritical: bool, deviceError: bool)
  datatype Settings = Settings(staleSeconds: real, maxTemp: real, slopeTemp: real, slopeLimit: real)
  datatype Reason = Clear | StaleTelemetry | FanCritical | DeviceError | TemperatureLimit | TemperatureSlope
                  | WatchdogTimeout | SubprocessFailure

  // What the constructor defaults to, and `run` uses.
  const DEFAULTS := Settings(3.0, 65.0, 55.0, 0.5)

  /* ---- One check ---- */

  predicate AnyAtLeast(sensors: seq<Sensor>, limit: real) {
    sensors != [] && (sensors[0].value >= limit || AnyAtLeast(sensors[1..], limit))
  }

  lemma {:induction false} NoneAtLeast(sensors: seq<Sensor>, limit: real)
    ensures !AnyAtLeast(sensors, limit) <==> forall r | r in sensors :: r.value < limit
  {
    if sensors != [] {
      NoneAtLeast(sensors[1..], limit);
      assert sensors == [sensors[0]] + sensors[1..];
    }
  }

  function Fault(c: Settings, s: Telemetry, now: real): Reason {
    if now - s.timestamp > c.staleSeconds then StaleTelemetry
    else if s.fanCritical then FanCritical
    else if s.deviceError then DeviceError
    else if AnyAtLeast(s.temperatures, c.maxTemp) then TemperatureLimit
    else Clear
  }

  function Trim(history: seq<Telemetry>): seq<Telemetry> {
    if |history| <= WINDOW then history else history[|history| - WINDOW..]
  }

  // A sensor missing from the first sample counts as zero there.
  function ValueOf(sensors: seq<Sensor>, name: string): real {
    if sensors == [] then 0.0
    else if sensors[0].name == name then sensors[0].value
    else ValueOf(sensors[1..], name)
  }

  /** The reading of the first sensor of that name, zero if there is none. */
  lemma {:induction false} ValueOfIs(sensors: seq<Sensor>, name: string, k: nat)
    requires k <= |sensors| && (forall i | 0 <= i < k :: sensors[i].name != name)
    requires k < |sensors| ==> sensors[k].name == name
    ensures ValueOf(sensors, name) == if k < |sensors| then sensors[k].value else 0.0
  {
    if k > 0 { ValueOfIs(sensors[1..], name, k - 1); }
  }

  // rise / elapsed > limit, multiplied out.
  predicate Steep(rise: real, elapsed: real, limit: real) {
    rise > limit * elapsed
  }

  lemma {:induction false} SteepIsRate(rise: real, elapsed: real, limit: real)
    requires elapsed > 0.0
    ensures Steep(rise, elapsed, limit) <==> rise / elapsed > limit
  {
    var rate := rise / elapsed;
    assert rate * elapsed == rise;
    MultiplyAtMost(rate, limit, elapsed);
    MultiplyBelow(limit, rate, elapsed);
  }

  lemma MultiplyAtMost(a: real, b: real, elapsed: real)
    requires elapsed > 0.0
    ensures a <= b ==> a * elapsed <= b * elapsed
  {
  }

  lemma MultiplyBelow(a: real, b: real, elapsed: real)
    requires elapsed > 0.0
    ensures a < b ==> a * elapsed < b * elapsed
  {
  }

  // Some sensor of the last sample is hot and rose faster than the limit since the first.
  predicate Rising(c: Settings, first: Telemetry, sensors: seq<Sensor>, elapsed: real) {
    sensors != []
    && ((sensors[0].value >= c.slopeTemp && Steep(sensors[0].value - ValueOf(first.temperatures, sensors[0].name), elapsed, c.slopeLimit))
        || Rising(c, first, sensors[1..], elapsed))
  }

  // Sensor k of the last sample is hot and rose at more than the limit per second.
  ghost predicate SteepSensor(c: Settings, first: Telemetry, sensors: seq<Sensor>, elapsed: real, k: nat)
    requires elapsed > 0.0
  {
    k < |sensors| && sensors[k].value >= c.slopeTemp
    && (sensors[k].value - ValueOf(first.temperatures, sensors[k].name)) / elapsed > c.slopeLimit
  }

  ghost predicate SomeSteepSensor(c: Settings, first: Telemetry, sensors: seq<Sensor>, elapsed: real)
    requires elapsed > 0.0
  {
    exists k: nat :: SteepSensor(c, first, sensors, elapsed, k)
  }

  lemma {:induction false} RisingIff(c: Settings, first: Telemetry, sensors: seq<Sensor>, elapsed: real)
    requires elapsed > 0.0
    ensures Rising(c, first, sensors, elapsed) <==> SomeSteepSensor(c, first, sensors, elapsed)
  {
    if sensors != [] {
      RisingIff(c, first, sensors[1..], elapsed);
      SteepIsRate(sensors[0].value - ValueOf(first.temperatures, sensors[0].name), elapsed, c.slopeLimit);
      if k: nat :| SteepSensor(c, first, sensors[1..], elapsed, k) {
        assert SteepSensor(c, first, sensors, elapsed, k + 1);
      }
      if k: nat :| SteepSensor(c, first, sensors, elapsed, k) {
        if k > 0 { assert SteepSensor(c, first, sensors[1..], elapsed, k - 1); }
      }
      assert SteepSensor(c, first, sensors, elapsed, 0) <==>
             sensors[0].value >= c.slopeTemp && Steep(sensors[0].value - ValueOf(first.temperatures, sensors[0].name), elapsed, c.slopeLimit);
    }
  }

  function Slope(c: Settings, w: seq<Telemetry>): Reason {
    if |w| < 2 then Clear
    else
      var elapsed := w[|w| - 1].timestamp - w[0].timestamp;
      if elapsed >= 10.0 && Rising(c, w[0], w[|w| - 1].temperatures, elapsed) then TemperatureSlope else Clear
  }

  // Ten seconds from the first to the last sample, over which some hot sensor rose fast.
  ghost predicate SteepWindow(c: Settings, w: seq<Telemetry>) {
    |w| >= 2
    && var first, last := w[0], w[|w| - 1];
       last.timestamp - first.timestamp >= 10.0
       && SomeSteepSensor(c, first, last.temperatures, last.timestamp - first.timestamp)
  }

  /** The slope check reports exactly those windows, whatever the gaps inside them. */
  lemma {:induction false} SlopeIff(c: Settings, w: seq<Telemetry>)
    ensures Slope(c, w) == TemperatureSlope <==> SteepWindow(c, w)
  {
    if |w| >= 2 && w[|w| - 1].timestamp - w[0].timestamp >= 10.0 {
      RisingIff(c, w[0], w[|w| - 1].temperatures, w[|w| - 1].timestamp - w[0].timestamp);
    }
  }

  datatype Verdict = Verdict(history: seq<Telemetry>, reason: Reason)

  function Checked(c: Settings, history: seq<Telemetry>, sample: Option<Telemetry>, now: real): Verdict {
    if sample.None? then Verdict(history, StaleTelemetry)
    else if Fault(c, sample.value, now) != Clear then Verdict(history, Fault(c, sample.value, now))
    else
      var kept := Trim(history + [sample.value]);
      Verdict(kept, Slope(c, kept))
  }

  /** When a check gives which verdict, and that the window is the last eleven samples that
      were given without fault. */
  lemma {:induction false} CheckedIs(c: Settings, history: seq<Telemetry>, sample: Option<Telemetry>, now: real)
    requires |history| <= 11
    ensures var v := Checked(c, history, sample, now);
            var stale := sample == None || now - sample.value.timestamp > c.staleSeconds;
            var hot := sample != None && exists r :: r in sample.value.temperatures && r.value >= c.maxTemp;
            && (v.reason == StaleTelemetry <==> stale)
            && (v.reason == FanCritical <==> !stale && sample.value.fanCritical)
            && (v.reason == DeviceError <==> !stale && !sample.value.fanCritical && sample.value.deviceError)
            && (v.reason == TemperatureLimit <==> !stale && !sample.value.fanCritical && !sample.value.deviceError && hot)
            && v.history == (if v.reason == Clear || v.reason == TemperatureSlope then LastEleven(history + [sample.value]) else history)
            && (v.reason == TemperatureSlope ==> SteepWindow(c, v.history))
            && (v.reason == Clear ==> !SteepWindow(c, v.history))
  {
    if sample.Some? { NoneAtLeast(sample.value.temperatures, c.maxTemp); }
    SlopeIff(c, Checked(c, history, sample, now).history);
  }

  function LastEleven(s: seq<Telemetry>): (r: seq<Telemetry>)
    ensures |s| <= 11 ==> r == s
    ensures |s| > 11 ==> |r| == 11 && r == s[|s| - 11..]
  {
    if |s| <= 11 then s else s[|s| - 11..]
  }

  // Below the limit on every sensor, with no fault reported.
  ghost predicate Sound(c: Settings, s: Telemetry) {
    !s.fanCritical && !s.deviceError && forall r | r in s.temperatures :: r.value < c.maxTemp
  }

  lemma SoundIff(c: Settings, s: Telemetry)
    ensures Sound(c, s) <==> s.fanCritical == false && s.deviceError == false && !exists r :: r in s.temperatures && r.value >= c.maxTemp
  {
  }

  ghost predicate Kept(c: Settings, history: seq<Telemetry>) {
    |history| <= WINDOW && forall s | s in history :: Sound(c, s)
  }

  class Watchdog {
    const settings: Settings
    var history: seq<Telemetry>

    constructor (settings: Settings)
      ensures this.settings == settings && history == []
    {
      this.settings := settings;
      history := [];
    }

    /** Whatever it is shown, the window keeps at most eleven samples, all sound. */
    method Check(sample: Option<Telemetry>, now: real) returns (reason: Reason)
      requires Kept(settings, history)
      modifies this
      ensures Kept(settings, history)
      ensures Verdict(history, reason) == Checked(settings, old(history), sample, now)
      ensures reason in {Clear, TemperatureSlope} <==> sample.Some? && Fault(settings, sample.value, now) == Clear
    {
      if sample.None? || now - sample.value.timestamp > settings.staleSeconds { return StaleTelemetry; }
      var s := sample.value;
      if s.fanCritical { return FanCritical; }
      if s.deviceError { return DeviceError; }
      if AnyAtLeast(s.temperatures, settings.maxTemp) { return TemperatureLimit; }
      NoneAtLeast(s.temperatures, settings.maxTemp);
      history := history + [s];
      if |history| > WINDOW { history := history[|history| - WINDOW..]; }
      if |history| >= 2 {
        var first, last := history[0], history[|history| - 1];
        var elapsed := last.timestamp - first.timestamp;
        if elapsed >= 10.0 && Rising(settings, first, last.temperatures, elapsed) { return TemperatureSlope; }
      }
      return Clear;
    }
  }

  /* ---- The polling loop ---- */

  datatype Poll = Alive | Exited(code: int)

  // One turn: the process, the sample, and the delays before the two clock readings.
  datatype Turn = Turn(poll: Poll, sample: Option<Telemetry>, first: Delay, second: Delay)
  datatype Polled = Polled(samples: seq<Telemetry>, reason: Reason)

  function Recorded(samples: seq<Telemetry>, sample: Option<Telemetry>): seq<Telemetry> {
    if sample.None? then samples else samples + [sample.value]
  }

  // One turn ends the loop, or leaves the samples, the history and the clock at the next one.
  datatype Next = Stop(polled: Polled) | Again(samples: seq<Telemetry>, history: seq<Telemetry>, now: real)

  function PollTurn(c: Settings, t: Turn, timeout: real, now: real, samples: seq<Telemetry>, history: seq<Telemetry>): (next: Next)
    ensures next.Again? ==> now <= timeout && next.now >= now + POLL_SECONDS
  {
    if t.poll.Exited? then Stop(Polled(samples, if t.poll.code != 0 then SubprocessFailure else Clear))
    else
      var seen := Recorded(samples, t.sample);
      var at := now + t.first;
      var verdict := Checked(c, history, t.sample, at);
      if verdict.reason != Clear then Stop(Polled(seen, verdict.reason))
      else if at + t.second > timeout then Stop(Polled(seen, WatchdogTimeout))
      else Again(seen, verdict.history, at + t.second + POLL_SECONDS)
  }

  /** One turn, case by case: an exit ends the loop with its code's verdict, then the check's
      reason does, then a timeout; otherwise the next turn starts 0.05 s later. */
  lemma PollTurnIs(c: Settings, t: Turn, timeout: real, now: real, samples: seq<Telemetry>, history: seq<Telemetry>)
    ensures var next, verdict := PollTurn(c, t, timeout, now, samples, history), Checked(c, history, t.sample, now + t.first);
            var seen := samples + if t.sample.Some? then [t.sample.value] else [];
            var at := now + t.first + t.second;
            next == match t.poll
                    case Exited(code) => Stop(Polled(samples, if code == 0 then Clear else SubprocessFailure))
                    case Alive => if verdict.reason != Clear then Stop(Polled(seen, verdict.reason))
                                  else if at > timeout then Stop(Polled(seen, WatchdogTimeout))
                                  else Again(seen, verdict.history, at + 0.05)
  {
  }

  // The loop from turn i on.
  function Polling(c: Settings, turns: nat -> Turn, timeout: real, i: nat, now: real,
                   samples: seq<Telemetry>, history: seq<Telemetry>): Polled
    decreases ((timeout - now) * 20.0).Floor
  {
    match PollTurn(c, turns(i), timeout, now, samples, history)
    case Stop(polled) => polled
    case Again(seen, kept, later) => Polling(c, turns, timeout, i + 1, later, seen, kept)
  }

  // One turn; `going` says whether there is another.
  method PollOnce(dog: Watchdog, t: Turn, timeout: real, now: real, samples: seq<Telemetry>)
    returns (going: bool, seen: seq<Telemetry>, reason: Reason, later: real)
    requires Kept(dog.settings, dog.history)
    modifies dog
    ensures Kept(dog.settings, dog.history)
    ensures PollTurn(dog.settings, t, timeout, now, samples, old(dog.history))
            == if going then Again(seen, dog.history, later) else Stop(Polled(seen, reason))
  {
    going, seen, later := false, samples, now;
    if t.poll.Exited? {
      reason := if t.poll.code != 0 then SubprocessFailure else Clear;
      return;
    }
    seen := Recorded(samples, t.sample);
    later := now + t.first;
    reason := dog.Check(t.sample, later);
    later := later + t.second;
    if reason == Clear && later > timeout { reason := WatchdogTimeout; }
    going, later := reason == Clear, later + POLL_SECONDS;
  }

  /** The polling loop of `run` over a process already started. */
  method PollProcess(settings: Settings, turns: nat -> Turn, timeout: real) returns (samples: seq<Telemetry>, reason: Reason)
    ensures Polled(samples, reason) == Polling(settings, turns, timeout, 0, 0.0, [], [])
  {
    var dog := new Watchdog(settings);
    ghost var goal := Polling(settings, turns, timeout, 0, 0.0, [], []);
    var now, i := 0.0, 0;
    samples := [];
    while true
      invariant 0 <= i && fresh(dog) && dog.settings == settings && Kept(settings, dog.history)
      invariant goal == Polling(settings, turns, timeout, i, now, samples, dog.history)
      decreases ((timeout - now) * 20.0).Floor
    {
      var going;
      going, samples, reason, now := PollOnce(dog, turns(i), timeout, now, samples);
      if !going { return; }
      i := i + 1;
    }
  }

  /* ---- The slope check needs slow samples ---- */

  // Consecutive timestamps less than a second apart.
  ghost predicate Close(seen: seq<Telemetry>) {
    forall i | 0 < i < |seen| :: seen[i].timestamp - seen[i - 1].timestamp < 1.0
  }

  lemma {:induction false} SpanBelow(seen: seq<Telemetry>, i: nat, j: nat)
    requires Close(seen) && i < j < |seen|
    ensures seen[j].timestamp - seen[i].timestamp < (j - i) as real
  {
    if i + 1 < j { SpanBelow(seen, i, j - 1); }
  }

  // The history is the last eleven of the samples so far.
  ghost predicate IsWindow(history: seq<Telemetry>, seen: seq<Telemetry>) {
    && |history| == (if |seen| <= WINDOW then |seen| else WINDOW)
    && forall i | 0 <= i < |history| :: history[i] == seen[|seen| - |history| + i]
  }

  lemma {:induction false} WindowStep(history: seq<Telemetry>, seen: seq<Telemetry>, s: Telemetry)
    requires IsWindow(history, seen)
    ensures IsWindow(Trim(history + [s]), seen + [s])
  {
    var kept, now := Trim(history + [s]), seen + [s];
    var dropped := |history| + 1 - |kept|;
    forall i | 0 <= i < |kept|
      ensures kept[i] == now[|now| - |kept| + i]
    {
      assert kept[i] == (history + [s])[dropped + i];
      if dropped + i < |history| { assert history[dropped + i] == seen[|seen| - |history| + dropped + i]; }
    }
  }

  lemma {:induction false} CloseWindowIsFlat(c: Settings, history: seq<Telemetry>, seen: seq<Telemetry>)
    requires Close(seen) && IsWindow(history, seen)
    ensures Slope(c, history) == Clear
  {
    if |history| >= 2 { SpanBelow(seen, |seen| - |history|, |seen| - 1); }
  }

  /** Over any run whose consecutive samples are less than a second apart the slope is
      never reported: eleven such samples span less than ten seconds. */
  lemma {:induction false} CloseRunsNeverSlope(c: Settings, turns: nat -> Turn, timeout: real, i: nat, now: real,
                                               samples: seq<Telemetry>, history: seq<Telemetry>)
    requires IsWindow(history, samples)
    ensures var p := Polling(c, turns, timeout, i, now, samples, history);
            Close(p.samples) ==> p.reason != TemperatureSlope
    decreases ((timeout - now) * 20.0).Floor
  {
    CloseTurn(c, turns(i), timeout, now, samples, history);
    var next := PollTurn(c, turns(i), timeout, now, samples, history);
    if next.Again? { CloseRunsNeverSlope(c, turns, timeout, i + 1, next.now, next.samples, next.history); }
  }

  lemma {:induction false} CloseTurn(c: Settings, t: Turn, timeout: real, now: real, samples: seq<Telemetry>, history: seq<Telemetry>)
    requires IsWindow(history, samples)
    ensures var next := PollTurn(c, t, timeout, now, samples, history);
            && (next.Again? ==> IsWindow(next.history, next.samples))
            && (next.Stop? && Close(next.polled.samples) ==> next.polled.reason != TemperatureSlope)
  {
    if t.sample.Some? {
      var kept := Trim(history + [t.sample.value]);
      WindowStep(history, samples, t.sample.value);
      if Close(Recorded(samples, t.sample)) { CloseWindowIsFlat(c, kept, Recorded(samples, t.sample)); }
    }
  }

  // Where the window of the first m samples starts: eleven back, or at the beginning.
  function WindowStart(m: nat): nat {
    if m <= WINDOW then 0 else m - WINDOW
  }

  // The slope check of the window that ends with sample m - 1.
  function SlopeAt(c: Settings, seen: seq<Telemetry>, m: nat): Reason
    requires m <= |seen|
  {
    if m < 2 then Clear
    else
      var first, last := seen[WindowStart(m)], seen[m - 1];
      var elapsed := last.timestamp - first.timestamp;
      if elapsed >= 10.0 && Rising(c, first, last.temperatures, elapsed) then TemperatureSlope else Clear
  }

  lemma SlopeAtEnd(c: Settings, history: seq<Telemetry>, seen: seq<Telemetry>)
    requires IsWindow(history, seen)
    ensures Slope(c, history) == SlopeAt(c, seen, |seen|)
  {
    if |history| >= 2 {
      assert history[0] == seen[|seen| - |history|] && history[|history| - 1] == seen[|seen| - 1];
    }
  }

  // Over the last eleven of the first m samples, ten seconds passed and a hot sensor rose fast.
  ghost predicate SteepAt(c: Settings, seen: seq<Telemetry>, m: nat)
    requires m <= |seen|
  {
    m >= 2
    && var first, last := seen[WindowStart(m)], seen[m - 1];
       last.timestamp - first.timestamp >= 10.0
       && SomeSteepSensor(c, first, last.temperatures, last.timestamp - first.timestamp)
  }

  lemma {:induction false} SlopeAtIff(c: Settings, seen: seq<Telemetry>, m: nat)
    requires m <= |seen|
    ensures SlopeAt(c, seen, m) == TemperatureSlope <==> SteepAt(c, seen, m)
  {
    if m >= 2 {
      var first, last := seen[WindowStart(m)], seen[m - 1];
      if last.timestamp - first.timestamp >= 10.0 {
        RisingIff(c, first, last.temperatures, last.timestamp - first.timestamp);
      }
    }
  }

  /** On every run the slope is reported at the first sample whose window of last eleven is
      steep, unless that sample is itself at fault, and at no other. */
  lemma {:induction false} RunsReportFirstSteepWindow(c: Settings, turns: nat -> Turn, timeout: real)
    ensures var p := Polling(c, turns, timeout, 0, 0.0, [], []);
            && (forall m | 0 <= m < |p.samples| :: !SteepAt(c, p.samples, m))
            && (p.reason == TemperatureSlope ==> SteepAt(c, p.samples, |p.samples|))
            && (p.reason in {Clear, WatchdogTimeout, SubprocessFailure} ==> !SteepAt(c, p.samples, |p.samples|))
  {
    var p := Polling(c, turns, timeout, 0, 0.0, [], []);
    SlopesOfRun(c, turns, timeout, 0, 0.0, [], []);
    forall m | 0 <= m < |p.samples|
      ensures !SteepAt(c, p.samples, m)
    {
      SlopeAtIff(c, p.samples, m);
    }
    SlopeAtIff(c, p.samples, |p.samples|);
  }

  lemma {:induction false} SlopesOfRun(c: Settings, turns: nat -> Turn, timeout: real, i: nat, now: real,
                                       samples: seq<Telemetry>, history: seq<Telemetry>)
    requires IsWindow(history, samples) && SlopeAt(c, samples, |samples|) == Clear
    ensures var p := Polling(c, turns, timeout, i, now, samples, history);
            && samples <= p.samples && (forall m | |samples| <= m < |p.samples| :: SlopeAt(c, p.samples, m) == Clear)
            && (p.reason == TemperatureSlope ==> SlopeAt(c, p.samples, |p.samples|) == TemperatureSlope)
            && (p.reason in {Clear, WatchdogTimeout, SubprocessFailure} ==> SlopeAt(c, p.samples, |p.samples|) == Clear)
    decreases ((timeout - now) * 20.0).Floor
  {
    WindowTurn(c, turns(i), timeout, now, samples, history);
    var next := PollTurn(c, turns(i), timeout, now, samples, history);
    if next.Again? {
      SlopesOfRun(c, turns, timeout, i + 1, next.now, next.samples, next.history);
      assert samples <= next.samples;
    }
    SlopeAtPrefix(c, samples, Polling(c, turns, timeout, i, now, samples, history).samples);
  }

  lemma SlopeAtPrefix(c: Settings, seen: seq<Telemetry>, more: seq<Telemetry>)
    requires seen <= more
    ensures SlopeAt(c, seen, |seen|) == SlopeAt(c, more, |seen|)
  {
  }

  lemma {:induction false} WindowTurn(c: Settings, t: Turn, timeout: real, now: real, samples: seq<Telemetry>, history: seq<Telemetry>)
    requires IsWindow(history, samples) && SlopeAt(c, samples, |samples|) == Clear
    ensures var next := PollTurn(c, t, timeout, now, samples, history);
            if next.Again? then
              IsWindow(next.history, next.samples) && SlopeAt(c, next.samples, |next.samples|) == Clear
              && samples <= next.samples && |next.samples| == |samples| + 1
            else
              var seen, reason := next.polled.samples, next.polled.reason;
              && samples <= seen && |seen| <= |samples| + 1
              && (reason == TemperatureSlope ==> SlopeAt(c, seen, |seen|) == TemperatureSlope)
              && (reason in {Clear, WatchdogTimeout, SubprocessFailure} ==> SlopeAt(c, seen, |seen|) == Clear)
  {
    SlopeTurn(c, t, timeout, now, samples, history);
    if t.sample.Some? {
      WindowStep(history, samples, t.sample.value);
      SlopeAtEnd(c, Trim(history + [t.sample.value]), samples + [t.sample.value]);
    }
  }

  // A turn records its sample, if any, and reports the slope of the window it makes.
  lemma SlopeTurn(c: Settings, t: Turn, timeout: real, now: real, samples: seq<Telemetry>, history: seq<Telemetry>)
    ensures var next := PollTurn(c, t, timeout, now, samples, history);
            if next.Again? then
              t.sample.Some? && next.samples == samples + [t.sample.value]
              && next.history == Trim(history + [t.sample.value]) && Slope(c, next.history) == Clear
            else if t.poll.Exited? || t.sample.None? then
              next.polled.samples == samples && next.polled.reason in {Clear, SubprocessFailure, StaleTelemetry}
            else
              && next.polled.samples == samples + [t.sample.value]
              && next.polled.reason !in {Clear, SubprocessFailure}
              && (next.polled.reason == TemperatureSlope ==> Slope(c, Trim(history + [t.sample.value])) == TemperatureSlope)
              && (next.polled.reason == WatchdogTimeout ==> Slope(c, Trim(history + [t.sample.value])) == Clear)
  {
  }

  /** A run the loop lets finish recorded only sound samples and saw the process exit 0. */
  lemma {:induction false} ClearRunsAreSound(c: Settings, turns: nat -> Turn, timeout: real, i: nat, now: real,
                                             samples: seq<Telemetry>, history: seq<Telemetry>)
    requires forall s | s in samples :: Sound(c, s)
    requires Polling(c, turns, timeout, i, now, samples, history).reason == Clear
    ensures forall s | s in Polling(c, turns, timeout, i, now, samples, history).samples :: Sound(c, s)
    ensures exists n :: i <= n && turns(n).poll == Exited(0) && forall j | i <= j < n :: turns(j).poll == Alive && turns(j).sample.Some?
    decreases ((timeout - now) * 20.0).Floor
  {
    var next := PollTurn(c, turns(i), timeout, now, samples, history);
    SoundTurn(c, turns(i), timeout, now, samples, history);
    if next.Again? {
      ClearRunsAreSound(c, turns, timeout, i + 1, next.now, next.samples, next.history);
    }
  }

  lemma SoundTurn(c: Settings, t: Turn, timeout: real, now: real, samples: seq<Telemetry>, history: seq<Telemetry>)
    requires forall s | s in samples :: Sound(c, s)
    ensures var next := PollTurn(c, t, timeout, now, samples, history);
            && (next.Again? ==> t.poll.Alive? && t.sample.Some? && forall s | s in next.samples :: Sound(c, s))
            && (next.Stop? && next.polled.reason == Clear ==> t.poll == Exited(0) && next.polled.samples == samples)
  {
    if t.sample.Some? { NoneAtLeast(t.sample.value.temperatures, c.maxTemp); }
  }
}
