/** The memory-pressure state machine with hysteresis (core/src/supervision/pressureProbe.ts). */
module Pressure {
  import opened Base

  datatype PressureState = Normal | Amber | Red

  function Rank(s: PressureState): nat {
    match s
    case Normal => 0
    case Amber => 1
    case Red => 2
  }

  datatype Reading = Reading(pressureLevel: real, freeRamPct: real, swapUsedBytes: real, pageoutRate: real)

  datatype Thresholds = Thresholds(
    amberLevel: real, redLevel: real, amberFreeRamPct: real, redFreeRamPct: real,
    amberSwapBytes: real, redSwapBytes: real, amberPageoutRate: real, redPageoutRate: real)

  // Thresholds with the de-escalation margins.
  datatype Settings = Settings(t: Thresholds, hFree: real, hSwap: real)

  predicate RedLine(t: Thresholds, r: Reading, hFree: real, hSwap: real) {
    || r.pressureLevel >= t.redLevel
    || r.freeRamPct < t.redFreeRamPct + hFree
    || r.swapUsedBytes > t.redSwapBytes - hSwap
    || r.pageoutRate >= t.redPageoutRate
  }

  predicate AmberLine(t: Thresholds, r: Reading, hFree: real, hSwap: real) {
    || r.pressureLevel >= t.amberLevel
    || r.freeRamPct < t.amberFreeRamPct + hFree
    || r.swapUsedBytes > t.amberSwapBytes - hSwap
    || r.pageoutRate >= t.amberPageoutRate
  }

  function RawState(t: Thresholds, r: Reading): PressureState {
    if RedLine(t, r, 0.0, 0.0) then Red else if AmberLine(t, r, 0.0, 0.0) then Amber else Normal
  }

  function WithHysteresis(m: Settings, prior: PressureState, target: PressureState, r: Reading): PressureState {
    if Rank(target) >= Rank(prior) then target
    else if prior.Red? && RedLine(m.t, r, m.hFree, m.hSwap) then Red
    else if AmberLine(m.t, r, m.hFree, m.hSwap) then Amber
    else Normal
  }

  // One evaluate(): a probe without a signal, or one that threw, holds the state.
  function Evaluate(m: Settings, prior: PressureState, reading: Option<Reading>): PressureState {
    if reading.None? then prior else WithHysteresis(m, prior, RawState(m.t, reading.value), reading.value)
  }

  ghost function Run(m: Settings, start: PressureState, readings: seq<Option<Reading>>): PressureState
    decreases |readings|
  {
    if readings == [] then start
    else Evaluate(m, Run(m, start, readings[..|readings| - 1]), readings[|readings| - 1])
  }

  ghost predicate Sane(m: Settings) { m.hFree >= 0.0 && m.hSwap >= 0.0 }

  ghost function LatestSignal(readings: seq<Option<Reading>>): Option<Reading>
    decreases |readings|
  {
    if readings == [] then None
    else if readings[|readings| - 1].Some? then readings[|readings| - 1]
    else LatestSignal(readings[..|readings| - 1])
  }

  /** The state is never below the raw band of the latest reading. */
  lemma {:induction false} NeverBelowRaw(m: Settings, start: PressureState, readings: seq<Option<Reading>>)
    requires Sane(m)
    ensures LatestSignal(readings).Some? ==>
      Rank(RawState(m.t, LatestSignal(readings).value)) <= Rank(Run(m, start, readings))
    decreases |readings|
  {
    if readings != [] && readings[|readings| - 1].None? {
      NeverBelowRaw(m, start, readings[..|readings| - 1]);
    }
  }

  lemma StepTwice(m: Settings, prior: PressureState, r: Option<Reading>)
    requires Sane(m)
    ensures Evaluate(m, Evaluate(m, prior, r), r) == Evaluate(m, prior, r)
  {
  }

  /** A reading that repeats changes nothing after its first step. */
  lemma {:induction false} RepeatIsFixedPoint(m: Settings, start: PressureState, readings: seq<Option<Reading>>, r: Option<Reading>, n: nat)
    requires Sane(m)
    ensures Run(m, start, readings + [r] + seq(n, k => r)) == Run(m, start, readings + [r])
    decreases n
  {
    var base := readings + [r];
    if n == 0 {
      assert base + seq(0, k => r) == base;
    } else {
      var all := base + seq(n, k => r);
      assert all[..|all| - 1] == base + seq(n - 1, k => r) && all[|all| - 1] == r;
      RepeatIsFixedPoint(m, start, readings, r, n - 1);
      assert base[..|base| - 1] == readings;
      StepTwice(m, Run(m, start, readings), r);
    }
  }

  ghost predicate NoWorse(a: Reading, b: Reading) {
    && a.pressureLevel <= b.pressureLevel && a.freeRamPct >= b.freeRamPct
    && a.swapUsedBytes <= b.swapUsedBytes && a.pageoutRate <= b.pageoutRate
  }

  ghost predicate PointwiseNoWorse(a: seq<Option<Reading>>, b: seq<Option<Reading>>) {
    && |a| == |b|
    && forall i | 0 <= i < |a| :: (a[i].Some? <==> b[i].Some?) && (a[i].Some? ==> NoWorse(a[i].value, b[i].value))
  }

  lemma StepMonotone(m: Settings, p: PressureState, q: PressureState, a: Reading, b: Reading)
    requires Sane(m) && Rank(p) <= Rank(q) && NoWorse(a, b)
    ensures Rank(Evaluate(m, p, Some(a))) <= Rank(Evaluate(m, q, Some(b)))
  {
  }

  /** Monotone over whole runs: pointwise worse readings from a worse start never end lower. */
  lemma {:induction false} RunMonotone(m: Settings, p: PressureState, q: PressureState, a: seq<Option<Reading>>, b: seq<Option<Reading>>)
    requires Sane(m) && Rank(p) <= Rank(q) && PointwiseNoWorse(a, b)
    ensures Rank(Run(m, p, a)) <= Rank(Run(m, q, b))
    decreases |a|
  {
    if a != [] {
      var n := |a| - 1;
      RunMonotone(m, p, q, a[..n], b[..n]);
      if a[n].Some? {
        StepMonotone(m, Run(m, p, a[..n]), Run(m, q, b[..n]), a[n].value, b[n].value);
      }
    }
  }

  /** The margins must not be negative: a reading in the amber band can otherwise take a red
      monitor straight to normal. */
  lemma NegativeMarginDropsBelowRaw()
    ensures var m := Settings(Thresholds(2.0, 4.0, 25.0, 12.0, 20.0, 26.0, 1.0, 100.0), -10.0, 0.0);
      var r := Reading(1.0, 20.0, 0.0, 0.0);
      RawState(m.t, r) == Amber && Evaluate(m, Red, Some(r)) == Normal
  {
  }

  // The amber band is wider than the red one.
  ghost predicate Ordered(t: Thresholds) { t.redFreeRamPct < t.amberFreeRamPct && t.amberSwapBytes < t.redSwapBytes }

  // Everything at rest except one signal.
  ghost function Calm(t: Thresholds, free: real, swap: real): Reading {
    Reading((if t.amberLevel < t.redLevel then t.amberLevel else t.redLevel) - 1.0, free, swap,
            (if t.amberPageoutRate < t.redPageoutRate then t.amberPageoutRate else t.redPageoutRate) - 1.0)
  }

  /** Exactly which margins keep every single step at or above the raw band. */
  lemma NeverBelowRawIff(m: Settings)
    requires Ordered(m.t)
    ensures (forall prior, r :: Rank(RawState(m.t, r)) <= Rank(Evaluate(m, prior, Some(r)))) <==> Sane(m)
  {
    var t := m.t;
    var lowSwap := (if m.hSwap > 0.0 then t.amberSwapBytes - m.hSwap else t.amberSwapBytes) - 1.0;
    var highFree := (if m.hFree > 0.0 then t.amberFreeRamPct + m.hFree else t.amberFreeRamPct) + 1.0;
    if m.hFree < 0.0 {
      var edge := t.amberFreeRamPct + m.hFree;
      var r := Calm(t, if edge < t.redFreeRamPct then t.redFreeRamPct else edge, lowSwap);
      assert RawState(t, r) == Amber && Evaluate(m, Red, Some(r)) == Normal;
    } else if m.hSwap < 0.0 {
      var edge := t.amberSwapBytes - m.hSwap;
      var r := Calm(t, highFree, if edge > t.redSwapBytes then t.redSwapBytes else edge);
      assert RawState(t, r) == Amber && Evaluate(m, Red, Some(r)) == Normal;
    }
  }

  // ---- what hysteresis is -------------------------------------------------------------------------

  function Higher(a: PressureState, b: PressureState): PressureState { if Rank(a) < Rank(b) then b else a }
  function Lower(a: PressureState, b: PressureState): PressureState { if Rank(a) < Rank(b) then a else b }

  // The reading made worse by the margins.
  function Shifted(m: Settings, r: Reading): Reading {
    r.(freeRamPct := r.freeRamPct - m.hFree, swapUsedBytes := r.swapUsedBytes + m.hSwap)
  }

  // Each red line lies at or beyond its amber line.
  ghost predicate Nested(t: Thresholds) {
    && t.amberLevel <= t.redLevel && t.redFreeRamPct <= t.amberFreeRamPct
    && t.amberSwapBytes <= t.redSwapBytes && t.amberPageoutRate <= t.redPageoutRate
  }

  /** Hysteresis is a clamp: the prior state, brought into the interval from the raw band of the
      reading to the raw band of the reading worsened by the margins. */
  lemma HysteresisIsClamp(m: Settings, prior: PressureState, r: Reading)
    requires Sane(m) && Nested(m.t)
    ensures Evaluate(m, prior, Some(r)) == Higher(RawState(m.t, r), Lower(prior, RawState(m.t, Shifted(m, r))))
    ensures Rank(RawState(m.t, r)) <= Rank(RawState(m.t, Shifted(m, r)))
  {
  }

  // No reading escalates past the state, and none clears it by the margins.
  ghost predicate Within(m: Settings, readings: seq<Option<Reading>>, s: PressureState) {
    forall i | 0 <= i < |readings| && readings[i].Some? ::
      Rank(RawState(m.t, readings[i].value)) <= Rank(s) <= Rank(RawState(m.t, Shifted(m, readings[i].value)))
  }

  /** No flapping: the state holds for as long as readings neither escalate past it nor clear it
      by the margins. */
  lemma {:induction false} NoFlapping(m: Settings, start: PressureState, readings: seq<Option<Reading>>)
    requires Sane(m) && Nested(m.t) && Within(m, readings, start)
    ensures Run(m, start, readings) == start
    decreases |readings|
  {
    if readings != [] {
      var n := |readings| - 1;
      NoFlapping(m, start, readings[..n]);
      if readings[n].Some? {
        HysteresisIsClamp(m, start, readings[n].value);
      }
    }
  }

  // ---- the lines, on the reading itself ------------------------------------------------------------

  /** What one reading does, from every prior state and for all margins that are not negative.
      A signal past its red line gives red and one past its amber line at least amber.  From normal
      nothing else raises the state; red is held by a signal within its margin of the red line, and
      what is not red is amber exactly for a signal past its amber line or, unless the state was
      normal, within its margin of it. */
  lemma ReadingDecides(m: Settings, prior: PressureState, r: Reading)
    requires Sane(m)
    ensures var (t, after) := (m.t, Evaluate(m, prior, Some(r)));
      && (r.pressureLevel >= t.redLevel ==> after == Red)
      && (r.freeRamPct < t.redFreeRamPct ==> after == Red)
      && (r.swapUsedBytes > t.redSwapBytes ==> after == Red)
      && (r.pageoutRate >= t.redPageoutRate ==> after == Red)
      && (r.pressureLevel >= t.amberLevel ==> after != Normal)
      && (r.freeRamPct < t.amberFreeRamPct ==> after != Normal)
      && (r.swapUsedBytes > t.amberSwapBytes ==> after != Normal)
      && (r.pageoutRate >= t.amberPageoutRate ==> after != Normal)
    ensures var (t, after) := (m.t, Evaluate(m, prior, Some(r)));
      var (hFree, hSwap) := if prior.Red? then (m.hFree, m.hSwap) else (0.0, 0.0);
      after == Red ==>
        || r.pressureLevel >= t.redLevel || r.freeRamPct < t.redFreeRamPct + hFree
        || r.swapUsedBytes > t.redSwapBytes - hSwap || r.pageoutRate >= t.redPageoutRate
    ensures prior.Red? ==> (Evaluate(m, prior, Some(r)) == Red <==>
      || r.pressureLevel >= m.t.redLevel || r.freeRamPct < m.t.redFreeRamPct + m.hFree
      || r.swapUsedBytes > m.t.redSwapBytes - m.hSwap || r.pageoutRate >= m.t.redPageoutRate)
    ensures var (t, after) := (m.t, Evaluate(m, prior, Some(r)));
      var (hFree, hSwap) := if prior.Normal? then (0.0, 0.0) else (m.hFree, m.hSwap);
      after != Red ==> (after == Amber <==>
        || r.pressureLevel >= t.amberLevel || r.freeRamPct < t.amberFreeRamPct + hFree
        || r.swapUsedBytes > t.amberSwapBytes - hSwap || r.pageoutRate >= t.amberPageoutRate)
  {
  }

  /** The same over every run: the state answers for the latest signal there was. */
  lemma {:induction false} RunAnswersForLatest(m: Settings, start: PressureState, readings: seq<Option<Reading>>, r: Reading)
    requires Sane(m) && LatestSignal(readings) == Some(r)
    ensures (|| r.pressureLevel >= m.t.redLevel || r.freeRamPct < m.t.redFreeRamPct
             || r.swapUsedBytes > m.t.redSwapBytes || r.pageoutRate >= m.t.redPageoutRate)
      ==> Run(m, start, readings) == Red
    ensures (|| r.pressureLevel >= m.t.amberLevel || r.freeRamPct < m.t.amberFreeRamPct
             || r.swapUsedBytes > m.t.amberSwapBytes || r.pageoutRate >= m.t.amberPageoutRate)
      ==> Run(m, start, readings) != Normal
    decreases |readings|
  {
    hide Evaluate;
    var n := |readings| - 1;
    if readings[n].Some? {
      ReadingDecides(m, Run(m, start, readings[..n]), r);
    } else {
      RunAnswersForLatest(m, start, readings[..n], r);
      assert Run(m, start, readings) == Run(m, start, readings[..n]) by { NoSignalHolds(m, Run(m, start, readings[..n])); }
    }
  }

  lemma NoSignalHolds(m: Settings, prior: PressureState)
    ensures Evaluate(m, prior, None) == prior
  {
  }

  // ---- the monitor ------------------------------------------------------------------------------------

  class PressureMonitor {
    const settings: Settings
    var current: PressureState
    ghost var history: seq<Option<Reading>>  // what every evaluate() so far read from the probe

    ghost predicate Valid()
      reads this
    {
      current == Run(settings, Normal, history)
    }

    constructor (settings: Settings)
      ensures Valid() && current == Normal && history == [] && this.settings == settings
    {
      this.settings := settings;
      current := Normal;
      history := [];
    }

    /** One evaluate().  Without a signal the state is held; otherwise it is the old state clamped
        between the raw band of the reading and that of the reading worsened by the margins; and
        it is never below the raw band of the latest signal there was. */
    method EvaluateNow(reading: Option<Reading>) returns (state: PressureState)
      requires Valid()
      modifies this
      ensures Valid() && history == old(history) + [reading] && state == current
      ensures reading.None? ==> current == old(current)
      ensures Sane(settings) && Nested(settings.t) && reading.Some? ==>
        current == Higher(RawState(settings.t, reading.value), Lower(old(current), RawState(settings.t, Shifted(settings, reading.value))))
      ensures Sane(settings) && LatestSignal(history).Some? ==> Rank(RawState(settings.t, LatestSignal(history).value)) <= Rank(current)
      ensures Sane(settings) && reading.Some? ==>
        && (reading.value.pressureLevel >= settings.t.redLevel ==> current == Red)
        && (reading.value.freeRamPct < settings.t.redFreeRamPct ==> current == Red)
        && (reading.value.swapUsedBytes > settings.t.redSwapBytes ==> current == Red)
        && (reading.value.pageoutRate >= settings.t.redPageoutRate ==> current == Red)
        && (reading.value.pressureLevel >= settings.t.amberLevel ==> current != Normal)
        && (reading.value.freeRamPct < settings.t.amberFreeRamPct ==> current != Normal)
        && (reading.value.swapUsedBytes > settings.t.amberSwapBytes ==> current != Normal)
        && (reading.value.pageoutRate >= settings.t.amberPageoutRate ==> current != Normal)
    {
      if reading.Some? {
        var target := RawState(settings.t, reading.value);
        current := WithHysteresis(settings, current, target, reading.value);
        if Sane(settings) && Nested(settings.t) {
          HysteresisIsClamp(settings, old(current), reading.value);
        }
      }
      history := history + [reading];
      assert history[..|history| - 1] == old(history);
      if Sane(settings) {
        if reading.Some? {
          ReadingDecides(settings, old(current), reading.value);
        }
        NeverBelowRaw(settings, Normal, history);
      }
      state := current;
    }
  }
}
