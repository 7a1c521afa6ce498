/** How close the returned time is to PTP time, and that it converges at a constant rate. */
module ClockAccuracy {
  import Basics
  import opened PtpTimes
  import opened Clocks
  import opened ClockRuns
  import opened ClockConvergence

  /** The true PTP time at `now`, at most `maxGap` of local time after the reference point. */
  predicate SteadyReading(e: ClockState, now: Instant, ptp: PtpTime, rate: real, maxGap: real, noise: real) {
    var gap := (now - e.lastInstant) as real;
    && 0.0 <= gap <= maxGap
    && RealAbs((AsNanos(ptp) - AsNanos(e.lastPtp)) as real - Predicted(gap, rate)) <= noise
  }

  /** The error after `n` resyncs: interpolation at the wrong frequency, phase offset, reading and rounding. */
  function TimeBound(n: nat, initial: real, maxGap: real, noise: real): real {
    maxGap * FrequencyBound(n, initial, noise) + PhaseBound(n, initial, maxGap, noise) + noise + 0.5
  }

  /** What is left of it for large `n`. */
  function ErrorFloor(maxGap: real, noise: real): real {
    2.0 * PhaseNoise(maxGap, noise) + 0.5
  }

  // ----- One estimate -----

  lemma EstimateError(s0: ClockState, e: ClockState, now: Instant, ptp: PtpTime, n: nat, rate: real, maxGap: real,
                      noise: real)
    requires PllBounds(e) && Converged(s0, e, n, rate, maxGap, noise)
    requires SteadyReading(e, now, ptp, rate, maxGap, noise) && RawElapsed(e, now).Ok?
    ensures Within(RawElapsed(e, now).value, TrueElapsed(e, ptp), TimeBound(n, FrequencyError(s0, rate), maxGap, noise))
  {
    hide *;
    ReadingParts(e, now, ptp, rate, maxGap, noise);
    ConvergedParts(s0, e, n, rate, maxGap, noise);
    ExactParts(e, now);
    var gap := (now - e.lastInstant) as real;
    RoundNearest(Predicted(gap, e.frequency));
    PredictedApart(gap, e.frequency, rate);
    AbsNonNegative(e.frequency - rate);
    InterpolationError(gap, maxGap, RealAbs(e.frequency - rate), n, FrequencyError(s0, rate), noise);
    ErrorParts(e, ptp, RawElapsed(e, now).value, gap, rate, maxGap, noise, Round(Predicted(gap, e.frequency)), n,
               FrequencyError(s0, rate));
  }

  lemma ReadingParts(e: ClockState, now: Instant, ptp: PtpTime, rate: real, maxGap: real, noise: real)
    requires SteadyReading(e, now, ptp, rate, maxGap, noise)
    ensures e.lastInstant <= now && (now - e.lastInstant) as real <= maxGap
    ensures var gap := (now - e.lastInstant) as real;
            RealAbs((AsNanos(ptp) - AsNanos(e.lastPtp)) as real - Predicted(gap, rate)) <= noise
  {
    hide AsNanos, Predicted, RealAbs;
  }

  lemma ConvergedParts(s0: ClockState, e: ClockState, n: nat, rate: real, maxGap: real, noise: real)
    requires Converged(s0, e, n, rate, maxGap, noise)
    ensures RealAbs(e.frequency - rate) <= FrequencyBound(n, FrequencyError(s0, rate), noise)
    ensures RealAbs(e.phase as real) <= PhaseBound(n, FrequencyError(s0, rate), maxGap, noise)
  {
    hide RealAbs, FrequencyBound, PhaseBound;
  }

  lemma ExactParts(e: ClockState, now: Instant)
    requires PllBounds(e) && e.lastInstant <= now && RawElapsed(e, now).Ok?
    ensures RawElapsed(e, now).value
         == AsNanos(e.lastPtp) - AsNanos(e.initial) + Round(Predicted((now - e.lastInstant) as real, e.frequency))
            + e.phase
  {
    hide RawElapsed, AsNanos, Round, Predicted, PllBounds;
    EstimateIsExactSum(e, now);
  }

  lemma InterpolationError(gap: real, maxGap: real, error: real, n: nat, initial: real, noise: real)
    requires 0.0 <= gap <= maxGap && 0.0 <= error <= FrequencyBound(n, initial, noise)
    ensures error * gap <= maxGap * FrequencyBound(n, initial, noise)
  {
    hide FrequencyBound;
    ProductMonotone(error, FrequencyBound(n, initial, noise), gap);
    ProductMonotone(gap, maxGap, FrequencyBound(n, initial, noise));
  }

  /** The sum of the errors of the parts. */
  lemma ErrorParts(e: ClockState, ptp: PtpTime, raw: int, gap: real, rate: real, maxGap: real, noise: real,
                   rounded: int, n: nat, initial: real)
    requires raw == AsNanos(e.lastPtp) - AsNanos(e.initial) + rounded + e.phase
    requires -0.5 <= rounded as real - Predicted(gap, e.frequency) <= 0.5
    requires RealAbs(Predicted(gap, e.frequency) - Predicted(gap, rate)) <= maxGap * FrequencyBound(n, initial, noise)
    requires RealAbs(e.phase as real) <= PhaseBound(n, initial, maxGap, noise)
    requires RealAbs((AsNanos(ptp) - AsNanos(e.lastPtp)) as real - Predicted(gap, rate)) <= noise
    ensures Within(raw, TrueElapsed(e, ptp), TimeBound(n, initial, maxGap, noise))
  {
    hide AsNanos, Predicted, FrequencyBound, PhaseBound;
    assert (AsNanos(ptp) - AsNanos(e.lastPtp)) as real
        == TrueElapsed(e, ptp) as real - (AsNanos(e.lastPtp) - AsNanos(e.initial)) as real;
  }

  // ----- Whole runs -----

  lemma {:induction false} StateAfterSnoc(s: ClockState, calls: seq<Call>, c: Call)
    ensures StateAfter(s, calls + [c]) == Step(StateAfter(s, calls), c).0
    decreases |calls|
  {
    hide Step;
    if calls == [] {
      assert [] + [c] == [c] && [c][1..] == [];
    } else {
      assert (calls + [c])[1..] == calls[1..] + [c];
      StateAfterSnoc(Step(s, calls[0]).0, calls[1..], c);
    }
  }

  /** The state a call estimates in has been driven by all resyncs up to it. */
  lemma EstimatorIsResynced(s: ClockState, calls: seq<Call>, c: Call)
    requires PllBounds(s)
    ensures PllOnly(Estimator(StateAfter(s, calls), c)) == PllOnly(Resynced(s, ResyncSamples(s, calls + [c])))
    ensures Estimator(StateAfter(s, calls), c).initial == s.initial
  {
    hide *;
    RunDrivesPll(s, calls + [c]);
    StateAfterSnoc(s, calls, c);
    StepIsResync(StateAfter(s, calls), c);
    RunKeepsBounds(s, calls);
    EstimatorInitial(StateAfter(s, calls), c);
  }

  lemma EstimatorInitial(b: ClockState, c: Call)
    ensures Estimator(b, c).initial == b.initial
  {
    if Resyncs(b, c) {
      RelockedKeeps(b, c.now, c.reading.value);
    }
    hide Relocked, ResyncDue;
  }

  lemma ConvergedIgnoresFloor(s0: ClockState, a: ClockState, b: ClockState, n: nat, rate: real, maxGap: real,
                              noise: real)
    requires PllOnly(a) == PllOnly(b) && PllBounds(b) && Converged(s0, b, n, rate, maxGap, noise)
    ensures PllBounds(a) && Converged(s0, a, n, rate, maxGap, noise)
  {
    assert b == a.(lastReturned := b.lastReturned);
    hide FrequencyBound, PhaseBound, RealAbs;
  }

  /** Never late by more than the bound, and early by more only while the floor creeps up by nanoseconds. */
  predicate OnTime(returned: int, floor: int, truth: int, bound: real) {
    && truth as real - bound <= returned as real
    && (returned as real <= truth as real + bound || returned == floor + 1)
  }

  /**
   * At a constant true rate the returned time converges: after a run with `n` resyncs a successful call
   * is late by at most `(1 + n/10) * maxGap * 0.9^n` times the initial frequency error, plus an error
   * floor of reading noise and rounding; and early by at most that, unless an earlier value still
   * holds the floor up, when it advances by one nanosecond.
   */
  lemma {:induction false} TimeConverges(s: ClockState, calls: seq<Call>, c: Call, ptp: PtpTime, rate: real,
                                         maxGap: real, noise: real)
    requires PllBounds(s) && s.phase == 0 && Admissible(rate, maxGap, noise)
    requires SteadySamples(s, ResyncSamples(s, calls + [c]), rate, maxGap, noise)
    requires SteadyReading(Estimator(StateAfter(s, calls), c), c.now, ptp, rate, maxGap, noise)
    ensures var b, n := StateAfter(s, calls), |ResyncSamples(s, calls + [c])|;
            var r := Step(b, c).1;
            r.Ok? ==> OnTime(r.value, b.lastReturned, TrueElapsed(s, ptp),
                             TimeBound(n, FrequencyError(s, rate), maxGap, noise))
  {
    hide *;
    var b, samples := StateAfter(s, calls), ResyncSamples(s, calls + [c]);
    var e := Estimator(b, c);
    PllConverges(s, samples, rate, maxGap, noise);
    EstimatorIsResynced(s, calls, c);
    ConvergedIgnoresFloor(s, e, Resynced(s, samples), |samples|, rate, maxGap, noise);
    StepShape(b, c);
    if Step(b, c).1.Ok? {
      EstimateError(s, e, c.now, ptp, |samples|, rate, maxGap, noise);
      SameTruth(s, e, ptp);
      FlooredOnTime(RawElapsed(e, c.now).value, b.lastReturned, TrueElapsed(s, ptp),
                    TimeBound(|samples|, FrequencyError(s, rate), maxGap, noise));
    }
  }

  lemma SameTruth(s: ClockState, e: ClockState, ptp: PtpTime)
    requires e.initial == s.initial
    ensures TrueElapsed(e, ptp) == TrueElapsed(s, ptp)
  {
  }

  lemma FlooredOnTime(raw: int, floor: int, truth: int, bound: real)
    requires Within(raw, truth, bound)
    ensures OnTime(Basics.Max(raw, floor + 1), floor, truth, bound)
  {
  }

  // ----- The bound vanishes -----

  lemma SlowGrowth(n: nat)
    requires n >= 20
    ensures (n * (n - 1)) as real * 0.9 <= ((n - 1) * (n - 2)) as real
  {
    assert 9 * (n * (n - 1)) <= 10 * ((n - 1) * (n - 2));
  }

  /** `n * (n - 1) * 0.9^n` is bounded: it no longer grows from 19 on. */
  lemma {:induction false} QuadraticDecay(n: nat)
    ensures (n * (n - 1)) as real * Decay(n) <= 342.0
  {
    hide *;
    DecayPositive(n);
    if n <= 19 {
      SmallProduct(n);
      ProductMonotone((n * (n - 1)) as real, 342.0, Decay(n));
    } else {
      QuadraticDecay(n - 1);
      SlowGrowth(n);
      DecayPositive(n - 1);
      DecayNext(n - 1);
      QuadraticStep((n * (n - 1)) as real, ((n - 1) * (n - 2)) as real, Decay(n - 1));
    }
  }

  lemma SmallProduct(n: nat)
    requires n <= 19
    ensures n * (n - 1) <= 342
  {
    assert n == 0 || n * (n - 1) <= 19 * (n - 1);
  }

  lemma DecayNext(n: nat)
    ensures Decay(n + 1) == 0.9 * Decay(n)
  {
  }

  lemma QuadraticStep(q: real, p: real, decay: real)
    requires q * 0.9 <= p && decay >= 0.0 && p * decay <= 342.0
    ensures q * (0.9 * decay) <= 342.0
  {
    ProductMonotone(q * 0.9, p, decay);
    assert q * (0.9 * decay) == q * 0.9 * decay;
  }

  /** Hence `(1 + n/10) * 0.9^n` is at most `400 / (n - 1)`. */
  lemma LinearDecay(n: nat)
    requires n >= 2
    ensures (1.0 + 0.1 * (n as real)) * Decay(n) * ((n - 1) as real) <= 400.0
  {
    QuadraticDecay(n);
    DecayPositive(n);
    assert (n * (n - 1)) as real == (n as real) * ((n - 1) as real);
    hide Decay;
    LinearFromQuadratic(n as real, (n - 1) as real, Decay(n));
  }

  lemma LinearFromQuadratic(x: real, m: real, d: real)
    requires x >= 2.0 && m >= 0.0 && d >= 0.0 && x * m * d <= 342.0
    ensures (1.0 + 0.1 * x) * d * m <= 400.0
  {
    var w := m * d;
    ProductNonNegative(m, d);
    assert x * m * d == x * w;
    assert (1.0 + 0.1 * x) * d * m == (1.0 + 0.1 * x) * w == w + 0.1 * (x * w);
    ProductMonotone(2.0, x, w);
  }

  lemma TimeBoundIs(n: nat, initial: real, maxGap: real, noise: real)
    ensures TimeBound(n, initial, maxGap, noise)
         == maxGap * initial * ((1.0 + 0.1 * (n as real)) * Decay(n)) + ErrorFloor(maxGap, noise)
  {
    hide Decay;
    var d, x, z := Decay(n), n as real, maxGap * (0.000_001 * noise);
    assert maxGap * (d * initial + 0.000_001 * noise) == maxGap * initial * d + z;
    assert 0.1 * x * maxGap * (d * initial) == maxGap * initial * (0.1 * x * d);
    assert (1.0 + 0.1 * x) * d == d + 0.1 * x * d;
    assert maxGap * initial * (d + 0.1 * x * d) == maxGap * initial * d + maxGap * initial * (0.1 * x * d);
  }

  /**
   * The bound itself comes as close to its floor as one likes: after enough resyncs nothing is left of
   * the initial frequency error.
   */
  lemma BoundVanishes(initial: real, maxGap: real, noise: real, margin: real) returns (enough: nat)
    requires initial >= 0.0 && maxGap >= 0.0 && margin > 0.0
    ensures forall n: nat :: n >= enough ==> TimeBound(n, initial, maxGap, noise) <= ErrorFloor(maxGap, noise) + margin
  {
    var scale := 400.0 * (maxGap * initial);
    ProductNonNegative(maxGap, initial);
    var quotient := scale / margin;
    ProductNonNegative(scale, 1.0 / margin);
    enough := quotient.Floor + 3;
    forall n: nat | n >= enough
      ensures TimeBound(n, initial, maxGap, noise) <= ErrorFloor(maxGap, noise) + margin
    {
      EnoughResyncs(n, maxGap * initial, margin);
      TimeBoundIs(n, initial, maxGap, noise);
    }
  }

  lemma EnoughResyncs(n: nat, scale: real, margin: real)
    requires scale >= 0.0 && margin > 0.0 && n >= 2 && (n - 1) as real >= 400.0 * scale / margin
    ensures scale * ((1.0 + 0.1 * (n as real)) * Decay(n)) <= margin
  {
    LinearDecay(n);
    hide Decay;
    var factor, m := (1.0 + 0.1 * (n as real)) * Decay(n), (n - 1) as real;
    ProductMonotone(factor * m, 400.0, scale);
    var quotient := 400.0 * scale / margin;
    assert quotient * margin == 400.0 * scale;
    ProductMonotone(quotient, m, margin);
    assert scale * factor * m == factor * m * scale;
    DivideBy(scale * factor, margin, m);
  }

  lemma DivideBy(x: real, y: real, m: real)
    requires m > 0.0 && x * m <= y * m
    ensures x <= y
  {
    assert x > y ==> (x - y) * m > 0.0;
  }
}
