/** Convergence of the PLL at a constant true rate, over sequences of resyncs. */
module ClockConvergence {
  import opened PtpTimes
  import opened Clocks
  import opened ClockRuns

  /** The state after a sequence of completed resyncs. */
  function Resynced(s: ClockState, samples: seq<Sample>): ClockState
    decreases |samples|
  {
    if samples == [] then s
    else
      var last := |samples| - 1;
      Relocked(Resynced(s, samples[..last]), samples[last].now, samples[last].ptp)
  }

  /** The PLL state with the monotonic floor, which resyncs ignore, masked out. */
  function PllOnly(s: ClockState): ClockState {
    s.(lastReturned := 0)
  }

  /** A run of `elapsed` calls drives the PLL exactly through its completed resyncs. */
  lemma {:induction false} RunDrivesPll(s: ClockState, calls: seq<Call>)
    ensures PllOnly(StateAfter(s, calls)) == PllOnly(Resynced(s, ResyncSamples(s, calls)))
    decreases |calls|
  {
    if calls != [] {
      var c := calls[0];
      var s' := Step(s, c).0;
      var rest := ResyncSamples(s', calls[1..]);
      RunDrivesPll(s', calls[1..]);
      StepIsResync(s, c);
      if Resyncs(s, c) {
        var sample := Sample(c.now, c.reading.value);
        ResyncedCons(s, sample, rest);
        ResyncedIgnoresFloor(s', Relocked(s, sample.now, sample.ptp), rest);
      } else {
        assert ResyncSamples(s, calls) == rest;
        ResyncedIgnoresFloor(s', s, rest);
      }
    }
  }

  lemma StepIsResync(s: ClockState, c: Call)
    ensures PllOnly(Step(s, c).0) == PllOnly(Estimator(s, c))
  {
    StepFromEstimator(s, c);
  }

  lemma {:induction false} ResyncedCons(s: ClockState, first: Sample, rest: seq<Sample>)
    ensures Resynced(s, [first] + rest) == Resynced(Relocked(s, first.now, first.ptp), rest)
    decreases |rest|
  {
    var all := [first] + rest;
    if rest == [] {
      assert all[..0] == [];
    } else {
      assert all[..|all| - 1] == [first] + rest[..|rest| - 1];
      ResyncedCons(s, first, rest[..|rest| - 1]);
    }
  }

  lemma RelockedIgnoresFloor(a: ClockState, b: ClockState, now: Instant, ptp: PtpTime)
    requires PllOnly(a) == PllOnly(b)
    ensures PllOnly(Relocked(a, now, ptp)) == PllOnly(Relocked(b, now, ptp))
  {
    assert b == a.(lastReturned := b.lastReturned);
    assert PhaseError(a, now, ptp) == PhaseError(b, now, ptp);
  }

  lemma {:induction false} ResyncedIgnoresFloor(a: ClockState, b: ClockState, samples: seq<Sample>)
    requires PllOnly(a) == PllOnly(b)
    ensures PllOnly(Resynced(a, samples)) == PllOnly(Resynced(b, samples))
    decreases |samples|
  {
    if samples != [] {
      var last := |samples| - 1;
      ResyncedIgnoresFloor(a, b, samples[..last]);
      RelockedIgnoresFloor(Resynced(a, samples[..last]), Resynced(b, samples[..last]),
                           samples[last].now, samples[last].ptp);
    }
  }

  /** `0.9^n`, the contraction after `n` resyncs. */
  function Decay(n: nat): real {
    if n == 0 then 1.0 else 0.9 * Decay(n - 1)
  }

  lemma {:induction false} DecayPositive(n: nat)
    ensures 0.0 < Decay(n) <= 1.0
  {
    if n > 0 {
      DecayPositive(n - 1);
    }
  }

  /**
   * The gap between two resyncs is above 1 ms and at most `maxGap`, and over it PTP advanced by
   * `rate` times the local time up to a reading error of `noise` nanoseconds.
   */
  predicate SteadyGap(now0: Instant, ptp0: PtpTime, now1: Instant, ptp1: PtpTime,
                      rate: real, maxGap: real, noise: real)
  {
    var gap := (now1 - now0) as real;
    && MIN_MEASURED_NS < gap <= maxGap
    && RealAbs((AsNanos(ptp1) - AsNanos(ptp0)) as real - Predicted(gap, rate)) <= noise
  }

  function Previous(s: ClockState, samples: seq<Sample>, i: nat): Sample
    requires i < |samples|
  {
    if i == 0 then Sample(s.lastInstant, s.lastPtp) else samples[i - 1]
  }

  ghost predicate SteadySamples(s: ClockState, samples: seq<Sample>, rate: real, maxGap: real, noise: real) {
    forall i :: 0 <= i < |samples| ==>
      SteadyGap(Previous(s, samples, i).now, Previous(s, samples, i).ptp, samples[i].now, samples[i].ptp,
                rate, maxGap, noise)
  }

  const MAX_GAP_NS: real := 500_000_000.0
  const MAX_NOISE_NS: real := 90_000.0

  predicate Admissible(rate: real, maxGap: real, noise: real) {
    FREQ_MIN <= rate <= FREQ_MAX && 0.0 <= maxGap <= MAX_GAP_NS && 0.0 <= noise <= MAX_NOISE_NS
  }

  lemma ProductNonNegative(x: real, y: real)
    requires x >= 0.0 && y >= 0.0
    ensures x * y >= 0.0
  {
  }

  lemma ProductMonotone(a: real, b: real, y: real)
    requires a <= b && y >= 0.0
    ensures a * y <= b * y
  {
    ProductNonNegative(b - a, y);
    assert (b - a) * y == b * y - a * y;
  }

  lemma AbsOfProduct(x: real, y: real)
    requires y >= 0.0
    ensures RealAbs(x * y) == RealAbs(x) * y
  {
    if x < 0.0 {
      ProductNonNegative(-x, y);
      assert (-x) * y == -(x * y);
    } else {
      ProductNonNegative(x, y);
    }
  }

  lemma Triangle(a: real, b: real, c: real)
    ensures RealAbs(a - b) <= RealAbs(a - c) + RealAbs(b - c)
  {
  }

  lemma RatioTimesGap(diff: real, gap: real)
    requires gap > 0.0
    ensures Ratio(diff, gap) * gap == diff
  {
  }

  /** A measured ratio misses the true rate by at most a millionth of the reading error. */
  lemma RatioIsClose(diff: real, gap: real, rate: real, noise: real)
    requires gap > MIN_MEASURED_NS && noise >= 0.0
    requires RealAbs(diff - Predicted(gap, rate)) <= noise
    ensures RealAbs(Ratio(diff, gap) - rate) * gap <= noise
    ensures RealAbs(Ratio(diff, gap) - rate) <= 0.000_001 * noise
  {
    var m := Ratio(diff, gap);
    RatioTimesGap(diff, gap);
    hide Ratio;
    assert (m - rate) * gap == m * gap - Predicted(gap, rate);
    AbsOfProduct(m - rate, gap);
    ProductMonotone(MIN_MEASURED_NS, gap, RealAbs(m - rate));
  }

  lemma ClampTowards(x: real, r: real)
    requires FREQ_MIN <= r <= FREQ_MAX
    ensures RealAbs(Clamp(x, FREQ_MIN, FREQ_MAX) - r) <= RealAbs(x - r)
  {
  }

  lemma AverageTowards(f: real, m: real, r: real)
    ensures RealAbs(Averaged(f, m) - r) <= 0.9 * RealAbs(f - r) + 0.1 * RealAbs(m - r)
  {
    assert Averaged(f, m) - r == 0.9 * (f - r) + 0.1 * (m - r);
  }

  lemma ErrorOverGap(e: real, a: real, b: real, gap: real, noise: real)
    requires e <= 0.9 * a + 0.1 * b && a <= 0.002 && gap >= 0.0 && b * gap <= noise
    ensures e * gap <= 0.0018 * gap + 0.1 * noise
  {
    ProductMonotone(e, 0.9 * a + 0.1 * b, gap);
    ProductMonotone(a, 0.002, gap);
    assert (0.9 * a + 0.1 * b) * gap == 0.9 * (a * gap) + 0.1 * (b * gap);
  }

  /** One measurement contracts the frequency error by 0.9; the clamp never enlarges it. */
  lemma RetunedContracts(f: real, diff: real, gap: real, rate: real, noise: real)
    requires FREQ_MIN <= f <= FREQ_MAX && FREQ_MIN <= rate <= FREQ_MAX
    requires gap > MIN_MEASURED_NS && noise >= 0.0
    requires RealAbs(diff - Predicted(gap, rate)) <= noise
    ensures var f' := Retuned(f, diff, gap);
            && RealAbs(f' - rate) <= 0.9 * RealAbs(f - rate) + 0.000_000_1 * noise
            && RealAbs(f' - rate) * gap <= 0.0018 * gap + 0.1 * noise
  {
    hide Ratio, Predicted, Averaged, Retuned, RealAbs, Clamp;
    var m := Ratio(diff, gap);
    RatioIsClose(diff, gap, rate, noise);
    RetunedIsClamped(f, diff, gap);
    RateDistance(f, rate);
    ClampTowards(Averaged(f, m), rate);
    AverageTowards(f, m, rate);
    ErrorOverGap(RealAbs(Retuned(f, diff, gap) - rate), RealAbs(f - rate), RealAbs(m - rate), gap, noise);
  }

  lemma RetunedIsClamped(f: real, diff: real, gap: real)
    requires gap > MIN_MEASURED_NS
    ensures Retuned(f, diff, gap) == Clamp(Averaged(f, Ratio(diff, gap)), FREQ_MIN, FREQ_MAX)
  {
    hide Ratio, Averaged, Clamp;
  }

  /** From nominal, a measurement raises the frequency exactly when PTP outran the local clock. */
  lemma RaisedWhenLocalIsSlow(diff: real, gap: real)
    requires gap > MIN_MEASURED_NS
    ensures Retuned(1.0, diff, gap) > 1.0 <==> diff > gap
    ensures Retuned(1.0, diff, gap) < 1.0 <==> diff < gap
  {
    assert gap > 0.0;
    hide *;
    RatioOrder(diff, gap);
    RetunedIsClamped(1.0, diff, gap);
    ClampedAverage(Ratio(diff, gap));
  }

  lemma RatioOrder(diff: real, gap: real)
    requires gap > 0.0
    ensures Ratio(diff, gap) > 1.0 <==> diff > gap
    ensures Ratio(diff, gap) < 1.0 <==> diff < gap
  {
    RatioTimesGap(diff, gap);
    hide Ratio;
    ScaleOrder(Ratio(diff, gap), diff, gap);
  }

  lemma ClampedAverage(m: real)
    ensures Clamp(Averaged(1.0, m), FREQ_MIN, FREQ_MAX) > 1.0 <==> m > 1.0
    ensures Clamp(Averaged(1.0, m), FREQ_MIN, FREQ_MAX) < 1.0 <==> m < 1.0
  {
  }

  lemma ScaleOrder(m: real, scaled: real, gap: real)
    requires gap > 0.0 && m * gap == scaled
    ensures m > 1.0 <==> scaled > gap
    ensures m < 1.0 <==> scaled < gap
  {
    assert scaled - gap == (m - 1.0) * gap;
    assert m > 1.0 ==> (m - 1.0) * gap > 0.0;
    assert m < 1.0 ==> (1.0 - m) * gap > 0.0;
    assert (1.0 - m) * gap == -((m - 1.0) * gap);
  }

  lemma RateDistance(f: real, rate: real)
    requires FREQ_MIN <= f <= FREQ_MAX && FREQ_MIN <= rate <= FREQ_MAX
    ensures RealAbs(f - rate) <= 0.002
  {
  }

  lemma RephasedShrinks(phase: int, error: real)
    ensures RealAbs(Rephased(phase, error) as real) <= 0.9 * RealAbs(phase as real) + 0.1 * RealAbs(error)
  {
    var x := Averaged(phase as real, error);
    TruncateShrinks(Clamp(x, -PHASE_OFFSET_MAX_NS, PHASE_OFFSET_MAX_NS));
  }

  lemma TruncateShrinks(x: real)
    ensures RealAbs(Truncate(x) as real) <= RealAbs(x)
  {
  }

  lemma PhaseErrorIsSmall(f': real, diff: real, gap: real, rate: real, maxGap: real, noise: real)
    requires 0.0 <= gap <= maxGap
    requires RealAbs(diff - Predicted(gap, rate)) <= noise
    ensures RealAbs(diff - Predicted(gap, f')) <= noise + RealAbs(f' - rate) * gap
    ensures RealAbs(diff - Predicted(gap, f')) <= maxGap * RealAbs(f' - rate) + noise
  {
    hide *;
    PredictedApart(gap, f', rate);
    AbsNonNegative(f' - rate);
    Triangle(diff, Predicted(gap, f'), Predicted(gap, rate));
    ProductMonotone(gap, maxGap, RealAbs(f' - rate));
  }

  lemma AbsNonNegative(x: real)
    ensures RealAbs(x) >= 0.0
  {
  }

  lemma PredictedApart(gap: real, f: real, rate: real)
    requires gap >= 0.0
    ensures RealAbs(Predicted(gap, f) - Predicted(gap, rate)) == RealAbs(f - rate) * gap
  {
    assert Predicted(gap, f) - Predicted(gap, rate) == (f - rate) * gap;
    hide Predicted, RealAbs;
    AbsOfProduct(f - rate, gap);
  }

  lemma RelockedParts(s: ClockState, now: Instant, ptp: PtpTime)
    requires !TakesReset(s, now, ptp)
    ensures var s' := Relocked(s, now, ptp);
            && s'.frequency == Retuned(s.frequency, PtpDiff(s, ptp), LocalNs(s, now))
            && s'.phase == Rephased(s.phase, PhaseError(s, now, ptp))
  {
  }

  /** The prediction error stays under the large-jump threshold. */
  lemma SteadyErrorBound(f: real, diff: real, gap: real, rate: real, maxGap: real, noise: real)
    requires FREQ_MIN <= f <= FREQ_MAX && Admissible(rate, maxGap, noise)
    requires MIN_MEASURED_NS < gap <= maxGap
    requires RealAbs(diff - Predicted(gap, rate)) <= noise
    ensures var f' := Retuned(f, diff, gap);
            var error := RealAbs(diff - Predicted(gap, f'));
            && RealAbs(f' - rate) <= 0.9 * RealAbs(f - rate) + 0.000_000_1 * noise
            && error <= LARGE_JUMP_THRESHOLD_NS
            && error <= maxGap * RealAbs(f' - rate) + noise
  {
    hide Predicted, Retuned, RealAbs;
    var f' := Retuned(f, diff, gap);
    RetunedContracts(f, diff, gap, rate, noise);
    PhaseErrorIsSmall(f', diff, gap, rate, maxGap, noise);
    assert RealAbs(f' - rate) * gap + noise <= 999_000.0;
  }

  function FrequencyStep(error: real, noise: real): real {
    0.9 * error + 0.000_000_1 * noise
  }

  function PhaseStep(phaseError: real, frequencyError: real, maxGap: real, noise: real): real {
    0.9 * phaseError + 0.1 * (maxGap * frequencyError + noise)
  }

  function FrequencyError(s: ClockState, rate: real): real {
    RealAbs(s.frequency - rate)
  }

  function PhaseMagnitude(s: ClockState): real {
    RealAbs(s.phase as real)
  }

  /** One resync at a steady rate: no reset, and both errors contract. */
  lemma SteadyResync(s: ClockState, next: Sample, rate: real, maxGap: real, noise: real)
    requires PllBounds(s) && Admissible(rate, maxGap, noise)
    requires SteadyGap(s.lastInstant, s.lastPtp, next.now, next.ptp, rate, maxGap, noise)
    ensures !TakesReset(s, next.now, next.ptp)
    ensures var s' := Relocked(s, next.now, next.ptp);
            && FrequencyError(s', rate) <= FrequencyStep(FrequencyError(s, rate), noise)
            && PhaseMagnitude(s') <= PhaseStep(PhaseMagnitude(s), FrequencyError(s', rate), maxGap, noise)
  {
    hide *;
    GapOf(s, next, rate, maxGap, noise);
    SteadyErrorBound(s.frequency, PtpDiff(s, next.ptp), LocalNs(s, next.now), rate, maxGap, noise);
    SmallErrorKeepsLock(s, next);
    RelockedParts(s, next.now, next.ptp);
    RephasedShrinks(s.phase, PhaseError(s, next.now, next.ptp));
    StepBounds(s, Relocked(s, next.now, next.ptp), RealAbs(PhaseError(s, next.now, next.ptp)), rate, maxGap, noise);
  }

  /** The facts of a steady gap, in the terms of one resync. */
  lemma GapOf(s: ClockState, next: Sample, rate: real, maxGap: real, noise: real)
    requires PllBounds(s) && SteadyGap(s.lastInstant, s.lastPtp, next.now, next.ptp, rate, maxGap, noise)
    ensures FREQ_MIN <= s.frequency <= FREQ_MAX
    ensures MIN_MEASURED_NS < LocalNs(s, next.now) <= maxGap
    ensures RealAbs(PtpDiff(s, next.ptp) - Predicted(LocalNs(s, next.now), rate)) <= noise
  {
    hide AsNanos, Predicted, RealAbs;
  }

  lemma SmallErrorKeepsLock(s: ClockState, next: Sample)
    ensures PhaseError(s, next.now, next.ptp)
         == var f' := Retuned(s.frequency, PtpDiff(s, next.ptp), LocalNs(s, next.now));
            PtpDiff(s, next.ptp) - Predicted(LocalNs(s, next.now), f')
    ensures RealAbs(PhaseError(s, next.now, next.ptp)) <= LARGE_JUMP_THRESHOLD_NS
      <==> !TakesReset(s, next.now, next.ptp)
  {
    hide PtpDiff, LocalNs, Retuned, Predicted, RealAbs;
  }

  lemma StepBounds(s: ClockState, s': ClockState, error: real, rate: real, maxGap: real, noise: real)
    requires RealAbs(s'.frequency - rate) <= 0.9 * RealAbs(s.frequency - rate) + 0.000_000_1 * noise
    requires error <= maxGap * RealAbs(s'.frequency - rate) + noise
    requires RealAbs(s'.phase as real) <= 0.9 * RealAbs(s.phase as real) + 0.1 * error
    ensures FrequencyError(s', rate) <= FrequencyStep(FrequencyError(s, rate), noise)
    ensures PhaseMagnitude(s') <= PhaseStep(PhaseMagnitude(s), FrequencyError(s', rate), maxGap, noise)
  {
    hide RealAbs;
  }

  /** The two error bounds after `n` resyncs, from zero phase. */
  predicate Converged(s0: ClockState, s: ClockState, n: nat, rate: real, maxGap: real, noise: real) {
    && FrequencyError(s, rate) <= FrequencyBound(n, FrequencyError(s0, rate), noise)
    && PhaseMagnitude(s) <= PhaseBound(n, FrequencyError(s0, rate), maxGap, noise)
  }

  function FrequencyBound(n: nat, initial: real, noise: real): real {
    Decay(n) * initial + 0.000_001 * noise
  }

  function PhaseBound(n: nat, initial: real, maxGap: real, noise: real): real {
    0.1 * (n as real) * maxGap * (Decay(n) * initial) + PhaseNoise(maxGap, noise)
  }

  function PhaseNoise(maxGap: real, noise: real): real {
    maxGap * (0.000_001 * noise) + noise
  }

  /** The two bounds are each carried through one contraction. */
  lemma BoundsStep(n: nat, initial: real, maxGap: real, noise: real, f: real, f': real, p: real, p': real)
    requires maxGap >= 0.0
    requires f <= FrequencyBound(n, initial, noise) && f' <= FrequencyStep(f, noise)
    requires p <= PhaseBound(n, initial, maxGap, noise) && p' <= PhaseStep(p, f', maxGap, noise)
    ensures f' <= FrequencyBound(n + 1, initial, noise)
    ensures p' <= PhaseBound(n + 1, initial, maxGap, noise)
  {
    var x := Decay(n) * initial;
    assert Decay(n + 1) * initial == 0.9 * x;
    hide Decay;
    PhaseBoundStep(n as real, x, maxGap, noise, f', p, p');
  }

  lemma PhaseBoundStep(n: real, x: real, maxGap: real, noise: real, f': real, p: real, p': real)
    requires maxGap >= 0.0
    requires f' <= 0.9 * x + 0.000_001 * noise
    requires p <= 0.1 * n * maxGap * x + PhaseNoise(maxGap, noise)
    requires p' <= 0.9 * p + 0.1 * (maxGap * f' + noise)
    ensures p' <= 0.1 * (n + 1.0) * maxGap * (0.9 * x) + PhaseNoise(maxGap, noise)
  {
    ProductMonotone(f', 0.9 * x + 0.000_001 * noise, maxGap);
    var z := maxGap * x;
    assert (0.9 * x + 0.000_001 * noise) * maxGap == 0.9 * z + maxGap * (0.000_001 * noise);
    assert 0.1 * n * maxGap * x == 0.1 * (n * z);
    assert 0.1 * (n + 1.0) * maxGap * (0.9 * x) == 0.09 * (n * z) + 0.09 * z;
  }

  ghost predicate NeverResets(s: ClockState, samples: seq<Sample>) {
    forall i :: 0 <= i < |samples| ==>
      !TakesReset(Resynced(s, samples[..i]), samples[i].now, samples[i].ptp)
  }

  lemma ConvergesAtStart(s: ClockState, rate: real, maxGap: real, noise: real)
    requires s.phase == 0 && maxGap >= 0.0 && noise >= 0.0
    ensures Converged(s, s, 0, rate, maxGap, noise) && NeverResets(s, [])
  {
    ProductNonNegative(maxGap, 0.000_001 * noise);
  }

  lemma ConvergesFurther(s0: ClockState, b: ClockState, next: Sample, n: nat, rate: real, maxGap: real, noise: real)
    requires PllBounds(b) && Admissible(rate, maxGap, noise)
    requires Converged(s0, b, n, rate, maxGap, noise)
    requires SteadyGap(b.lastInstant, b.lastPtp, next.now, next.ptp, rate, maxGap, noise)
    ensures !TakesReset(b, next.now, next.ptp)
    ensures Converged(s0, Relocked(b, next.now, next.ptp), n + 1, rate, maxGap, noise)
  {
    SteadyResync(b, next, rate, maxGap, noise);
    hide Relocked, TakesReset, SteadyGap, FrequencyError, PhaseMagnitude, FrequencyStep, PhaseStep,
         FrequencyBound, PhaseBound;
    var e := Relocked(b, next.now, next.ptp);
    BoundsStep(n, FrequencyError(s0, rate), maxGap, noise,
               FrequencyError(b, rate), FrequencyError(e, rate), PhaseMagnitude(b), PhaseMagnitude(e));
  }

  /**
   * At a constant true rate no resync takes the reset branch; after `n` of them the frequency error
   * is at most `0.9^n` of the initial one and, from zero phase, the phase offset is at most
   * `0.1 * n * maxGap * 0.9^n` of it, each up to a multiple of the reading error, which is zero for
   * exact readings.
   */
  lemma {:induction false} PllConverges(s: ClockState, samples: seq<Sample>, rate: real, maxGap: real, noise: real)
    requires PllBounds(s) && s.phase == 0 && Admissible(rate, maxGap, noise)
    requires SteadySamples(s, samples, rate, maxGap, noise)
    ensures NeverResets(s, samples)
    ensures Converged(s, Resynced(s, samples), |samples|, rate, maxGap, noise)
    ensures PllBounds(Resynced(s, samples))
    decreases |samples|
  {
    hide Relocked, TakesReset, SteadyGap, Converged, NeverResets, SteadySamples;
    if samples == [] {
      ConvergesAtStart(s, rate, maxGap, noise);
    } else {
      var n := |samples| - 1;
      var before := samples[..n];
      SteadyPrefix(s, samples, rate, maxGap, noise);
      PllConverges(s, before, rate, maxGap, noise);
      var b := Resynced(s, before);
      LastReference(s, before);
      ConvergesFurther(s, b, samples[n], n, rate, maxGap, noise);
      RelockedBounds(b, samples[n].now, samples[n].ptp);
      NeverResetsSnoc(s, samples);
    }
  }

  lemma SteadyPrefix(s: ClockState, samples: seq<Sample>, rate: real, maxGap: real, noise: real)
    requires samples != [] && SteadySamples(s, samples, rate, maxGap, noise)
    ensures var n := |samples| - 1;
            && SteadySamples(s, samples[..n], rate, maxGap, noise)
            && SteadyGap(Previous(s, samples, n).now, Previous(s, samples, n).ptp,
                         samples[n].now, samples[n].ptp, rate, maxGap, noise)
  {
    hide SteadyGap;
    var n := |samples| - 1;
    assert forall i :: 0 <= i < n ==> Previous(s, samples[..n], i) == Previous(s, samples, i);
  }

  lemma NeverResetsSnoc(s: ClockState, samples: seq<Sample>)
    requires samples != []
    requires NeverResets(s, samples[..|samples| - 1])
    requires var n := |samples| - 1; !TakesReset(Resynced(s, samples[..n]), samples[n].now, samples[n].ptp)
    ensures NeverResets(s, samples)
  {
    hide TakesReset, Resynced;
    var n := |samples| - 1;
    forall i | 0 <= i < |samples|
      ensures !TakesReset(Resynced(s, samples[..i]), samples[i].now, samples[i].ptp)
    {
      assert i < n ==> samples[..n][..i] == samples[..i];
    }
  }

  lemma LastReference(s: ClockState, samples: seq<Sample>)
    ensures var e := Resynced(s, samples);
            Sample(e.lastInstant, e.lastPtp)
            == if samples == [] then Sample(s.lastInstant, s.lastPtp) else samples[|samples| - 1]
  {
  }
}
