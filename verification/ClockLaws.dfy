/**
 * What the PTP-synchronised clock's operations amount to in plain arithmetic, with the source's constants
 * (src/avtp/synchronizer.rs): its start, its estimates, both branches of a resync, and the phase loop.
 */
module ClockLaws {
  import opened Basics
  import opened PtpTimes
  import opened Clocks
  import opened ClockRuns
  import opened ClockConvergence

  // ----- Rounding and clamping -----

  /** `f64::round`: the nearest integer, and of two equally near ones the one away from zero. */
  lemma RoundsAwayFromZero(x: real)
    ensures x >= 0.0 ==> Round(x) as real - 0.5 <= x < Round(x) as real + 0.5
    ensures x < 0.0 ==> Round(x) as real - 0.5 < x <= Round(x) as real + 0.5
  {
  }

  /** `t` is `x` without its fraction. */
  predicate TowardsZero(t: int, x: real) {
    if x >= 0.0 then t as real <= x < t as real + 1.0 && t >= 0 else t as real - 1.0 < x <= t as real && t <= 0
  }

  lemma TruncatesTowardsZero(x: real)
    ensures TowardsZero(Truncate(x), x)
  {
  }

  /** A clamped value is in range, and no value in range is nearer. */
  lemma ClampsToNearest(x: real, low: real, high: real, y: real)
    requires low <= y <= high
    ensures low <= Clamp(x, low, high) <= high
    ensures RealAbs(x - Clamp(x, low, high)) <= RealAbs(x - y)
    ensures low <= x <= high ==> Clamp(x, low, high) == x
  {
  }

  lemma AbsIsMagnitude(x: real)
    ensures RealAbs(x) >= 0.0 && (RealAbs(x) == x || RealAbs(x) == -x)
  {
  }

  // ----- Durations -----

  /** The duration range: 64-bit seconds with nanoseconds. */
  const LONGEST: int := 18_446_744_073_709_551_615_999_999_999

  lemma DurationsInRange(nanos: int)
    ensures NanosToDuration(nanos)
         == if nanos < 0 then Err(NegativeElapsed(nanos))
            else if nanos > LONGEST then Err(DurationOverflow)
            else Ok(nanos)
  {
  }

  /** A sum is refused exactly when it does not fit 128 bits, two's complement. */
  lemma SumsInRange(a: int, b: int)
    ensures CheckedAddI128(a, b)
         == if -170_141_183_460_469_231_731_687_303_715_884_105_728 <= a + b
               <= 170_141_183_460_469_231_731_687_303_715_884_105_727
            then Ok(a + b) else Err(DurationOverflow)
  {
  }

  /** Local time since the last resync, zero if the local clock is behind it. */
  predicate LocalSince(s: ClockState, now: Instant, local: int) {
    (now >= s.lastInstant ==> local == now - s.lastInstant) && (now < s.lastInstant ==> local == 0)
  }

  /** Until its first resync a clock returns local time. */
  lemma FreshRunsAtLocalRate(initial: PtpTime, start: Instant, interval: Duration, now: Instant)
    requires now >= start
    ensures RawElapsed(Fresh(initial, start, interval), now) == Ok(now - start)
  {
    NominalEstimate(Fresh(initial, start, interval), now);
    hide RawElapsed, AsNanos;
    DurationsInRange(now - start);
  }

  // ----- When calls succeed -----

  /**
   * A call of `elapsed` reads PTP exactly when the interval has passed; it fails exactly for a failed
   * read, an estimate that is no duration, or a floor that cannot rise.
   */
  lemma ElapsedOutcome(s: ClockState, now: Instant, reading: Option<PtpTime>, local: int)
    requires LocalSince(s, now, local)
    ensures var (s', r) := Elapsed(s, now, reading);
            var e := if local >= s.interval && reading.Some? then Relocked(s, now, reading.value) else s;
            if local >= s.interval && reading.None? then (s', r) == (s, Err(PtpClock))
            else
              && s' == e.(lastReturned := s'.lastReturned)
              && (RawElapsed(e, now).Err? ==> r == RawElapsed(e, now) && s'.lastReturned == s.lastReturned)
              && (RawElapsed(e, now).Ok? ==>
                    var raw := RawElapsed(e, now).value;
                    if raw <= s.lastReturned == LONGEST then
                      r == Err(MonotonicityLimit) && s'.lastReturned == s.lastReturned
                    else
                      r == Ok(Max(raw, s.lastReturned + 1)) && s'.lastReturned == Max(raw, s.lastReturned + 1))
  {
    if reading.Some? {
      RelockedKeeps(s, now, reading.value);
    }
    hide Relocked, RawElapsed;
  }

  /** Tracking turned around: once enough true time has passed, a call at a bounded rate succeeds. */
  lemma TrackedCallsSucceed(s: ClockState, now: Instant, ptp: PtpTime, t: Tick)
    requires Tracked(s, now, ptp)
    requires RateBounded(now, ptp, t.now, t.ptp) && AsNanos(ptp) < AsNanos(t.ptp)
    requires !ResyncDue(s, t.now) || t.readable
    requires TrueElapsed(s, t.ptp) as real >= TrackingBound(s.interval)
    requires TrueElapsed(s, t.ptp) as real + TrackingBound(s.interval) < LONGEST as real
    ensures Step(s, CallAt(t)).1.Ok?
  {
    hide *;
    TrackedParts(s, now, ptp);
    RateBoundedTrans(s.lastInstant, s.lastPtp, now, ptp, t.now, t.ptp);
    EstimatorTracks(s, t);
    StepFromEstimator(s, CallAt(t));
    CallParts(t);
    var e := Estimator(s, CallAt(t));
    SameElapsed(s, e, ptp, t.ptp);
    CloseEstimateSucceeds(e, t.now, t.ptp, TrueElapsed(s, ptp));
  }

  lemma TrackedParts(s: ClockState, now: Instant, ptp: PtpTime)
    requires Tracked(s, now, ptp)
    ensures PllBounds(s) && RateBounded(s.lastInstant, s.lastPtp, now, ptp)
    ensures s.lastReturned as real <= TrueElapsed(s, ptp) as real + TrackingBound(s.interval)
  {
    hide PllBounds, RateBounded, TrueElapsed, TrackingBound;
  }

  lemma CallParts(t: Tick)
    ensures CallAt(t) == Synced(t.now, if t.readable then Some(t.ptp) else None)
  {
  }

  lemma SameElapsed(s: ClockState, e: ClockState, before: PtpTime, ptp: PtpTime)
    requires e.initial == s.initial && AsNanos(before) < AsNanos(ptp)
    ensures TrueElapsed(e, ptp) == TrueElapsed(s, ptp) && TrueElapsed(s, before) < TrueElapsed(s, ptp)
  {
  }

  lemma CloseEstimateSucceeds(e: ClockState, now: Instant, ptp: PtpTime, before: int)
    requires PllBounds(e) && RateBounded(e.lastInstant, e.lastPtp, now, ptp)
    requires DurationSince(now, e.lastInstant) <= e.interval
    requires e.lastReturned as real <= before as real + TrackingBound(e.interval) && before < TrueElapsed(e, ptp)
    requires TrueElapsed(e, ptp) as real >= TrackingBound(e.interval)
    requires TrueElapsed(e, ptp) as real + TrackingBound(e.interval) < LONGEST as real
    ensures ComputeElapsed(e, now).1.Ok?
  {
    EstimateIsExactSum(e, now);
    var local := DurationSince(now, e.lastInstant) as real;
    ScalingBounds(local, e.frequency);
    RoundNearest(Predicted(local, e.frequency));
    hide AsNanos, Round, Predicted, RawElapsed;
    DurationsInRange(AsNanos(e.lastPtp) - AsNanos(e.initial) + Round(Predicted(local, e.frequency)) + e.phase);
  }

  // ----- One resync -----

  /** The frequency a resync goes on with: unchanged up to 1 ms of local time, else filtered and limited. */
  predicate NextFrequency(previous: real, local: int, diff: int, f: real) {
    if local <= 1_000_000 then f == previous
    else
      var filtered := 0.9 * previous + 0.1 * (diff as real / local as real);
      if filtered < 0.999 then f == 0.999 else if filtered > 1.001 then f == 1.001 else f == filtered
  }

  /** The filtered phase without its fraction, limited to 100 microseconds either way. */
  predicate NextPhase(filtered: real, phase: int) {
    if filtered > 100_000.0 then phase == 100_000
    else if filtered < -100_000.0 then phase == -100_000
    else TowardsZero(phase, filtered)
  }

  /**
   * A resync in numbers. With `diff` of PTP time over `local` of local time and the frequency it goes on
   * with: a prediction error above 1 ms restarts the loop from nominal at the new reading, any other is
   * filtered into the phase.
   */
  lemma ResyncOutcome(s: ClockState, now: Instant, ptp: PtpTime, local: int, diff: int)
    returns (f: real, error: real)
    requires LocalSince(s, now, local) && diff == AsNanos(ptp) - AsNanos(s.lastPtp)
    ensures NextFrequency(s.frequency, local, diff, f)
    ensures error == diff as real - local as real * f
    ensures var s' := Relocked(s, now, ptp);
            if error > 1_000_000.0 || error < -1_000_000.0 then
              s' == s.(frequency := 1.0, phase := 0, lastPtp := ptp, lastInstant := now)
            else
              && s' == s.(frequency := f, phase := s'.phase, lastPtp := ptp, lastInstant := now)
              && NextPhase(0.9 * (s.phase as real) + 0.1 * error, s'.phase)
  {
    hide *;
    f := Retuned(s.frequency, diff as real, local as real);
    error := PhaseError(s, now, ptp);
    RetunedIsNext(s.frequency, local, diff);
    PhaseErrorIs(s, now, ptp, local, diff);
    ResyncBranch(s, now, ptp, local, diff);
    RephasedIsNext(s.phase, error);
  }

  lemma PhaseErrorIs(s: ClockState, now: Instant, ptp: PtpTime, local: int, diff: int)
    requires LocalSince(s, now, local) && diff == AsNanos(ptp) - AsNanos(s.lastPtp)
    ensures PhaseError(s, now, ptp)
         == diff as real - local as real * Retuned(s.frequency, diff as real, local as real)
  {
    ReferenceNumbers(s, now, ptp, local, diff);
    hide Retuned, PtpDiff, LocalNs, AsNanos;
  }

  lemma ResyncBranch(s: ClockState, now: Instant, ptp: PtpTime, local: int, diff: int)
    requires LocalSince(s, now, local) && diff == AsNanos(ptp) - AsNanos(s.lastPtp)
    ensures var error := PhaseError(s, now, ptp);
            Relocked(s, now, ptp)
            == if error > 1_000_000.0 || error < -1_000_000.0
               then s.(frequency := 1.0, phase := 0, lastPtp := ptp, lastInstant := now)
               else s.(frequency := Retuned(s.frequency, diff as real, local as real),
                       phase := Rephased(s.phase, error), lastPtp := ptp, lastInstant := now)
  {
    ReferenceNumbers(s, now, ptp, local, diff);
    AbsIsMagnitude(PhaseError(s, now, ptp));
    hide Retuned, Rephased, PhaseError, PtpDiff, LocalNs, AsNanos;
  }

  lemma ReferenceNumbers(s: ClockState, now: Instant, ptp: PtpTime, local: int, diff: int)
    requires LocalSince(s, now, local) && diff == AsNanos(ptp) - AsNanos(s.lastPtp)
    ensures PtpDiff(s, ptp) == diff as real && LocalNs(s, now) == local as real && local >= 0
  {
    hide AsNanos;
  }

  lemma RetunedIsNext(previous: real, local: int, diff: int)
    ensures NextFrequency(previous, local, diff, Retuned(previous, diff as real, local as real))
  {
    if local > 1_000_000 {
      RatioIsQuotient(diff as real, local as real);
      hide Ratio;
    }
  }

  lemma RatioIsQuotient(diff: real, local: real)
    requires local > 0.0
    ensures Ratio(diff, local) == diff / local
  {
  }

  lemma RephasedIsNext(phase: int, error: real)
    ensures NextPhase(0.9 * (phase as real) + 0.1 * error, Rephased(phase, error))
  {
    var x := 0.9 * (phase as real) + 0.1 * error;
    TruncatesTowardsZero(Clamp(x, -100_000.0, 100_000.0));
    hide Truncate;
  }

  /** After a resync the estimate at that instant is the reading, corrected by the phase. */
  lemma EstimateAfterResync(s: ClockState, now: Instant, ptp: PtpTime)
    requires PllBounds(s)
    ensures var s' := Relocked(s, now, ptp);
            RawElapsed(s', now) == NanosToDuration(AsNanos(ptp) - AsNanos(s.initial) + s'.phase)
  {
    RelockedBounds(s, now, ptp);
    RelockedKeeps(s, now, ptp);
    hide Relocked, RawElapsed, AsNanos, Round;
    EstimateIsExactSum(Relocked(s, now, ptp), now);
    RoundsAwayFromZero(0.0);
  }

  /** After a reset the clock continues from the reading at the local rate, with no phase correction. */
  lemma ResetContinuesFromReading(s: ClockState, now: Instant, ptp: PtpTime, at: Instant)
    requires PllBounds(s) && TakesReset(s, now, ptp) && at >= now
    ensures RawElapsed(Relocked(s, now, ptp), at)
         == NanosToDuration(AsNanos(ptp) - AsNanos(s.initial) + (at - now))
  {
    var s' := Relocked(s, now, ptp);
    assert s' == s.(frequency := 1.0, phase := 0, lastPtp := ptp, lastInstant := now);
    NominalEstimate(s', at);
  }

  /** At nominal frequency the estimate is the last reading and the local time since, corrected by the phase. */
  lemma NominalEstimate(s: ClockState, at: Instant)
    requires s.frequency == 1.0 && -100_000 <= s.phase <= 100_000 && at >= s.lastInstant
    ensures RawElapsed(s, at)
         == NanosToDuration(AsNanos(s.lastPtp) - AsNanos(s.initial) + (at - s.lastInstant) + s.phase)
  {
    var local := (at - s.lastInstant) as real;
    EstimateIsExactSum(s, at);
    UnitRate(local);
    RoundsAwayFromZero(local);
    hide RawElapsed, AsNanos, Round, Predicted;
    assert Round(local) == at - s.lastInstant;
  }

  lemma UnitRate(local: real)
    ensures Predicted(local, 1.0) == local
  {
  }

  // ----- The phase loop over whole runs -----

  /** Every resync of the sequence meets the same prediction error. */
  ghost predicate ConstantError(s: ClockState, samples: seq<Sample>, error: real) {
    forall i :: 0 <= i < |samples| ==>
      PhaseError(Resynced(s, samples[..i]), samples[i].now, samples[i].ptp) == error
  }

  /** Between `(1 - 0.9^n) * |error| - 10` and `(1 - 0.9^n) * |error|`, with the sign of the error. */
  predicate Approaches(phase: int, error: real, n: nat) {
    var target := (1.0 - Decay(n)) * error;
    if error >= 0.0 then phase >= 0 && target - 10.0 <= phase as real <= target
    else phase <= 0 && target <= phase as real <= target + 10.0
  }

  /** Under a constant prediction error the phase approaches it, by a tenth of what is missing at each resync. */
  lemma {:induction false} PhaseApproachesError(s: ClockState, samples: seq<Sample>, error: real)
    requires s.phase == 0 && -100_000.0 <= error <= 100_000.0 && ConstantError(s, samples, error)
    ensures Approaches(Resynced(s, samples).phase, error, |samples|)
    decreases |samples|
  {
    hide *;
    if samples == [] {
      ApproachStarts(s, error);
    } else {
      var n := |samples| - 1;
      var b := Resynced(s, samples[..n]);
      ConstantPrefix(s, samples, error);
      PhaseApproachesError(s, samples[..n], error);
      SmallErrorPhase(b, samples[n].now, samples[n].ptp, error);
      ApproachStep(b.phase, Relocked(b, samples[n].now, samples[n].ptp).phase, error, n);
      ResyncedSnoc(s, samples);
    }
  }

  lemma ApproachStarts(s: ClockState, error: real)
    requires s.phase == 0
    ensures Approaches(Resynced(s, []).phase, error, 0)
  {
  }

  lemma ConstantPrefix(s: ClockState, samples: seq<Sample>, error: real)
    requires samples != [] && ConstantError(s, samples, error)
    ensures var n := |samples| - 1;
            && ConstantError(s, samples[..n], error)
            && PhaseError(Resynced(s, samples[..n]), samples[n].now, samples[n].ptp) == error
  {
    hide PhaseError, Resynced;
    var before := samples[..|samples| - 1];
    assert forall i :: 0 <= i < |before| ==> before[..i] == samples[..i];
  }

  lemma ResyncedSnoc(s: ClockState, samples: seq<Sample>)
    requires samples != []
    ensures var n := |samples| - 1;
            Resynced(s, samples) == Relocked(Resynced(s, samples[..n]), samples[n].now, samples[n].ptp)
  {
    hide Relocked;
  }

  lemma SmallErrorPhase(b: ClockState, now: Instant, ptp: PtpTime, error: real)
    requires PhaseError(b, now, ptp) == error && -100_000.0 <= error <= 100_000.0
    ensures NextPhase(0.9 * (b.phase as real) + 0.1 * error, Relocked(b, now, ptp).phase)
  {
    AbsIsMagnitude(error);
    RephasedIsNext(b.phase, error);
    hide Retuned, Rephased, PhaseError, RealAbs, NextPhase;
  }

  lemma ApproachStep(phase: int, phase': int, error: real, n: nat)
    requires -100_000.0 <= error <= 100_000.0 && Approaches(phase, error, n)
    requires NextPhase(0.9 * (phase as real) + 0.1 * error, phase')
    ensures Approaches(phase', error, n + 1)
  {
    DecayStep(error, n);
    TargetWithin(error, n);
    hide Decay;
    ApproachNumbers(phase, phase', error, (1.0 - Decay(n)) * error, (1.0 - Decay(n + 1)) * error);
  }

  lemma TargetWithin(error: real, n: nat)
    ensures error >= 0.0 ==> 0.0 <= (1.0 - Decay(n)) * error <= error
    ensures error < 0.0 ==> error <= (1.0 - Decay(n)) * error <= 0.0
  {
    DecayPositive(n);
    hide Decay;
    var left := 1.0 - Decay(n);
    if error >= 0.0 {
      ProductMonotone(0.0, left, error);
      ProductMonotone(left, 1.0, error);
    } else {
      ProductMonotone(0.0, left, -error);
      ProductMonotone(left, 1.0, -error);
      assert left * -error == -(left * error);
    }
  }

  lemma ApproachNumbers(phase: int, phase': int, error: real, target: real, target': real)
    requires -100_000.0 <= error <= 100_000.0 && target' == 0.9 * target + 0.1 * error
    requires NextPhase(0.9 * (phase as real) + 0.1 * error, phase')
    requires error >= 0.0 ==> 0.0 <= target <= error && phase >= 0 && target - 10.0 <= phase as real <= target
    requires error < 0.0 ==> error <= target <= 0.0 && phase <= 0 && target <= phase as real <= target + 10.0
    ensures error >= 0.0 ==> phase' >= 0 && target' - 10.0 <= phase' as real <= target'
    ensures error < 0.0 ==> phase' <= 0 && target' <= phase' as real <= target' + 10.0
  {
  }

  lemma DecayStep(error: real, n: nat)
    ensures (1.0 - Decay(n + 1)) * error == 0.9 * ((1.0 - Decay(n)) * error) + 0.1 * error
  {
    assert Decay(n + 1) == 0.9 * Decay(n);
    hide Decay;
  }
}
