/** The mutable `PtpSynchronizedClock` (src/avtp/synchronizer.rs), proved against the steps of `Clocks`. */
module SynchronizedClocks {
  import opened Basics
  import opened PtpTimes
  import opened Clocks

  /** The fields and the update order of the source. */
  class SynchronizedClock {
    const initialPtpTime: PtpTime
    var lastPtpTime: PtpTime
    var lastPtpInstant: Instant
    var frequencyAdjustment: real
    var phaseOffsetNs: int
    var lastReturned: Duration
    const resyncInterval: Duration

    ghost function State(): ClockState
      reads this
    {
      ClockState(initialPtpTime, lastPtpTime, lastPtpInstant, frequencyAdjustment, phaseOffsetNs,
                 lastReturned, resyncInterval)
    }

    constructor (initial: PtpTime, now: Instant, interval: Duration)
      ensures State() == Fresh(initial, now, interval)
    {
      initialPtpTime, lastPtpTime, lastPtpInstant := initial, initial, now;
      frequencyAdjustment, phaseOffsetNs, lastReturned := 1.0, 0, 0;
      resyncInterval := interval;
    }

    /** `with_resync_interval`: the initial read may fail. */
    static method WithResyncInterval(reading: Option<PtpTime>, now: Instant, interval: Duration)
      returns (r: Result<SynchronizedClock, ClockError>)
      ensures reading.None? ==> r == Err(PtpClock)
      ensures reading.Some? ==> r.Ok? && fresh(r.value) && r.value.State() == Fresh(reading.value, now, interval)
    {
      if reading.None? {
        return Err(PtpClock);
      }
      var clock := new SynchronizedClock(reading.value, now, interval);
      r := Ok(clock);
    }

    method Elapsed(now: Instant, reading: Option<PtpTime>) returns (r: Result<Duration, ClockError>)
      modifies this
      ensures (State(), r) == Clocks.Elapsed(old(State()), now, reading)
    {
      var sinceSync := DurationSince(now, lastPtpInstant);
      if sinceSync >= resyncInterval {
        var synced := ResyncPtp(now, reading);
        if !synced {
          return Err(PtpClock);
        }
      }
      r := ComputeElapsed(now);
    }

    method ElapsedNoResync(now: Instant) returns (r: Result<Duration, ClockError>)
      modifies this
      ensures (State(), r) == Clocks.ComputeElapsed(old(State()), now)
    {
      r := ComputeElapsed(now);
    }

    method PtpTimeNow(now: Instant, reading: Option<PtpTime>) returns (r: Result<PtpTime, ClockError>)
      modifies this
      ensures (State(), r) == SynchronizedTime(old(State()), now, reading)
    {
      var elapsed := Elapsed(now, reading);
      if elapsed.Err? {
        return Err(elapsed.error);
      }
      var absolute := CheckedAddI128(AsNanos(initialPtpTime), elapsed.value);
      if absolute.Err? {
        return Err(absolute.error);
      }
      var time := FromNsI128(absolute.value);
      if time.None? {
        return Err(DurationOverflow);
      }
      r := Ok(time.value);
    }

    /** The first half of `compute_elapsed`: everything before the monotonic floor. */
    method RawEstimate(now: Instant) returns (r: Result<Duration, ClockError>)
      ensures r == RawElapsed(State(), now)
    {
      var sinceSync := DurationSince(now, lastPtpInstant);
      var ptpBase := AsNanos(lastPtpTime) - AsNanos(initialPtpTime);
      var adjusted := Interpolated(sinceSync, frequencyAdjustment);
      var sum := CheckedAddI128(ptpBase, adjusted);
      if sum.Err? {
        return Err(sum.error);
      }
      var total := CheckedAddI128(sum.value, phaseOffsetNs);
      if total.Err? {
        return Err(total.error);
      }
      r := NanosToDuration(total.value);
    }

    method ComputeElapsed(now: Instant) returns (r: Result<Duration, ClockError>)
      modifies this
      ensures (State(), r) == Clocks.ComputeElapsed(old(State()), now)
    {
      r := RawEstimate(now);
      if r.Err? {
        return;
      }
      var duration := r.value;
      if duration <= lastReturned {
        if lastReturned == MAX_DURATION {
          return Err(MonotonicityLimit);
        }
        duration := lastReturned + 1;
      }
      lastReturned := duration;
      r := Ok(duration);
    }

    method ResyncPtp(now: Instant, reading: Option<PtpTime>) returns (ok: bool)
      modifies this
      ensures ok <==> reading.Some?
      ensures State() == if reading.Some? then Relocked(old(State()), now, reading.value) else old(State())
    {
      if reading.None? {
        return false;
      }
      ghost var s := State();
      var current := reading.value;
      var localNs := DurationSince(now, lastPtpInstant) as real;
      var ptpDiffNs := (AsNanos(current) - AsNanos(lastPtpTime)) as real;
      if localNs > MIN_MEASURED_NS {
        var measured := Ratio(ptpDiffNs, localNs);
        frequencyAdjustment := Averaged(frequencyAdjustment, measured);
        frequencyAdjustment := Clamp(frequencyAdjustment, FREQ_MIN, FREQ_MAX);
      }
      assert frequencyAdjustment == Retuned(s.frequency, ptpDiffNs, localNs);
      var predictedNs := Predicted(localNs, frequencyAdjustment);
      var phaseErrorNs := ptpDiffNs - predictedNs;
      assert phaseErrorNs == PhaseError(s, now, current);
      if RealAbs(phaseErrorNs) > LARGE_JUMP_THRESHOLD_NS {
        frequencyAdjustment := 1.0;
        phaseOffsetNs := 0;
        lastPtpTime := current;
        lastPtpInstant := now;
        return true;
      }
      var newPhase := Averaged(phaseOffsetNs as real, phaseErrorNs);
      phaseOffsetNs := Truncate(Clamp(newPhase, -PHASE_OFFSET_MAX_NS, PHASE_OFFSET_MAX_NS));
      lastPtpTime := current;
      lastPtpInstant := now;
      ok := true;
    }
  }
}
