/** Whole runs of the PTP-synchronised clock, over arbitrary and over rate-bounded PTP readings. */
module ClockRuns {
  import opened Basics
  import opened PtpTimes
  import opened Clocks

  /** One call of `elapsed` (with what a PTP read would give) or of `elapsed_no_resync`. */
  datatype Call = Synced(now: Instant, reading: Option<PtpTime>) | Unsynced(now: Instant)

  datatype Sample = Sample(now: Instant, ptp: PtpTime)

  function Step(s: ClockState, c: Call): (ClockState, Result<Duration, ClockError>) {
    match c
    case Synced(now, reading) => Elapsed(s, now, reading)
    case Unsynced(now) => ComputeElapsed(s, now)
  }

  function StateAfter(s: ClockState, calls: seq<Call>): ClockState
    decreases |calls|
  {
    if calls == [] then s else StateAfter(Step(s, calls[0]).0, calls[1..])
  }

  function Results(s: ClockState, calls: seq<Call>): (r: seq<Result<Duration, ClockError>>)
    ensures |r| == |calls|
    decreases |calls|
  {
    if calls == [] then []
    else [Step(s, calls[0]).1] + Results(Step(s, calls[0]).0, calls[1..])
  }

  /** The successful outputs of a run, in order. */
  function Returned(s: ClockState, calls: seq<Call>): seq<int>
    decreases |calls|
  {
    if calls == [] then []
    else
      var (s', r) := Step(s, calls[0]);
      (if r.Ok? then [r.value] else []) + Returned(s', calls[1..])
  }

  /** Whether the call completes a resync, and the state its estimate is made in. */
  predicate Resyncs(s: ClockState, c: Call) {
    c.Synced? && ResyncDue(s, c.now) && c.reading.Some?
  }

  function Estimator(s: ClockState, c: Call): ClockState {
    if Resyncs(s, c) then Relocked(s, c.now, c.reading.value) else s
  }

  /** The raw estimates of the successful calls, before any floor. */
  function Estimates(s: ClockState, calls: seq<Call>): seq<int>
    decreases |calls|
  {
    if calls == [] then []
    else
      var (s', r) := Step(s, calls[0]);
      (if r.Ok? then [RawElapsed(Estimator(s, calls[0]), calls[0].now).value] else [])
      + Estimates(s', calls[1..])
  }

  /** The resyncs completed by a run, in order. */
  function ResyncSamples(s: ClockState, calls: seq<Call>): seq<Sample>
    decreases |calls|
  {
    if calls == [] then []
    else
      var c := calls[0];
      (if Resyncs(s, c) then [Sample(c.now, c.reading.value)] else [])
      + ResyncSamples(Step(s, c).0, calls[1..])
  }

  // ----- The monotonic floor -----

  /** Each entry is raised just enough to exceed the one before it. */
  function LeastAbove(floor: int, raws: seq<int>): seq<int>
    decreases |raws|
  {
    if raws == [] then []
    else
      var first := Max(raws[0], floor + 1);
      [first] + LeastAbove(first, raws[1..])
  }

  ghost predicate StrictlyIncreasingFrom(floor: int, s: seq<int>) {
    && (|s| > 0 ==> floor < s[0])
    && forall i, j :: 0 <= i < j < |s| ==> s[i] < s[j]
  }

  ghost predicate Dominates(s: seq<int>, raws: seq<int>) {
    |s| == |raws| && forall i :: 0 <= i < |s| ==> raws[i] <= s[i]
  }

  ghost predicate PointwiseAtMost(a: seq<int>, b: seq<int>) {
    |a| == |b| && forall i :: 0 <= i < |a| ==> a[i] <= b[i]
  }

  lemma {:induction false} LeastAboveIncreasing(floor: int, raws: seq<int>)
    ensures StrictlyIncreasingFrom(floor, LeastAbove(floor, raws))
    ensures Dominates(LeastAbove(floor, raws), raws)
    decreases |raws|
  {
    if raws != [] {
      LeastAboveIncreasing(Max(raws[0], floor + 1), raws[1..]);
    }
  }

  lemma {:induction false} LeastAboveIsLeast(floor: int, raws: seq<int>, rival: seq<int>)
    requires StrictlyIncreasingFrom(floor, rival) && Dominates(rival, raws)
    ensures PointwiseAtMost(LeastAbove(floor, raws), rival)
    decreases |raws|
  {
    if raws != [] {
      var first := Max(raws[0], floor + 1);
      LeastAboveMonotone(first, rival[0], raws[1..]);
      LeastAboveIsLeast(rival[0], raws[1..], rival[1..]);
    }
  }

  lemma {:induction false} LeastAboveMonotone(low: int, high: int, raws: seq<int>)
    requires low <= high
    ensures PointwiseAtMost(LeastAbove(low, raws), LeastAbove(high, raws))
    decreases |raws|
  {
    if raws != [] {
      LeastAboveMonotone(Max(raws[0], low + 1), Max(raws[0], high + 1), raws[1..]);
    }
  }

  /** The closed form of entry `n`: the largest of `floor + n + 1` and every `raws[j] + (n - j)`. */
  ghost predicate IsClosedForm(floor: int, raws: seq<int>, n: nat, v: int)
    requires n < |raws|
  {
    && v >= floor + n + 1
    && (forall j :: 0 <= j <= n ==> v >= raws[j] + (n - j))
    && (v == floor + n + 1 || exists j :: 0 <= j <= n && v == raws[j] + (n - j))
  }

  lemma {:induction false} LeastAboveClosedForm(floor: int, raws: seq<int>, n: nat)
    requires n < |raws|
    ensures |LeastAbove(floor, raws)| == |raws|
    ensures IsClosedForm(floor, raws, n, LeastAbove(floor, raws)[n])
    decreases |raws|
  {
    var first := Max(raws[0], floor + 1);
    var rest := raws[1..];
    LeastAboveIncreasing(floor, raws);
    if n == 0 {
      assert first == floor + 1 || first == raws[0] + (0 - 0);
    } else {
      LeastAboveClosedForm(first, rest, n - 1);
      var v := LeastAbove(first, rest)[n - 1];
      assert LeastAbove(floor, raws)[n] == v;
      forall j | 0 <= j <= n
        ensures v >= raws[j] + (n - j)
      {
        if j > 0 {
          assert rest[j - 1] == raws[j];
        }
      }
      if v != first + n {
        var j :| 0 <= j <= n - 1 && v == rest[j] + (n - 1 - j);
        assert v == raws[j + 1] + (n - (j + 1));
      } else if first != floor + 1 {
        assert v == raws[0] + (n - 0);
      }
    }
  }

  lemma RelockedKeeps(s: ClockState, now: Instant, ptp: PtpTime)
    ensures var s' := Relocked(s, now, ptp);
            && s'.lastReturned == s.lastReturned && s'.initial == s.initial && s'.interval == s.interval
            && s'.lastInstant == now && s'.lastPtp == ptp
  {
    hide TakesReset, Retuned, Rephased, PhaseError;
  }

  lemma StepShape(s: ClockState, c: Call)
    ensures var (s', r) := Step(s, c);
            && (r.Ok? ==>
                  && RawElapsed(Estimator(s, c), c.now).Ok?
                  && r.value == Max(RawElapsed(Estimator(s, c), c.now).value, s.lastReturned + 1)
                  && s'.lastReturned == r.value)
            && (r.Err? ==> s'.lastReturned == s.lastReturned)
  {
    if Resyncs(s, c) {
      RelockedKeeps(s, c.now, c.reading.value);
    }
    hide RawElapsed, Relocked, DurationSince;
  }

  function LastOr(s: seq<int>, default: int): int {
    if s == [] then default else s[|s| - 1]
  }

  /** One more call in front: nothing if it failed, otherwise its floored estimate. */
  lemma LeastAboveCons(floor: int, head: seq<int>, rawHead: seq<int>, outs: seq<int>, raws: seq<int>)
    requires |head| == |rawHead| <= 1
    requires |head| == 1 ==> head[0] == Max(rawHead[0], floor + 1)
    requires outs == LeastAbove(LastOr(head, floor), raws)
    ensures head + outs == LeastAbove(floor, rawHead + raws)
    ensures LastOr(outs, LastOr(head, floor)) == LastOr(head + outs, floor)
  {
    if head == [] {
      assert head + outs == outs && rawHead + raws == raws;
    } else {
      assert (rawHead + raws)[1..] == raws;
    }
  }

  /** A run's outputs are its raw estimates under the floor; the floor ends at the last output. */
  lemma {:induction false} ReturnedIsLeastAbove(s: ClockState, calls: seq<Call>)
    ensures Returned(s, calls) == LeastAbove(s.lastReturned, Estimates(s, calls))
    ensures StateAfter(s, calls).lastReturned == LastOr(Returned(s, calls), s.lastReturned)
    decreases |calls|
  {
    if calls != [] {
      var c := calls[0];
      var (s', r) := Step(s, c);
      StepShape(s, c);
      ReturnedIsLeastAbove(s', calls[1..]);
      var head := if r.Ok? then [r.value] else [];
      var rawHead := if r.Ok? then [RawElapsed(Estimator(s, c), c.now).value] else [];
      LeastAboveCons(s.lastReturned, head, rawHead, Returned(s', calls[1..]), Estimates(s', calls[1..]));
    }
  }

  /**
   * Over any run from a fresh clock, whatever the readings: the returned durations are the
   * pointwise least strictly increasing positive sequence dominating the raw estimates.
   */
  lemma OutputsAreLeastMonotone(initial: PtpTime, start: Instant, interval: Duration, calls: seq<Call>)
    ensures var s := Fresh(initial, start, interval);
            var outs := Returned(s, calls);
            var raws := Estimates(s, calls);
            && StrictlyIncreasingFrom(0, outs)
            && Dominates(outs, raws)
            && (forall n: nat :: n < |outs| ==> IsClosedForm(0, raws, n, outs[n]))
            && (forall rival: seq<int> :: StrictlyIncreasingFrom(0, rival) && Dominates(rival, raws)
                  ==> PointwiseAtMost(outs, rival))
  {
    var s := Fresh(initial, start, interval);
    var raws := Estimates(s, calls);
    ReturnedIsLeastAbove(s, calls);
    LeastAboveIncreasing(0, raws);
    forall n: nat | n < |raws|
      ensures IsClosedForm(0, raws, n, LeastAbove(0, raws)[n])
    {
      LeastAboveClosedForm(0, raws, n);
    }
    forall rival: seq<int> | StrictlyIncreasingFrom(0, rival) && Dominates(rival, raws)
      ensures PointwiseAtMost(LeastAbove(0, raws), rival)
    {
      LeastAboveIsLeast(0, raws, rival);
    }
  }

  // ----- Invariants under arbitrary readings -----

  predicate PllBounds(s: ClockState) {
    FREQ_MIN <= s.frequency <= FREQ_MAX && -100_000 <= s.phase <= 100_000
  }

  lemma RelockedBounds(s: ClockState, now: Instant, current: PtpTime)
    requires PllBounds(s)
    ensures PllBounds(Relocked(s, now, current))
  {
    var x := Averaged(s.phase as real, PhaseError(s, now, current));
    assert -100_000.0 <= Clamp(x, -PHASE_OFFSET_MAX_NS, PHASE_OFFSET_MAX_NS) <= 100_000.0;
  }

  /** In every reachable state the loop stays within its clamps and the floor has not moved back. */
  lemma {:induction false} RunKeepsBounds(s: ClockState, calls: seq<Call>)
    requires PllBounds(s)
    ensures var e := StateAfter(s, calls);
            && PllBounds(e)
            && e.lastReturned >= s.lastReturned
            && e.initial == s.initial && e.interval == s.interval
    decreases |calls|
  {
    if calls != [] {
      var c := calls[0];
      StepShape(s, c);
      if Resyncs(s, c) {
        RelockedBounds(s, c.now, c.reading.value);
      }
      RunKeepsBounds(Step(s, c).0, calls[1..]);
    }
  }

  /** Consecutive `elapsed`-driven resyncs are at least one interval apart, also from the start. */
  ghost predicate Spaced(from: Instant, interval: Duration, samples: seq<Sample>) {
    && (|samples| > 0 ==> DurationSince(samples[0].now, from) >= interval)
    && forall i :: 0 < i < |samples| ==> DurationSince(samples[i].now, samples[i - 1].now) >= interval
  }

  lemma {:induction false} ResyncsAreSpaced(s: ClockState, calls: seq<Call>)
    ensures Spaced(s.lastInstant, s.interval, ResyncSamples(s, calls))
    decreases |calls|
  {
    if calls != [] {
      var c := calls[0];
      var s' := Step(s, c).0;
      ResyncsAreSpaced(s', calls[1..]);
      StepReference(s, c);
      hide Step, Spaced, ResyncDue;
      var rest := ResyncSamples(s', calls[1..]);
      if Resyncs(s, c) {
        SpacedCons(s, c, rest);
      } else {
        assert ResyncSamples(s, calls) == rest;
      }
    }
  }

  /** Only a resync moves the reference instant, and moves it to now. */
  lemma StepReference(s: ClockState, c: Call)
    ensures var s' := Step(s, c).0;
            && s'.interval == s.interval
            && s'.lastInstant == if Resyncs(s, c) then c.now else s.lastInstant
  {
    if Resyncs(s, c) {
      RelockedKeeps(s, c.now, c.reading.value);
    }
    hide RawElapsed, Relocked, DurationSince;
  }

  lemma SpacedCons(s: ClockState, c: Call, rest: seq<Sample>)
    requires Resyncs(s, c) && Spaced(c.now, s.interval, rest)
    ensures Spaced(s.lastInstant, s.interval, [Sample(c.now, c.reading.value)] + rest)
  {
    hide DurationSince;
  }

  /** Within the clamps neither `checked_add` can overflow: the estimate is the exact sum. */
  lemma EstimateIsExactSum(s: ClockState, now: Instant)
    requires PllBounds(s)
    ensures RawElapsed(s, now) == NanosToDuration(
              AsNanos(s.lastPtp) - AsNanos(s.initial)
              + Round(Predicted(DurationSince(now, s.lastInstant) as real, s.frequency))
              + s.phase)
  {
    var local := DurationSince(now, s.lastInstant) as real;
    ScalingBounds(local, s.frequency);
    NanosExact(s.lastPtp);
    NanosExact(s.initial);
    RoundNearest(Predicted(local, s.frequency));
  }

  lemma ScalingBounds(local: real, frequency: real)
    requires local >= 0.0 && FREQ_MIN <= frequency <= FREQ_MAX
    ensures 0.999 * local <= Predicted(local, frequency) <= 1.001 * local
  {
    assert local * (frequency - 0.999) >= 0.0;
    assert local * (1.001 - frequency) >= 0.0;
  }

  lemma RoundNearest(x: real)
    ensures -0.5 <= Round(x) as real - x <= 0.5
  {
  }

  // ----- Tracking under a bounded rate -----

  /** A call of `elapsed` with the true PTP time at that instant; the read itself may fail. */
  datatype Tick = Tick(now: Instant, ptp: PtpTime, readable: bool)

  function CallAt(t: Tick): Call {
    Synced(t.now, if t.readable then Some(t.ptp) else None)
  }

  function CallsAt(ticks: seq<Tick>): (calls: seq<Call>)
    ensures |calls| == |ticks|
  {
    if ticks == [] then [] else [CallAt(ticks[0])] + CallsAt(ticks[1..])
  }

  /** PTP time advances at 0.999 to 1.001 of local time between two instants. */
  predicate RateBounded(now0: Instant, ptp0: PtpTime, now1: Instant, ptp1: PtpTime) {
    && now0 <= now1
    && 0.999 * ((now1 - now0) as real) <= (AsNanos(ptp1) - AsNanos(ptp0)) as real
    && (AsNanos(ptp1) - AsNanos(ptp0)) as real <= 1.001 * ((now1 - now0) as real)
  }

  /** Successive calls are rate bounded and at least 1 ns of PTP time apart. */
  predicate SteadyTicks(now: Instant, ptp: PtpTime, ticks: seq<Tick>)
    decreases |ticks|
  {
    ticks == [] ||
    (&& RateBounded(now, ptp, ticks[0].now, ticks[0].ptp)
     && AsNanos(ptp) < AsNanos(ticks[0].ptp)
     && SteadyTicks(ticks[0].now, ticks[0].ptp, ticks[1..]))
  }

  function TrackingBound(interval: Duration): real {
    0.002 * (interval as real) + 100_000.5
  }

  function TrueElapsed(s: ClockState, ptp: PtpTime): int {
    AsNanos(ptp) - AsNanos(s.initial)
  }

  predicate Tracked(s: ClockState, now: Instant, ptp: PtpTime) {
    && PllBounds(s)
    && RateBounded(s.lastInstant, s.lastPtp, now, ptp)
    && TrueElapsed(s, ptp) >= 0
    && s.lastReturned as real <= TrueElapsed(s, ptp) as real + TrackingBound(s.interval)
  }

  predicate Within(d: int, truth: int, bound: real) {
    truth as real - bound <= d as real <= truth as real + bound
  }

  lemma EstimateIsClose(s: ClockState, now: Instant, ptp: PtpTime)
    requires PllBounds(s) && RateBounded(s.lastInstant, s.lastPtp, now, ptp)
    requires DurationSince(now, s.lastInstant) <= s.interval
    requires RawElapsed(s, now).Ok?
    ensures Within(RawElapsed(s, now).value, TrueElapsed(s, ptp), TrackingBound(s.interval))
  {
    EstimateIsExactSum(s, now);
    var local := (now - s.lastInstant) as real;
    ScalingBounds(local, s.frequency);
    RoundNearest(Predicted(local, s.frequency));
  }

  lemma RateBoundedTrans(now0: Instant, ptp0: PtpTime, now1: Instant, ptp1: PtpTime, now2: Instant, ptp2: PtpTime)
    requires RateBounded(now0, ptp0, now1, ptp1) && RateBounded(now1, ptp1, now2, ptp2)
    ensures RateBounded(now0, ptp0, now2, ptp2)
  {
  }

  /** The state a call estimates in: at most one interval of local time since its last read. */
  lemma EstimatorTracks(s: ClockState, t: Tick)
    requires PllBounds(s) && RateBounded(s.lastInstant, s.lastPtp, t.now, t.ptp)
    requires !ResyncDue(s, t.now) || t.readable
    ensures var e := Estimator(s, CallAt(t));
            && PllBounds(e)
            && RateBounded(e.lastInstant, e.lastPtp, t.now, t.ptp)
            && DurationSince(t.now, e.lastInstant) <= e.interval
            && e.initial == s.initial && e.interval == s.interval && e.lastReturned == s.lastReturned
  {
    RelockedBounds(s, t.now, t.ptp);
  }

  lemma StepFromEstimator(s: ClockState, c: Call)
    ensures c.Synced? && ResyncDue(s, c.now) && c.reading.None? ==> Step(s, c) == (s, Err(PtpClock))
    ensures !(c.Synced? && ResyncDue(s, c.now) && c.reading.None?) ==>
              Step(s, c) == ComputeElapsed(Estimator(s, c), c.now)
  {
    hide RawElapsed, Relocked, DurationSince;
  }

  lemma TrackingStep(s: ClockState, now: Instant, ptp: PtpTime, t: Tick)
    requires Tracked(s, now, ptp)
    requires RateBounded(now, ptp, t.now, t.ptp) && AsNanos(ptp) < AsNanos(t.ptp)
    ensures var (s', r) := Step(s, CallAt(t));
            && Tracked(s', t.now, t.ptp)
            && s'.initial == s.initial && s'.interval == s.interval
            && (r.Ok? ==> Within(r.value, TrueElapsed(s, t.ptp), TrackingBound(s.interval)))
  {
    RateBoundedTrans(s.lastInstant, s.lastPtp, now, ptp, t.now, t.ptp);
    StepFromEstimator(s, CallAt(t));
    if !ResyncDue(s, t.now) || t.readable {
      EstimatorTracks(s, t);
      var e := Estimator(s, CallAt(t));
      if RawElapsed(e, t.now).Ok? {
        EstimateIsClose(e, t.now, t.ptp);
      }
      FloorTracks(e, t.now, t.ptp, TrueElapsed(s, ptp));
    }
  }

  /** The floor step keeps a close estimate close. */
  lemma FloorTracks(e: ClockState, now: Instant, ptp: PtpTime, before: int)
    requires PllBounds(e) && RateBounded(e.lastInstant, e.lastPtp, now, ptp)
    requires 0 <= before < TrueElapsed(e, ptp)
    requires e.lastReturned as real <= before as real + TrackingBound(e.interval)
    requires RawElapsed(e, now).Ok? ==>
               Within(RawElapsed(e, now).value, TrueElapsed(e, ptp), TrackingBound(e.interval))
    ensures var (s', r) := ComputeElapsed(e, now);
            && Tracked(s', now, ptp)
            && s'.initial == e.initial && s'.interval == e.interval
            && (r.Ok? ==> Within(r.value, TrueElapsed(e, ptp), TrackingBound(e.interval)))
  {
    var (s', r) := ComputeElapsed(e, now);
    assert s' == e.(lastReturned := s'.lastReturned);
    if r.Ok? {
      assert r.value == Max(RawElapsed(e, now).value, e.lastReturned + 1);
    }
  }

  lemma {:induction false} TrackingRun(s: ClockState, now: Instant, ptp: PtpTime, ticks: seq<Tick>, i: nat)
    requires Tracked(s, now, ptp) && SteadyTicks(now, ptp, ticks) && i < |ticks|
    ensures var r := Results(s, CallsAt(ticks))[i];
            r.Ok? ==> Within(r.value, TrueElapsed(s, ticks[i].ptp), TrackingBound(s.interval))
    decreases |ticks|
  {
    TrackingStep(s, now, ptp, ticks[0]);
    var s' := Step(s, CallAt(ticks[0])).0;
    assert CallsAt(ticks)[1..] == CallsAt(ticks[1..]);
    if i > 0 {
      TrackingRun(s', ticks[0].now, ticks[0].ptp, ticks[1..], i - 1);
    }
  }

  /**
   * Whenever PTP runs at 0.999 to 1.001 of local time, every duration returned over a whole run is
   * within 0.002 of the interval plus 100000.5 ns of the true PTP elapsed time, through resyncs,
   * resets, failed reads, failed calls and the monotonic floor.
   */
  lemma {:induction false} ElapsedTracksPtp(initial: PtpTime, start: Instant, interval: Duration, ticks: seq<Tick>)
    requires SteadyTicks(start, initial, ticks)
    ensures var results := Results(Fresh(initial, start, interval), CallsAt(ticks));
            forall i :: 0 <= i < |ticks| && results[i].Ok? ==>
              Within(results[i].value, AsNanos(ticks[i].ptp) - AsNanos(initial), TrackingBound(interval))
  {
    var s := Fresh(initial, start, interval);
    forall i | 0 <= i < |ticks| && Results(s, CallsAt(ticks))[i].Ok?
      ensures Within(Results(s, CallsAt(ticks))[i].value, AsNanos(ticks[i].ptp) - AsNanos(initial),
                     TrackingBound(interval))
    {
      TrackingRun(s, start, initial, ticks, i);
    }
  }

  // ----- Absolute time -----

  lemma AbsoluteIsInitialPlusElapsed(s: ClockState, r: Result<Duration, ClockError>)
    ensures Absolute(s, r).Ok? <==> r.Ok? && AsNanos(s.initial) + r.value <= MAX_NS
    ensures Absolute(s, r).Ok? ==> AsNanos(Absolute(s, r).value) == AsNanos(s.initial) + r.value
  {
    NanosExact(s.initial);
    if r.Ok? {
      FromNsI128Inverse(AsNanos(s.initial) + r.value);
    }
  }

  /** One absolute reading: it names the new floor, which has strictly risen. */
  lemma SynchronizedTimeGrows(s: ClockState, now: Instant, reading: Option<PtpTime>)
    ensures var (s', r) := SynchronizedTime(s, now, reading);
            && s'.initial == s.initial
            && s'.lastReturned >= s.lastReturned
            && (r.Ok? ==> AsNanos(r.value) == AsNanos(s.initial) + s'.lastReturned
                          && s'.lastReturned > s.lastReturned)
  {
    StepShape(s, Synced(now, reading));
    AbsoluteIsInitialPlusElapsed(s, Elapsed(s, now, reading).1);
  }

  /** The successful absolute times of a run, whichever entry point each call uses. */
  function AbsoluteTimes(s: ClockState, calls: seq<Call>): seq<PtpTime>
    decreases |calls|
  {
    if calls == [] then []
    else
      var (s', r) := Step(s, calls[0]);
      var t := Absolute(s, r);
      (if t.Ok? then [t.value] else []) + AbsoluteTimes(s', calls[1..])
  }

  /** All instants lie after `bound`, in strictly increasing order. */
  ghost predicate IncreasingAfter(bound: int, times: seq<PtpTime>) {
    && (forall i :: 0 <= i < |times| ==> bound < AsNanos(times[i]))
    && (forall i, j :: 0 <= i < j < |times| ==> AsNanos(times[i]) < AsNanos(times[j]))
  }

  lemma IncreasingCons(bound: int, bound': int, head: seq<PtpTime>, times: seq<PtpTime>)
    requires bound <= bound' && IncreasingAfter(bound', times)
    requires |head| <= 1 && (|head| == 1 ==> bound < AsNanos(head[0]) <= bound')
    ensures IncreasingAfter(bound, head + times)
  {
    hide AsNanos;
    var all := head + times;
    forall i | 0 <= i < |all|
      ensures bound < AsNanos(all[i])
    {
      assert all[i] == if i < |head| then head[i] else times[i - |head|];
    }
  }

  /** Absolute times are strictly increasing over any run, whatever the PTP readings do. */
  lemma {:induction false} AbsoluteTimesIncrease(s: ClockState, calls: seq<Call>)
    ensures IncreasingAfter(AsNanos(s.initial) + s.lastReturned, AbsoluteTimes(s, calls))
    decreases |calls|
  {
    if calls != [] {
      var (s', r) := Step(s, calls[0]);
      StepShape(s, calls[0]);
      StepKeepsInitial(s, calls[0]);
      AbsoluteIsInitialPlusElapsed(s, r);
      AbsoluteTimesIncrease(s', calls[1..]);
      hide AsNanos, Step, IncreasingAfter;
      var t := Absolute(s, r);
      IncreasingCons(AsNanos(s.initial) + s.lastReturned, AsNanos(s.initial) + s'.lastReturned,
                     if t.Ok? then [t.value] else [], AbsoluteTimes(s', calls[1..]));
    }
  }

  lemma StepKeepsInitial(s: ClockState, c: Call)
    ensures Step(s, c).0.initial == s.initial
  {
    hide RawElapsed, DurationSince;
  }
}
