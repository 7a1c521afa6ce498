/**
 * The PTP-synchronised clock (src/avtp/synchronizer.rs) as a state machine: one step function for
 * each operation. The mutable clock that takes these steps is in module `SynchronizedClocks`.
 *
 * Floating point is idealised as `real`; every rounding and truncation to an integer is kept.
 * An `Instant` is a nanosecond count, and a PTP read is a parameter: `None` is a failed read.
 */
module Clocks {
  import opened Basics
  import opened PtpTimes

  const MAX_DURATION: int := TWO_64 * NSEC_PER_SEC - 1

  type Duration = x: int | 0 <= x <= 18446744073709551616 * 1_000_000_000 - 1
  type Instant = x: int |
    -0x8000_0000_0000_0000 * 1_000_000_000 <= x < 0x8000_0000_0000_0000 * 1_000_000_000

  const FREQ_MIN: real := 0.999
  const FREQ_MAX: real := 1.001
  const PHASE_OFFSET_MAX_NS: real := 100_000.0
  const LARGE_JUMP_THRESHOLD_NS: real := 1_000_000.0
  const MIN_MEASURED_NS: real := 1_000_000.0

  datatype ClockError = PtpClock | NegativeElapsed(ns: int) | DurationOverflow | MonotonicityLimit

  datatype ClockState = ClockState(
    initial: PtpTime,
    lastPtp: PtpTime,
    lastInstant: Instant,
    frequency: real,
    phase: int,
    lastReturned: Duration,
    interval: Duration)

  /** `f64::round`: to the nearest integer, halves away from zero. */
  function Round(x: real): int {
    if x >= 0.0 then (x + 0.5).Floor else -((0.5 - x).Floor)
  }

  /** An `as` cast: towards zero. */
  function Truncate(x: real): int {
    if x >= 0.0 then x.Floor else -((-x).Floor)
  }

  function Clamp(x: real, low: real, high: real): real {
    if x < low then low else if x > high then high else x
  }

  function RealAbs(x: real): real {
    if x < 0.0 then -x else x
  }

  /** `Instant::duration_since` saturates at zero. */
  function DurationSince(now: Instant, earlier: Instant): Duration {
    if now < earlier then 0 else now - earlier
  }

  function CheckedAddI128(a: int, b: int): Result<int, ClockError> {
    if I128_MIN <= a + b <= I128_MAX then Ok(a + b) else Err(DurationOverflow)
  }

  function NanosToDuration(nanos: int): Result<Duration, ClockError> {
    if nanos < 0 then Err(NegativeElapsed(nanos))
    else if nanos / NSEC_PER_SEC >= TWO_64 then Err(DurationOverflow)
    else Ok(nanos)
  }

  /** Local nanoseconds seen at the given frequency. */
  function Predicted(localNs: real, frequency: real): real {
    localNs * frequency
  }

  /** Local time scaled by the frequency, as a whole number of nanoseconds. */
  function Interpolated(local: Duration, frequency: real): i128 {
    SaturateI128(Round(Predicted(local as real, frequency)))
  }

  /** The elapsed estimate before the monotonic floor is applied. */
  function RawElapsed(s: ClockState, now: Instant): Result<Duration, ClockError> {
    var base := AsNanos(s.lastPtp) - AsNanos(s.initial);
    var adjusted := Interpolated(DurationSince(now, s.lastInstant), s.frequency);
    var sum :- CheckedAddI128(base, adjusted);
    var total :- CheckedAddI128(sum, s.phase);
    NanosToDuration(total)
  }

  function ComputeElapsed(s: ClockState, now: Instant): (ClockState, Result<Duration, ClockError>) {
    match RawElapsed(s, now)
    case Err(e) => (s, Err(e))
    case Ok(raw) =>
      if raw > s.lastReturned then (s.(lastReturned := raw), Ok(raw))
      else if s.lastReturned == MAX_DURATION then (s, Err(MonotonicityLimit))
      else (s.(lastReturned := s.lastReturned + 1), Ok(s.lastReturned + 1))
  }

  /** One step of the exponential moving average; both filters use a weight of 0.1. */
  function Averaged(previous: real, sample: real): real {
    0.9 * previous + 0.1 * sample
  }

  /** The measured rate; only movements above 1 ms are measured. */
  function Ratio(ptpDiff: real, localNs: real): real
    requires localNs > 0.0
  {
    ptpDiff / localNs
  }

  /** The frequency after one measurement; movements of at most 1 ms are not measured. */
  function Retuned(frequency: real, ptpDiff: real, localNs: real): real {
    if localNs > MIN_MEASURED_NS
    then Clamp(Averaged(frequency, Ratio(ptpDiff, localNs)), FREQ_MIN, FREQ_MAX)
    else frequency
  }

  function Rephased(phase: int, error: real): int {
    Truncate(Clamp(Averaged(phase as real, error), -PHASE_OFFSET_MAX_NS, PHASE_OFFSET_MAX_NS))
  }

  function PtpDiff(s: ClockState, current: PtpTime): real {
    (AsNanos(current) - AsNanos(s.lastPtp)) as real
  }

  function LocalNs(s: ClockState, now: Instant): real {
    DurationSince(now, s.lastInstant) as real
  }

  /** The error of the prediction made with the already updated frequency. */
  function PhaseError(s: ClockState, now: Instant, current: PtpTime): real {
    PtpDiff(s, current)
    - Predicted(LocalNs(s, now), Retuned(s.frequency, PtpDiff(s, current), LocalNs(s, now)))
  }

  /** The large-jump branch: the PLL restarts from nominal instead of converging. */
  predicate TakesReset(s: ClockState, now: Instant, current: PtpTime) {
    RealAbs(PhaseError(s, now, current)) > LARGE_JUMP_THRESHOLD_NS
  }

  function Relocked(s: ClockState, now: Instant, current: PtpTime): ClockState {
    if TakesReset(s, now, current)
    then s.(frequency := 1.0, phase := 0, lastPtp := current, lastInstant := now)
    else s.(frequency := Retuned(s.frequency, PtpDiff(s, current), LocalNs(s, now)),
            phase := Rephased(s.phase, PhaseError(s, now, current)),
            lastPtp := current,
            lastInstant := now)
  }

  predicate ResyncDue(s: ClockState, now: Instant) {
    DurationSince(now, s.lastInstant) >= s.interval
  }

  function Elapsed(s: ClockState, now: Instant, reading: Option<PtpTime>)
    : (ClockState, Result<Duration, ClockError>)
  {
    if !ResyncDue(s, now) then ComputeElapsed(s, now)
    else match reading
         case None => (s, Err(PtpClock))
         case Some(current) => ComputeElapsed(Relocked(s, now, current), now)
  }

  /** The absolute time `initial + elapsed`. */
  function Absolute(s: ClockState, elapsed: Result<Duration, ClockError>): Result<PtpTime, ClockError> {
    var duration :- elapsed;
    var ns :- CheckedAddI128(AsNanos(s.initial), duration);
    match FromNsI128(ns)
    case None => Err(DurationOverflow)
    case Some(t) => Ok(t)
  }

  function SynchronizedTime(s: ClockState, now: Instant, reading: Option<PtpTime>)
    : (ClockState, Result<PtpTime, ClockError>)
  {
    var (s', elapsed) := Elapsed(s, now, reading);
    (s', Absolute(s, elapsed))
  }

  function Fresh(initial: PtpTime, now: Instant, interval: Duration): ClockState {
    ClockState(initial, initial, now, 1.0, 0, 0, interval)
  }
}
