/** PTP hardware-clock timestamps: normalised seconds plus nanoseconds (src/ptp_phc/time.rs). */
module PtpTimes {
  import opened Basics

  const NSEC_PER_SEC: int := 1_000_000_000
  const MIN_NS: int := I64_MIN * NSEC_PER_SEC
  const MAX_NS: int := I64_MAX * NSEC_PER_SEC + NSEC_PER_SEC - 1

  /** The `Nanoseconds` newtype: always below one billion. */
  type Subsec = x: int | 0 <= x < 1_000_000_000

  datatype PtpTime = PtpTime(seconds: i64, nanoseconds: Subsec)

  function SaturateI128(x: int): i128 {
    if x < I128_MIN then I128_MIN else if x > I128_MAX then I128_MAX else x
  }

  /** Carries excess nanoseconds into the seconds; `None` is the documented overflow panic. */
  function New(seconds: i64, nanos: u32): Option<PtpTime> {
    if nanos < NSEC_PER_SEC then
      Some(PtpTime(seconds, nanos))
    else
      var carried := seconds + nanos / NSEC_PER_SEC;
      if carried > I64_MAX then None else Some(PtpTime(carried, nanos % NSEC_PER_SEC))
  }

  function FromNs(ns: i64): PtpTime {
    PtpTime(ns / NSEC_PER_SEC, ns % NSEC_PER_SEC)
  }

  function FromNsI128(ns: i128): Option<PtpTime> {
    var seconds := ns / NSEC_PER_SEC;
    if I64_MIN <= seconds <= I64_MAX then Some(PtpTime(seconds, ns % NSEC_PER_SEC)) else None
  }

  function AsNanos(t: PtpTime): i128 {
    SaturateI128(SaturateI128(t.seconds * NSEC_PER_SEC) + t.nanoseconds)
  }

  /** The derived `Ord`: seconds first, then nanoseconds. */
  predicate Before(a: PtpTime, b: PtpTime) {
    a.seconds < b.seconds || (a.seconds == b.seconds && a.nanoseconds < b.nanoseconds)
  }

  /** `AtOrAfter(a, b)` is `a >= b` in the derived order. */
  predicate AtOrAfter(a: PtpTime, b: PtpTime) {
    !Before(a, b)
  }

  /** No conversion saturates, and every timestamp lies in `MIN_NS..=MAX_NS`. */
  lemma NanosExact(t: PtpTime)
    ensures AsNanos(t) == t.seconds * NSEC_PER_SEC + t.nanoseconds
    ensures MIN_NS <= AsNanos(t) <= MAX_NS
  {
  }

  /** `from_ns_i128` refuses exactly the out-of-range counts and inverts `as_nanos`. */
  lemma FromNsI128Inverse(ns: i128)
    ensures FromNsI128(ns).Some? <==> MIN_NS <= ns <= MAX_NS
    ensures FromNsI128(ns).Some? ==> AsNanos(FromNsI128(ns).value) == ns
  {
    if FromNsI128(ns).Some? {
      NanosExact(FromNsI128(ns).value);
    }
  }

  lemma AsNanosInverse(t: PtpTime)
    ensures FromNsI128(AsNanos(t)) == Some(t)
  {
    NanosExact(t);
    DivModUnique(AsNanos(t), t.seconds, t.nanoseconds);
  }

  /** `from_ns` and `new` name the instant their arguments add up to. */
  lemma ConstructorsExact(ns: i64, seconds: i64, nanos: u32)
    ensures AsNanos(FromNs(ns)) == ns
    ensures FromNsI128(ns) == Some(FromNs(ns))
    ensures New(seconds, nanos) == FromNsI128(seconds * NSEC_PER_SEC + nanos)
  {
    NanosExact(FromNs(ns));
    var total := seconds * NSEC_PER_SEC + nanos;
    DivModUnique(total, seconds + nanos / NSEC_PER_SEC, nanos % NSEC_PER_SEC);
  }

  lemma DivModUnique(n: int, q: int, r: int)
    requires n == q * NSEC_PER_SEC + r && 0 <= r < NSEC_PER_SEC
    ensures n / NSEC_PER_SEC == q && n % NSEC_PER_SEC == r
  {
  }

  /** The derived order is the order of nanosecond counts, and the counts are injective. */
  lemma OrderIsNanosOrder(a: PtpTime, b: PtpTime)
    ensures Before(a, b) <==> AsNanos(a) < AsNanos(b)
    ensures AtOrAfter(a, b) <==> AsNanos(a) >= AsNanos(b)
    ensures AsNanos(a) == AsNanos(b) ==> a == b
  {
    NanosExact(a);
    NanosExact(b);
  }
}
