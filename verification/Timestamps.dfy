/** Wrapping 32-bit AVTP presentation timestamps (src/avtp/timestamp.rs). */
module Timestamps {
  import opened Basics
  import opened PtpTimes

  type AvtpTimestamp = u32

  function WrappingAdd(ts: AvtpTimestamp, delay: u32): AvtpTimestamp {
    (ts + delay) % TWO_32
  }

  /** `as u64`, `wrapping_mul`, `wrapping_add`, `as u32`: the bits the cast chain keeps. */
  function FromPtpTime(t: PtpTime): AvtpTimestamp {
    var secondsU64 := t.seconds % TWO_64;
    var product := (secondsU64 * NSEC_PER_SEC) % TWO_64;
    var total := (product + t.nanoseconds) % TWO_64;
    total % TWO_32
  }

  /** `From<Duration>`: a duration's nanoseconds cast down to 32 bits. */
  function FromDuration(ns: nat): AvtpTimestamp {
    ns % TWO_32
  }

  /** The first candidate at minimal distance, as `min_by_key` picks it. */
  function NearestCandidate(ts: AvtpTimestamp, reference: int): int {
    var base := (reference / TWO_32) * TWO_32 + ts;
    var lower := if Abs(base - reference) < Abs(base - TWO_32 - reference) then base else base - TWO_32;
    if Abs(base + TWO_32 - reference) < Abs(lower - reference) then base + TWO_32 else lower
  }

  /** `None` is the panic of the final `expect`. */
  function ExpandNear(ts: AvtpTimestamp, reference: PtpTime): Option<PtpTime> {
    NanosExact(reference);
    FromNsI128(NearestCandidate(ts, AsNanos(reference)))
  }

  /** The unsigned cast chain keeps exactly the low 32 bits of the signed nanosecond count. */
  lemma TruncationIsModular(t: PtpTime)
    ensures FromPtpTime(t) == AsNanos(t) % TWO_32
  {
    NanosExact(t);
    var a := t.seconds % TWO_64;
    var product := (a * NSEC_PER_SEC) % TWO_64;
    var total := (product + t.nanoseconds) % TWO_64;
    var k0 := t.seconds / TWO_64;
    var k1 := (a * NSEC_PER_SEC) / TWO_64;
    var k2 := (product + t.nanoseconds) / TWO_64;
    assert t.seconds == k0 * TWO_64 + a;
    assert a * NSEC_PER_SEC == k1 * TWO_64 + product;
    assert product + t.nanoseconds == k2 * TWO_64 + total;
    var k := k0 * NSEC_PER_SEC + k1 + k2;
    assert AsNanos(t) == total + (k * TWO_32) * TWO_32;
    ModAddMultiple(total, k * TWO_32, TWO_32);
  }

  /** The two conversions name the same timestamp for the same nanosecond count. */
  lemma ConversionsAgree(t: PtpTime, ns: nat)
    requires AsNanos(t) == ns
    ensures FromDuration(ns) == FromPtpTime(t)
  {
    hide FromPtpTime, AsNanos;
    TruncationIsModular(t);
  }

  /** Adding the presentation delay commutes with truncation. */
  lemma TruncationCommutesWithDelay(t: PtpTime, delay: u32)
    ensures WrappingAdd(FromPtpTime(t), delay) == (AsNanos(t) + delay) % TWO_32
  {
    TruncationIsModular(t);
    var n := AsNanos(t);
    assert n + delay == n % TWO_32 + delay + (n / TWO_32) * TWO_32;
    ModAddMultiple(n % TWO_32 + delay, n / TWO_32, TWO_32);
  }

  /** The chosen candidate is the unique congruent number in the half-open half window. */
  lemma NearestInHalfWindow(ts: AvtpTimestamp, reference: int)
    ensures NearestCandidate(ts, reference) % TWO_32 == ts
    ensures -TWO_31 <= NearestCandidate(ts, reference) - reference < TWO_31
  {
    var q := reference / TWO_32;
    assert reference == q * TWO_32 + reference % TWO_32;
    ModUnique(q * TWO_32 + ts, q, ts, TWO_32);
    ModUnique((q - 1) * TWO_32 + ts, q - 1, ts, TWO_32);
    ModUnique((q + 1) * TWO_32 + ts, q + 1, ts, TWO_32);
  }

  lemma CongruentApart(a: int, b: int)
    requires a % TWO_32 == b % TWO_32 && a != b
    ensures Abs(a - b) >= TWO_32
  {
  }

  /**
   * Three candidates suffice: the result is nearest to the reference among ALL numbers congruent
   * to the timestamp, and of two equally near ones it is the earlier.
   */
  lemma NearestAmongAll(ts: AvtpTimestamp, reference: int, other: int)
    requires other % TWO_32 == ts
    ensures var n := NearestCandidate(ts, reference);
            && n % TWO_32 == ts
            && Abs(n - reference) <= Abs(other - reference)
            && (Abs(n - reference) == Abs(other - reference) ==> n <= other)
  {
    NearestInHalfWindow(ts, reference);
    var n := NearestCandidate(ts, reference);
    if n != other {
      CongruentApart(n, other);
    }
  }

  /** Expansion recovers a truncated instant exactly when it lies in the half window. */
  lemma ExpandRecovers(t: PtpTime, reference: PtpTime)
    ensures ExpandNear(AsNanos(t) % TWO_32, reference) == Some(t)
      <==> -TWO_31 <= AsNanos(t) - AsNanos(reference) < TWO_31
  {
    var ts := AsNanos(t) % TWO_32;
    var n := NearestCandidate(ts, AsNanos(reference));
    NearestInHalfWindow(ts, AsNanos(reference));
    NanosExact(reference);
    AsNanosInverse(t);
    if -TWO_31 <= AsNanos(t) - AsNanos(reference) < TWO_31 {
      if n != AsNanos(t) {
        CongruentApart(n, AsNanos(t));
      }
    } else {
      assert n != AsNanos(t);
      FromNsI128Inverse(n);
    }
  }

  /** The reference stays far enough from both ends of the range. */
  predicate InteriorReference(reference: PtpTime) {
    MIN_NS + TWO_31 <= AsNanos(reference) <= MAX_NS - (TWO_31 - 1)
  }

  /**
   * The panic called unreachable is reachable near the ends of the range: a reference is safe for
   * every timestamp exactly when it is interior.
   */
  lemma ExpandNeverPanics(reference: PtpTime)
    ensures InteriorReference(reference) <==> forall ts: AvtpTimestamp :: ExpandNear(ts, reference).Some?
  {
    NanosExact(reference);
    var r := AsNanos(reference);
    if InteriorReference(reference) {
      forall ts: AvtpTimestamp
        ensures ExpandNear(ts, reference).Some?
      {
        NearestInHalfWindow(ts, r);
        FromNsI128Inverse(NearestCandidate(ts, r));
      }
    } else {
      var bad := if r < MIN_NS + TWO_31 then MIN_NS - 1 else MAX_NS + 1;
      var n := NearestCandidate(bad % TWO_32, r);
      NearestInHalfWindow(bad % TWO_32, r);
      if n != bad {
        CongruentApart(n, bad);
      }
      FromNsI128Inverse(bad);
      assert ExpandNear(bad % TWO_32, reference).None?;
    }
  }

  /** A concrete panicking call: the last representable instant as reference, the next tick as timestamp. */
  lemma ExpandPanicWitness()
    ensures ExpandNear((MAX_NS + 1) % TWO_32, PtpTime(I64_MAX, 999_999_999)).None?
  {
    var n := NearestCandidate((MAX_NS + 1) % TWO_32, MAX_NS);
    NearestInHalfWindow((MAX_NS + 1) % TWO_32, MAX_NS);
    if n != MAX_NS + 1 {
      CongruentApart(n, MAX_NS + 1);
    }
  }
}
