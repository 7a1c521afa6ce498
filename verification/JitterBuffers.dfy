/**
 * The jitter buffer that releases packets at presentation time (`drain_loop` of
 * src/bin/avtp-integration-test.rs). The binary heap is a multiset from which any entry of least
 * presentation time may come first; threads, channels and sleeps become a trace of loop iterations.
 */
module JitterBuffers {
  import opened Basics
  import opened PtpTimes
  import opened Timestamps
  import opened AafStreams
  import opened PcmBytes

  datatype Buffered = Buffered(presentation: PtpTime, receivedAt: PtpTime, pcm: ReceivedPcm)

  datatype Arrival = Arrival(pcm: ReceivedPcm, receivedAt: PtpTime)

  /** What polling the talker's result channel gives. */
  datatype Poll = Pending | Finished(ok: bool) | Disconnected

  /**
   * One iteration of the loop: the packets found in the channel, the poll, the drain reading, the
   * reading taken at each release, and whether the deadline has passed.
   */
  datatype Iteration = Iteration(
    arrivals: seq<Arrival>,
    poll: Poll,
    current: Option<PtpTime>,
    present: seq<Option<PtpTime>>,
    deadlinePassed: bool)

  datatype ListenerRecord = ListenerRecord(frameIdx: nat, seqNum: u8, receivedAt: PtpTime, timestampEmbedded: u32,
                                           presentedAt: PtpTime)

  /**
   * `Panicked` is an expansion out of range, or a word size of zero. `StillRunning` is not an outcome of
   * the source: the trace ended before the loop did.
   */
  datatype DrainError = ClockFailed | Panicked | TalkerFailed | TalkerUnfinished | StillRunning

  function Time(b: Buffered): int {
    AsNanos(b.presentation)
  }

  function Buffer(a: Arrival): Option<Buffered> {
    match ExpandNear(a.pcm.timestamp, a.receivedAt)
    case None => None
    case Some(t) => Some(Buffered(t, a.receivedAt, a.pcm))
  }

  predicate Bufferable(arrivals: seq<Arrival>) {
    forall i :: 0 <= i < |arrivals| ==> Buffer(arrivals[i]).Some?
  }

  function BufferAll(arrivals: seq<Arrival>): (r: seq<Buffered>)
    requires Bufferable(arrivals)
    ensures |r| == |arrivals|
    ensures forall i :: 0 <= i < |arrivals| ==> Buffer(arrivals[i]) == Some(r[i])
  {
    seq(|arrivals|, i requires 0 <= i < |arrivals| => Buffer(arrivals[i]).value)
  }

  function Flat<T>(groups: seq<seq<T>>): seq<T> {
    if groups == [] then [] else Flat(groups[..|groups| - 1]) + groups[|groups| - 1]
  }

  // ----- What a schedule of releases must satisfy -----

  ghost predicate Ascending(s: seq<Buffered>) {
    forall i, j :: 0 <= i < j < |s| ==> Time(s[i]) <= Time(s[j])
  }

  ghost predicate AllDue(s: seq<Buffered>, reading: PtpTime) {
    forall i :: 0 <= i < |s| ==> Time(s[i]) <= AsNanos(reading)
  }

  ghost predicate AllFuture(pending: multiset<Buffered>, reading: PtpTime) {
    forall b :: b in pending ==> AsNanos(reading) < Time(b)
  }

  /** Received but not yet released after `n` passes. */
  function PendingAfter(arrivals: seq<seq<Buffered>>, passes: seq<seq<Buffered>>, n: nat): multiset<Buffered>
    requires n <= |arrivals| && n <= |passes|
  {
    multiset(Flat(arrivals[..n])) - multiset(Flat(passes[..n]))
  }

  /** Nothing is released that was not received, or twice. */
  predicate Conserved(arrivals: seq<seq<Buffered>>, passes: seq<seq<Buffered>>, n: nat)
    requires n <= |arrivals| && n <= |passes|
  {
    multiset(Flat(passes[..n])) <= multiset(Flat(arrivals[..n]))
  }

  /**
   * Jitter-buffer safety, pass by pass: packets are conserved, none is released before a reading
   * reaches its presentation time, each pass releases in nondecreasing presentation time, and what
   * stays buffered is strictly in the future of the pass's reading. Together these determine what
   * each pass releases, up to the order of equal times.
   */
  ghost predicate GoodPass(arrivals: seq<seq<Buffered>>, readings: seq<PtpTime>, passes: seq<seq<Buffered>>, i: nat)
    requires i < |arrivals| && i < |readings| && i < |passes|
  {
    && Conserved(arrivals, passes, i + 1)
    && Ascending(passes[i])
    && AllDue(passes[i], readings[i])
    && AllFuture(PendingAfter(arrivals, passes, i + 1), readings[i])
  }

  ghost predicate GoodSchedule(arrivals: seq<seq<Buffered>>, readings: seq<PtpTime>, passes: seq<seq<Buffered>>) {
    && |arrivals| == |readings| == |passes|
    && forall i :: 0 <= i < |passes| ==> GoodPass(arrivals, readings, passes, i)
  }

  // ----- What is recorded for a release -----

  function WordOf(b: Buffered): nat {
    b.pcm.bitDepth / 8
  }

  predicate Swappable(s: seq<Buffered>) {
    forall i :: 0 <= i < |s| ==> WordOf(s[i]) > 0
  }

  function Restored(s: seq<Buffered>): bytes
    requires Swappable(s)
  {
    if s == [] then []
    else
      var last := s[|s| - 1];
      Restored(s[..|s| - 1]) + Swapped(last.pcm.payload, WordOf(last))
  }

  predicate Records(b: Buffered, r: ListenerRecord, index: nat) {
    && r.frameIdx == index
    && r.seqNum == b.pcm.seqNum
    && r.receivedAt == b.receivedAt
    && r.timestampEmbedded == b.pcm.timestamp
  }

  /** The listener records and the PCM bytes are those of the releases, in order. */
  ghost predicate Logged(released: seq<Buffered>, records: seq<ListenerRecord>, pcmLe: bytes) {
    && |records| == |released|
    && Swappable(released)
    && pcmLe == Restored(released)
    && forall i :: 0 <= i < |released| ==> Records(released[i], records[i], i)
  }

  /** The reading for the k-th release of a pass. */
  function PresentAt(present: seq<Option<PtpTime>>, k: nat): Option<PtpTime> {
    if k < |present| then present[k] else None
  }

  /** A pass adds one record for each of its `count` releases, stamped with the reading taken at it. */
  ghost predicate Stamped(before: seq<ListenerRecord>, after: seq<ListenerRecord>, present: seq<Option<PtpTime>>,
                          count: nat)
  {
    && |after| == |before| + count && before <= after
    && forall k: nat :: k < count ==> PresentAt(present, k) == Some(after[|before| + k].presentedAt)
  }

  /** Every record carries the reading its own iteration took at its release. */
  ghost predicate Timed(trace: seq<Iteration>, passes: seq<seq<Buffered>>, records: seq<ListenerRecord>)
    requires |passes| <= |trace|
    decreases |passes|
  {
    if passes == [] then records == []
    else
      var last := |passes| - 1;
      exists before: seq<ListenerRecord> ::
        Timed(trace, passes[..last], before) && Stamped(before, records, trace[last].present, |passes[last]|)
  }

  lemma TimedSnoc(trace: seq<Iteration>, passes: seq<seq<Buffered>>, records: seq<ListenerRecord>,
                  pass: seq<Buffered>, after: seq<ListenerRecord>)
    requires |passes| < |trace| && Timed(trace, passes, records)
    requires Stamped(records, after, trace[|passes|].present, |pass|)
    ensures Timed(trace, passes + [pass], after)
  {
    hide Stamped;
    var all := passes + [pass];
    assert all[..|all| - 1] == passes;
  }

  lemma {:induction false} TimedSize(trace: seq<Iteration>, passes: seq<seq<Buffered>>, records: seq<ListenerRecord>)
    requires |passes| <= |trace| && Timed(trace, passes, records)
    ensures |records| == |Flat(passes)|
    decreases |passes|
  {
    if passes != [] {
      var last := |passes| - 1;
      var before: seq<ListenerRecord> :|
        Timed(trace, passes[..last], before) && Stamped(before, records, trace[last].present, |passes[last]|);
      TimedSize(trace, passes[..last], before);
    }
  }

  /** The k-th release of the i-th pass is recorded with the k-th reading its iteration took at a release. */
  lemma {:induction false} RecordedReading(trace: seq<Iteration>, passes: seq<seq<Buffered>>,
                                           records: seq<ListenerRecord>, i: nat, k: nat)
    requires |passes| <= |trace| && Timed(trace, passes, records)
    requires i < |passes| && k < |passes[i]|
    ensures var n := |Flat(passes[..i])| + k;
            n < |records| && k < |trace[i].present| && trace[i].present[k] == Some(records[n].presentedAt)
    decreases |passes|
  {
    var last := |passes| - 1;
    var before: seq<ListenerRecord> :|
      Timed(trace, passes[..last], before) && Stamped(before, records, trace[last].present, |passes[last]|);
    TimedSize(trace, passes[..last], before);
    if i < last {
      assert passes[..last][..i] == passes[..i];
      RecordedReading(trace, passes[..last], before, i, k);
    } else {
      assert PresentAt(trace[last].present, k) == Some(records[|before| + k].presentedAt);
    }
  }

  lemma StampedSnoc(before: seq<ListenerRecord>, after: seq<ListenerRecord>, present: seq<Option<PtpTime>>, count: nat,
                    record: ListenerRecord)
    requires Stamped(before, after, present, count) && PresentAt(present, count) == Some(record.presentedAt)
    ensures Stamped(before, after + [record], present, count + 1)
  {
  }

  lemma LoggedSnoc(released: seq<Buffered>, records: seq<ListenerRecord>, pcmLe: bytes, b: Buffered,
                   r: ListenerRecord)
    requires Logged(released, records, pcmLe)
    requires WordOf(b) > 0 && Records(b, r, |released|)
    ensures Logged(released + [b], records + [r], pcmLe + Swapped(b.pcm.payload, WordOf(b)))
  {
    hide Swapped, Records;
    var all := released + [b];
    assert all[..|all| - 1] == released;
  }

  // ----- Growing a schedule by one pass -----

  lemma FlatSnoc<T>(groups: seq<seq<T>>, last: seq<T>)
    ensures Flat(groups + [last]) == Flat(groups) + last
  {
    var all := groups + [last];
    assert all[..|all| - 1] == groups;
  }

  lemma PrefixOfSnoc<T>(groups: seq<seq<T>>, last: seq<T>, n: nat)
    requires n <= |groups|
    ensures (groups + [last])[..n] == groups[..n]
  {
  }

  /** The pass conditions, relative to what is buffered when the pass starts. */
  ghost predicate Drains(buffered: multiset<Buffered>, reading: PtpTime, pass: seq<Buffered>) {
    && multiset(pass) <= buffered
    && Ascending(pass)
    && AllDue(pass, reading)
    && AllFuture(buffered - multiset(pass), reading)
  }

  lemma GoodPassEarlier(arrivals: seq<seq<Buffered>>, readings: seq<PtpTime>, passes: seq<seq<Buffered>>,
                        arrived: seq<Buffered>, reading: PtpTime, pass: seq<Buffered>, i: nat)
    requires |arrivals| == |readings| == |passes| && i < |passes|
    requires GoodPass(arrivals, readings, passes, i)
    ensures GoodPass(arrivals + [arrived], readings + [reading], passes + [pass], i)
  {
    hide Ascending, AllDue, AllFuture, Flat;
    PrefixOfSnoc(arrivals, arrived, i + 1);
    PrefixOfSnoc(passes, pass, i + 1);
  }

  lemma BagArithmetic<T>(received: multiset<T>, released: multiset<T>, arrived: multiset<T>, pass: multiset<T>)
    requires released <= received && pass <= received - released + arrived
    ensures released + pass <= received + arrived
    ensures (received + arrived) - (released + pass) == received - released + arrived - pass
  {
  }

  /** The multiset bookkeeping of one more pass. */
  lemma PendingSnoc(arrivals: seq<seq<Buffered>>, passes: seq<seq<Buffered>>, arrived: seq<Buffered>,
                    pass: seq<Buffered>)
    requires |arrivals| == |passes| && Conserved(arrivals, passes, |passes|)
    requires multiset(pass) <= PendingAfter(arrivals, passes, |passes|) + multiset(arrived)
    ensures var a, p, n := arrivals + [arrived], passes + [pass], |passes| + 1;
            && Conserved(a, p, n)
            && PendingAfter(a, p, n)
               == PendingAfter(arrivals, passes, |passes|) + multiset(arrived) - multiset(pass)
  {
    FlatSnoc(arrivals, arrived);
    FlatSnoc(passes, pass);
    FullPrefix(arrivals);
    FullPrefix(passes);
    FullPrefix(arrivals + [arrived]);
    FullPrefix(passes + [pass]);
    BagArithmetic(multiset(Flat(arrivals)), multiset(Flat(passes)), multiset(arrived), multiset(pass));
    hide Flat;
    assert multiset(Flat(arrivals) + arrived) == multiset(Flat(arrivals)) + multiset(arrived);
    assert multiset(Flat(passes) + pass) == multiset(Flat(passes)) + multiset(pass);
  }

  lemma FullPrefix<T>(s: seq<T>)
    ensures s[..|s|] == s
  {
  }

  lemma ScheduleSnoc(arrivals: seq<seq<Buffered>>, readings: seq<PtpTime>, passes: seq<seq<Buffered>>,
                     arrived: seq<Buffered>, reading: PtpTime, pass: seq<Buffered>)
    requires GoodSchedule(arrivals, readings, passes)
    requires Conserved(arrivals, passes, |passes|)
    requires Drains(PendingAfter(arrivals, passes, |passes|) + multiset(arrived), reading, pass)
    ensures GoodSchedule(arrivals + [arrived], readings + [reading], passes + [pass])
    ensures Conserved(arrivals + [arrived], passes + [pass], |passes| + 1)
    ensures PendingAfter(arrivals + [arrived], passes + [pass], |passes| + 1)
         == PendingAfter(arrivals, passes, |passes|) + multiset(arrived) - multiset(pass)
  {
    hide Time, AsNanos, Ascending, AllDue, AllFuture, Flat, Conserved, PendingAfter;
    PendingSnoc(arrivals, passes, arrived, pass);
    var n := |passes|;
    var a, r, p := arrivals + [arrived], readings + [reading], passes + [pass];
    forall i | 0 <= i < n + 1
      ensures GoodPass(a, r, p, i)
    {
      if i < n {
        GoodPassEarlier(arrivals, readings, passes, arrived, reading, pass, i);
      } else {
        assert p[n] == pass && r[n] == reading;
      }
    }
  }

  // ----- The loop -----

  lemma {:induction false} LeastOf(pending: multiset<Buffered>) returns (least: Buffered)
    requires pending != multiset{}
    ensures least in pending
    ensures forall x :: x in pending ==> Time(least) <= Time(x)
    decreases |pending|
  {
    hide Time;
    var y :| y in pending;
    var rest := pending - multiset{y};
    assert forall x :: x in pending ==> x in rest || x == y;
    least := y;
    if rest != multiset{} {
      var z := LeastOf(rest);
      assert z in pending;
      if Time(z) < Time(y) {
        least := z;
      }
    }
  }

  /** `BinaryHeap::peek` of the reversed order: some entry of least presentation time. */
  method Peek(pending: multiset<Buffered>) returns (b: Buffered)
    requires pending != multiset{}
    ensures b in pending
    ensures forall x :: x in pending ==> Time(b) <= Time(x)
  {
    ghost var least := LeastOf(pending);
    b :| b in pending && forall x :: x in pending ==> Time(b) <= Time(x);
  }

  /** Every release of a pass can be timed and swapped. */
  predicate PassCanFinish(buffered: multiset<Buffered>, present: seq<Option<PtpTime>>) {
    && (forall b :: b in buffered ==> WordOf(b) > 0)
    && (forall k :: 0 <= k < |buffered| ==> PresentAt(present, k).Some?)
  }

  /** Everything released so far is due no later than anything still buffered. */
  ghost predicate Precedes(pass: seq<Buffered>, left: multiset<Buffered>) {
    forall x, y :: x in pass && y in left ==> Time(x) <= Time(y)
  }

  lemma PopLeast(buffered: multiset<Buffered>, pass: seq<Buffered>, left: multiset<Buffered>, reading: PtpTime,
                 b: Buffered)
    requires multiset(pass) <= buffered && left == buffered - multiset(pass) && b in left
    requires Ascending(pass) && AllDue(pass, reading) && Precedes(pass, left)
    requires forall x :: x in left ==> Time(b) <= Time(x)
    requires Time(b) <= AsNanos(reading)
    ensures var pass', left' := pass + [b], left - multiset{b};
            && multiset(pass') <= buffered && left' == buffered - multiset(pass')
            && Ascending(pass') && AllDue(pass', reading) && Precedes(pass', left')
            && |pass'| <= |buffered|
  {
    hide Time, AsNanos;
    hide Ascending, AllDue;
    assert multiset(pass + [b]) == multiset(pass) + multiset{b};
    BagPop(buffered, multiset(pass), b);
    assert forall x :: x in pass ==> Time(x) <= Time(b);
    hide Precedes;
    AscendingSnoc(pass, b);
    PrecedesSnoc(pass, left, b);
    AllDueSnoc(pass, reading, b);
  }

  lemma AllDueSnoc(pass: seq<Buffered>, reading: PtpTime, b: Buffered)
    requires AllDue(pass, reading) && Time(b) <= AsNanos(reading)
    ensures AllDue(pass + [b], reading)
  {
  }

  lemma BagPop<T>(buffered: multiset<T>, pass: multiset<T>, b: T)
    requires pass <= buffered && b in buffered - pass
    ensures pass + multiset{b} <= buffered
    ensures buffered - pass - multiset{b} == buffered - (pass + multiset{b})
    ensures |pass| + 1 <= |buffered|
  {
    assert pass + multiset{b} + (buffered - (pass + multiset{b})) == buffered;
  }

  lemma PrecedesSnoc(pass: seq<Buffered>, left: multiset<Buffered>, b: Buffered)
    requires Precedes(pass, left) && forall x :: x in left ==> Time(b) <= Time(x)
    ensures Precedes(pass + [b], left - multiset{b})
  {
    hide Time;
    forall x, y | x in pass + [b] && y in left - multiset{b}
      ensures Time(x) <= Time(y)
    {
      assert y in left;
      assert x in pass || x == b;
    }
  }

  lemma AscendingSnoc(pass: seq<Buffered>, b: Buffered)
    requires Ascending(pass) && forall x :: x in pass ==> Time(x) <= Time(b)
    ensures Ascending(pass + [b])
  {
    hide Time;
    forall i, j | 0 <= i < j < |pass| + 1
      ensures Time((pass + [b])[i]) <= Time((pass + [b])[j])
    {
      if j == |pass| {
        assert pass[i] in pass;
      }
    }
  }

  /** `swap_byte_order` on a copy of the payload. */
  method Restore(payload: bytes, word: nat) returns (pcmLe: bytes)
    requires word > 0
    ensures pcmLe == Swapped(payload, word)
  {
    hide Swapped;
    var copy := new u8[|payload|](i requires 0 <= i < |payload| => payload[i]);
    assert copy[..] == payload;
    SwapByteOrder(copy, word);
    pcmLe := copy[..];
  }

  /** The inner loop: release while the least presentation time has been reached. */
  method DrainPass(buffered: multiset<Buffered>, current: PtpTime, present: seq<Option<PtpTime>>,
                   records: seq<ListenerRecord>, pcmLe: bytes, ghost released: seq<Buffered>)
    returns (r: Result<(multiset<Buffered>, seq<ListenerRecord>, bytes), DrainError>, ghost pass: seq<Buffered>)
    requires Logged(released, records, pcmLe)
    ensures r.Ok? ==>
              && Drains(buffered, current, pass)
              && r.value.0 == buffered - multiset(pass)
              && Logged(released + pass, r.value.1, r.value.2)
              && Stamped(records, r.value.1, present, |pass|)
    ensures PassCanFinish(buffered, present) ==> r.Ok?
    ensures r.Err? ==> r.error in {ClockFailed, Panicked}
  {
    var left, recs, pcm := buffered, records, pcmLe;
    pass := [];
    EmptyPass(buffered, current);
    assert released + pass == released;
    assert Stamped(records, recs, present, 0);
    hide Time, AsNanos, Logged, Swapped, Ascending, AllDue, AllFuture, Precedes, PresentAt, Stamped;
    var count := 0;
    while left != multiset{}
      invariant multiset(pass) <= buffered && left == buffered - multiset(pass)
      invariant Ascending(pass) && AllDue(pass, current) && Precedes(pass, left)
      invariant Logged(released + pass, recs, pcm)
      invariant count == |pass| && |recs| == |released| + count
      invariant Stamped(records, recs, present, count)
      decreases |left|
    {
      var b := Peek(left);
      if !AtOrAfter(current, b.presentation) {
        StillFuture(left, current, b);
        return Ok((left, recs, pcm)), pass;
      }
      DueNow(current, b);
      PopLeast(buffered, pass, left, current, b);
      left := left - multiset{b};
      var presentedAt := PresentAt(present, count);
      if presentedAt.None? {
        return Err(ClockFailed), pass;
      }
      var word := b.pcm.bitDepth / 8;
      if word == 0 {
        return Err(Panicked), pass;
      }
      var restored := Restore(b.pcm.payload, word);
      var record := ListenerRecord(|recs|, b.pcm.seqNum, b.receivedAt, b.pcm.timestamp, presentedAt.value);
      LoggedRelease(released, pass, recs, pcm, b, record);
      StampedSnoc(records, recs, present, count, record);
      pcm, recs := pcm + restored, recs + [record];
      pass := pass + [b];
      count := count + 1;
    }
    NothingLeft(current);
    r := Ok((left, recs, pcm));
  }

  lemma LoggedRelease(released: seq<Buffered>, pass: seq<Buffered>, recs: seq<ListenerRecord>, pcm: bytes,
                      b: Buffered, record: ListenerRecord)
    requires Logged(released + pass, recs, pcm) && WordOf(b) > 0
    requires record == ListenerRecord(|recs|, b.pcm.seqNum, b.receivedAt, b.pcm.timestamp, record.presentedAt)
    ensures Logged(released + (pass + [b]), recs + [record], pcm + Swapped(b.pcm.payload, WordOf(b)))
  {
    LoggedSnoc(released + pass, recs, pcm, b, record);
    assert released + pass + [b] == released + (pass + [b]);
  }

  lemma EmptyPass(buffered: multiset<Buffered>, reading: PtpTime)
    ensures Ascending([]) && AllDue([], reading) && Precedes([], buffered)
    ensures buffered - multiset([]) == buffered
  {
  }

  lemma NothingLeft(reading: PtpTime)
    ensures AllFuture(multiset{}, reading)
  {
  }

  lemma DueNow(reading: PtpTime, b: Buffered)
    requires AtOrAfter(reading, b.presentation)
    ensures Time(b) <= AsNanos(reading)
  {
    OrderIsNanosOrder(reading, b.presentation);
  }

  lemma StillFuture(left: multiset<Buffered>, reading: PtpTime, b: Buffered)
    requires !AtOrAfter(reading, b.presentation)
    requires forall x :: x in left ==> Time(b) <= Time(x)
    ensures AllFuture(left, reading)
  {
    OrderIsNanosOrder(reading, b.presentation);
    hide AsNanos;
  }

  // ----- The whole loop -----

  /** The talker's result after `n` polls: the first that is not pending. */
  function TalkerResult(trace: seq<Iteration>, n: nat): Option<bool>
    requires n <= |trace|
  {
    if n == 0 then None
    else
      var before := TalkerResult(trace, n - 1);
      if before.Some? then before else match trace[n - 1].poll
        case Pending => None
        case Finished(ok) => Some(ok)
        case Disconnected => Some(false)
  }

  /** Up to the first poll that is not pending there is no result, and from then on it is that one. */
  lemma {:induction false} FirstPollDecides(trace: seq<Iteration>, n: nat, i: nat)
    requires n <= |trace| && (forall j :: 0 <= j < i && j < n ==> trace[j].poll.Pending?)
    ensures n <= i ==> TalkerResult(trace, n) == None
    ensures i < n && !trace[i].poll.Pending? ==> TalkerResult(trace, n) == Some(trace[i].poll == Finished(true))
    decreases n
  {
    if n > 0 {
      FirstPollDecides(trace, n - 1, i);
    }
  }

  /** The buffered arrivals and the readings of the first `n` iterations. */
  ghost predicate Observes(trace: seq<Iteration>, arrivals: seq<seq<Buffered>>, readings: seq<PtpTime>) {
    && |arrivals| == |readings| <= |trace|
    && forall i :: 0 <= i < |arrivals| ==>
         && trace[i].current == Some(readings[i])
         && Bufferable(trace[i].arrivals)
         && arrivals[i] == BufferAll(trace[i].arrivals)
  }

  lemma ObservesSnoc(trace: seq<Iteration>, arrivals: seq<seq<Buffered>>, readings: seq<PtpTime>)
    requires Observes(trace, arrivals, readings) && |arrivals| < |trace|
    requires trace[|arrivals|].current.Some? && Bufferable(trace[|arrivals|].arrivals)
    ensures Observes(trace, arrivals + [BufferAll(trace[|arrivals|].arrivals)],
                     readings + [trace[|arrivals|].current.value])
  {
    hide Bufferable, BufferAll;
  }

  /** The push loop: every packet in the channel is expanded near its reception time and buffered. */
  method PushAll(buffered: multiset<Buffered>, arrivals: seq<Arrival>)
    returns (r: Result<multiset<Buffered>, DrainError>)
    ensures r == if Bufferable(arrivals) then Ok(buffered + multiset(BufferAll(arrivals))) else Err(Panicked)
  {
    hide Buffer;
    var all := buffered;
    ghost var pushed: seq<Buffered> := [];
    assert buffered + multiset(pushed) == buffered;
    for i := 0 to |arrivals|
      invariant |pushed| == i && forall k :: 0 <= k < i ==> Buffer(arrivals[k]) == Some(pushed[k])
      invariant all == buffered + multiset(pushed)
    {
      var b := Buffer(arrivals[i]);
      if b.None? {
        return Err(Panicked);
      }
      all := all + multiset{b.value};
      assert multiset(pushed + [b.value]) == multiset(pushed) + multiset{b.value};
      pushed := pushed + [b.value];
    }
    assert pushed == BufferAll(arrivals);
    r := Ok(all);
  }

  /** The loop's exit test after `n` iterations: nothing left of a finished run, or past the deadline. */
  predicate Stops(trace: seq<Iteration>, arrivals: seq<seq<Buffered>>, passes: seq<seq<Buffered>>, n: nat)
    requires 0 < n <= |trace| && n <= |arrivals| && n <= |passes|
  {
    || (TalkerResult(trace, n).Some? && PendingAfter(arrivals, passes, n) == multiset{})
    || trace[n - 1].deadlinePassed
  }

  /** The exit test did not hold after any of the first `n` iterations. */
  ghost predicate RunsOn(trace: seq<Iteration>, arrivals: seq<seq<Buffered>>, passes: seq<seq<Buffered>>, n: nat)
    requires n <= |trace| && n <= |arrivals| && n <= |passes|
  {
    forall m :: 0 < m <= n ==> !Stops(trace, arrivals, passes, m)
  }

  /** The loop stopped at the first iteration whose exit test held. */
  ghost predicate Stopped(trace: seq<Iteration>, arrivals: seq<seq<Buffered>>, passes: seq<seq<Buffered>>, n: nat)
    requires n <= |trace| && n <= |arrivals| && n <= |passes|
  {
    n > 0 && Stops(trace, arrivals, passes, n) && RunsOn(trace, arrivals, passes, n - 1)
  }

  lemma RunsOnSnoc(trace: seq<Iteration>, arrivals: seq<seq<Buffered>>, passes: seq<seq<Buffered>>,
                   arrived: seq<Buffered>, pass: seq<Buffered>)
    requires |arrivals| == |passes| < |trace| && RunsOn(trace, arrivals, passes, |passes|)
    ensures RunsOn(trace, arrivals + [arrived], passes + [pass], |passes|)
  {
    hide TalkerResult, Flat;
    var a, p := arrivals + [arrived], passes + [pass];
    forall m | 0 < m <= |passes|
      ensures !Stops(trace, a, p, m)
    {
      PrefixOfSnoc(arrivals, arrived, m);
      PrefixOfSnoc(passes, pass, m);
      assert PendingAfter(a, p, m) == PendingAfter(arrivals, passes, m);
      assert !Stops(trace, arrivals, passes, m);
    }
  }

  function ArrivalCount(trace: seq<Iteration>, n: nat): nat
    requires n <= |trace|
  {
    if n == 0 then 0 else ArrivalCount(trace, n - 1) + |trace[n - 1].arrivals|
  }

  /** No reading fails, every timestamp expands, and every packet has at least one byte per word. */
  predicate NoFault(trace: seq<Iteration>) {
    forall i :: 0 <= i < |trace| ==>
      && trace[i].current.Some?
      && Bufferable(trace[i].arrivals)
      && (forall k :: 0 <= k < |trace[i].arrivals| ==> trace[i].arrivals[k].pcm.bitDepth >= 8)
      && (forall k :: 0 <= k < ArrivalCount(trace, i + 1) ==> PresentAt(trace[i].present, k).Some?)
  }

  /** What a faultless trace guarantees of the buffer after `n` iterations. */
  predicate Unfaulted(trace: seq<Iteration>, n: nat, buffered: multiset<Buffered>)
    requires n <= |trace|
  {
    NoFault(trace) ==> |buffered| <= ArrivalCount(trace, n) && forall b :: b in buffered ==> WordOf(b) > 0
  }

  lemma UnfaultedPush(trace: seq<Iteration>, n: nat, buffered: multiset<Buffered>)
    requires n < |trace| && NoFault(trace) && Unfaulted(trace, n, buffered)
    ensures trace[n].current.Some? && Bufferable(trace[n].arrivals)
    ensures var pushed := buffered + multiset(BufferAll(trace[n].arrivals));
            Unfaulted(trace, n + 1, pushed) && PassCanFinish(pushed, trace[n].present)
  {
    hide Bufferable, ExpandNear;
    var arrived := BufferAll(trace[n].arrivals);
    assert forall k :: 0 <= k < |arrived| ==> arrived[k].pcm == trace[n].arrivals[k].pcm;
    assert forall b :: b in multiset(arrived) ==> b in arrived;
  }

  lemma UnfaultedDrain(trace: seq<Iteration>, n: nat, pushed: multiset<Buffered>, pass: seq<Buffered>)
    requires n < |trace|
    requires NoFault(trace) ==> Unfaulted(trace, n + 1, pushed)
    requires multiset(pass) <= pushed
    ensures Unfaulted(trace, n + 1, pushed - multiset(pass))
  {
    hide NoFault, WordOf, ArrivalCount;
    assert pushed == (pushed - multiset(pass)) + multiset(pass);
  }

  /** Why an iteration that finds `buffered` in the buffer fails. */
  predicate Faulty(step: Iteration, buffered: multiset<Buffered>, e: DrainError) {
    if !Bufferable(step.arrivals) then e == Panicked
    else if step.current.None? then e == ClockFailed
    else
      && e in {ClockFailed, Panicked}
      && !PassCanFinish(buffered + multiset(BufferAll(step.arrivals)), step.present)
  }

  /** The loop invariant of `DrainLoop` after `n` iterations. */
  ghost predicate LoopState(trace: seq<Iteration>, n: nat, arrivals: seq<seq<Buffered>>, readings: seq<PtpTime>,
                            passes: seq<seq<Buffered>>, buffered: multiset<Buffered>,
                            records: seq<ListenerRecord>, pcmLe: bytes)
  {
    && |arrivals| == |readings| == |passes| == n <= |trace|
    && Observes(trace, arrivals, readings)
    && GoodSchedule(arrivals, readings, passes) && Conserved(arrivals, passes, n)
    && buffered == PendingAfter(arrivals, passes, n)
    && Logged(Flat(passes), records, pcmLe)
    && Timed(trace, passes, records)
    && Unfaulted(trace, n, buffered)
  }

  /** One iteration's work on the buffer: push what has arrived, read the clock, release what is due. */
  method Iterate(trace: seq<Iteration>, i: nat, buffered: multiset<Buffered>, records: seq<ListenerRecord>,
                 pcmLe: bytes, ghost arrivals: seq<seq<Buffered>>, ghost readings: seq<PtpTime>,
                 ghost passes: seq<seq<Buffered>>)
    returns (r: Result<(multiset<Buffered>, seq<ListenerRecord>, bytes), DrainError>, ghost pass: seq<Buffered>)
    requires i < |trace| && LoopState(trace, i, arrivals, readings, passes, buffered, records, pcmLe)
    ensures r.Ok? ==>
              && Bufferable(trace[i].arrivals) && trace[i].current.Some?
              && LoopState(trace, i + 1, arrivals + [BufferAll(trace[i].arrivals)],
                           readings + [trace[i].current.value], passes + [pass],
                           r.value.0, r.value.1, r.value.2)
    ensures r.Err? ==>
              r.error in {ClockFailed, Panicked} && Faulty(trace[i], buffered, r.error) && !NoFault(trace)
  {
    hide Time, AsNanos, Logged, Observes, GoodSchedule, Conserved, PendingAfter, Flat, Bufferable, BufferAll, Ascending,
         AllDue, AllFuture, NoFault, Unfaulted, PassCanFinish, Timed, Stamped;
    pass := [];
    if NoFault(trace) {
      UnfaultedPush(trace, i, buffered);
    }
    var step := trace[i];
    var pushed := PushAll(buffered, step.arrivals);
    if pushed.Err? {
      return Err(pushed.error), pass;
    }
    if step.current.None? {
      return Err(ClockFailed), pass;
    }
    r, pass := DrainPass(pushed.value, step.current.value, step.present, records, pcmLe, Flat(passes));
    if r.Err? {
      return;
    }
    TimedSnoc(trace, passes, records, pass, r.value.1);
    UnfaultedDrain(trace, i, pushed.value, pass);
    ObservesSnoc(trace, arrivals, readings);
    ScheduleSnoc(arrivals, readings, passes, BufferAll(step.arrivals), step.current.value, pass);
    FlatSnoc(passes, pass);
  }

  /**
   * `drain_loop`. The releases form a good schedule of the observed arrivals, however the loop ends.
   * On success they are exactly what is recorded and concatenated, each with the reading taken at its
   * release. The loop ends as soon as its exit test holds and then reports the talker's outcome; it
   * fails earlier only at a faulty iteration.
   */
  method DrainLoop(trace: seq<Iteration>)
    returns (r: Result<(seq<ListenerRecord>, bytes), DrainError>,
             ghost arrivals: seq<seq<Buffered>>, ghost readings: seq<PtpTime>, ghost passes: seq<seq<Buffered>>)
    ensures Observes(trace, arrivals, readings) && GoodSchedule(arrivals, readings, passes)
    ensures r.Ok? ==>
              && Logged(Flat(passes), r.value.0, r.value.1)
              && Timed(trace, passes, r.value.0)
    ensures if r == Err(StillRunning) then
              |passes| == |trace| && RunsOn(trace, arrivals, passes, |passes|)
            else if r.Ok? || r.error in {TalkerFailed, TalkerUnfinished} then
              && Stopped(trace, arrivals, passes, |passes|)
              && (r.Ok? <==> TalkerResult(trace, |passes|) == Some(true))
              && (r == Err(TalkerFailed) <==> TalkerResult(trace, |passes|) == Some(false))
            else
              && |passes| < |trace| && RunsOn(trace, arrivals, passes, |passes|)
              && Faulty(trace[|passes|], PendingAfter(arrivals, passes, |passes|), r.error)
    ensures NoFault(trace) ==> r.Ok? || r.error in {TalkerFailed, TalkerUnfinished, StillRunning}
  {
    var buffered: multiset<Buffered> := multiset{};
    var records: seq<ListenerRecord>, pcmLe: bytes := [], [];
    var talker: Option<bool> := None;
    arrivals, readings, passes := [], [], [];
    hide Logged, Observes, GoodSchedule, Conserved, PendingAfter, Flat, Bufferable, BufferAll, TalkerResult, NoFault,
         Unfaulted, Timed, Stops, Faulty;
    NothingYet(trace);
    for i := 0 to |trace|
      invariant LoopState(trace, i, arrivals, readings, passes, buffered, records, pcmLe)
      invariant talker == TalkerResult(trace, i)
      invariant RunsOn(trace, arrivals, passes, i)
    {
      var next, pass := Iterate(trace, i, buffered, records, pcmLe, arrivals, readings, passes);
      TalkerPolled(trace, i);
      if talker.None? {
        match trace[i].poll {
          case Pending =>
          case Finished(ok) => talker := Some(ok);
          case Disconnected => talker := Some(false);
        }
      }
      if next.Err? {
        return Err(next.error), arrivals, readings, passes;
      }
      RunsOnSnoc(trace, arrivals, passes, BufferAll(trace[i].arrivals), pass);
      arrivals, readings := arrivals + [BufferAll(trace[i].arrivals)], readings + [trace[i].current.value];
      passes := passes + [pass];
      buffered, records, pcmLe := next.value.0, next.value.1, next.value.2;
      ExitTest(trace, arrivals, passes, i + 1);
      if (talker.Some? && buffered == multiset{}) || trace[i].deadlinePassed {
        match talker {
          case None => r := Err(TalkerUnfinished);
          case Some(ok) => r := if ok then Ok((records, pcmLe)) else Err(TalkerFailed);
        }
        return;
      }
    }
    r := Err(StillRunning);
  }

  lemma ExitTest(trace: seq<Iteration>, arrivals: seq<seq<Buffered>>, passes: seq<seq<Buffered>>, n: nat)
    requires 0 < n <= |trace| && n <= |arrivals| && n <= |passes|
    ensures Stops(trace, arrivals, passes, n)
      <==> || (TalkerResult(trace, n).Some? && PendingAfter(arrivals, passes, n) == multiset{})
           || trace[n - 1].deadlinePassed
  {
    hide TalkerResult, PendingAfter;
  }

  lemma TalkerPolled(trace: seq<Iteration>, i: nat)
    requires i < |trace|
    ensures TalkerResult(trace, i + 1)
         == if TalkerResult(trace, i).Some? then TalkerResult(trace, i)
            else match trace[i].poll
                 case Pending => None
                 case Finished(ok) => Some(ok)
                 case Disconnected => Some(false)
  {
  }

  lemma NothingYet(trace: seq<Iteration>)
    ensures Unfaulted(trace, 0, multiset{})
    ensures TalkerResult(trace, 0) == None
    ensures Observes(trace, [], []) && GoodSchedule([], [], []) && Conserved([], [], 0)
    ensures PendingAfter([], [], 0) == multiset{}
    ensures Logged(Flat([]), [], []) && Timed(trace, [], [])
  {
  }
}
