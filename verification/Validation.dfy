/**
 * The integration test as a whole (src/bin/avtp-integration-test.rs): its verdict on what was sent
 * and received, and the conditions under which that verdict is a pass.
 */
module Validation {
  import opened Basics
  import opened PtpTimes
  import opened Headers
  import opened AafStreams
  import opened AafStreamLaws
  import opened PcmBytes
  import opened JitterBuffers
  import opened Reordering
  import opened TalkerThreads
  import opened ReceiverThreads
  import opened AafEndpoints
  import opened EndToEnd
  import opened Wavs
  import opened WavTransport
  import Avtpdus

  // ----- The verdict -----

  datatype Failure = PacketCount | Metadata(at: nat) | PcmLength | PcmByte(at: nat)

  predicate RecordsAgree(t: TalkerRecord, l: ListenerRecord) {
    t.seqNum == l.seqNum && t.timestampEmbedded == l.timestampEmbedded
  }

  /** The first index within both record lists at which they disagree; `None` if there is none. */
  function FirstMetadataMismatch(talker: seq<TalkerRecord>, listener: seq<ListenerRecord>, at: nat): (r: Option<nat>)
    requires at <= |talker| && at <= |listener|
    ensures r.None? ==> forall i :: at <= i < |talker| && i < |listener| ==> RecordsAgree(talker[i], listener[i])
    ensures r.Some? ==>
              at <= r.value < |talker| && r.value < |listener| && !RecordsAgree(talker[r.value], listener[r.value])
              && forall i :: at <= i < r.value ==> RecordsAgree(talker[i], listener[i])
    decreases |talker| - at
  {
    if at == |talker| || at == |listener| then None
    else if !RecordsAgree(talker[at], listener[at]) then Some(at)
    else FirstMetadataMismatch(talker, listener, at + 1)
  }

  function FirstByteMismatch(sent: bytes, received: bytes, at: nat): (r: Option<nat>)
    requires at <= |sent| && at <= |received|
    ensures r.None? ==> forall i :: at <= i < |sent| && i < |received| ==> sent[i] == received[i]
    ensures r.Some? ==>
              at <= r.value < |sent| && r.value < |received| && sent[r.value] != received[r.value]
              && forall i :: at <= i < r.value ==> sent[i] == received[i]
    decreases |sent| - at
  {
    if at == |sent| || at == |received| then None
    else if sent[at] != received[at] then Some(at)
    else FirstByteMismatch(sent, received, at + 1)
  }

  /** The list of failures, from what has been found. */
  function Listed(count: bool, metadata: Option<nat>, length: bool, byte: Option<nat>): seq<Failure> {
    (if count then [PacketCount] else [])
    + (match metadata case Some(i) => [Metadata(i)] case None => [])
    + (if length then [PcmLength] else [])
    + (match byte case Some(i) => [PcmByte(i)] case None => [])
  }

  /** `analyze_and_report`: the failures it lists; an empty list is a pass. */
  function Failures(talker: seq<TalkerRecord>, listener: seq<ListenerRecord>, sent: bytes, received: bytes)
    : seq<Failure>
  {
    Listed(|talker| != |listener|, FirstMetadataMismatch(talker, listener, 0), |sent| != |received|,
           FirstByteMismatch(sent, received, 0))
  }

  /** The verdict is a pass exactly when the records agree throughout and the bytes are the same. */
  lemma PassesIff(talker: seq<TalkerRecord>, listener: seq<ListenerRecord>, sent: bytes, received: bytes)
    ensures Failures(talker, listener, sent, received) == []
      <==> && |talker| == |listener|
           && (forall i :: 0 <= i < |talker| ==> RecordsAgree(talker[i], listener[i]))
           && sent == received
  {
    hide RecordsAgree;
    var m, b := FirstMetadataMismatch(talker, listener, 0), FirstByteMismatch(sent, received, 0);
    if Failures(talker, listener, sent, received) == [] {
      assert |talker| == |listener| && m.None? && |sent| == |received| && b.None?;
    }
  }

  /** Each failure is listed exactly when it is one, at its first place, and in this order. */
  lemma FailuresExactly(talker: seq<TalkerRecord>, listener: seq<ListenerRecord>, sent: bytes, received: bytes)
    ensures var f := Failures(talker, listener, sent, received);
            && (PacketCount in f <==> |talker| != |listener|)
            && (forall at: nat :: Metadata(at) in f <==> FirstMismatch(Numbers(talker), ListenerNumbers(listener), at))
            && (PcmLength in f <==> |sent| != |received|)
            && (forall at: nat :: PcmByte(at) in f <==> FirstMismatch(sent, received, at))
            && forall i, j :: 0 <= i < j < |f| ==> Rank(f[i]) < Rank(f[j])
  {
    hide *;
    var m, b := FirstMetadataMismatch(talker, listener, 0), FirstByteMismatch(sent, received, 0);
    FailuresAre(talker, listener, sent, received);
    FailureParts(|talker| != |listener|, m, |sent| != |received|, b);
    FailureOrder(|talker| != |listener|, m, |sent| != |received|, b);
    forall at: nat
      ensures FirstMismatch(Numbers(talker), ListenerNumbers(listener), at) <==> m == Some(at)
      ensures FirstMismatch(sent, received, at) <==> b == Some(at)
    {
      MetadataMismatch(talker, listener, at);
      ByteMismatch(sent, received, at);
    }
  }

  lemma FailuresAre(talker: seq<TalkerRecord>, listener: seq<ListenerRecord>, sent: bytes, received: bytes)
    ensures Failures(talker, listener, sent, received)
         == Listed(|talker| != |listener|, FirstMetadataMismatch(talker, listener, 0), |sent| != |received|,
                   FirstByteMismatch(sent, received, 0))
  {
    hide FirstMetadataMismatch, FirstByteMismatch;
  }

  lemma FailureParts(count: bool, metadata: Option<nat>, length: bool, byte: Option<nat>)
    ensures var f := Listed(count, metadata, length, byte);
            && (PacketCount in f <==> count) && (PcmLength in f <==> length)
            && (forall at: nat :: Metadata(at) in f <==> metadata == Some(at))
            && (forall at: nat :: PcmByte(at) in f <==> byte == Some(at))
  {
  }

  lemma FailureOrder(count: bool, metadata: Option<nat>, length: bool, byte: Option<nat>)
    ensures var f := Listed(count, metadata, length, byte);
            forall i, j :: 0 <= i < j < |f| ==> Rank(f[i]) < Rank(f[j])
  {
  }

  lemma MetadataMismatch(talker: seq<TalkerRecord>, listener: seq<ListenerRecord>, at: nat)
    ensures FirstMismatch(Numbers(talker), ListenerNumbers(listener), at)
       <==> FirstMetadataMismatch(talker, listener, 0) == Some(at)
  {
    var m, a, b := FirstMetadataMismatch(talker, listener, 0), Numbers(talker), ListenerNumbers(listener);
    assert forall i :: 0 <= i < |a| && i < |b| ==> (a[i] == b[i] <==> RecordsAgree(talker[i], listener[i]));
    FirstIs(a, b, at, m);
  }

  lemma ByteMismatch(sent: bytes, received: bytes, at: nat)
    ensures FirstMismatch(sent, received, at) <==> FirstByteMismatch(sent, received, 0) == Some(at)
  {
    FirstIs(sent, received, at, FirstByteMismatch(sent, received, 0));
  }

  lemma FirstIs<T(!new)>(a: seq<T>, b: seq<T>, at: nat, found: Option<nat>)
    requires found.None? ==> forall i :: 0 <= i < |a| && i < |b| ==> a[i] == b[i]
    requires found.Some? ==>
               && found.value < |a| && found.value < |b| && a[found.value] != b[found.value]
               && forall i :: 0 <= i < found.value ==> a[i] == b[i]
    ensures FirstMismatch(a, b, at) <==> found == Some(at)
  {
    if at < |a| && at < |b| {
      assert a[..at] == b[..at] <==> forall i :: 0 <= i < at ==> a[..at][i] == b[..at][i];
    }
  }

  /** The lists agree up to an index within both, and not there. */
  ghost predicate FirstMismatch<T>(a: seq<T>, b: seq<T>, at: nat) {
    at < |a| && at < |b| && a[..at] == b[..at] && a[at] != b[at]
  }

  /** The sequence number and the timestamp of each packet. */
  function Numbers(records: seq<TalkerRecord>): (r: seq<(int, int)>)
    ensures |r| == |records|
    ensures forall i :: 0 <= i < |r| ==> r[i] == (records[i].seqNum, records[i].timestampEmbedded)
  {
    seq(|records|, i requires 0 <= i < |records| => (records[i].seqNum, records[i].timestampEmbedded))
  }

  function ListenerNumbers(records: seq<ListenerRecord>): (r: seq<(int, int)>)
    ensures |r| == |records|
    ensures forall i :: 0 <= i < |r| ==> r[i] == (records[i].seqNum, records[i].timestampEmbedded)
  {
    seq(|records|, i requires 0 <= i < |records| => (records[i].seqNum, records[i].timestampEmbedded))
  }

  /** The order in which failures are listed. */
  function Rank(f: Failure): nat {
    match f
    case PacketCount => 0
    case Metadata(_) => 1
    case PcmLength => 2
    case PcmByte(_) => 3
  }

  // ----- The whole test -----

  /** Every sent frame arrives once, in any order, possibly padded. */
  ghost predicate AllDelivered(sentFrames: seq<bytes>, order: seq<nat>, frames: seq<bytes>) {
    && ValidOrder(order, |sentFrames|) && |frames| == |order|
    && (forall i :: 0 <= i < |sentFrames| ==> i in order)
    && (forall k :: 0 <= k < |order| ==> sentFrames[order[k]] <= frames[k])
  }

  lemma DeliveredFrames(sent: seq<SentPacket>, ticks: seq<TalkerTick>, records: seq<TalkerRecord>,
                        sentFrames: seq<bytes>, order: seq<nat>, frames: seq<bytes>)
    requires Transmitted(sent, ticks, records, sentFrames) && AllDelivered(sentFrames, order, frames)
    ensures FramesOf(sent, order, frames)
  {
    hide Avtpdus.Write;
  }

  /** Released packets in send order, logged, agree with the talker's own records. */
  lemma RecordsMatch(s: TalkerState, calls: seq<BuildCall>, ticks: seq<TalkerTick>, talker: seq<TalkerRecord>,
                     sentFrames: seq<bytes>, order: seq<nat>, released: seq<Buffered>,
                     listener: seq<ListenerRecord>, pcmLe: bytes)
    requires s.sequenceNum == 0 && Transmitted(Sent(s, calls), ticks, talker, sentFrames)
    requires forall i :: 0 <= i < |Sent(s, calls)| ==> i in order
    requires ReleasedAs(s, Sent(s, calls), Kept(order, 0, |Sent(s, calls)|), released)
    requires Logged(released, listener, pcmLe)
    ensures |talker| == |listener| && forall i :: 0 <= i < |talker| ==> RecordsAgree(talker[i], listener[i])
  {
    var sent := Sent(s, calls);
    AllReleasedInOrder(s, sent, order, released);
    LoggedSize(released, listener, pcmLe);
    hide *;
    TransmittedSize(sent, ticks, talker, sentFrames);
    forall i | 0 <= i < |talker|
      ensures RecordsAgree(talker[i], listener[i])
    {
      RecordsMatchPackets(s, calls, ticks, talker, sentFrames, i);
      TalkerNumbers(sent, ticks, talker, sentFrames, i);
      ReleaseCarries(s, sent[i], i, released[i]);
      LoggedAt(released, listener, pcmLe, i);
      AgreeWhen(talker[i], listener[i]);
    }
  }

  lemma AgreeWhen(t: TalkerRecord, l: ListenerRecord)
    requires t.seqNum == l.seqNum && t.timestampEmbedded == l.timestampEmbedded
    ensures RecordsAgree(t, l)
  {
  }

  lemma AllReleasedInOrder(s: TalkerState, sent: seq<SentPacket>, order: seq<nat>, released: seq<Buffered>)
    requires forall i :: 0 <= i < |sent| ==> i in order
    requires ReleasedAs(s, sent, Kept(order, 0, |sent|), released)
    ensures |released| == |sent| && forall i: nat :: i < |sent| ==> BufferedAs(s, sent[i], i, released[i])
  {
    hide BufferedAs, Kept;
    AllKept(order, 0, |sent|);
  }

  lemma LoggedSize(released: seq<Buffered>, records: seq<ListenerRecord>, pcmLe: bytes)
    requires Logged(released, records, pcmLe)
    ensures |records| == |released|
  {
    hide Restored, Swappable;
  }

  lemma LoggedAt(released: seq<Buffered>, records: seq<ListenerRecord>, pcmLe: bytes, i: nat)
    requires Logged(released, records, pcmLe) && i < |released| == |records|
    ensures records[i].seqNum == released[i].pcm.seqNum && records[i].timestampEmbedded == released[i].pcm.timestamp
  {
    hide Restored, Swappable;
  }

  lemma TransmittedSize(sent: seq<SentPacket>, ticks: seq<TalkerTick>, records: seq<TalkerRecord>, frames: seq<bytes>)
    requires Transmitted(sent, ticks, records, frames)
    ensures |records| == |sent|
  {
    hide Avtpdus.Write;
  }

  lemma TalkerNumbers(sent: seq<SentPacket>, ticks: seq<TalkerTick>, records: seq<TalkerRecord>, frames: seq<bytes>,
                      i: nat)
    requires Transmitted(sent, ticks, records, frames) && i < |sent|
    ensures |records| == |sent| && records[i].seqNum == i % 256
  {
    hide Avtpdus.Write;
  }

  lemma ReleaseCarries(s: TalkerState, p: SentPacket, n: nat, b: Buffered)
    requires BufferedAs(s, p, n, b) && s.sequenceNum == 0
    ensures b.pcm.seqNum == n % 256 && b.pcm.timestamp == Stamp(p.time, s.delay)
  {
    hide Time, Due, Stamp;
  }

  /** The run's jitter buffer, emptied, over packets that arrived in time. */
  ghost predicate Drained(arrivals: seq<seq<Buffered>>, readings: seq<PtpTime>, passes: seq<seq<Buffered>>) {
    && GoodSchedule(arrivals, readings, passes) && Punctual(arrivals, readings)
    && PendingAfter(arrivals, passes, |passes|) == multiset{}
  }

  /** The planned calls of a test run: one for each chunk of the file. */
  function Plan(h: WavHeader, pcmLe: bytes, size: nat, ticks: seq<TalkerTick>): seq<BuildCall>
    requires size > 0 && Word(h) > 0 && |Chunks(pcmLe, size)| <= |ticks|
  {
    PlannedCalls(Chunks(pcmLe, size), Word(h), ticks)
  }

  // ----- From the loops to the verdict -----

  /** What the drain loop finds in the channel over its first `n` iterations. */
  function Collected(trace: seq<Iteration>, n: nat): seq<Arrival>
    requires n <= |trace|
  {
    if n == 0 then [] else Collected(trace, n - 1) + trace[n - 1].arrivals
  }

  /** A packet buffered while the given reading had not reached its presentation time. */
  predicate BeforeDue(reading: Option<PtpTime>, a: Arrival) {
    reading.Some? && Buffer(a).Some? ==> AsNanos(reading.value) < Time(Buffer(a).value)
  }

  /** Each packet is collected before any drain reading has reached its presentation time. */
  ghost predicate CollectedInTime(trace: seq<Iteration>, n: nat)
    requires n <= |trace|
  {
    forall i, j, a :: 0 <= i < j < n && a in trace[j].arrivals ==> BeforeDue(trace[i].current, a)
  }

  /**
   * What must happen to the frames of a run for its verdict to be a pass. On the wire: no reception
   * ends the receive loop, and of all the traffic the listener accepts exactly the run's own frames,
   * each once, in any order, padded or not, each within the half window of its presentation time. In
   * the drain loop, over its `n` iterations: every report is collected before a reading has reached
   * its presentation time, and the deadline does not pass.
   */
  ghost predicate TimelyDelivery(s: TalkerState, sent: seq<SentPacket>, sentFrames: seq<bytes>, order: seq<nat>,
                                 filter: StreamFilter, traffic: seq<Reception>, trace: seq<Iteration>, n: nat)
  {
    && AllIntact(traffic)
    && var hearings := HeardFrames(filter, traffic);
       && AllDelivered(sentFrames, order, PayloadsOf(hearings))
       && (forall k :: 0 <= k < |order| ==> order[k] < |sent| && InWindow(s, sent[order[k]], hearings[k].at))
       && 0 < n <= |trace|
       && Collected(trace, n) == Received(filter, None, traffic).0
       && CollectedInTime(trace, n)
       && !trace[n - 1].deadlinePassed
  }

  lemma DeliveryParts(s: TalkerState, sent: seq<SentPacket>, sentFrames: seq<bytes>, order: seq<nat>,
                      filter: StreamFilter, traffic: seq<Reception>, trace: seq<Iteration>, n: nat)
    requires TimelyDelivery(s, sent, sentFrames, order, filter, traffic, trace, n)
    ensures AllIntact(traffic)
    ensures var hearings := HeardFrames(filter, traffic);
            && AllDelivered(sentFrames, order, PayloadsOf(hearings)) && |order| == |hearings|
            && forall k :: 0 <= k < |order| ==> order[k] < |sent| && InWindow(s, sent[order[k]], hearings[k].at)
    ensures 0 < n <= |trace| && !trace[n - 1].deadlinePassed
    ensures Collected(trace, n) == Received(filter, None, traffic).0
    ensures CollectedInTime(trace, n)
  {
    hide AllIntact, HeardFrames, InWindow, Collected, CollectedInTime, Received;
  }

  /** The buffered packets are the collected ones, expanded near their reception times. */
  lemma {:induction false} ObservedIsCollected(trace: seq<Iteration>, arrivals: seq<seq<Buffered>>,
                                               readings: seq<PtpTime>, n: nat)
    requires Observes(trace, arrivals, readings) && n <= |arrivals|
    ensures |Flat(arrivals[..n])| == |Collected(trace, n)|
    ensures forall k :: 0 <= k < |Collected(trace, n)| ==>
              Buffer(Collected(trace, n)[k]) == Some(Flat(arrivals[..n])[k])
    decreases n
  {
    hide Buffer;
    if n > 0 {
      ObservedIsCollected(trace, arrivals, readings, n - 1);
      assert arrivals[..n] == arrivals[..n - 1] + [arrivals[n - 1]];
      FlatSnoc(arrivals[..n - 1], arrivals[n - 1]);
    }
  }

  lemma ObservedInTime(trace: seq<Iteration>, arrivals: seq<seq<Buffered>>, readings: seq<PtpTime>)
    requires Observes(trace, arrivals, readings) && CollectedInTime(trace, |arrivals|)
    ensures Punctual(arrivals, readings)
  {
    hide Buffer, Time, AsNanos;
    forall i, j, b | 0 <= i < j < |arrivals| && b in arrivals[j]
      ensures AsNanos(readings[i]) < Time(b)
    {
      var k :| 0 <= k < |arrivals[j]| && arrivals[j][k] == b;
      var a := trace[j].arrivals[k];
      assert Buffer(a) == Some(b) && a in trace[j].arrivals;
      assert BeforeDue(trace[i].current, a);
    }
  }

  /** A stop before the deadline is the stop of an emptied buffer. */
  lemma StopsEmptied(trace: seq<Iteration>, arrivals: seq<seq<Buffered>>, passes: seq<seq<Buffered>>, n: nat)
    requires n <= |trace| && n <= |arrivals| && n <= |passes|
    requires Stopped(trace, arrivals, passes, n) && !trace[n - 1].deadlinePassed
    ensures PendingAfter(arrivals, passes, n) == multiset{}
  {
    hide PendingAfter, TalkerResult;
  }

  /** What was reported on the heard frames is what the drain loop observed. */
  lemma ObservesReports(s: TalkerState, sent: seq<SentPacket>, order: seq<nat>, filter: StreamFilter,
                        hearings: seq<Hearing>, trace: seq<Iteration>, arrivals: seq<seq<Buffered>>,
                        readings: seq<PtpTime>)
    requires |order| == |hearings| && Observes(trace, arrivals, readings)
    requires ReportsOf(filter, None, hearings, Collected(trace, |arrivals|))
    ensures ArrivalsOf(s, sent, order, Heard(filter, None, PdusOf(hearings)), TimesOfReceipt(hearings), arrivals)
  {
    ObservedIsCollected(trace, arrivals, readings, |arrivals|);
    assert arrivals[..|arrivals|] == arrivals;
    hide Buffer, Heard, Collected, Observes, Flat;
  }

  function TimesOfReceipt(hearings: seq<Hearing>): (r: seq<PtpTime>)
    ensures |r| == |hearings| && forall k :: 0 <= k < |r| ==> r[k] == hearings[k].at
  {
    seq(|hearings|, k requires 0 <= k < |hearings| => hearings[k].at)
  }

  lemma HeardParsed(filter: StreamFilter, traffic: seq<Reception>)
    requires AllIntact(traffic)
    ensures var hearings := HeardFrames(filter, traffic);
            ParsedFrom(PayloadsOf(hearings), PdusOf(hearings))
  {
    HeardFramesParse(filter, traffic);
    hide HeardFrames, AllIntact, Avtpdus.Read;
    var hearings := HeardFrames(filter, traffic);
    forall k | 0 <= k < |hearings|
      ensures ParsesTo(hearings[k].payload, hearings[k].pdu)
    {
      assert hearings[k] in hearings;
    }
  }

  /** What the drain loop guarantees when it ends without a fault. */
  ghost predicate DrainedBy(trace: seq<Iteration>, arrivals: seq<seq<Buffered>>, readings: seq<PtpTime>,
                            passes: seq<seq<Buffered>>, listener: seq<ListenerRecord>, received: bytes)
  {
    && Observes(trace, arrivals, readings) && GoodSchedule(arrivals, readings, passes)
    && Stopped(trace, arrivals, passes, |passes|)
    && Logged(Flat(passes), listener, received)
  }

  /** Everything between the talker's frames and the drain loop's schedule. */
  lemma DeliveryIsDrained(s: TalkerState, sent: seq<SentPacket>, sentFrames: seq<bytes>, order: seq<nat>,
                          filter: StreamFilter, traffic: seq<Reception>, trace: seq<Iteration>,
                          arrivals: seq<seq<Buffered>>, readings: seq<PtpTime>, passes: seq<seq<Buffered>>,
                          listener: seq<ListenerRecord>, received: bytes)
    requires DrainedBy(trace, arrivals, readings, passes, listener, received)
    requires TimelyDelivery(s, sent, sentFrames, order, filter, traffic, trace, |passes|)
    ensures AllIntact(traffic)
    ensures var hearings := HeardFrames(filter, traffic);
            && AllDelivered(sentFrames, order, PayloadsOf(hearings))
            && ParsedFrom(PayloadsOf(hearings), PdusOf(hearings))
            && ArrivalsOf(s, sent, order, Heard(filter, None, PdusOf(hearings)), TimesOfReceipt(hearings), arrivals)
            && |order| == |hearings|
            && forall k :: 0 <= k < |order| ==>
                 order[k] < |sent| && InWindow(s, sent[order[k]], TimesOfReceipt(hearings)[k])
    ensures Drained(arrivals, readings, passes)
  {
    DrainParts(trace, arrivals, readings, passes, listener, received);
    hide *;
    DeliveryParts(s, sent, sentFrames, order, filter, traffic, trace, |passes|);
    HeardThroughTraffic(filter, None, traffic);
    HeardParsed(filter, traffic);
    ObservesReports(s, sent, order, filter, HeardFrames(filter, traffic), trace, arrivals, readings);
    ObservedInTime(trace, arrivals, readings);
    StopsEmptied(trace, arrivals, passes, |passes|);
    DrainedWhen(arrivals, readings, passes);
  }

  lemma DrainParts(trace: seq<Iteration>, arrivals: seq<seq<Buffered>>, readings: seq<PtpTime>,
                   passes: seq<seq<Buffered>>, listener: seq<ListenerRecord>, received: bytes)
    requires DrainedBy(trace, arrivals, readings, passes, listener, received)
    ensures Observes(trace, arrivals, readings) && GoodSchedule(arrivals, readings, passes)
    ensures |arrivals| == |readings| == |passes| <= |trace|
    ensures Stopped(trace, arrivals, passes, |passes|)
    ensures Logged(Flat(passes), listener, received)
  {
    hide Logged, Stopped, Flat;
  }

  lemma DrainedWhen(arrivals: seq<seq<Buffered>>, readings: seq<PtpTime>, passes: seq<seq<Buffered>>)
    requires GoodSchedule(arrivals, readings, passes) && Punctual(arrivals, readings)
    requires |passes| <= |arrivals| && PendingAfter(arrivals, passes, |passes|) == multiset{}
    ensures Drained(arrivals, readings, passes)
  {
  }

  /**
   * When the verdict is a pass. A talker configured from a header whose valid bits fill the
   * container sends the whole file over any clock readings, its frames are delivered in time, and
   * the drain loop ends. Then, from what the three loops guarantee, the verdict on the recorded packets
   * and bytes is a pass: same count, same sequence numbers and timestamps in order, identical PCM.
   */
  lemma {:induction false} VerdictIsPass(
      h: WavHeader, s: TalkerState, pcmLe: bytes, size: nat, ticks: seq<TalkerTick>, after: TalkerState,
      talker: seq<TalkerRecord>, sentFrames: seq<bytes>, order: seq<nat>, filter: StreamFilter,
      traffic: seq<Reception>, trace: seq<Iteration>, arrivals: seq<seq<Buffered>>, readings: seq<PtpTime>,
      passes: seq<seq<Buffered>>, listener: seq<ListenerRecord>, received: bytes)
    requires ConfiguredBy(h, s) && h.validBits == h.bitsPerSample && Matches(filter, s.streamId)
    requires size > 0 && Word(h) > 0 && |Chunks(pcmLe, size)| <= |ticks|
    requires RunProgress(s, Plan(h, pcmLe, size, ticks), after, ticks, talker, sentFrames)
    requires DrainedBy(trace, arrivals, readings, passes, listener, received)
    requires var sent := Sent(s, Plan(h, pcmLe, size, ticks));
             TimelyDelivery(s, sent, sentFrames, order, filter, traffic, trace, |passes|)
    ensures Failures(talker, listener, pcmLe, received) == []
  {
    var calls := Plan(h, pcmLe, size, ticks);
    var sent := Sent(s, calls);
    ProgressSize(s, calls, after, ticks, talker, sentFrames);
    assert s.bitDepth / 8 == Word(h) && s.sequenceNum == 0;
    hide *;
    DrainParts(trace, arrivals, readings, passes, listener, received);
    DeliveryIsDrained(s, sent, sentFrames, order, filter, traffic, trace, arrivals, readings, passes, listener,
                      received);
    var hearings := HeardFrames(filter, traffic);
    DeliveredFrames(sent, ticks, talker, sentFrames, order, PayloadsOf(hearings));
    ReleasedInOrder(s, calls, order, PayloadsOf(hearings), PdusOf(hearings), filter, TimesOfReceipt(hearings), arrivals,
                    readings, passes);
    EveryoneDelivered(sentFrames, order, PayloadsOf(hearings));
    PlanIsPlanned(h, pcmLe, size, ticks);
    PcmSurvives(s, pcmLe, size, Word(h), ticks, order, Flat(passes));
    RestoredBytes(Flat(passes), listener, received);
    RecordsMatch(s, calls, ticks, talker, sentFrames, order, Flat(passes), listener, received);
    PassesIff(talker, listener, pcmLe, received);
  }

  lemma RestoredBytes(released: seq<Buffered>, listener: seq<ListenerRecord>, received: bytes)
    requires Logged(released, listener, received)
    ensures Swappable(released) && received == Restored(released)
  {
    hide Swappable, Restored, Records;
  }

  lemma ProgressSize(s: TalkerState, calls: seq<BuildCall>, after: TalkerState, ticks: seq<TalkerTick>,
                     talker: seq<TalkerRecord>, sentFrames: seq<bytes>)
    requires RunProgress(s, calls, after, ticks, talker, sentFrames)
    ensures |Sent(s, calls)| == |calls| == |sentFrames|
    ensures Transmitted(Sent(s, calls), ticks, talker, sentFrames)
  {
    hide Sent, TalkerAfter, Avtpdus.Write;
  }

  lemma EveryoneDelivered(sentFrames: seq<bytes>, order: seq<nat>, frames: seq<bytes>)
    requires AllDelivered(sentFrames, order, frames)
    ensures ValidOrder(order, |sentFrames|) && forall i :: 0 <= i < |sentFrames| ==> i in order
  {
  }

  lemma PlanIsPlanned(h: WavHeader, pcmLe: bytes, size: nat, ticks: seq<TalkerTick>)
    requires size > 0 && Word(h) > 0 && |Chunks(pcmLe, size)| <= |ticks|
    ensures Plan(h, pcmLe, size, ticks) == PlannedCalls(Chunks(pcmLe, size), Word(h), ticks)
  {
  }

  lemma ReleasedInOrder(s: TalkerState, calls: seq<BuildCall>, order: seq<nat>, frames: seq<bytes>,
                        pdus: seq<Avtpdu>, filter: StreamFilter, receivedAt: seq<PtpTime>,
                        arrivals: seq<seq<Buffered>>, readings: seq<PtpTime>, passes: seq<seq<Buffered>>)
    requires Matches(filter, s.streamId)
    requires FramesOf(Sent(s, calls), order, frames) && ParsedFrom(frames, pdus)
    requires ArrivalsOf(s, Sent(s, calls), order, Heard(filter, None, pdus), receivedAt, arrivals)
    requires forall k :: 0 <= k < |order| ==>
               order[k] < |Sent(s, calls)| && InWindow(s, Sent(s, calls)[order[k]], receivedAt[k])
    requires Drained(arrivals, readings, passes)
    ensures ReleasedAs(s, Sent(s, calls), Kept(order, 0, |Sent(s, calls)|), Flat(passes))
  {
    hide Sent, Heard, GoodSchedule, Punctual, PendingAfter, InWindow, Avtpdus.Write, Avtpdus.Read, Flat, ReleasedAs,
         Kept;
    DeliveryInSendOrder(s, calls, order, frames, pdus, filter, receivedAt, arrivals, readings, passes);
  }

  // ----- The whole run -----

  datatype TestError = TalkerError(talker: ThreadError) | DrainFailed(drain: DrainError)

  /** What the three loops of a run leave behind. */
  datatype TestRun = TestRun(
    sentFrames: seq<bytes>,
    talker: seq<TalkerRecord>,
    arrivals: seq<seq<Buffered>>,
    readings: seq<PtpTime>,
    passes: seq<seq<Buffered>>,
    listener: seq<ListenerRecord>,
    received: bytes)

  /**
   * The three loops of the test, run against what their environment gives each of them, and the verdict on
   * what the talker and the drain loop recorded. A failed drain loop is reported before a failed talker.
   */
  method RunTest(h: WavHeader, talker: AafPcmTalker, listener: AafPcmListener, samplesPerPacket: u32, pcmLe: bytes,
                 ticks: seq<TalkerTick>, traffic: seq<Reception>, trace: seq<Iteration>)
    returns (r: Result<seq<Failure>, TestError>, ghost run: TestRun)
    requires var size := ChunkSize(samplesPerPacket, h.channels, Word(h));
             size > 0 ==> |Chunks(pcmLe, size)| <= |ticks|
    modifies talker, talker.ptpClock, listener
    ensures Observes(trace, run.arrivals, run.readings) && GoodSchedule(run.arrivals, run.readings, run.passes)
    ensures r.Ok? || (r.error.TalkerError? && r.error.talker != ZeroChunkPanic) ==>
              var size := ChunkSize(samplesPerPacket, h.channels, Word(h));
              && size > 0 && Word(h) > 0
              && var s, calls := old(talker.State()), Plan(h, pcmLe, size, ticks);
                 && (r.Err? ==> FailedRun(s, calls, ticks, run.sentFrames, r.error.talker))
                 && (r.Ok? ==> RunProgress(s, calls, talker.State(), ticks, run.talker, run.sentFrames))
    ensures r.Ok? ==>
              && DrainedBy(trace, run.arrivals, run.readings, run.passes, run.listener, run.received)
              && r.value == Failures(run.talker, run.listener, pcmLe, run.received)
    ensures r.Ok? ==>
              var s, size := old(talker.State()), ChunkSize(samplesPerPacket, h.channels, Word(h));
              ConfiguredBy(h, s) && h.validBits == h.bitsPerSample && Matches(listener.filter, s.streamId) ==>
                forall order :: TimelyDelivery(s, Sent(s, Plan(h, pcmLe, size, ticks)), run.sentFrames, order,
                                               listener.filter, traffic, trace, |run.passes|)
                  ==> r.value == []
  {
    ghost var s := talker.State();
    ghost var size := ChunkSize(samplesPerPacket, h.channels, Word(h));
    hide *;
    var talkerResult, frames := TalkerThread(talker, Word(h), h.channels, samplesPerPacket, pcmLe, ticks);
    var _, _ := ReceiverThread(listener, traffic);
    var drained, arrivals, readings, passes := DrainLoop(trace);
    run := TestRun(frames, [], arrivals, readings, passes, [], []);
    if drained.Err? {
      return Err(DrainFailed(drained.error)), run;
    }
    if talkerResult.Err? {
      return Err(TalkerError(talkerResult.error)), run;
    }
    var (listenerRecords, received) := drained.value;
    run := TestRun(frames, talkerResult.value, arrivals, readings, passes, listenerRecords, received);
    r := Ok(Failures(talkerResult.value, listenerRecords, pcmLe, received));
    if ConfiguredBy(h, s) && h.validBits == h.bitsPerSample && Matches(listener.filter, s.streamId) {
      forall order | TimelyDelivery(s, Sent(s, Plan(h, pcmLe, size, ticks)), run.sentFrames, order, listener.filter,
                                    traffic, trace, |passes|)
        ensures r.value == []
      {
        VerdictIsPass(h, s, pcmLe, size, ticks, talker.State(), talkerResult.value, frames, order, listener.filter,
                      traffic, trace, arrivals, readings, passes, listenerRecords, received);
      }
    }
  }
}
