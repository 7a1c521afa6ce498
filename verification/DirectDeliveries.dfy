/**
 * The conditions for a passing verdict can be met: by the delivery that sends each frame straight to
 * the receiver and drains the buffer once, after the last presentation time.
 */
module DirectDeliveries {
  import opened Basics
  import opened PtpTimes
  import opened Timestamps
  import opened AafStreams
  import opened AafStreamLaws
  import opened JitterBuffers
  import opened TalkerThreads
  import opened ReceiverThreads
  import opened EndToEnd
  import opened Validation
  import Avtpdus

  /** The presentation time of every packet lies in the half window of its send time, and before `last`. */
  predicate Receivable(s: TalkerState, p: SentPacket, last: PtpTime) {
    s.delay < TWO_31 && InteriorReference(p.time) && Due(s, p) <= AsNanos(last)
  }

  // ----- On the wire -----

  /** An Ethernet frame around an AVTP payload; the addresses do not matter. */
  function Ethernet(payload: bytes): (raw: bytes)
    ensures AvtpPayload(raw) == Some(payload)
  {
    var raw := [0, 0, 0, 0, 0, 0, 0, 0, 0, 0, 0, 0, 0x22, 0xF0] + payload;
    assert raw[12..14] == ETHER_TYPE && raw[14..] == payload;
    raw
  }

  /** Every frame received at its own send time. */
  function DirectTraffic(sent: seq<SentPacket>, frames: seq<bytes>): (traffic: seq<Reception>)
    requires |sent| == |frames|
    ensures |traffic| == |sent|
    ensures forall k :: 0 <= k < |sent| ==> traffic[k] == Frame(Ethernet(frames[k]), Some(sent[k].time), true)
  {
    seq(|sent|, k requires 0 <= k < |sent| => Frame(Ethernet(frames[k]), Some(sent[k].time), true))
  }

  /** The reception is heard as this frame. */
  predicate HeardAs(filter: StreamFilter, t: Reception, hearing: Hearing) {
    && t.Frame? && t.channelOpen && t.phc == Some(hearing.at)
    && AvtpPayload(t.raw) == Some(hearing.payload)
    && ParsesTo(hearing.payload, hearing.pdu)
    && Accepts(filter, hearing.pdu)
  }

  lemma HeardAsOne(filter: StreamFilter, t: Reception, hearing: Hearing)
    requires HeardAs(filter, t, hearing)
    ensures Intact(t) && HeardFrame(filter, t) == [hearing]
  {
    hide Avtpdus.Read, AvtpPayload, Accepts;
  }

  lemma {:induction false} AllHeard(filter: StreamFilter, traffic: seq<Reception>, hearings: seq<Hearing>)
    requires |traffic| == |hearings| && forall k :: 0 <= k < |traffic| ==> HeardAs(filter, traffic[k], hearings[k])
    ensures AllIntact(traffic) && HeardFrames(filter, traffic) == hearings
    decreases |traffic|
  {
    hide HeardAs, HeardFrame, Intact;
    if traffic != [] {
      HeardAsOne(filter, traffic[0], hearings[0]);
      AllHeard(filter, traffic[1..], hearings[1..]);
      assert forall k :: 0 < k < |traffic| ==> traffic[k] == traffic[1..][k - 1];
      HeardFramesCons(filter, traffic);
      assert [hearings[0]] + hearings[1..] == hearings;
    }
  }

  function DirectHearings(sent: seq<SentPacket>, frames: seq<bytes>): (hearings: seq<Hearing>)
    requires |sent| == |frames|
    ensures |hearings| == |sent|
    ensures forall k :: 0 <= k < |sent| ==> hearings[k] == Hearing(frames[k], sent[k].pdu, sent[k].time)
  {
    seq(|sent|, k requires 0 <= k < |sent| => Hearing(frames[k], sent[k].pdu, sent[k].time))
  }

  lemma SentIsAccepted(s: TalkerState, p: SentPacket, n: nat, filter: StreamFilter)
    requires CarriedBy(s, p, n) && Matches(filter, s.streamId)
    ensures Accepts(filter, p.pdu)
  {
    ListenerReports(s, p, n, filter, None);
    ProcessIgnores(filter, None, p.pdu);
    hide CarriedBy, Matches, AafStreams.Process, Accepts, Delivered, LostBefore;
  }

  lemma SentParses(s: TalkerState, p: SentPacket, n: nat, frame: bytes)
    requires CarriedBy(s, p, n) && Avtpdus.Write(p.pdu) == Ok(frame)
    ensures ParsesTo(frame, p.pdu)
  {
    hide CarriedBy, Avtpdus.Write, Avtpdus.Read;
    TalkerToWire(s, p, n, []);
    assert frame + [] == frame;
  }

  lemma FrameAt(sent: seq<SentPacket>, ticks: seq<TalkerTick>, records: seq<TalkerRecord>, frames: seq<bytes>, k: nat)
    requires Transmitted(sent, ticks, records, frames) && k < |sent|
    ensures |frames| == |sent| && Avtpdus.Write(sent[k].pdu) == Ok(frames[k])
  {
    hide Avtpdus.Write;
  }

  /** Sent straight to the receiver, every frame is heard as it was sent. */
  lemma DirectlyHeard(s: TalkerState, sent: seq<SentPacket>, ticks: seq<TalkerTick>, records: seq<TalkerRecord>,
                      frames: seq<bytes>, filter: StreamFilter)
    requires AllCarried(s, sent) && Matches(filter, s.streamId)
    requires |sent| == |frames| && Transmitted(sent, ticks, records, frames)
    ensures AllIntact(DirectTraffic(sent, frames))
    ensures HeardFrames(filter, DirectTraffic(sent, frames)) == DirectHearings(sent, frames)
  {
    var traffic, hearings := DirectTraffic(sent, frames), DirectHearings(sent, frames);
    forall k | 0 <= k < |sent|
      ensures HeardAs(filter, traffic[k], hearings[k])
    {
      DirectOne(s, sent, ticks, records, frames, filter, k);
    }
    hide *;
    AllHeard(filter, traffic, hearings);
  }

  lemma DirectOne(s: TalkerState, sent: seq<SentPacket>, ticks: seq<TalkerTick>, records: seq<TalkerRecord>,
                  frames: seq<bytes>, filter: StreamFilter, k: nat)
    requires AllCarried(s, sent) && Matches(filter, s.streamId)
    requires k < |sent| == |frames| && Transmitted(sent, ticks, records, frames)
    ensures HeardAs(filter, DirectTraffic(sent, frames)[k], DirectHearings(sent, frames)[k])
  {
    assert CarriedBy(s, sent[k], k);
    hide CarriedBy, Matches, Transmitted, Accepts, ParsesTo, Ethernet, AvtpPayload, Avtpdus.Write;
    FrameAt(sent, ticks, records, frames, k);
    SentParses(s, sent[k], k, frames[k]);
    SentIsAccepted(s, sent[k], k, filter);
  }

  // ----- In the drain loop -----

  /** One iteration that finds everything, after the talker has finished and `last` has come. */
  function DirectTrace(arrivals: seq<Arrival>, last: PtpTime): (trace: seq<Iteration>)
    ensures |trace| == 1
  {
    [Iteration(arrivals, Finished(true), Some(last), seq(|arrivals|, _ => Some(last)), false)]
  }

  /** The report on packet `n`, received at its send time. */
  predicate DirectReport(s: TalkerState, p: SentPacket, n: nat, a: Arrival) {
    ReportOf(s, p, n, a.pcm) && a.receivedAt == p.time
  }

  lemma ReceivedAtSend(s: TalkerState, p: SentPacket, n: nat, a: Arrival, last: PtpTime)
    requires Receivable(s, p, last) && DirectReport(s, p, n, a)
    ensures InWindow(s, p, p.time)
    ensures Buffer(a).Some? && Time(Buffer(a).value) <= AsNanos(last)
    ensures a.pcm.bitDepth == s.bitDepth
  {
    hide Buffer, AsNanos, Time;
    BuffersExactly(s, p, n, a);
  }

  ghost predicate AllDirect(s: TalkerState, sent: seq<SentPacket>, arrivals: seq<Arrival>, last: PtpTime) {
    && |arrivals| == |sent|
    && forall k: nat :: k < |sent| ==> Receivable(s, sent[k], last) && DirectReport(s, sent[k], k, arrivals[k])
  }

  /** Nothing can go wrong in that iteration. */
  lemma DirectIsFaultless(s: TalkerState, sent: seq<SentPacket>, arrivals: seq<Arrival>, last: PtpTime)
    requires AllDirect(s, sent, arrivals, last) && s.bitDepth >= 8
    ensures NoFault(DirectTrace(arrivals, last))
  {
    hide Receivable, DirectReport, Buffer;
    forall k: nat | k < |arrivals|
      ensures Buffer(arrivals[k]).Some? && arrivals[k].pcm.bitDepth >= 8
    {
      ReceivedAtSend(s, sent[k], k, arrivals[k], last);
    }
    var trace := DirectTrace(arrivals, last);
    assert ArrivalCount(trace, 1) == ArrivalCount(trace, 0) + |trace[0].arrivals| == |arrivals|;
  }

  /** Every good schedule of that iteration leaves the buffer empty, so the loop stops there. */
  lemma DirectStops(s: TalkerState, sent: seq<SentPacket>, collected: seq<Arrival>, last: PtpTime,
                    arrivals: seq<seq<Buffered>>, readings: seq<PtpTime>, passes: seq<seq<Buffered>>)
    requires AllDirect(s, sent, collected, last)
    requires Observes(DirectTrace(collected, last), arrivals, readings)
    requires GoodSchedule(arrivals, readings, passes) && |passes| == 1
    ensures Stops(DirectTrace(collected, last), arrivals, passes, 1)
  {
    var trace := DirectTrace(collected, last);
    TalkerFinishes(collected, last);
    assert arrivals[..1] == [] + [arrivals[0]] && readings[0] == last;
    hide *;
    OnlyGroup(arrivals[0]);
    ScheduleEnds(arrivals, readings, passes);
    NothingFuture(s, sent, collected, last, arrivals[0], PendingAfter(arrivals, passes, 1));
    EmptiedStops(trace, arrivals, passes);
  }

  lemma OnlyGroup(group: seq<Buffered>)
    ensures Flat([] + [group]) == group
  {
    FlatSnoc([], group);
  }

  /** After its only pass, what a good schedule leaves buffered had arrived and is in the future. */
  lemma ScheduleEnds(arrivals: seq<seq<Buffered>>, readings: seq<PtpTime>, passes: seq<seq<Buffered>>)
    requires GoodSchedule(arrivals, readings, passes) && |passes| == 1
    ensures |arrivals| == |readings| == 1
    ensures PendingAfter(arrivals, passes, 1) <= multiset(Flat(arrivals[..1]))
    ensures AllFuture(PendingAfter(arrivals, passes, 1), readings[0])
  {
    hide Flat, AllFuture, Ascending, AllDue;
    assert GoodPass(arrivals, readings, passes, 0);
  }

  lemma NothingFuture(s: TalkerState, sent: seq<SentPacket>, collected: seq<Arrival>, last: PtpTime,
                      arrived: seq<Buffered>, pending: multiset<Buffered>)
    requires AllDirect(s, sent, collected, last)
    requires |arrived| == |collected| && forall k :: 0 <= k < |arrived| ==> Buffer(collected[k]) == Some(arrived[k])
    requires pending <= multiset(arrived) && AllFuture(pending, last)
    ensures pending == multiset{}
  {
    hide Time, AsNanos, Buffer, Receivable, DirectReport;
    forall k: nat | k < |arrived|
      ensures Time(arrived[k]) <= AsNanos(last)
    {
      ReceivedAtSend(s, sent[k], k, collected[k], last);
    }
    assert forall b :: b in multiset(arrived) ==> Time(b) <= AsNanos(last);
    assert forall b :: b !in pending;
  }

  lemma EmptiedStops(trace: seq<Iteration>, arrivals: seq<seq<Buffered>>, passes: seq<seq<Buffered>>)
    requires |trace| == |arrivals| == |passes| == 1
    requires TalkerResult(trace, 1).Some? && PendingAfter(arrivals, passes, 1) == multiset{}
    ensures Stops(trace, arrivals, passes, 1)
  {
    hide TalkerResult, PendingAfter;
  }

  // ----- The whole delivery -----

  lemma DirectReports(s: TalkerState, sent: seq<SentPacket>, order: seq<nat>, hearings: seq<Hearing>,
                      filter: StreamFilter, traffic: seq<Reception>, last: PtpTime)
    requires AllCarried(s, sent) && Matches(filter, s.streamId) && |order| == |sent| == |hearings|
    requires forall k :: 0 <= k < |sent| ==>
               order[k] == k && hearings[k].pdu == sent[k].pdu && hearings[k].at == sent[k].time
    requires forall k: nat :: k < |sent| ==> Receivable(s, sent[k], last)
    requires AllIntact(traffic) && HeardFrames(filter, traffic) == hearings
    ensures AllDirect(s, sent, Received(filter, None, traffic).0, last)
  {
    hide *;
    HeardThroughTraffic(filter, None, traffic);
    ListenerHearsAll(s, sent, order, PdusOf(hearings), filter, None);
    ReportsAreDirect(s, sent, order, hearings, filter, Received(filter, None, traffic).0, last);
  }

  lemma ReportsAreDirect(s: TalkerState, sent: seq<SentPacket>, order: seq<nat>, hearings: seq<Hearing>,
                         filter: StreamFilter, arrivals: seq<Arrival>, last: PtpTime)
    requires |order| == |sent| == |hearings| && ReportsOf(filter, None, hearings, arrivals)
    requires forall k :: 0 <= k < |sent| ==> order[k] == k && hearings[k].at == sent[k].time
    requires var heard := Heard(filter, None, PdusOf(hearings));
             |heard| == |order| && forall k :: 0 <= k < |order| ==> ReportOf(s, sent[order[k]], order[k], heard[k])
    requires forall k: nat :: k < |sent| ==> Receivable(s, sent[k], last)
    ensures AllDirect(s, sent, arrivals, last)
  {
    hide Heard, ReportOf, Receivable, PdusOf;
    var heard := Heard(filter, None, PdusOf(hearings));
    forall k: nat | k < |sent|
      ensures DirectReport(s, sent[k], k, arrivals[k])
    {
      assert ReportOf(s, sent[order[k]], order[k], heard[k]);
      assert arrivals[k] == Arrival(heard[k], hearings[k].at);
    }
  }

  lemma DirectlyDelivered(s: TalkerState, sent: seq<SentPacket>, frames: seq<bytes>, order: seq<nat>,
                          hearings: seq<Hearing>, filter: StreamFilter, traffic: seq<Reception>,
                          trace: seq<Iteration>, last: PtpTime)
    requires |order| == |sent| == |frames| == |hearings|
    requires forall k :: 0 <= k < |sent| ==>
               order[k] == k && hearings[k].payload == frames[k] && hearings[k].at == sent[k].time
    requires AllIntact(traffic) && HeardFrames(filter, traffic) == hearings
    requires AllDirect(s, sent, Received(filter, None, traffic).0, last)
    requires |trace| == 1 && !trace[0].deadlinePassed
    requires Collected(trace, 1) == Received(filter, None, traffic).0
    ensures TimelyDelivery(s, sent, frames, order, filter, traffic, trace, 1)
  {
    AllInWindow(s, sent, Received(filter, None, traffic).0, last);
    assert PayloadsOf(hearings) == frames;
    hide HeardFrames, AllIntact, Received, InWindow, Collected, AllDirect, PayloadsOf;
    DeliveredInOrder(frames, order);
  }

  lemma DeliveredInOrder(frames: seq<bytes>, order: seq<nat>)
    requires |order| == |frames| && forall k :: 0 <= k < |frames| ==> order[k] == k
    ensures AllDelivered(frames, order, frames)
  {
    forall i | 0 <= i < |frames|
      ensures i in order
    {
      assert order[i] == i;
    }
  }

  lemma AllInWindow(s: TalkerState, sent: seq<SentPacket>, arrivals: seq<Arrival>, last: PtpTime)
    requires AllDirect(s, sent, arrivals, last)
    ensures forall k :: 0 <= k < |sent| ==> InWindow(s, sent[k], sent[k].time)
  {
    hide Receivable, DirectReport, InWindow;
    forall k: nat | k < |sent|
      ensures InWindow(s, sent[k], sent[k].time)
    {
      ReceivedAtSend(s, sent[k], k, arrivals[k], last);
    }
  }

  lemma CollectedOnce(arrivals: seq<Arrival>, last: PtpTime)
    ensures Collected(DirectTrace(arrivals, last), 1) == arrivals
    ensures !DirectTrace(arrivals, last)[0].deadlinePassed
  {
    var trace := DirectTrace(arrivals, last);
    assert Collected(trace, 1) == Collected(trace, 0) + trace[0].arrivals == arrivals;
  }

  /**
   * For every successful run with a delay below the half window and packet times away from the ends of
   * the range there is a timely delivery, without a fault in the drain loop and ending after its first
   * iteration. So by `RunTest` its verdict is a pass.
   */
  lemma {:induction false} TimelyDeliveryExists(s: TalkerState, calls: seq<BuildCall>, after: TalkerState,
                                                ticks: seq<TalkerTick>, talker: seq<TalkerRecord>,
                                                frames: seq<bytes>, filter: StreamFilter, last: PtpTime)
    returns (order: seq<nat>, traffic: seq<Reception>, trace: seq<Iteration>)
    requires RunProgress(s, calls, after, ticks, talker, frames) && Matches(filter, s.streamId) && s.bitDepth >= 8
    requires forall k: nat :: k < |Sent(s, calls)| ==> Receivable(s, Sent(s, calls)[k], last)
    ensures |traffic| == |calls| && |trace| == 1 && NoFault(trace) && TalkerResult(trace, 1) == Some(true)
    ensures TimelyDelivery(s, Sent(s, calls), frames, order, filter, traffic, trace, 1)
    ensures forall arrivals, readings, passes: seq<seq<Buffered>> ::
              && |arrivals| == |readings| == |passes| == 1
              && Observes(trace, arrivals, readings) && GoodSchedule(arrivals, readings, passes)
              ==> Stops(trace, arrivals, passes, 1)
  {
    hide *;
    var sent := Sent(s, calls);
    ProgressSize(s, calls, after, ticks, talker, frames);
    SentPacketsCarry(s, calls);
    order := seq(|sent|, i => i);
    traffic := DirectTraffic(sent, frames);
    var collected := Received(filter, None, traffic).0;
    trace := DirectTrace(collected, last);
    DirectlyHeard(s, sent, ticks, talker, frames, filter);
    DirectReports(s, sent, order, DirectHearings(sent, frames), filter, traffic, last);
    DirectIsFaultless(s, sent, collected, last);
    CollectedOnce(collected, last);
    DirectlyDelivered(s, sent, frames, order, DirectHearings(sent, frames), filter, traffic, trace, last);
    TalkerFinishes(collected, last);
    forall arrivals, readings, passes: seq<seq<Buffered>> |
      && |arrivals| == |readings| == |passes| == 1
      && Observes(trace, arrivals, readings) && GoodSchedule(arrivals, readings, passes)
      ensures Stops(trace, arrivals, passes, 1)
    {
      DirectStops(s, sent, collected, last, arrivals, readings, passes);
    }
  }

  lemma TalkerFinishes(arrivals: seq<Arrival>, last: PtpTime)
    ensures TalkerResult(DirectTrace(arrivals, last), 1) == Some(true)
  {
    assert TalkerResult(DirectTrace(arrivals, last), 0) == None;
  }
}
