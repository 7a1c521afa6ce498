/**
 * The receive loop (`receiver_thread` of src/bin/avtp-integration-test.rs, `recv_next_with` of
 * src/avtp/transport/ethernet.rs) over a trace of what the socket gives.
 */
module ReceiverThreads {
  import opened Basics
  import opened PtpTimes
  import opened Headers
  import opened HeaderCodecs
  import opened AafStreams
  import opened AafStreamLaws
  import opened AafEndpoints
  import opened JitterBuffers
  import Avtpdus

  const ETHER_TYPE: Bytes2 := [0x22, 0xF0]

  /** A raw Ethernet frame, the clock reading at its receipt, and whether reports are still wanted. */
  datatype Reception = Frame(raw: bytes, phc: Option<PtpTime>, channelOpen: bool) | Broken

  /**
   * Why the loop ended; `Listening` is the end of the trace. A parse failure with `Unsupported` stands
   * for the `todo!()` of alternative headers.
   */
  datatype ReceiverEnd = Listening | ReceiveFailed | ParseFailed(error: DecodeError) | ReceiptClockFailed | ConsumerGone

  /** The payload of an AVTP frame: other and short frames are skipped. */
  function AvtpPayload(raw: bytes): Option<bytes> {
    if |raw| < 14 || raw[12..14] != ETHER_TYPE then None else Some(raw[14..])
  }

  /** AVTP is EtherType 22F0 at offset 12, and its payload is everything from offset 14. */
  lemma EtherFrames(raw: bytes)
    ensures AvtpPayload(raw).Some? <==> |raw| >= 14 && raw[12] == 0x22 && raw[13] == 0xF0
    ensures AvtpPayload(raw).Some? ==> AvtpPayload(raw).value == raw[14..]
  {
    if |raw| >= 14 {
      assert raw[12..14] == [raw[12], raw[13]];
    }
  }

  /** One AVTP frame: a parse failure comes before a failed clock reading. */
  function Parse(payload: bytes, phc: Option<PtpTime>): Result<(PtpTime, Avtpdu), ReceiverEnd> {
    match Avtpdus.Read(payload)
    case Err(e) => Err(ParseFailed(e))
    case Ok(x) => if phc.None? then Err(ReceiptClockFailed) else Ok((phc.value, x.0))
  }

  /** What the loop passes on, and why it ends. */
  function Received(filter: StreamFilter, expected: Option<u8>, traffic: seq<Reception>): (seq<Arrival>, ReceiverEnd)
    decreases |traffic|
  {
    if traffic == [] then ([], Listening)
    else if traffic[0].Broken? then ([], ReceiveFailed)
    else
      var payload := AvtpPayload(traffic[0].raw);
      if payload.None? then Received(filter, expected, traffic[1..])
      else
        var parsed := Parse(payload.value, traffic[0].phc);
        if parsed.Err? then ([], parsed.error)
        else
          var (next, report) := Process(filter, expected, parsed.value.1);
          if report.Err? || report.value.None? then Received(filter, next, traffic[1..])
          else if !traffic[0].channelOpen then ([], ConsumerGone)
          else After([Arrival(report.value.value, parsed.value.0)], Received(filter, next, traffic[1..]))
  }

  function After(first: seq<Arrival>, later: (seq<Arrival>, ReceiverEnd)): (seq<Arrival>, ReceiverEnd) {
    (first + later.0, later.1)
  }

  lemma AfterTwo(a: seq<Arrival>, b: seq<Arrival>, later: (seq<Arrival>, ReceiverEnd))
    ensures After(a + b, later) == After(a, After(b, later))
    ensures After([], later) == later
  {
    assert a + b + later.0 == a + (b + later.0);
    assert [] + later.0 == later.0;
  }

  /** `receiver_thread`: it ends at the first frame that cannot be received, parsed, timed or passed on. */
  method ReceiverThread(listener: AafPcmListener, traffic: seq<Reception>)
    returns (arrivals: seq<Arrival>, end: ReceiverEnd)
    modifies listener
    ensures (arrivals, end) == Received(listener.filter, old(listener.expectedSeq), traffic)
  {
    hide AvtpPayload, Avtpdus.Read, AafStreams.Process, After;
    ghost var all := Received(listener.filter, listener.expectedSeq, traffic);
    arrivals := [];
    AfterTwo([], [], all);
    for i := 0 to |traffic|
      invariant all == After(arrivals, Received(listener.filter, listener.expectedSeq, traffic[i..]))
    {
      var t := traffic[i];
      assert traffic[i..][0] == t && traffic[i..][1..] == traffic[i + 1..];
      EndsHere(arrivals, all);
      if t.Broken? {
        return arrivals, ReceiveFailed;
      }
      var payload := AvtpPayload(t.raw);
      if payload.None? {
        continue;
      }
      var read := ReadPdu(payload.value);
      if read.Err? {
        return arrivals, ParseFailed(read.error);
      }
      if t.phc.None? {
        return arrivals, ReceiptClockFailed;
      }
      ghost var expected := listener.expectedSeq;
      var report := listener.Process(read.value.0);
      if report.Ok? && report.value.Some? {
        if !t.channelOpen {
          return arrivals, ConsumerGone;
        }
        var arrival := Arrival(report.value.value, t.phc.value);
        AfterTwo(arrivals, [arrival], Received(listener.filter, listener.expectedSeq, traffic[i + 1..]));
        arrivals := arrivals + [arrival];
      }
    }
    EndsHere(arrivals, all);
    end := Listening;
  }

  lemma EndsHere(arrivals: seq<Arrival>, all: (seq<Arrival>, ReceiverEnd))
    ensures forall e: ReceiverEnd :: all == After(arrivals, ([], e)) ==> all == (arrivals, e)
  {
    assert arrivals + [] == arrivals;
  }

  // ----- Where the loop stops -----

  /** A reception the loop gets past, whatever the listener makes of it. */
  predicate Intact(t: Reception) {
    && t.Frame?
    && (AvtpPayload(t.raw).Some? ==> Parse(AvtpPayload(t.raw).value, t.phc).Ok? && t.channelOpen)
  }

  predicate AllIntact(traffic: seq<Reception>) {
    forall i :: 0 <= i < |traffic| ==> Intact(traffic[i])
  }

  /** A reception that ends the loop, and with what: the last is a report that nobody wants any more. */
  predicate Ends(filter: StreamFilter, t: Reception, end: ReceiverEnd) {
    if t.Broken? then end == ReceiveFailed
    else
      && AvtpPayload(t.raw).Some?
      && var parsed := Parse(AvtpPayload(t.raw).value, t.phc);
         if parsed.Err? then end == parsed.error
         else !t.channelOpen && Accepts(filter, parsed.value.1) && end == ConsumerGone
  }

  /** The loop ends at the first such reception: what was heard before is kept, nothing after it is heard. */
  lemma {:induction false} StopsAtFailure(filter: StreamFilter, expected: Option<u8>, before: seq<Reception>,
                                          bad: Reception, after: seq<Reception>, end: ReceiverEnd)
    requires AllIntact(before) && Ends(filter, bad, end)
    ensures Received(filter, expected, before + [bad] + after) == (Received(filter, expected, before).0, end)
    ensures Received(filter, expected, before).1 == Listening
    decreases |before|
  {
    hide AvtpPayload, Parse, AafStreams.Process, Accepts;
    var all := before + [bad] + after;
    if before == [] {
      assert all[0] == bad;
      if bad.Frame? && Parse(AvtpPayload(bad.raw).value, bad.phc).Ok? {
        ProcessIgnores(filter, expected, Parse(AvtpPayload(bad.raw).value, bad.phc).value.1);
      }
    } else {
      assert all[0] == before[0] && all[1..] == before[1..] + [bad] + after;
      assert Intact(before[0]);
      var payload := AvtpPayload(before[0].raw);
      var next := if payload.None? then expected
                  else Process(filter, expected, Parse(payload.value, before[0].phc).value.1).0;
      StopsAtFailure(filter, next, before[1..], bad, after, end);
    }
  }

  // ----- What is heard through foreign traffic -----

  /** An accepted frame: its AVTP payload, the PDU in it, and when it was received. */
  datatype Hearing = Hearing(payload: bytes, pdu: Avtpdu, at: PtpTime)

  /** The frames of the traffic that the listener accepts, in order. */
  function HeardFrames(filter: StreamFilter, traffic: seq<Reception>): seq<Hearing>
    requires AllIntact(traffic)
  {
    if traffic == [] then []
    else
      assert Intact(traffic[0]);
      HeardFrame(filter, traffic[0]) + HeardFrames(filter, traffic[1..])
  }

  function HeardFrame(filter: StreamFilter, t: Reception): seq<Hearing>
    requires Intact(t)
  {
    var payload := AvtpPayload(t.raw);
    if payload.None? then []
    else
      var (at, pdu) := Parse(payload.value, t.phc).value;
      if Accepts(filter, pdu) then [Hearing(payload.value, pdu, at)] else []
  }

  function PdusOf(hearings: seq<Hearing>): (r: seq<Avtpdu>)
    ensures |r| == |hearings| && forall k :: 0 <= k < |r| ==> r[k] == hearings[k].pdu
  {
    seq(|hearings|, k requires 0 <= k < |hearings| => hearings[k].pdu)
  }

  function PayloadsOf(hearings: seq<Hearing>): (r: seq<bytes>)
    ensures |r| == |hearings| && forall k :: 0 <= k < |r| ==> r[k] == hearings[k].payload
  {
    seq(|hearings|, k requires 0 <= k < |hearings| => hearings[k].payload)
  }

  /** The reports on the hearings, each with its time of receipt. */
  ghost predicate ReportsOf(filter: StreamFilter, expected: Option<u8>, hearings: seq<Hearing>,
                            arrivals: seq<Arrival>)
  {
    var heard := Heard(filter, expected, PdusOf(hearings));
    && |arrivals| == |hearings| == |heard|
    && forall k :: 0 <= k < |arrivals| ==> arrivals[k] == Arrival(heard[k], hearings[k].at)
  }

  /**
   * Through intact traffic the loop keeps listening and passes on exactly the reports a listener would
   * give on the accepted frames alone, each with the time of its receipt: frames of other protocols,
   * other streams and malformed AAF leave no trace.
   */
  lemma {:induction false} HeardThroughTraffic(filter: StreamFilter, expected: Option<u8>, traffic: seq<Reception>)
    requires AllIntact(traffic)
    ensures var (arrivals, end) := Received(filter, expected, traffic);
            end == Listening && ReportsOf(filter, expected, HeardFrames(filter, traffic), arrivals)
    decreases |traffic|
  {
    if traffic == [] {
      NothingHeard(filter, expected);
    } else {
      hide *;
      FirstIntact(traffic);
      ReceivedCons(filter, expected, traffic);
      var head := HeardFrame(filter, traffic[0]);
      var next := if head == [] then expected else Process(filter, expected, head[0].pdu).0;
      HeardThroughTraffic(filter, next, traffic[1..]);
      if head == [] {
        assert [] + HeardFrames(filter, traffic[1..]) == HeardFrames(filter, traffic[1..]);
      } else {
        ReportsCons(filter, expected, head[0], HeardFrames(filter, traffic[1..]),
                    Received(filter, next, traffic[1..]).0);
      }
    }
  }

  lemma FirstIntact(traffic: seq<Reception>)
    requires AllIntact(traffic) && traffic != []
    ensures Intact(traffic[0]) && AllIntact(traffic[1..])
  {
    hide Intact;
  }

  lemma NothingHeard(filter: StreamFilter, expected: Option<u8>)
    ensures Received(filter, expected, []) == ([], Listening)
    ensures AllIntact([]) && ReportsOf(filter, expected, HeardFrames(filter, []), [])
  {
  }

  /** One reception: passed over without a trace, or reported. */
  lemma ReceivedCons(filter: StreamFilter, expected: Option<u8>, traffic: seq<Reception>)
    requires AllIntact(traffic) && traffic != [] && Intact(traffic[0]) && AllIntact(traffic[1..])
    ensures var head := HeardFrame(filter, traffic[0]);
            && HeardFrames(filter, traffic) == head + HeardFrames(filter, traffic[1..])
            && |head| <= 1
            && (head == [] ==> Received(filter, expected, traffic) == Received(filter, expected, traffic[1..]))
            && (head != [] ==>
                  var (next, report) := Process(filter, expected, head[0].pdu);
                  && report.Ok? && report.value.Some?
                  && Received(filter, expected, traffic)
                     == After([Arrival(report.value.value, head[0].at)], Received(filter, next, traffic[1..])))
  {
    HeardOne(filter, traffic[0]);
    assert traffic[0].Frame?;
    hide *;
    HeardFramesCons(filter, traffic);
    var payload := AvtpPayload(traffic[0].raw);
    if payload.Some? {
      ProcessIgnores(filter, expected, Parse(payload.value, traffic[0].phc).value.1);
    }
    ReceivedOne(filter, expected, traffic);
  }

  lemma HeardFramesCons(filter: StreamFilter, traffic: seq<Reception>)
    requires AllIntact(traffic) && traffic != [] && Intact(traffic[0]) && AllIntact(traffic[1..])
    ensures HeardFrames(filter, traffic) == HeardFrame(filter, traffic[0]) + HeardFrames(filter, traffic[1..])
  {
    hide HeardFrame, Intact;
  }

  lemma HeardOne(filter: StreamFilter, t: Reception)
    requires Intact(t)
    ensures AvtpPayload(t.raw).Some? ==> Parse(AvtpPayload(t.raw).value, t.phc).Ok?
    ensures var payload := AvtpPayload(t.raw);
            HeardFrame(filter, t)
            == if payload.Some? && Accepts(filter, Parse(payload.value, t.phc).value.1)
               then var (at, pdu) := Parse(payload.value, t.phc).value; [Hearing(payload.value, pdu, at)]
               else []
  {
    hide AvtpPayload, Parse, Accepts;
  }

  /** One reception, by what the listener makes of it. */
  lemma ReceivedOne(filter: StreamFilter, expected: Option<u8>, traffic: seq<Reception>)
    requires traffic != [] && Intact(traffic[0])
    ensures var payload := AvtpPayload(traffic[0].raw);
            if payload.None? then Received(filter, expected, traffic) == Received(filter, expected, traffic[1..])
            else
              var parsed := Parse(payload.value, traffic[0].phc);
              && parsed.Ok?
              && var (next, report) := Process(filter, expected, parsed.value.1);
                 Received(filter, expected, traffic)
                 == if report.Err? || report.value.None? then Received(filter, next, traffic[1..])
                    else After([Arrival(report.value.value, parsed.value.0)], Received(filter, next, traffic[1..]))
  {
    hide AvtpPayload, Parse, AafStreams.Process, After;
  }

  lemma ReportsCons(filter: StreamFilter, expected: Option<u8>, head: Hearing, rest: seq<Hearing>,
                    arrivals: seq<Arrival>)
    requires var (next, report) := Process(filter, expected, head.pdu);
             report.Ok? && report.value.Some? && ReportsOf(filter, next, rest, arrivals)
    ensures var report := Process(filter, expected, head.pdu).1;
            var first := Arrival(report.value.value, head.at);
            ReportsOf(filter, expected, [head] + rest, After([first], (arrivals, Listening)).0)
  {
    hide AafStreams.Process;
    var pdus := PdusOf([head] + rest);
    assert pdus[0] == head.pdu && pdus[1..] == PdusOf(rest);
    HeardFirst(filter, expected, pdus);
    hide Heard, PdusOf;
  }

  lemma HeardFirst(filter: StreamFilter, expected: Option<u8>, pdus: seq<Avtpdu>)
    requires pdus != []
    ensures var (next, report) := Process(filter, expected, pdus[0]);
            report.Ok? && report.value.Some? ==>
              Heard(filter, expected, pdus) == [report.value.value] + Heard(filter, next, pdus[1..])
  {
    hide AafStreams.Process;
  }

  /** The heard payloads are the frames the PDUs were parsed from. */
  lemma {:induction false} HeardFramesParse(filter: StreamFilter, traffic: seq<Reception>)
    requires AllIntact(traffic)
    ensures forall hearing :: hearing in HeardFrames(filter, traffic) ==> ParsesTo(hearing.payload, hearing.pdu)
    decreases |traffic|
  {
    if traffic != [] {
      hide *;
      FirstIntact(traffic);
      HeardFramesCons(filter, traffic);
      HeardFrameParses(filter, traffic[0]);
      HeardFramesParse(filter, traffic[1..]);
    }
  }

  predicate ParsesTo(payload: bytes, pdu: Avtpdu) {
    Avtpdus.Read(payload).Ok? && Avtpdus.Read(payload).value.0 == pdu
  }

  lemma HeardFrameParses(filter: StreamFilter, t: Reception)
    requires Intact(t)
    ensures forall hearing :: hearing in HeardFrame(filter, t) ==> ParsesTo(hearing.payload, hearing.pdu)
  {
    hide Avtpdus.Read, AvtpPayload, Accepts;
  }
}
