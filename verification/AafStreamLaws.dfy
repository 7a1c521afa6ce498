/** Runs of the talker and of the listener, and the path between them. */
module AafStreamLaws {
  import opened Basics
  import opened PtpTimes
  import opened Timestamps
  import opened Clocks
  import opened ClockRuns
  import opened Headers
  import opened Aafs
  import opened AafLaws
  import opened AafStreams
  import Avtpdus

  // ----- Talker runs -----

  datatype BuildCall = BuildCall(now: Instant, reading: Option<PtpTime>, payload: bytes)

  /** A packet that was built, with the synchronised time and the payload it was built from. */
  datatype SentPacket = SentPacket(pdu: Avtpdu, time: PtpTime, payload: bytes)

  function TimeOf(s: TalkerState, c: BuildCall): Result<PtpTime, ClockError> {
    SynchronizedTime(s.clock, c.now, c.reading).1
  }

  /** The successful packets of a run, in order. */
  function Sent(s: TalkerState, calls: seq<BuildCall>): seq<SentPacket>
    decreases |calls|
  {
    if calls == [] then []
    else
      var c := calls[0];
      var (s', r) := BuildPacket(s, c.now, c.reading, c.payload);
      BuildNeedsTime(s, c);
      (if r.Ok? then [SentPacket(r.value, TimeOf(s, c).value, c.payload)] else []) + Sent(s', calls[1..])
  }

  lemma BuildNeedsTime(s: TalkerState, c: BuildCall)
    ensures BuildPacket(s, c.now, c.reading, c.payload).1.Ok? ==> TimeOf(s, c).Ok?
  {
  }

  /** The talker's configuration at its n-th packet. */
  function Numbered(s: TalkerState, n: nat): TalkerState {
    s.(sequenceNum := SeqAt(s, n))
  }

  function SeqAt(s: TalkerState, n: nat): u8 {
    (s.sequenceNum + n) % 256
  }

  function PcmCarried(s: TalkerState, payload: bytes): AafPcm {
    AafPcm(s.rate, s.channels, s.format, s.bitDepth, payload)
  }

  /** The n-th packet of a run: its payload was valid, and everything else follows from its time. */
  ghost predicate CarriedBy(s: TalkerState, p: SentPacket, n: nat) {
    && ValidPcm(PcmCarried(s, p.payload))
    && p.pdu == Stream(PacketOf(Numbered(s, n), p.time, PcmCarried(s, p.payload)))
  }

  lemma BuildShape(s: TalkerState, c: BuildCall)
    ensures var (s', r) := BuildPacket(s, c.now, c.reading, c.payload);
            && s' == s.(clock := SynchronizedTime(s.clock, c.now, c.reading).0,
                        sequenceNum := if r.Ok? then NextSeq(s.sequenceNum) else s.sequenceNum)
            && (r.Ok? ==>
                  && TimeOf(s, c).Ok? && PcmOf(s, c.payload).Ok?
                  && ValidPcm(PcmOf(s, c.payload).value)
                  && r.value == Stream(PacketOf(s, TimeOf(s, c).value, PcmOf(s, c.payload).value)))
  {
    NewPcmAcceptsValid(s.rate, s.channels, s.format, s.bitDepth, c.payload);
    hide SynchronizedTime, NewPcm, PacketOf, NextSeq, ValidPcm;
  }

  /** One build: its packet and time, and how the talker moves on. A failed build consumes no number. */
  lemma BuildStep(s: TalkerState, c: BuildCall)
    ensures var (s', r) := BuildPacket(s, c.now, c.reading, c.payload);
            && s' == s.(clock := s'.clock, sequenceNum := if r.Ok? then NextSeq(s.sequenceNum) else s.sequenceNum)
            && s'.clock.initial == s.clock.initial
            && s'.clock.lastReturned >= s.clock.lastReturned
            && (r.Ok? ==>
                  && TimeOf(s, c).Ok?
                  && CarriedBy(s, SentPacket(r.value, TimeOf(s, c).value, c.payload), 0)
                  && AsNanos(TimeOf(s, c).value) == AsNanos(s.clock.initial) + s'.clock.lastReturned
                  && s'.clock.lastReturned > s.clock.lastReturned)
  {
    BuildShape(s, c);
    SynchronizedTimeGrows(s.clock, c.now, c.reading);
    hide *;
    TimeOfIs(s, c);
    if BuildPacket(s, c.now, c.reading, c.payload).1.Ok? {
      CarriedFirst(s, TimeOf(s, c).value, c.payload);
    }
  }

  lemma TimeOfIs(s: TalkerState, c: BuildCall)
    ensures TimeOf(s, c) == SynchronizedTime(s.clock, c.now, c.reading).1
  {
  }

  lemma CarriedFirst(s: TalkerState, time: PtpTime, payload: bytes)
    requires PcmOf(s, payload).Ok? && ValidPcm(PcmOf(s, payload).value)
    ensures CarriedBy(s, SentPacket(Stream(PacketOf(s, time, PcmOf(s, payload).value)), time, payload), 0)
  {
    NewPcmAcceptsValid(s.rate, s.channels, s.format, s.bitDepth, payload);
    assert Numbered(s, 0) == s;
    hide PacketOf, ValidPcm, NewPcm;
  }

  function TimesOf(sent: seq<SentPacket>): (t: seq<PtpTime>)
    ensures |t| == |sent|
  {
    if sent == [] then [] else [sent[0].time] + TimesOf(sent[1..])
  }

  lemma {:induction false} TimesOfAt(sent: seq<SentPacket>, i: nat)
    requires i < |sent|
    ensures TimesOf(sent)[i] == sent[i].time
  {
    if i > 0 {
      TimesOfAt(sent[1..], i - 1);
    }
  }

  lemma NumberedNext(s: TalkerState, s': TalkerState, n: nat)
    requires s' == s.(clock := s'.clock, sequenceNum := NextSeq(s.sequenceNum))
    ensures Numbered(s', n) == Numbered(s, n + 1).(clock := s'.clock)
  {
    assert ((s.sequenceNum + 1) % 256 + n) % 256 == (s.sequenceNum + n + 1) % 256;
  }

  lemma CarriedSkipsClock(s: TalkerState, s': TalkerState, p: SentPacket, n: nat, n': nat)
    requires Numbered(s', n) == Numbered(s, n').(clock := s'.clock)
    requires CarriedBy(s', p, n)
    ensures CarriedBy(s, p, n')
  {
    hide ValidPcm, AafIntoStream, FromPtpTime;
    assert TalkerHeader(Numbered(s', n), p.time) == TalkerHeader(Numbered(s, n'), p.time);
  }

  ghost predicate AllCarried(s: TalkerState, sent: seq<SentPacket>) {
    forall n :: 0 <= n < |sent| ==> CarriedBy(s, sent[n], n)
  }

  lemma AllCarriedCons(s: TalkerState, s': TalkerState, head: SentPacket, rest: seq<SentPacket>)
    requires s' == s.(clock := s'.clock, sequenceNum := NextSeq(s.sequenceNum))
    requires CarriedBy(s, head, 0) && AllCarried(s', rest)
    ensures AllCarried(s, [head] + rest)
  {
    hide CarriedBy, Numbered;
    forall n | 0 <= n < |rest| + 1
      ensures CarriedBy(s, ([head] + rest)[n], n)
    {
      if n > 0 {
        NumberedNext(s, s', n - 1);
        CarriedSkipsClock(s, s', rest[n - 1], n - 1, n);
      }
    }
  }

  lemma AllCarriedLater(s: TalkerState, s': TalkerState, sent: seq<SentPacket>)
    requires s' == s.(clock := s'.clock)
    requires AllCarried(s', sent)
    ensures AllCarried(s, sent)
  {
    hide CarriedBy;
    forall n | 0 <= n < |sent|
      ensures CarriedBy(s, sent[n], n)
    {
      CarriedSkipsClock(s, s', sent[n], n, n);
    }
  }

  lemma TimesOfCons(head: SentPacket, rest: seq<SentPacket>)
    ensures TimesOf([head] + rest) == [head.time] + TimesOf(rest)
  {
    assert ([head] + rest)[1..] == rest;
  }

  /** The absolute time below which every later packet cannot be stamped. */
  function TimeFloor(s: TalkerState): int {
    AsNanos(s.clock.initial) + s.clock.lastReturned
  }

  /**
   * Over any run the n-th successful packet carries sequence number n mod 256 (from a fresh talker)
   * and its own payload, failed builds consume no number, and packet times strictly increase.
   */
  lemma {:induction false} SentPacketsCarry(s: TalkerState, calls: seq<BuildCall>)
    ensures AllCarried(s, Sent(s, calls))
    ensures IncreasingAfter(TimeFloor(s), TimesOf(Sent(s, calls)))
    decreases |calls|
  {
    if calls == [] {
      NothingSent(s);
    } else {
      hide *;
      var c := calls[0];
      var (s', r) := BuildPacket(s, c.now, c.reading, c.payload);
      BuildStep(s, c);
      SentPacketsCarry(s', calls[1..]);
      SentCons(s, calls);
      FloorOf(s);
      FloorOf(s');
      var rest := Sent(s', calls[1..]);
      if r.Ok? {
        var head := SentPacket(r.value, TimeOf(s, c).value, c.payload);
        AllCarriedCons(s, s', head, rest);
        TimesOfCons(head, rest);
        IncreasingCons(TimeFloor(s), TimeFloor(s'), [head.time], TimesOf(rest));
      } else {
        AllCarriedLater(s, s', rest);
        IncreasingCons(TimeFloor(s), TimeFloor(s'), [], TimesOf(rest));
        assert [] + TimesOf(rest) == TimesOf(rest);
      }
    }
  }

  lemma NothingSent(s: TalkerState)
    ensures AllCarried(s, Sent(s, [])) && IncreasingAfter(TimeFloor(s), TimesOf(Sent(s, [])))
  {
  }

  lemma SentCons(s: TalkerState, calls: seq<BuildCall>)
    requires calls != []
    ensures var c := calls[0];
            var (s', r) := BuildPacket(s, c.now, c.reading, c.payload);
            var rest := Sent(s', calls[1..]);
            && (r.Ok? ==> TimeOf(s, c).Ok?)
            && Sent(s, calls) == if r.Ok? then [SentPacket(r.value, TimeOf(s, c).value, c.payload)] + rest else rest
  {
    BuildNeedsTime(s, calls[0]);
    hide BuildPacket, TimeOf;
  }

  lemma FloorOf(s: TalkerState)
    ensures TimeFloor(s) == AsNanos(s.clock.initial) + s.clock.lastReturned
  {
  }

  // ----- From talker to listener -----

  lemma CarriedParses(s: TalkerState, p: SentPacket, n: nat)
    requires CarriedBy(s, p, n)
    ensures p.pdu.Stream?
    ensures p.pdu.stream.generic == TalkerHeader(Numbered(s, n), p.time)
    ensures ValidSpecific(p.pdu.stream.specific)
    ensures AafFromStream(p.pdu.stream)
         == Ok(Aaf(TalkerHeader(Numbered(s, n), p.time), Pcm(PcmCarried(s, p.payload)), false, 0))
  {
    var g := TalkerHeader(Numbered(s, n), p.time);
    hide AafFromStream, AafIntoStream, ValidPcm, Numbered, FromPtpTime;
    var a := Aaf(g, Pcm(PcmCarried(s, p.payload)), false, 0);
    IntoStreamNeverPanics(a);
    AafRoundTrip(a);
  }

  /** Anything the talker builds can be written, and reads back with whatever followed it. */
  lemma TalkerToWire(s: TalkerState, p: SentPacket, n: nat, pad: bytes)
    requires CarriedBy(s, p, n)
    ensures var w := Avtpdus.Write(p.pdu);
            w.Ok? && Avtpdus.Read(w.value + pad) == Ok((p.pdu, pad))
  {
    CarriedParses(s, p, n);
    hide AafFromStream, Avtpdus.Write, Avtpdus.Read, CarriedBy, FromPtpTime;
    Avtpdus.WriteSucceeds(p.pdu);
    Avtpdus.ReadOfWrite(p.pdu, pad);
  }

  /** What a listener that matches the talker must report for its n-th packet. */
  function Delivered(s: TalkerState, p: SentPacket, n: nat, lost: u32): ReceivedPcm {
    ReceivedPcm(Stamp(p.time, s.delay), SeqAt(s, n), p.payload, s.rate, s.channels, s.bitDepth,
                s.format, lost)
  }

  lemma ListenerReports(s: TalkerState, p: SentPacket, n: nat, filter: StreamFilter, expected: Option<u8>)
    requires CarriedBy(s, p, n) && Matches(filter, s.streamId)
    ensures Process(filter, expected, p.pdu)
         == (Some(NextSeq(SeqAt(s, n))), Ok(Some(Delivered(s, p, n, LostBefore(expected, SeqAt(s, n))))))
  {
    CarriedParses(s, p, n);
    StampOfTime(p.time, s.delay);
    hide AafFromStream, CarriedBy, FromPtpTime, WrappingAdd, NextSeq, LostBefore, SeqAt, Stamp, Process, Matches;
    var aaf := Aaf(TalkerHeader(Numbered(s, n), p.time), Pcm(PcmCarried(s, p.payload)), false, 0);
    ProcessAccepted(filter, expected, p.pdu, aaf);
  }

  lemma StampOfTime(time: PtpTime, delay: u32)
    ensures WrappingAdd(FromPtpTime(time), delay) == Stamp(time, delay)
  {
    hide FromPtpTime, WrappingAdd, AsNanos;
    TruncationCommutesWithDelay(time, delay);
  }

  lemma ProcessAccepted(filter: StreamFilter, expected: Option<u8>, pdu: Avtpdu, aaf: Aaf)
    requires pdu.Stream? && AafFromStream(pdu.stream) == Ok(aaf)
    requires Matches(filter, aaf.streamData.streamId) && aaf.formatData.Pcm?
    ensures var seqNum := aaf.streamData.sequenceNum;
            Process(filter, expected, pdu)
            == (Some(NextSeq(seqNum)), Ok(Some(ReceivedFrom(aaf, LostBefore(expected, seqNum)))))
  {
    hide AafFromStream, NextSeq, LostBefore, Matches;
  }

  /**
   * The whole path: write, then read with any padding after the PDU, then a listener that matches
   * the stream. It reports the identical payload, format, channels, depth, rate, sequence number and
   * timestamp, whatever it expected before.
   */
  lemma TalkerToListener(s: TalkerState, p: SentPacket, n: nat, filter: StreamFilter, expected: Option<u8>, pad: bytes)
    requires CarriedBy(s, p, n) && Matches(filter, s.streamId)
    ensures var w := Avtpdus.Write(p.pdu);
            && w.Ok?
            && var read := Avtpdus.Read(w.value + pad);
               && read.Ok?
               && Process(filter, expected, read.value.0).1
                  == Ok(Some(Delivered(s, p, n, LostBefore(expected, SeqAt(s, n)))))
  {
    hide CarriedBy, Matches, Process, Avtpdus.Write, Avtpdus.Read, Delivered, LostBefore, SeqAt;
    TalkerToWire(s, p, n, pad);
    ListenerReports(s, p, n, filter, expected);
  }

  // ----- Listener runs -----

  /** Whether a PDU reaches the sequence check; it does not depend on the listener's state. */
  predicate Accepts(filter: StreamFilter, pdu: Avtpdu) {
    && pdu.Stream?
    && AafFromStream(pdu.stream).Ok?
    && var aaf := AafFromStream(pdu.stream).value;
       Matches(filter, aaf.streamData.streamId) && aaf.formatData.Pcm?
  }

  function Accepted(filter: StreamFilter, pdus: seq<Avtpdu>): seq<Avtpdu> {
    if pdus == [] then []
    else (if Accepts(filter, pdus[0]) then [pdus[0]] else []) + Accepted(filter, pdus[1..])
  }

  function ExpectedAfter(filter: StreamFilter, expected: Option<u8>, pdus: seq<Avtpdu>): Option<u8>
    decreases |pdus|
  {
    if pdus == [] then expected else ExpectedAfter(filter, Process(filter, expected, pdus[0]).0, pdus[1..])
  }

  /** Everything a listener reports over a run, in order. */
  function Heard(filter: StreamFilter, expected: Option<u8>, pdus: seq<Avtpdu>): seq<ReceivedPcm>
    decreases |pdus|
  {
    if pdus == [] then []
    else
      var (next, r) := Process(filter, expected, pdus[0]);
      (if r.Ok? && r.value.Some? then [r.value.value] else []) + Heard(filter, next, pdus[1..])
  }

  lemma ProcessIgnores(filter: StreamFilter, expected: Option<u8>, pdu: Avtpdu)
    ensures var (next, r) := Process(filter, expected, pdu);
            && (r.Ok? && r.value.Some? <==> Accepts(filter, pdu))
            && (!Accepts(filter, pdu) ==> next == expected)
            && (Accepts(filter, pdu) ==> next.Some?)
  {
    hide AafFromStream, NextSeq, LostBefore, Matches;
  }

  /**
   * Non-interference: foreign PDUs, malformed AAF, other streams and AES3 frames anywhere in a run
   * change neither the expected number nor any report; every accepted frame is reported.
   */
  lemma {:induction false} OnlyAcceptedMatters(filter: StreamFilter, expected: Option<u8>, pdus: seq<Avtpdu>)
    ensures Heard(filter, expected, pdus) == Heard(filter, expected, Accepted(filter, pdus))
    ensures ExpectedAfter(filter, expected, pdus) == ExpectedAfter(filter, expected, Accepted(filter, pdus))
    ensures |Heard(filter, expected, pdus)| == |Accepted(filter, pdus)|
    decreases |pdus|
  {
    if pdus != [] {
      ProcessIgnores(filter, expected, pdus[0]);
      var next := Process(filter, expected, pdus[0]).0;
      OnlyAcceptedMatters(filter, next, pdus[1..]);
      hide Process, Accepts;
      var rest := Accepted(filter, pdus[1..]);
      if Accepts(filter, pdus[0]) {
        assert Accepted(filter, pdus) == [pdus[0]] + rest;
        assert ([pdus[0]] + rest)[1..] == rest;
      } else {
        assert Accepted(filter, pdus) == rest;
      }
    }
  }

  // ----- Loss accounting -----

  function TotalLost(heard: seq<ReceivedPcm>): nat {
    if heard == [] then 0 else heard[0].packetsLost + TotalLost(heard[1..])
  }

  function SeqOf(pdu: Avtpdu): u8
    requires pdu.Stream?
  {
    pdu.stream.generic.sequenceNum
  }

  /** The accepted frames are packets number `positions[i]` of a stream that started at `start`. */
  ghost predicate InOrder(filter: StreamFilter, frames: seq<Avtpdu>, start: u8, positions: seq<int>) {
    && |frames| == |positions|
    && (forall i :: 0 <= i < |frames| ==>
          && Accepts(filter, frames[i]) && frames[i].Stream?
          && SeqOf(frames[i]) == (start + positions[i]) % 256)
    && (forall i, j :: 0 <= i < j < |positions| ==> positions[i] < positions[j])
  }

  /** No gap, counted from position `previous`, misses more than 255 packets. */
  predicate ShortGaps(previous: int, positions: seq<int>)
    decreases |positions|
  {
    positions == [] || (positions[0] - previous <= 256 && ShortGaps(positions[0], positions[1..]))
  }

  lemma AcceptedStep(filter: StreamFilter, expected: Option<u8>, pdu: Avtpdu)
    requires Accepts(filter, pdu)
    ensures var (next, r) := Process(filter, expected, pdu);
            && next == Some(NextSeq(SeqOf(pdu)))
            && r.Ok? && r.value.Some?
            && r.value.value.packetsLost == LostBefore(expected, SeqOf(pdu))
  {
    var aaf := AafFromStream(pdu.stream).value;
    FromStreamKeepsGeneric(pdu.stream);
    hide AafFromStream, Matches, NextSeq, LostBefore;
    ProcessAccepted(filter, expected, pdu, aaf);
  }

  lemma FromStreamKeepsGeneric(h: StreamHeader)
    requires AafFromStream(h).Ok?
    ensures AafFromStream(h).value.streamData == h.generic
  {
    hide UnpackPcm, UnpackTail, VariantFromSpecific, SpecificOf;
  }

  /** Losses and deliveries `total` account for a span, exactly when `exact`. */
  predicate Accounts(total: int, span: int, exact: bool) {
    (span - total) % 256 == 0 && total <= span && (total == span <==> exact)
  }

  /** One gap: the report is the missed count mod 256, and at most the missed count. */
  lemma GapReport(start: u8, previous: int, position: int)
    requires previous < position
    ensures Accounts(LostBefore(Some((start + previous + 1) % 256), (start + position) % 256) + 1,
                     position - previous, position - previous <= 256)
  {
    var a, b := start + position, start + previous + 1;
    ModOfDifference(a, b);
    var missed := a - b;
    assert missed == 256 * (missed / 256) + missed % 256;
  }

  lemma ModOfDifference(a: int, b: int)
    ensures (a % 256 - b % 256) % 256 == (a - b) % 256
  {
    ModAddMultiple(a - b, b / 256 - a / 256, 256);
  }

  lemma NextSeqAt(start: u8, position: int)
    ensures NextSeq((start + position) % 256) == (start + position + 1) % 256
  {
  }

  lemma HeardCons(filter: StreamFilter, expected: Option<u8>, frames: seq<Avtpdu>)
    requires frames != [] && Accepts(filter, frames[0])
    ensures var rest := Heard(filter, Some(NextSeq(SeqOf(frames[0]))), frames[1..]);
            && |Heard(filter, expected, frames)| == 1 + |rest|
            && TotalLost(Heard(filter, expected, frames))
               == LostBefore(expected, SeqOf(frames[0])) + TotalLost(rest)
  {
    AcceptedStep(filter, expected, frames[0]);
    hide Process, Accepts, NextSeq, LostBefore;
    var heard := Heard(filter, expected, frames);
    assert heard[1..] == Heard(filter, Some(NextSeq(SeqOf(frames[0]))), frames[1..]);
  }

  lemma InOrderTail(filter: StreamFilter, frames: seq<Avtpdu>, start: u8, positions: seq<int>)
    requires InOrder(filter, frames, start, positions) && frames != []
    ensures InOrder(filter, frames[1..], start, positions[1..])
    ensures |positions| > 1 ==> positions[0] < positions[1]
  {
    hide Accepts;
  }

  lemma AccountsAdd(total: int, span: int, exact: bool, total': int, span': int, exact': bool)
    requires Accounts(total, span, exact) && Accounts(total', span', exact')
    ensures Accounts(total + total', span + span', exact && exact')
  {
    assert (span + span') - (total + total') == (span - total) + (span' - total');
  }

  function Span(from: int, positions: seq<int>): int {
    if positions == [] then 0 else positions[|positions| - 1] - from
  }

  lemma {:induction false} LossFrom(filter: StreamFilter, frames: seq<Avtpdu>, start: u8, previous: int,
                                    positions: seq<int>)
    requires InOrder(filter, frames, start, positions)
    requires |positions| > 0 ==> previous < positions[0]
    ensures Accounts(TotalLost(Heard(filter, Some((start + previous + 1) % 256), frames)) + |frames|,
                     Span(previous, positions), ShortGaps(previous, positions))
    decreases |frames|
  {
    hide Accepts, Heard, TotalLost, Accounts, Span, ShortGaps;
    if frames == [] {
      NothingLost(filter, Some((start + previous + 1) % 256), previous);
    } else {
      InOrderTail(filter, frames, start, positions);
      LossFrom(filter, frames[1..], start, positions[0], positions[1..]);
      LossCons(filter, frames, start, previous, positions);
    }
  }

  lemma NothingLost(filter: StreamFilter, expected: Option<u8>, previous: int)
    ensures Accounts(TotalLost(Heard(filter, expected, [])) + 0, Span(previous, []), ShortGaps(previous, []))
  {
  }

  lemma LossCons(filter: StreamFilter, frames: seq<Avtpdu>, start: u8, previous: int, positions: seq<int>)
    requires frames != [] && |frames| == |positions| && previous < positions[0]
    requires Accepts(filter, frames[0]) && SeqOf(frames[0]) == (start + positions[0]) % 256
    requires Accounts(TotalLost(Heard(filter, Some((start + positions[0] + 1) % 256), frames[1..])) + |frames[1..]|,
                      Span(positions[0], positions[1..]), ShortGaps(positions[0], positions[1..]))
    ensures Accounts(TotalLost(Heard(filter, Some((start + previous + 1) % 256), frames)) + |frames|,
                     Span(previous, positions), ShortGaps(previous, positions))
  {
    hide Accepts, Heard, TotalLost, LostBefore, NextSeq, Accounts, Span, ShortGaps;
    var expected, seqNum := (start + previous + 1) % 256, (start + positions[0]) % 256;
    GapReport(start, previous, positions[0]);
    NextSeqAt(start, positions[0]);
    HeardCons(filter, Some(expected), frames);
    var first := LostBefore(Some(expected), seqNum) + 1;
    var later := TotalLost(Heard(filter, Some(NextSeq(seqNum)), frames[1..])) + |frames[1..]|;
    AccountsAdd(first, positions[0] - previous, positions[0] - previous <= 256,
                later, Span(positions[0], positions[1..]), ShortGaps(positions[0], positions[1..]));
    SpanCons(previous, positions);
  }

  lemma SpanCons(previous: int, positions: seq<int>)
    requires positions != []
    ensures Span(previous, positions) == (positions[0] - previous) + Span(positions[0], positions[1..])
    ensures ShortGaps(previous, positions)
         == (positions[0] - previous <= 256 && ShortGaps(positions[0], positions[1..]))
  {
  }

  /**
   * Loss accounting of a fresh listener over any run, foreign frames included: reported losses plus
   * delivered packets are congruent to the span from first to last delivered packet, never exceed
   * it, and equal it exactly when no gap misses more than 255 packets.
   */
  lemma LossAccounting(filter: StreamFilter, pdus: seq<Avtpdu>, start: u8, positions: seq<int>)
    requires InOrder(filter, Accepted(filter, pdus), start, positions) && positions != []
    ensures var heard := Heard(filter, None, pdus);
            Accounts(TotalLost(heard) + |heard|, positions[|positions| - 1] - positions[0] + 1,
                     ShortGaps(positions[0], positions[1..]))
  {
    hide *;
    OnlyAcceptedMatters(filter, None, pdus);
    AcceptedLoss(filter, Accepted(filter, pdus), start, positions);
  }

  lemma AcceptedLoss(filter: StreamFilter, frames: seq<Avtpdu>, start: u8, positions: seq<int>)
    requires InOrder(filter, frames, start, positions) && positions != []
    ensures Accounts(TotalLost(Heard(filter, None, frames)) + |frames|,
                     positions[|positions| - 1] - positions[0] + 1,
                     ShortGaps(positions[0], positions[1..]))
  {
    hide Accepts, Heard, TotalLost, Accounts, ShortGaps;
    InOrderTail(filter, frames, start, positions);
    LossFrom(filter, frames[1..], start, positions[0], positions[1..]);
    FirstFrame(filter, frames, start, positions);
  }

  lemma FirstFrame(filter: StreamFilter, frames: seq<Avtpdu>, start: u8, positions: seq<int>)
    requires frames != [] && |frames| == |positions|
    requires Accepts(filter, frames[0]) && SeqOf(frames[0]) == (start + positions[0]) % 256
    requires Accounts(TotalLost(Heard(filter, Some((start + positions[0] + 1) % 256), frames[1..])) + |frames[1..]|,
                      Span(positions[0], positions[1..]), ShortGaps(positions[0], positions[1..]))
    ensures Accounts(TotalLost(Heard(filter, None, frames)) + |frames|,
                     positions[|positions| - 1] - positions[0] + 1,
                     ShortGaps(positions[0], positions[1..]))
  {
    hide Accepts, Heard, TotalLost, NextSeq, LostBefore, ShortGaps, Accounts;
    var seqNum := (start + positions[0]) % 256;
    NextSeqAt(start, positions[0]);
    HeardCons(filter, None, frames);
    NothingBeforeFirst(seqNum);
    AccountsAdd(1, 1, true, TotalLost(Heard(filter, Some(NextSeq(seqNum)), frames[1..])) + |frames[1..]|,
                Span(positions[0], positions[1..]), ShortGaps(positions[0], positions[1..]));
  }

  lemma NothingBeforeFirst(seqNum: u8)
    ensures LostBefore(None, seqNum) == 0 && Accounts(1, 1, true)
  {
  }
}
