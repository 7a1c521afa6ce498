/**
 * The packets a talker sends, in numbers: every octet of a packet, and how the samples of a file are
 * divided among the packets (src/avtp/formats/aaf/stream.rs, src/bin/avtp-integration-test.rs).
 */
module PacketLaws {
  import opened Basics
  import opened PtpTimes
  import opened Timestamps
  import opened Clocks
  import opened Headers
  import opened Aafs
  import opened AafLaws
  import opened AafStreams
  import opened AafStreamLaws
  import opened AafBytes
  import opened WireBytes
  import opened PcmBytes
  import opened TalkerThreads
  import opened EndToEnd
  import opened Wavs
  import opened WavTransport
  import Avtpdus

  // ----- One packet -----

  /** The delay given in milliseconds is added to the time of a packet, in nanoseconds, modulo 2^32. */
  lemma DelayInMilliseconds(id: StreamID, format: PcmFormat, rate: SampleRate, channels: u10, bitDepth: u8,
                            clock: ClockState, delayMs: u32, time: PtpTime)
    ensures var r := NewTalker(id, format, rate, channels, bitDepth, clock, delayMs);
            && (bitDepth == 0 ==> r == Err(ConfigBitDepthZero))
            && (bitDepth > 0 && channels == 0 ==> r == Err(ConfigChannelsZero))
            && (bitDepth > 0 && channels > 0 ==>
                  && r.Ok?
                  && r.value == TalkerState(id, format, rate, channels, bitDepth, 0, clock, r.value.delay)
                  && Stamp(time, r.value.delay) == (AsNanos(time) + 1_000_000 * delayMs) % 0x1_0000_0000)
  {
    var whole := 1_000_000 * delayMs;
    ModAddMultiple(AsNanos(time) + whole, -(whole / TWO_32), TWO_32);
    hide AsNanos;
    assert whole == whole / TWO_32 * TWO_32 + whole % TWO_32;
  }

  /** The generic fields of the n-th packet of a run. */
  function HeaderFields(s: TalkerState, time: PtpTime, n: nat): GenericStreamData {
    GenericStreamData(CommonHeader(AAF, true, 0), false, true, (s.sequenceNum + n) % 256, false, s.streamId,
                      (AsNanos(time) + s.delay) % 0x1_0000_0000)
  }

  /** The codes of format and rate, the channels in ten bits, and the depth. */
  function FormatOctets(s: TalkerState): Bytes4 {
    [FormatCode(s.format), 16 * RateCode(s.rate) + s.channels / 0x100, s.channels % 0x100, s.bitDepth]
  }

  /**
   * The n-th packet of a run, octet by octet: subtype 2 with the header-specific bit, version 0 and the
   * timestamp valid; the sequence number; the timestamp not uncertain; the stream; the time of the packet
   * with the delay; the codes of format and rate, the channels and the depth; the payload and its size.
   */
  function PacketForm(s: TalkerState, p: SentPacket, n: nat): bytes
    requires |p.payload| <= 65_535
  {
    [0x02, 0x81, (s.sequenceNum + n) % 256, 0x00]
    + (s.streamId.mac + Be16(s.streamId.uniqueId))
    + Be32((AsNanos(p.time) + s.delay) % 0x1_0000_0000)
    + FormatOctets(s)
    + Be16(|p.payload|)
    + [0x00, 0x00]
    + p.payload
  }

  lemma PacketOctets(s: TalkerState, p: SentPacket, n: nat)
    requires CarriedBy(s, p, n)
    ensures |p.payload| <= 65_535 && Avtpdus.Write(p.pdu) == Ok(PacketForm(s, p, n))
  {
    PacketHeader(s, p, n);
    PacketSpecific(s, p, n);
    hide *;
    TalkerToWire(s, p, n, []);
    WrittenOctets(p.pdu);
    StreamForm(s, p, n, p.pdu.stream);
  }

  lemma StreamForm(s: TalkerState, p: SentPacket, n: nat, h: StreamHeader)
    requires |p.payload| <= 65_535 && p.pdu == Stream(h) && Encodable(p.pdu)
    requires h.generic == HeaderFields(s, p.time, n)
    requires h.specific == SpecificStreamData(0, 0, FormatOctets(s), [0, 0], p.payload)
    ensures PduBytes(p.pdu) == PacketForm(s, p, n)
  {
    hide AsNanos, Be16, Be32, FormatCode, RateCode;
    assert SecondOctet(h.generic.common, 1) == 0x81;
  }

  lemma PacketHeader(s: TalkerState, p: SentPacket, n: nat)
    requires CarriedBy(s, p, n)
    ensures p.pdu.Stream? && |p.payload| <= 65_535
    ensures p.pdu.stream.generic == HeaderFields(s, p.time, n)
  {
    hide *;
    CarriedParses(s, p, n);
    CarriedIsValid(s, p, n);
    PayloadFits(PcmCarried(s, p.payload));
    PcmCarriedKeeps(s, p.payload);
    TalkerHeaderIs(s, p.time, n);
  }

  lemma CarriedIsValid(s: TalkerState, p: SentPacket, n: nat)
    requires CarriedBy(s, p, n)
    ensures ValidPcm(PcmCarried(s, p.payload))
  {
    hide ValidPcm, PacketOf;
  }

  lemma PayloadFits(pcm: AafPcm)
    requires ValidPcm(pcm)
    ensures |pcm.payload| <= 65_535
  {
  }

  lemma PcmCarriedKeeps(s: TalkerState, payload: bytes)
    ensures PcmCarried(s, payload) == AafPcm(s.rate, s.channels, s.format, s.bitDepth, payload)
  {
  }

  lemma TalkerHeaderIs(s: TalkerState, time: PtpTime, n: nat)
    ensures TalkerHeader(Numbered(s, n), time) == HeaderFields(s, time, n)
  {
    StampOfTime(time, s.delay);
    hide AsNanos, FromPtpTime, WrappingAdd;
  }

  lemma PacketSpecific(s: TalkerState, p: SentPacket, n: nat)
    requires CarriedBy(s, p, n)
    ensures p.pdu.Stream? && p.pdu.stream.specific == SpecificStreamData(0, 0, FormatOctets(s), [0, 0], p.payload)
  {
    hide *;
    var g := TalkerHeader(Numbered(s, n), p.time);
    CarriedIsValid(s, p, n);
    PduOf(s, p, n);
    IntoStreamSpecific(s, g, p.payload);
  }

  lemma PduOf(s: TalkerState, p: SentPacket, n: nat)
    requires CarriedBy(s, p, n)
    ensures var a := Aaf(TalkerHeader(Numbered(s, n), p.time), Pcm(PcmCarried(s, p.payload)), false, 0);
            AafIntoStream(a).Some? && p.pdu == Stream(AafIntoStream(a).value)
  {
    hide AafIntoStream, ValidPcm, FromPtpTime;
    IntoStreamNeverPanics(Aaf(TalkerHeader(Numbered(s, n), p.time), Pcm(PcmCarried(s, p.payload)), false, 0));
  }

  lemma IntoStreamSpecific(s: TalkerState, g: GenericStreamData, payload: bytes)
    requires AafIntoStream(Aaf(g, Pcm(PcmCarried(s, payload)), false, 0)).Some?
    ensures AafIntoStream(Aaf(g, Pcm(PcmCarried(s, payload)), false, 0)).value.specific
         == SpecificStreamData(0, 0, FormatOctets(s), [0, 0], payload)
  {
    PackPcmOctets(PcmFields(RateCode(s.rate), s.channels, s.bitDepth));
    PackTailOctets(TailFields(0, false, 0, 0));
    hide PackPcm, PackTail, FormatCode, RateCode;
  }

  /**
   * A build fails with the error of the clock, and otherwise with the first fault of the PCM it would carry; it
   * succeeds exactly when there is neither, and only then takes a number.
   */
  lemma BuildsExactly(s: TalkerState, c: BuildCall)
    ensures var (s', r) := BuildPacket(s, c.now, c.reading, c.payload);
            var code := FormatCode(s.format);
            if TimeOf(s, c).Err? then r == Err(TalkerClock(TimeOf(s, c).error)) && s'.sequenceNum == s.sequenceNum
            else if code <= 4 && PcmInOrder(code, 0, s.channels, s.bitDepth, |c.payload|) then
              && r.Ok? && s'.sequenceNum == (s.sequenceNum + 1) % 256
              && CarriedBy(s, SentPacket(r.value, TimeOf(s, c).value, c.payload), 0)
            else
              && code <= 4 && s'.sequenceNum == s.sequenceNum
              && r == Err(TalkerPcm(PcmFault(code, 0, s.channels, s.bitDepth, |c.payload|)))
  {
    ConstructsExactly(s.rate, s.channels, s.format, s.bitDepth, c.payload);
    BuildOutcome(s, c);
    hide *;
    BuildStep(s, c);
    SequenceNumbers(None, s.sequenceNum);
    PcmOfIs(s, c.payload);
  }

  lemma BuildOutcome(s: TalkerState, c: BuildCall)
    ensures var r := BuildPacket(s, c.now, c.reading, c.payload).1;
            && (TimeOf(s, c).Err? ==> r == Err(TalkerClock(TimeOf(s, c).error)))
            && (TimeOf(s, c).Ok? && PcmOf(s, c.payload).Err? ==> r == Err(TalkerPcm(PcmOf(s, c.payload).error)))
            && (TimeOf(s, c).Ok? && PcmOf(s, c.payload).Ok? ==> r.Ok?)
  {
    hide SynchronizedTime, PcmOf, PacketOf;
  }

  lemma PcmOfIs(s: TalkerState, payload: bytes)
    ensures PcmOf(s, payload) == NewPcm(s.rate, s.channels, s.format, s.bitDepth, payload)
  {
  }

  // ----- All packets of a file -----

  lemma SmallerProduct(a: int, b: int, c: nat)
    requires a <= b
    ensures a * c <= b * c
  {
    assert b * c == a * c + (b - a) * c;
  }

  lemma CancelFactor(a: int, b: int, factor: nat)
    requires factor > 0
    ensures a * factor <= b * factor <==> a <= b
  {
    if a <= b {
      SmallerProduct(a, b, factor);
    } else {
      SmallerProduct(b + 1, a, factor);
      assert (b + 1) * factor == b * factor + factor;
    }
  }

  /** `count` is the least number of packets of `each` samples that hold `total`. */
  ghost predicate LeastCount(count: nat, each: nat, total: nat) {
    && total <= count * each
    && forall n: nat :: total <= n * each ==> count <= n
  }

  /** What is in packet `i` of `count`: all of them full but the last, which has the rest. */
  function SamplesAt(i: nat, count: nat, each: nat, total: nat): int {
    if i < count - 1 then each else total - i * each
  }

  lemma LeastCountStep(count: nat, each: nat, total: nat)
    requires total > each && LeastCount(count, each, total - each)
    ensures LeastCount(count + 1, each, total)
  {
    assert (count + 1) * each == count * each + each;
    forall n: nat | total <= n * each
      ensures count + 1 <= n
    {
      assert n > 0;
      assert (n - 1) * each == n * each - each;
    }
  }

  /** One packet fewer, before which there were `each` samples more. */
  lemma SamplesAtStep(i: nat, count: nat, each: nat, total: nat)
    requires i > 0 && count > 0 && total >= each
    ensures SamplesAt(i, count, each, total) == SamplesAt(i - 1, count - 1, each, total - each)
  {
    assert i * each == (i - 1) * each + each;
  }

  /** Data of `total` frames in chunks of `each` frames. */
  lemma {:induction false} FramesInChunks(data: bytes, size: nat, each: nat, frame: nat, total: nat)
    requires frame > 0 && each > 0 && size == each * frame && |data| == total * frame
    ensures size > 0
    ensures LeastCount(|Chunks(data, size)|, each, total)
    ensures forall i: nat :: i < |Chunks(data, size)| ==>
              var samples := SamplesAt(i, |Chunks(data, size)|, each, total);
              0 < samples <= each && |Chunks(data, size)[i]| == samples * frame
    decreases |data|
  {
    CancelFactor(1, each, frame);
    CancelFactor(total, each, frame);
    CancelFactor(total, 0, frame);
    var count := |Chunks(data, size)|;
    if |data| <= size {
      FewFrames(data, size, each, frame, total);
    } else {
      assert (total - each) * frame == total * frame - each * frame;
      FramesInChunks(data[size..], size, each, frame, total - each);
      LeastCountStep(count - 1, each, total);
      hide SamplesAt, LeastCount;
      forall i: nat | i < count
        ensures var samples := SamplesAt(i, count, each, total);
                0 < samples <= each && |Chunks(data, size)[i]| == samples * frame
      {
        if i == 0 {
          FirstOfMany(count, each, total);
        } else {
          SamplesAtStep(i, count, each, total);
        }
      }
    }
  }

  lemma FirstOfMany(count: nat, each: nat, total: nat)
    requires count > 1
    ensures SamplesAt(0, count, each, total) == each
  {
  }

  lemma FewFrames(data: bytes, size: nat, each: nat, frame: nat, total: nat)
    requires 0 < each && 0 < size && |data| <= size && |data| == total * frame && total <= each
    requires data == [] <==> total == 0
    ensures var chunks := Chunks(data, size);
            && LeastCount(|chunks|, each, total)
            && forall i: nat :: i < |chunks| ==>
                 0 < SamplesAt(i, |chunks|, each, total) <= each
                 && |chunks[i]| == SamplesAt(i, |chunks|, each, total) * frame
  {
    forall n: nat | total <= n * each
      ensures |Chunks(data, size)| <= n
    {
      if n == 0 {
        assert n * each == 0;
      }
    }
  }

  /** A packet that converts to PCM with `samples` samples to a channel, and its octets on the wire. */
  ghost predicate Holds(p: Avtpdu, octets: bytes, samples: int, frame: nat) {
    && p.Stream? && AafFromStream(p.stream).Ok? && AafFromStream(p.stream).value.formatData.Pcm?
    && (var pcm := AafFromStream(p.stream).value.formatData.pcm;
        ValidPcm(pcm) && SampleCount(pcm) == Some(samples))
    && |octets| == 24 + samples * frame
    && Avtpdus.Read(octets) == Ok((p, []))
  }

  /** The bytes of one sample for every channel. */
  function FrameBytes(h: WavHeader): nat {
    h.channels * (h.bitsPerSample / 8)
  }

  lemma PacketHolds(h: WavHeader, s: TalkerState, p: SentPacket, n: nat, octets: bytes, samples: nat)
    requires ConfiguredBy(h, s) && CarriedBy(s, p, n) && Avtpdus.Write(p.pdu) == Ok(octets)
    requires |p.payload| == samples * FrameBytes(h)
    ensures Holds(p.pdu, octets, samples, FrameBytes(h))
  {
    CarriedParses(s, p, n);
    CarriedIsValid(s, p, n);
    PacketOctets(s, p, n);
    TalkerToWire(s, p, n, []);
    SamplesCarried(h, s, p.payload, samples);
    FormLength(s, p, n);
    assert octets + [] == octets;
    hide AafFromStream, Avtpdus.Read, Avtpdus.Write, PacketForm, SampleCount, ValidPcm, FrameBytes, CarriedBy,
         ConfiguredBy;
  }

  lemma FormLength(s: TalkerState, p: SentPacket, n: nat)
    requires |p.payload| <= 65_535
    ensures |PacketForm(s, p, n)| == 24 + |p.payload|
  {
    hide AsNanos, FormatCode, RateCode;
  }

  lemma SamplesCarried(h: WavHeader, s: TalkerState, payload: bytes, samples: nat)
    requires ConfiguredBy(h, s) && ValidPcm(PcmCarried(s, payload))
    requires |payload| == samples * FrameBytes(h)
    ensures SampleCount(PcmCarried(s, payload)) == Some(samples)
  {
    var pcm := PcmCarried(s, payload);
    SampleCountExact(pcm);
    assert FrameSize(s.format, s.channels) == FrameBytes(h) > 0;
    hide FrameSize, FrameBytes, SampleCount, ValidPcm;
    CancelFactor(samples, SampleCount(pcm).value, FrameBytes(h));
    CancelFactor(SampleCount(pcm).value, samples, FrameBytes(h));
  }

  /** Packets dividing `total` samples of `frame` bytes: no more packets than needed, all but the last full. */
  ghost predicate Divided(sent: seq<SentPacket>, frames: seq<bytes>, each: nat, total: nat, frame: nat) {
    && |sent| == |frames| && LeastCount(|frames|, each, total)
    && forall i: nat :: i < |frames| ==>
         && 0 < SamplesAt(i, |frames|, each, total) <= each
         && Holds(sent[i].pdu, frames[i], SamplesAt(i, |frames|, each, total), frame)
  }

  /**
   * How a successful run divides the samples of a file of whole frames: in as few packets as there can be,
   * every packet but the last with the samples asked for, and the last with the rest, at least one and no more
   * than that. Each converts to that much PCM, from the octets that went out.
   */
  lemma PacketsHoldSamples(h: WavHeader, s: TalkerState, samplesPerPacket: u32, pcmLe: bytes, calls: seq<BuildCall>,
                           ticks: seq<TalkerTick>, after: TalkerState, records: seq<TalkerRecord>,
                           frames: seq<bytes>, total: nat)
    requires ConfiguredBy(h, s) && samplesPerPacket > 0 && |pcmLe| == total * FrameBytes(h)
    requires var size := ChunkSize(samplesPerPacket, h.channels, Word(h));
             && size > 0 && Word(h) > 0 && |Chunks(pcmLe, size)| <= |ticks|
             && calls == PlannedCalls(Chunks(pcmLe, size), Word(h), ticks)
    requires RunProgress(s, calls, after, ticks, records, frames)
    ensures Divided(Sent(s, calls), frames, samplesPerPacket, total, FrameBytes(h))
  {
    hide *;
    var size := ChunkSize(samplesPerPacket, h.channels, Word(h));
    SizeInFrames(h, s, samplesPerPacket);
    RunFrames(s, calls, after, ticks, records, frames);
    SentPacketsCarry(s, calls);
    FramesInChunks(pcmLe, size, samplesPerPacket, FrameBytes(h), total);
    var sent := Sent(s, calls);
    forall i: nat | i < |frames|
      ensures 0 < SamplesAt(i, |frames|, samplesPerPacket, total) <= samplesPerPacket
      ensures Holds(sent[i].pdu, frames[i], SamplesAt(i, |frames|, samplesPerPacket, total), FrameBytes(h))
    {
      SentPayloads(s, calls, i);
      CarriedAt(s, sent, i);
      PacketHolds(h, s, sent[i], i, frames[i], SamplesAt(i, |frames|, samplesPerPacket, total));
    }
    DividedWhen(sent, frames, samplesPerPacket, total, FrameBytes(h));
  }

  lemma DividedWhen(sent: seq<SentPacket>, frames: seq<bytes>, each: nat, total: nat, frame: nat)
    requires |sent| == |frames| && LeastCount(|frames|, each, total)
    requires forall i: nat :: i < |frames| ==>
               && 0 < SamplesAt(i, |frames|, each, total) <= each
               && Holds(sent[i].pdu, frames[i], SamplesAt(i, |frames|, each, total), frame)
    ensures Divided(sent, frames, each, total, frame)
  {
    hide LeastCount, SamplesAt, Holds;
  }

  lemma CarriedAt(s: TalkerState, sent: seq<SentPacket>, n: nat)
    requires AllCarried(s, sent) && n < |sent|
    ensures CarriedBy(s, sent[n], n)
  {
    hide CarriedBy;
  }

  lemma SizeInFrames(h: WavHeader, s: TalkerState, samples: u32)
    requires ConfiguredBy(h, s)
    ensures ChunkSize(samples, h.channels, Word(h)) == samples * FrameBytes(h) && FrameBytes(h) > 0
  {
    FramePositive(h, s);
  }

  lemma RunFrames(s: TalkerState, calls: seq<BuildCall>, after: TalkerState, ticks: seq<TalkerTick>,
                  records: seq<TalkerRecord>, frames: seq<bytes>)
    requires RunProgress(s, calls, after, ticks, records, frames)
    ensures |Sent(s, calls)| == |calls| == |frames|
    ensures forall i :: 0 <= i < |frames| ==> Avtpdus.Write(Sent(s, calls)[i].pdu) == Ok(frames[i])
  {
    hide Sent, TalkerAfter, Avtpdus.Write;
  }
}
