/**
 * AAF on the wire, octet by octet: the packed format fields, what a stream header converts to and when,
 * what a listener makes of it, and the packets a talker builds (src/avtp/formats/aaf/, src/avtp/stream.rs).
 */
module AafBytes {
  import opened Basics
  import opened PtpTimes
  import opened BitStreams
  import opened Headers
  import opened HeaderLaws
  import opened Aafs
  import opened AafLaws
  import opened AafStreams
  import opened AafStreamLaws
  import opened WireBytes

  // ----- The packed fields -----

  lemma OctetsOf(b: bits, s: bytes)
    requires |b| % 8 == 0 && b == PutBytes(s, [])
    ensures BitsToBytes(b) == s && BytesToBits(s) == b
  {
    NoRest(s);
    hide PutBytes;
    BitsToBytesOfBytes(s);
  }

  /** Three, one, four and eight bits. */
  lemma TailOctets(f: TailFields)
    ensures TailBits(f) == PutBytes([32 * f.asfd + 16 * Bit(f.sparse) + f.eventFlags, f.data2], [])
  {
    var first := 32 * f.asfd + 16 * Bit(f.sparse) + f.eventFlags;
    PutByte(f.data2, []);
    JoinTail(f.asfd, Bit(f.sparse), f.eventFlags, PutBytes([f.data2], []));
    PutBytesCons(first, [f.data2], []);
    hide Put, PutBytes;
    assert [first] + [f.data2] == [first, f.data2];
  }

  lemma JoinTail(top: u3, middle: nat, low: u4, rest: bits)
    requires middle <= 1
    ensures Put(top, 3, Put(middle, 1, Put(low, 4, rest))) == Put(32 * top + 16 * middle + low, 8, rest)
  {
    hide *;
    FourAndFiveBits();
    PutJoined(middle, low, 1, 4, 16, rest);
    PutJoined(top, 16 * middle + low, 3, 5, 32, rest);
  }

  lemma FourAndFiveBits()
    ensures Pow2(4) == 16 && Pow2(5) == 32
  {
  }

  lemma PackTailOctets(f: TailFields)
    ensures PackTail(f) == [32 * f.asfd + 16 * Bit(f.sparse) + f.eventFlags, f.data2]
  {
    TailOctets(f);
    hide TailBits;
    OctetsOf(TailBits(f), [32 * f.asfd + 16 * Bit(f.sparse) + f.eventFlags, f.data2]);
  }

  /** Four bits, two reserved, ten and eight. */
  lemma PcmOctets(f: PcmFields, reserved: u2)
    ensures PcmFieldBits(f, reserved)
         == PutBytes([16 * f.nsr + 4 * reserved + f.channels / 0x100, f.channels % 0x100, f.depth], [])
  {
    var high, low := f.channels / 0x100, f.channels % 0x100;
    assert f.channels == 0x100 * high + low;
    PcmParts(f.nsr, reserved, high, low, f.depth);
    hide Put, PutBytes;
  }

  lemma PcmParts(nsr: u4, reserved: u2, high: u2, low: u8, depth: u8)
    ensures Put(nsr, 4, Put(reserved, 2, Put(0x100 * high + low, 10, Put(depth, 8, []))))
         == PutBytes([16 * nsr + 4 * reserved + high, low, depth], [])
  {
    WidthLimits();
    hide Put, PutBytes, Pow2;
    var first := 16 * nsr + 4 * reserved + high;
    var last := PutBytes([depth], []);
    PutByte(depth, []);
    PutJoined(high, low, 2, 8, 0x100, last);
    PutBytesCons(low, [depth], []);
    var two := PutBytes([low] + [depth], []);
    PutJoined(reserved, high, 2, 2, 4, two);
    PutJoined(nsr, 4 * reserved + high, 4, 4, 16, two);
    PutBytesCons(first, [low] + [depth], []);
    assert [first] + ([low] + [depth]) == [first, low, depth];
  }

  lemma PackPcmOctets(f: PcmFields)
    ensures PackPcm(f) == [16 * f.nsr + f.channels / 0x100, f.channels % 0x100, f.depth]
  {
    PcmOctets(f, 0);
    hide PcmFieldBits;
    OctetsOf(PcmFieldBits(f, 0), [16 * f.nsr + f.channels / 0x100, f.channels % 0x100, f.depth]);
  }

  lemma UnpackTailOctets(d: Bytes2)
    ensures UnpackTail(d) == TailFields(d[0] / 32, d[0] / 16 % 2 == 1, d[0] % 16, d[1])
  {
    var f := TailFields(d[0] / 32, d[0] / 16 % 2 == 1, d[0] % 16, d[1]);
    TailOctet(d[0]);
    PackTailOctets(f);
    assert PackTail(f) == d;
    hide PackTail, UnpackTail;
    UnpackOfPackTail(f);
  }

  lemma TailOctet(b: u8)
    ensures 32 * (b / 32) + 16 * Bit(b / 16 % 2 == 1) + b % 16 == b
  {
    var high := b / 16;
    assert b == 16 * high + b % 16 && high == 2 * (b / 32) + high % 2;
  }

  /** The channel count in the first two octets. */
  function ChannelsIn(first: u8, second: u8): (channels: u10) {
    var high: int := first % 4;
    0x100 * high + second
  }

  lemma UnpackPcmOctets(d: Bytes3)
    ensures UnpackPcm(d) == (PcmFields(d[0] / 16, ChannelsIn(d[0], d[1]), d[2]), d[0] / 4 % 4)
  {
    var f, reserved := PcmFields(d[0] / 16, ChannelsIn(d[0], d[1]), d[2]), d[0] / 4 % 4;
    PcmOctet(d[0], d[1]);
    PcmOctets(f, reserved);
    assert [d[0], d[1], d[2]] == d;
    NoRest(d);
    hide PcmFieldBits, UnpackPcm, PutBytes, BytesToBits;
    UnpackOfBits(d, f, reserved);
  }

  lemma PcmOctet(first: u8, second: u8)
    ensures 16 * (first / 16) + 4 * (first / 4 % 4) + ChannelsIn(first, second) / 0x100 == first
    ensures ChannelsIn(first, second) % 0x100 == second
  {
    var high: int := first % 4;
    assert ChannelsIn(first, second) == 0x100 * high + second;
    assert first == 16 * (first / 16) + 4 * (first / 4 % 4) + first % 4;
  }

  lemma UnpackOfBits(d: Bytes3, f: PcmFields, reserved: u2)
    requires BytesToBits(d) == PcmFieldBits(f, reserved)
    ensures UnpackPcm(d) == (f, reserved)
  {
    WidthLimits();
    hide Put, Field, BytesToBits;
    var b3 := Put(f.depth, 8, []);
    var b2 := Put(f.channels, 10, b3);
    FieldOfPut(f.nsr, 4, Put(reserved, 2, b2));
    FieldOfPut(reserved, 2, b2);
    FieldOfPut(f.channels, 10, b3);
    FieldOfPut(f.depth, 8, []);
  }

  // ----- What a stream header converts to -----

  /** The sample word of a format code in bits; zero for the user format, which has none. */
  function WordBits(code: u8): nat {
    if code == 1 || code == 2 then 32 else if code == 3 then 24 else if code == 4 then 16 else 0
  }

  /** The fields and payload of a PCM frame are in order. */
  predicate PcmInOrder(code: u8, nsr: u4, channels: u10, depth: u8, size: nat) {
    && nsr <= 10
    && depth > 0 && (code == 1 ==> depth == 32) && (code != 0 ==> depth <= WordBits(code))
    && channels > 0
    && size <= 65_535
    && (code != 0 ==> WordBits(code) / 8 * channels > 0 && size % (WordBits(code) / 8 * channels) == 0)
  }

  /** The first thing wrong with them. */
  function PcmFault(code: u8, nsr: u4, channels: u10, depth: u8, size: nat): InvalidPcm
    requires code <= 4
  {
    if nsr > 10 then SampleRateReserved(nsr)
    else if depth == 0 then BitDepthZero
    else if (code == 1 && depth != 32) || (code != 0 && depth > WordBits(code)) then
      BitDepthInvalid(depth, FormatFromCode(code).value)
    else if channels == 0 then ChannelsPerFrameZero
    else if size > 65_535 then PcmPayloadTooLarge(size)
    else PayloadSizeInvalid(size, WordBits(code) / 8 * channels)
  }

  lemma WordOfCode(code: u8)
    requires code <= 4
    ensures FormatFromCode(code).Ok? && FormatFromCode(code).value != AES3_32Bit
    ensures FormatFromCode(code).value == Float32Bit <==> code == 1
    ensures WordSize(FormatFromCode(code).value) == if code == 0 then None else Some(WordBits(code))
  {
  }

  lemma RateOfCode(nsr: u4)
    ensures RateFromCode(nsr).Ok? <==> nsr <= 10
    ensures RateFromCode(nsr).Ok? ==> RateCode(RateFromCode(nsr).value) == nsr
    ensures RateFromCode(nsr).Err? ==> RateFromCode(nsr) == Err(SampleRateReserved(nsr))
  {
  }

  /** A PCM payload converts exactly when its octets are in order, and otherwise gives the first fault. */
  lemma PcmConverts(code: u8, d: AafSpecific)
    requires code <= 4 && d.format == FormatFromCode(code).value
    ensures var nsr, channels, depth := d.data1[0] / 16, ChannelsIn(d.data1[0], d.data1[1]), d.data1[2];
            PcmFromSpecific(d)
            == if PcmInOrder(code, nsr, channels, depth, |d.payload|)
               then Ok(AafPcm(RateFromCode(nsr).value, channels, d.format, depth, d.payload))
               else Err(PcmFault(code, nsr, channels, depth, |d.payload|))
  {
    UnpackPcmOctets(d.data1);
    var nsr, channels, depth := d.data1[0] / 16, ChannelsIn(d.data1[0], d.data1[1]), d.data1[2];
    RateOfCode(nsr);
    DepthOfCode(code, depth);
    if channels > 0 {
      SizeOfCode(code, |d.payload|, channels);
    }
    hide UnpackPcm, FormatFromCode, RateFromCode, ChannelsIn, WordBits, ValidatedBitDepth, ValidatePayloadSize;
  }

  lemma DepthOfCode(code: u8, depth: u8)
    requires code <= 4
    ensures FormatFromCode(code).Ok? && FormatFromCode(code).value != AES3_32Bit
    ensures var format := FormatFromCode(code).value;
            ValidatedBitDepth(depth, format)
            == if depth == 0 then Err(BitDepthZero)
               else if (code == 1 && depth != 32) || (code != 0 && depth > WordBits(code)) then
                 Err(BitDepthInvalid(depth, format))
               else Ok(depth)
  {
    WordOfCode(code);
    hide FormatFromCode, WordSize, WordBits;
  }

  lemma SizeOfCode(code: u8, size: nat, channels: u10)
    requires code <= 4 && channels > 0
    ensures FormatFromCode(code).Ok? && FormatFromCode(code).value != AES3_32Bit
    ensures code != 0 ==> WordBits(code) / 8 * channels > 0
    ensures ValidatePayloadSize(FormatFromCode(code).value, size, channels)
         == if size > 65_535 then Err(PcmPayloadTooLarge(size))
            else if code != 0 && size % (WordBits(code) / 8 * channels) != 0 then
              Err(PayloadSizeInvalid(size, WordBits(code) / 8 * channels))
            else Ok(())
  {
    WordOfCode(code);
    var format := FormatFromCode(code).value;
    if code != 0 {
      FrameSizePositive(format, channels);
      assert FrameSize(format, channels) == WordBits(code) / 8 * channels;
    }
    hide FormatFromCode, WordSize, WordBits, FrameSize;
  }

  /** A PCM value is constructed exactly when it is in order, and refused for its first fault otherwise. */
  lemma ConstructsExactly(rate: SampleRate, channels: u10, format: PcmFormat, depth: u8, payload: bytes)
    ensures var code := FormatCode(format);
            && code <= 4
            && NewPcm(rate, channels, format, depth, payload)
               == if PcmInOrder(code, 0, channels, depth, |payload|)
                  then Ok(AafPcm(rate, channels, format, depth, payload))
                  else Err(PcmFault(code, 0, channels, depth, |payload|))
  {
    var code := FormatCode(format);
    CodeOfFormat(format);
    DepthOfCode(code, depth);
    if channels > 0 {
      SizeOfCode(code, |payload|, channels);
    }
    hide FormatFromCode, FormatCode, WordBits, ValidatedBitDepth, ValidatePayloadSize;
  }

  lemma CodeOfFormat(format: PcmFormat)
    ensures FormatCode(format) <= 4 && FormatFromCode(FormatCode(format)) == Ok(format)
  {
  }

  /**
   * The conversion of any stream header: the checks in order, with their errors, and the fields of the
   * result from the octets of the header.
   */
  lemma ConvertsExactly(h: StreamHeader)
    requires ValidSpecific(h.specific)
    ensures var c, d, t := h.generic.common, h.specific.formatData2, h.specific.formatData3;
            var nsr, channels, depth := d[1] / 16, ChannelsIn(d[1], d[2]), d[3];
            var size := |h.specific.payload|;
            AafFromStream(h)
            == if c.subtype != AAF then Err(InvalidSubtype(c.subtype))
               else if !c.specificBit then Err(StreamIdInvalid)
               else if c.version > 0 then Err(UnsupportedVersion(c.version))
               else if d[0] > 5 then Err(FormatReserved(d[0]))
               else if d[0] == 5 then
                 Ok(Aaf(h.generic,
                        Aes3(AafSpecific(AES3_32Bit, [d[1], d[2], d[3]], t[0] / 32, t[1], h.specific.payload)),
                        t[0] / 16 % 2 == 1, t[0] % 16))
               else if !PcmInOrder(d[0], nsr, channels, depth, size) then
                 Err(PcmError(PcmFault(d[0], nsr, channels, depth, size)))
               else
                 Ok(Aaf(h.generic,
                        Pcm(AafPcm(RateFromCode(nsr).value, channels, FormatFromCode(d[0]).value, depth,
                                   h.specific.payload)),
                        t[0] / 16 % 2 == 1, t[0] % 16))
  {
    var d := h.specific.formatData2;
    UnpackTailOctets(h.specific.formatData3);
    if d[0] <= 4 {
      WordOfCode(d[0]);
      PcmConverts(d[0], SpecificOf(h, FormatFromCode(d[0]).value));
    }
    hide UnpackTail, PcmFromSpecific, ChannelsIn, PcmInOrder, PcmFault, RateFromCode, WordSize;
  }

  /** The protocol's codes for sample formats and rates. */
  lemma ProtocolCodes()
    ensures FormatCode(User) == 0 && FormatCode(Float32Bit) == 1 && FormatCode(Int32Bit) == 2
    ensures FormatCode(Int24Bit) == 3 && FormatCode(Int16Bit) == 4 && FormatCode(AES3_32Bit) == 5
    ensures RateCode(UserSpecified) == 0 && RateCode(KHz8) == 1 && RateCode(KHz16) == 2 && RateCode(KHz32) == 3
    ensures RateCode(KHz44_1) == 4 && RateCode(KHz48) == 5 && RateCode(KHz88_2) == 6 && RateCode(KHz96) == 7
    ensures RateCode(KHz176_4) == 8 && RateCode(KHz192) == 9 && RateCode(KHz24) == 10
  {
  }

  // ----- What a listener makes of it -----

  /** The stream a filter lets through. */
  predicate Wanted(filter: StreamFilter, id: StreamID) {
    match filter
    case Any => true
    case MacOnly(mac) => id.mac == mac
    case Exact(wanted) => id.mac == wanted.mac && id.uniqueId == wanted.uniqueId
  }

  /** The PDUs a listener is there for: PCM frames, in order, of a wanted stream. */
  predicate IsWantedPcm(filter: StreamFilter, pdu: Avtpdu) {
    && pdu.Stream?
    && AafFromStream(pdu.stream).Ok? && AafFromStream(pdu.stream).value.formatData.Pcm?
    && Wanted(filter, pdu.stream.generic.streamId)
  }

  /** The report on a PCM frame: what its header says, its payload, and the numbers missed since the last report. */
  function ReportOn(expected: Option<u8>, g: GenericStreamData, pcm: AafPcm): ReceivedPcm {
    ReceivedPcm(g.timestamp, g.sequenceNum, pcm.payload, pcm.rate, pcm.channels, pcm.bitDepth, pcm.format,
                if expected.None? then 0 else (g.sequenceNum - expected.value) % 256)
  }

  /**
   * A listener reports exactly the PCM frames of a wanted stream, with what their header says and the
   * gap in sequence numbers, and then expects the next number. Everything else leaves it as it was, and is
   * an error exactly when it is a stream PDU that does not convert.
   */
  lemma ReportsExactly(filter: StreamFilter, expected: Option<u8>, pdu: Avtpdu)
    ensures var (next, r) := Process(filter, expected, pdu);
            if IsWantedPcm(filter, pdu) then
              var g := pdu.stream.generic;
              && next == Some((g.sequenceNum + 1) % 256)
              && r == Ok(Some(ReportOn(expected, g, AafFromStream(pdu.stream).value.formatData.pcm)))
            else
              && next == expected
              && r == if pdu.Stream? && AafFromStream(pdu.stream).Err? then Err(AafFromStream(pdu.stream).error)
                      else Ok(None)
  {
    hide *;
    if pdu.Stream? && AafFromStream(pdu.stream).Ok? {
      var aaf := AafFromStream(pdu.stream).value;
      FromStreamKeepsGeneric(pdu.stream);
      MatchesWanted(filter, pdu.stream.generic.streamId);
      WantedMeans(filter, pdu);
      ProcessConverted(filter, expected, pdu, aaf);
      if aaf.formatData.Pcm? {
        ReportOnIs(expected, aaf);
      }
    } else {
      ProcessUnconverted(filter, expected, pdu);
    }
  }

  lemma ProcessUnconverted(filter: StreamFilter, expected: Option<u8>, pdu: Avtpdu)
    requires !pdu.Stream? || AafFromStream(pdu.stream).Err?
    ensures !IsWantedPcm(filter, pdu)
    ensures Process(filter, expected, pdu)
         == (expected, if pdu.Stream? then Err(AafFromStream(pdu.stream).error) else Ok(None))
  {
    hide AafFromStream, Wanted;
  }

  lemma WantedMeans(filter: StreamFilter, pdu: Avtpdu)
    requires pdu.Stream? && AafFromStream(pdu.stream).Ok?
    ensures IsWantedPcm(filter, pdu)
      <==> AafFromStream(pdu.stream).value.formatData.Pcm? && Wanted(filter, pdu.stream.generic.streamId)
  {
    hide AafFromStream, Wanted;
  }

  lemma ProcessConverted(filter: StreamFilter, expected: Option<u8>, pdu: Avtpdu, aaf: Aaf)
    requires pdu.Stream? && AafFromStream(pdu.stream) == Ok(aaf)
    ensures var seqNum := aaf.streamData.sequenceNum;
            Process(filter, expected, pdu)
            == if Matches(filter, aaf.streamData.streamId) && aaf.formatData.Pcm? then
                 (Some(NextSeq(seqNum)), Ok(Some(ReceivedFrom(aaf, LostBefore(expected, seqNum)))))
               else (expected, Ok(None))
  {
    hide AafFromStream, NextSeq, LostBefore, Matches;
  }

  lemma ReportOnIs(expected: Option<u8>, aaf: Aaf)
    requires aaf.formatData.Pcm?
    ensures var seqNum := aaf.streamData.sequenceNum;
            && NextSeq(seqNum) == (seqNum + 1) % 256
            && ReceivedFrom(aaf, LostBefore(expected, seqNum)) == ReportOn(expected, aaf.streamData, aaf.formatData.pcm)
  {
    SequenceNumbers(expected, aaf.streamData.sequenceNum);
    hide LostBefore, NextSeq;
  }

  lemma MatchesWanted(filter: StreamFilter, id: StreamID)
    ensures Matches(filter, id) == Wanted(filter, id)
  {
  }

  lemma SequenceNumbers(expected: Option<u8>, seqNum: u8)
    ensures NextSeq(seqNum) == (seqNum + 1) % 256
    ensures LostBefore(expected, seqNum) == if expected.None? then 0 else (seqNum - expected.value) % 256
  {
  }

  /** A stream PDU with the identifier of a wanted stream. */
  predicate IsOwn(filter: StreamFilter, pdu: Avtpdu) {
    pdu.Stream? && Wanted(filter, pdu.stream.generic.streamId)
  }

  function OwnFrames(filter: StreamFilter, pdus: seq<Avtpdu>): seq<Avtpdu> {
    if pdus == [] then []
    else (if IsOwn(filter, pdus[0]) then [pdus[0]] else []) + OwnFrames(filter, pdus[1..])
  }

  /** PDUs with another stream identifier, and those with none, leave no trace in a run. */
  lemma {:induction false} OtherStreamsIgnored(filter: StreamFilter, expected: Option<u8>, pdus: seq<Avtpdu>)
    ensures Heard(filter, expected, pdus) == Heard(filter, expected, OwnFrames(filter, pdus))
    ensures ExpectedAfter(filter, expected, pdus) == ExpectedAfter(filter, expected, OwnFrames(filter, pdus))
    decreases |pdus|
  {
    hide AafStreams.Process, IsOwn;
    if pdus != [] {
      OtherStreamsIgnored(filter, Process(filter, expected, pdus[0]).0, pdus[1..]);
      var rest := OwnFrames(filter, pdus[1..]);
      if IsOwn(filter, pdus[0]) {
        assert OwnFrames(filter, pdus) == [pdus[0]] + rest;
        assert ([pdus[0]] + rest)[1..] == rest;
      } else {
        ForeignIgnored(filter, expected, pdus[0]);
        assert [] + rest == rest;
      }
    }
  }

  lemma ForeignIgnored(filter: StreamFilter, expected: Option<u8>, pdu: Avtpdu)
    requires !IsOwn(filter, pdu)
    ensures var (next, r) := Process(filter, expected, pdu);
            next == expected && (r.Err? || r.value.None?)
  {
    ReportsExactly(filter, expected, pdu);
    hide AafStreams.Process, AafFromStream, Wanted;
  }
}
