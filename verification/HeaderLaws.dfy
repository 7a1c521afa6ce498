/** Round trips of the wire layout, at bit level (src/avtp/avtpdu.rs, src/avtp/headers/). */
module HeaderLaws {
  import opened Basics
  import opened BitStreams
  import opened Headers

  lemma FieldOfPut(v: nat, width: nat, rest: bits)
    requires v < Pow2(width)
    ensures Field(Put(v, width, rest), width) == Ok((v, rest))
  {
    TakeOfPut(v, width, rest);
  }

  lemma FieldOfPutBytes(s: bytes, rest: bits)
    ensures FieldBytes(PutBytes(s, rest), |s|) == Ok((s, rest))
  {
    TakeOfPutBytes(s, rest);
  }

  // ----- Decoding what was encoded -----

  lemma CommonRoundTrip(h: CommonHeader, rest: bits)
    ensures DecodeCommon(CommonBits(h, rest)) == Ok((h, rest))
  {
    hide Put, Field;
    WidthLimits();
    var b2 := Put(h.version, 3, rest);
    var b1 := Put(Bit(h.specificBit), 1, b2);
    SubtypeRoundTrip(h.subtype, 0);
    FieldOfPut(SubtypeByte(h.subtype), 8, b1);
    FieldOfPut(Bit(h.specificBit), 1, b2);
    FieldOfPut(h.version, 3, rest);
  }

  lemma StreamIdRoundTrip(id: StreamID, rest: bits)
    ensures DecodeStreamId(StreamIdBits(id, rest)) == Ok((id, rest))
  {
    hide Put, PutBytes, Field, FieldBytes;
    WidthLimits();
    FieldOfPutBytes(id.mac, Put(id.uniqueId, 16, rest));
    FieldOfPut(id.uniqueId, 16, rest);
  }

  lemma StreamRoundTrip(h: StreamHeader, rest: bits)
    requires ValidSpecific(h.specific)
    ensures DecodeStream(h.generic.common, StreamFlagBits(h, StreamBodyBits(h, rest))) == Ok((h, rest))
  {
    hide Put, PutBytes, Field, FieldBytes, StreamIdBits, DecodeStreamId;
    WidthLimits();
    var g, s := h.generic, h.specific;
    var b11 := PutBytes(s.payload, rest);
    var b10 := PutBytes(s.formatData3, b11);
    var b9 := Put(|s.payload|, 16, b10);
    var b8 := PutBytes(s.formatData2, b9);
    var b7 := Put(g.timestamp, 32, b8);
    var b6 := StreamIdBits(g.streamId, b7);
    var b5 := Put(Bit(g.timestampUncertain), 1, b6);
    var b4 := Put(s.formatData1, 7, b5);
    var b3 := Put(g.sequenceNum, 8, b4);
    var b2 := Put(Bit(g.timestampValid), 1, b3);
    var b1 := Put(s.formatData, 2, b2);
    FieldOfPut(Bit(g.mediaClockRestart), 1, b1);
    FieldOfPut(s.formatData, 2, b2);
    FieldOfPut(Bit(g.timestampValid), 1, b3);
    FieldOfPut(g.sequenceNum, 8, b4);
    FieldOfPut(s.formatData1, 7, b5);
    FieldOfPut(Bit(g.timestampUncertain), 1, b6);
    StreamIdRoundTrip(g.streamId, b7);
    FieldOfPut(g.timestamp, 32, b8);
    FieldOfPutBytes(s.formatData2, b9);
    FieldOfPut(|s.payload|, 16, b10);
    FieldOfPutBytes(s.formatData3, b11);
    FieldOfPutBytes(s.payload, rest);
  }

  lemma {:induction false} ControlRoundTrip(h: ControlHeader, rest: bits)
    requires h.dataLength == |h.payload|
    ensures DecodeControl(h.common, Put(h.formatData, 9, Put(h.dataLength, 11,
              StreamIdBits(h.streamId, PutBytes(h.payload, rest))))) == Ok((h, rest))
  {
    hide Put, PutBytes, Field, FieldBytes, StreamIdBits, DecodeStreamId;
    WidthLimits();
    var b3 := PutBytes(h.payload, rest);
    var b2 := StreamIdBits(h.streamId, b3);
    FieldOfPut(h.formatData, 9, Put(h.dataLength, 11, b2));
    FieldOfPut(h.dataLength, 11, b2);
    StreamIdRoundTrip(h.streamId, b3);
    FieldOfPutBytes(h.payload, rest);
  }

  /** Decoding an encoded stream or control PDU gives it back and leaves exactly the tail. */
  lemma DecodeOfEncode(p: Avtpdu, tail: bits)
    requires !p.Alternative? && SubtypeMatches(p) && LengthsAgree(p)
    ensures DecodePdu(PduBits(p, tail)) == Ok((p, tail))
  {
    hide Put, PutBytes, StreamIdBits, CommonBits, DecodeCommon, StreamFlagBits, StreamBodyBits;
    match p
    case Stream(h) =>
      CommonRoundTrip(h.generic.common, StreamFlagBits(h, StreamBodyBits(h, tail)));
      StreamRoundTrip(h, tail);
    case Control(h) =>
      CommonRoundTrip(h.common, Put(h.formatData, 9, Put(h.dataLength, 11,
        StreamIdBits(h.streamId, PutBytes(h.payload, tail)))));
      ControlRoundTrip(h, tail);
  }

  // ----- Encoding what was decoded -----

  lemma CommonOfDecode(b: bits)
    requires DecodeCommon(b).Ok?
    ensures b == CommonBits(DecodeCommon(b).value.0, DecodeCommon(b).value.1)
  {
    hide Put, Field;
    WidthLimits();
    var (raw, b1) := Field(b, 8).value;
    SubtypeRoundTrip(AAF, raw);
  }

  lemma StreamIdOfDecode(b: bits)
    requires DecodeStreamId(b).Ok?
    ensures b == StreamIdBits(DecodeStreamId(b).value.0, DecodeStreamId(b).value.1)
  {
    hide Put, PutBytes, Field, FieldBytes;
  }

  lemma StreamOfDecode(common: CommonHeader, b: bits)
    requires DecodeStream(common, b).Ok?
    ensures var (h, rest) := DecodeStream(common, b).value;
            && h.generic.common == common
            && ValidSpecific(h.specific)
            && b == StreamFlagBits(h, StreamBodyBits(h, rest))
  {
    hide Put, PutBytes, Field, FieldBytes, StreamIdBits, DecodeStreamId;
    WidthLimits();
    var (mr, b1) := Field(b, 1).value;
    var (fsd, b2) := Field(b1, 2).value;
    var (tv, b3) := Field(b2, 1).value;
    var (seqNum, b4) := Field(b3, 8).value;
    var (fsd1, b5) := Field(b4, 7).value;
    var (tu, b6) := Field(b5, 1).value;
    StreamIdOfDecode(b6);
  }

  lemma ControlOfDecode(common: CommonHeader, b: bits)
    requires DecodeControl(common, b).Ok?
    ensures var (h, rest) := DecodeControl(common, b).value;
            && h.common == common
            && h.dataLength == |h.payload|
            && b == Put(h.formatData, 9, Put(h.dataLength, 11,
                        StreamIdBits(h.streamId, PutBytes(h.payload, rest))))
  {
    hide Put, PutBytes, Field, FieldBytes, StreamIdBits, DecodeStreamId;
    var (fsd, b1) := Field(b, 9).value;
    var (length, b2) := Field(b1, 11).value;
    StreamIdOfDecode(b2);
  }

  /** Whatever decodes is a well-formed PDU whose encoding is the very bits that were consumed. */
  lemma EncodeOfDecode(b: bits)
    requires DecodePdu(b).Ok?
    ensures var (p, rest) := DecodePdu(b).value;
            && !p.Alternative? && SubtypeMatches(p) && LengthsAgree(p)
            && b == PduBits(p, rest)
  {
    hide Put, PutBytes, StreamIdBits, CommonBits, DecodeCommon, StreamFlagBits, StreamBodyBits,
         DecodeStream, DecodeControl;
    CommonOfDecode(b);
    var (common, b1) := DecodeCommon(b).value;
    if HeaderTypeOf(common.subtype) == StreamType {
      StreamOfDecode(common, b1);
    } else {
      ControlOfDecode(common, b1);
    }
  }

  // ----- Sizes and concatenation -----

  lemma CommonAppend(h: CommonHeader, rest: bits, tail: bits)
    ensures CommonBits(h, rest) + tail == CommonBits(h, rest + tail)
    ensures |CommonBits(h, rest)| == 12 + |rest|
  {
    PutAppend(h.version, 3, rest, tail);
    PutAppend(Bit(h.specificBit), 1, Put(h.version, 3, rest), tail);
    PutAppend(SubtypeByte(h.subtype), 8, Put(Bit(h.specificBit), 1, Put(h.version, 3, rest)), tail);
  }

  lemma StreamIdAppend(id: StreamID, rest: bits, tail: bits)
    ensures StreamIdBits(id, rest) + tail == StreamIdBits(id, rest + tail)
    ensures |StreamIdBits(id, rest)| == 64 + |rest|
  {
    PutAppend(id.uniqueId, 16, rest, tail);
    PutBytesAppend(id.mac, Put(id.uniqueId, 16, rest), tail);
  }

  lemma StreamFlagAppend(h: StreamHeader, rest: bits, tail: bits)
    ensures StreamFlagBits(h, rest) + tail == StreamFlagBits(h, rest + tail)
    ensures |StreamFlagBits(h, rest)| == 20 + |rest|
  {
    var g, s := h.generic, h.specific;
    var b5 := Put(Bit(g.timestampUncertain), 1, rest);
    var b4 := Put(s.formatData1, 7, b5);
    var b3 := Put(g.sequenceNum, 8, b4);
    var b2 := Put(Bit(g.timestampValid), 1, b3);
    var b1 := Put(s.formatData, 2, b2);
    assert |StreamFlagBits(h, rest)| == 20 + |rest|;
    hide Put;
    PutAppend(Bit(g.timestampUncertain), 1, rest, tail);
    PutAppend(s.formatData1, 7, b5, tail);
    PutAppend(g.sequenceNum, 8, b4, tail);
    PutAppend(Bit(g.timestampValid), 1, b3, tail);
    PutAppend(s.formatData, 2, b2, tail);
    PutAppend(Bit(g.mediaClockRestart), 1, b1, tail);
  }

  lemma StreamBodyAppend(h: StreamHeader, rest: bits, tail: bits)
    requires ValidSpecific(h.specific)
    ensures StreamBodyBits(h, rest) + tail == StreamBodyBits(h, rest + tail)
    ensures |StreamBodyBits(h, rest)| == 160 + 8 * |h.specific.payload| + |rest|
  {
    var g, s := h.generic, h.specific;
    var b11 := PutBytes(s.payload, rest);
    var b10 := PutBytes(s.formatData3, b11);
    var b9 := Put(|s.payload|, 16, b10);
    var b8 := PutBytes(s.formatData2, b9);
    var b7 := Put(g.timestamp, 32, b8);
    assert |b7| == 96 + 8 * |s.payload| + |rest|;
    hide Put, PutBytes, StreamIdBits;
    StreamIdAppend(g.streamId, b7, tail);
    PutAppend(g.timestamp, 32, b8, tail);
    PutBytesAppend(s.formatData2, b9, tail);
    PutAppend(|s.payload|, 16, b10, tail);
    PutBytesAppend(s.formatData3, b11, tail);
    PutBytesAppend(s.payload, rest, tail);
  }

  /** Encoding in front of a tail is encoding followed by the tail, of exactly `WireSize` bytes. */
  lemma EncodeAppend(p: Avtpdu, tail: bits)
    requires Encodable(p)
    ensures PduBits(p, tail) == PduBits(p, []) + tail
    ensures |PduBits(p, [])| == 8 * WireSize(p)
  {
    hide CommonBits, StreamIdBits, StreamFlagBits, StreamBodyBits;
    assert [] + tail == tail;
    match p
    case Stream(h) =>
      CommonAppend(h.generic.common, StreamFlagBits(h, StreamBodyBits(h, [])), tail);
      StreamFlagAppend(h, StreamBodyBits(h, []), tail);
      StreamBodyAppend(h, [], tail);
    case Control(h) =>
      var b2 := StreamIdBits(h.streamId, PutBytes(h.payload, []));
      CommonAppend(h.common, Put(h.formatData, 9, Put(h.dataLength, 11, b2)), tail);
      PutAppend(h.formatData, 9, Put(h.dataLength, 11, b2), tail);
      PutAppend(h.dataLength, 11, b2, tail);
      StreamIdAppend(h.streamId, PutBytes(h.payload, []), tail);
      PutBytesAppend(h.payload, [], tail);
    case Alternative(h) =>
      if h.payload == [] {
        CommonAppend(h.common, Put(0, 4, []), tail);
        PutAppend(0, 4, [], tail);
      } else {
        var last := |h.payload| - 1;
        CommonAppend(h.common, PutBytes(h.payload[..last], Put(h.payload[last] / 16, 4, [])), tail);
        PutBytesAppend(h.payload[..last], Put(h.payload[last] / 16, 4, []), tail);
        PutAppend(h.payload[last] / 16, 4, [], tail);
      }
  }
}
