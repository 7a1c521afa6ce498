/**
 * AVTP headers as values and their wire layout as bit sequences, IEEE Std 1722-2016 section 4.4
 * (src/avtp/subtype.rs, src/avtp/stream_id.rs, src/avtp/headers/).
 *
 * A layout takes the bits that follow it, so that encoding and decoding a field are inverse steps
 * on one stream.
 */
module Headers {
  import opened Basics
  import opened BitStreams
  import opened Timestamps

  type u2 = x: int | 0 <= x < 0x4
  type u3 = x: int | 0 <= x < 0x8
  type u4 = x: int | 0 <= x < 0x10
  type u7 = x: int | 0 <= x < 0x80
  type u9 = x: int | 0 <= x < 0x200
  type u10 = x: int | 0 <= x < 0x400
  type u11 = x: int | 0 <= x < 0x800

  type Bytes2 = s: seq<u8> | |s| == 2 witness [0, 0]
  type Bytes4 = s: seq<u8> | |s| == 4 witness [0, 0, 0, 0]
  type MacAddress = s: seq<u8> | |s| == 6 witness [0, 0, 0, 0, 0, 0]

  const U16_MAX: int := 0xFFFF

  datatype HeaderType = ControlType | StreamType | AlternativeType

  datatype Subtype =
    | IEC_61883_IIDC | MMA_STREAM | AAF | CVF | CRF | TSCF | SVF | RVF
    | AEF_CONTINUOUS | VSF_STREAM | EF_STREAM
    | NTSCF | ESCF | EECF | AEF_DISCRETE
    | ADP | AECP | ACMP | MAAP | EF_CONTROL

  function SubtypeByte(s: Subtype): u8 {
    match s
    case IEC_61883_IIDC => 0x00
    case MMA_STREAM => 0x01
    case AAF => 0x02
    case CVF => 0x03
    case CRF => 0x04
    case TSCF => 0x05
    case SVF => 0x06
    case RVF => 0x07
    case AEF_CONTINUOUS => 0x6E
    case VSF_STREAM => 0x6F
    case EF_STREAM => 0x7F
    case NTSCF => 0x82
    case ESCF => 0xEC
    case EECF => 0xED
    case AEF_DISCRETE => 0xEE
    case ADP => 0xFA
    case AECP => 0xFB
    case ACMP => 0xFC
    case MAAP => 0xFD
    case EF_CONTROL => 0xFF
  }

  function SubtypeFromByte(b: u8): Result<Subtype, DecodeError> {
    if b == 0x00 then Ok(IEC_61883_IIDC)
    else if b == 0x01 then Ok(MMA_STREAM)
    else if b == 0x02 then Ok(AAF)
    else if b == 0x03 then Ok(CVF)
    else if b == 0x04 then Ok(CRF)
    else if b == 0x05 then Ok(TSCF)
    else if b == 0x06 then Ok(SVF)
    else if b == 0x07 then Ok(RVF)
    else if b == 0x6E then Ok(AEF_CONTINUOUS)
    else if b == 0x6F then Ok(VSF_STREAM)
    else if b == 0x7F then Ok(EF_STREAM)
    else if b == 0x82 then Ok(NTSCF)
    else if b == 0xEC then Ok(ESCF)
    else if b == 0xED then Ok(EECF)
    else if b == 0xEE then Ok(AEF_DISCRETE)
    else if b == 0xFA then Ok(ADP)
    else if b == 0xFB then Ok(AECP)
    else if b == 0xFC then Ok(ACMP)
    else if b == 0xFD then Ok(MAAP)
    else if b == 0xFF then Ok(EF_CONTROL)
    else Err(UnknownSubtype(b))
  }

  function HeaderTypeOf(s: Subtype): HeaderType {
    match s
    case CRF | AEF_CONTINUOUS | NTSCF | ESCF | EECF | AEF_DISCRETE => AlternativeType
    case ADP | AECP | ACMP | MAAP | EF_CONTROL => ControlType
    case _ => StreamType
  }

  /** The subtype codec is a bijection between subtypes and the defined byte values. */
  lemma SubtypeRoundTrip(s: Subtype, b: u8)
    ensures SubtypeFromByte(SubtypeByte(s)) == Ok(s)
    ensures SubtypeFromByte(b).Ok? ==> SubtypeByte(SubtypeFromByte(b).value) == b
    ensures SubtypeFromByte(b).Err? ==> SubtypeFromByte(b) == Err(UnknownSubtype(b)) && SubtypeByte(s) != b
  {
  }

  datatype StreamID = StreamID(mac: MacAddress, uniqueId: u16)

  datatype CommonHeader = CommonHeader(subtype: Subtype, specificBit: bool, version: u3)

  datatype GenericStreamData = GenericStreamData(
    common: CommonHeader,
    mediaClockRestart: bool,
    timestampValid: bool,
    sequenceNum: u8,
    timestampUncertain: bool,
    streamId: StreamID,
    timestamp: AvtpTimestamp)

  datatype SpecificStreamData = SpecificStreamData(
    formatData: u2,
    formatData1: u7,
    formatData2: Bytes4,
    formatData3: Bytes2,
    payload: bytes)

  datatype StreamHeader = StreamHeader(generic: GenericStreamData, specific: SpecificStreamData)

  datatype ControlHeader = ControlHeader(
    common: CommonHeader,
    formatData: u9,
    dataLength: u11,
    streamId: StreamID,
    payload: bytes)

  datatype AlternativeHeader = AlternativeHeader(common: CommonHeader, payload: bytes)

  datatype Avtpdu =
    | Stream(stream: StreamHeader)
    | Control(control: ControlHeader)
    | Alternative(alternative: AlternativeHeader)

  /** `Unsupported` stands for the `todo!()` reached by every alternative subtype. */
  datatype DecodeError = Io | UnknownSubtype(raw: u8) | Unsupported(subtype: Subtype)

  datatype WriteError = IncompatibleSubtype | PayloadTooLarge(size: nat)

  /** `SpecificStreamData::new_unchecked`: only the transport limit on the payload is checked. */
  function NewSpecific(fsd: u2, fsd1: u7, fsd2: Bytes4, fsd3: Bytes2, payload: bytes)
    : Result<SpecificStreamData, WriteError>
  {
    if |payload| > U16_MAX then Err(PayloadTooLarge(|payload|))
    else Ok(SpecificStreamData(fsd, fsd1, fsd2, fsd3, payload))
  }

  /** The invariant kept by the constructor and by the payload setter. */
  predicate ValidSpecific(s: SpecificStreamData) {
    |s.payload| <= U16_MAX
  }

  // ----- Layouts -----

  function CommonBits(h: CommonHeader, rest: bits): bits {
    Put(SubtypeByte(h.subtype), 8, Put(Bit(h.specificBit), 1, Put(h.version, 3, rest)))
  }

  function StreamIdBits(id: StreamID, rest: bits): bits {
    PutBytes(id.mac, Put(id.uniqueId, 16, rest))
  }

  /** The four bits that complete the second octet after the common header. */
  function ValidityBits(h: StreamHeader, rest: bits): bits {
    Put(Bit(h.generic.mediaClockRestart), 1,
        Put(h.specific.formatData, 2,
            Put(Bit(h.generic.timestampValid), 1, rest)))
  }

  /** The third and fourth octets. */
  function SequenceBits(h: StreamHeader, rest: bits): bits {
    Put(h.generic.sequenceNum, 8,
        Put(h.specific.formatData1, 7,
            Put(Bit(h.generic.timestampUncertain), 1, rest)))
  }

  /** The fields between the common header and the stream identifier: 20 bits. */
  function StreamFlagBits(h: StreamHeader, rest: bits): bits {
    ValidityBits(h, SequenceBits(h, rest))
  }

  function StreamBodyBits(h: StreamHeader, rest: bits): bits
    requires ValidSpecific(h.specific)
  {
    StreamIdBits(h.generic.streamId,
                 Put(h.generic.timestamp, 32,
                     PutBytes(h.specific.formatData2,
                              Put(|h.specific.payload|, 16,
                                  PutBytes(h.specific.formatData3,
                                           PutBytes(h.specific.payload, rest))))))
  }

  function StreamBits(h: StreamHeader, rest: bits): bits
    requires ValidSpecific(h.specific)
  {
    CommonBits(h.generic.common, StreamFlagBits(h, StreamBodyBits(h, rest)))
  }

  function ControlBits(h: ControlHeader, rest: bits): bits {
    CommonBits(h.common,
               Put(h.formatData, 9,
                   Put(h.dataLength, 11,
                       StreamIdBits(h.streamId, PutBytes(h.payload, rest)))))
  }

  /** The low nibble of the last payload byte is dropped to restore byte alignment. */
  function AlternativeBits(h: AlternativeHeader, rest: bits): bits {
    CommonBits(h.common,
               if h.payload == [] then Put(0, 4, rest)
               else
                 var last := |h.payload| - 1;
                 PutBytes(h.payload[..last], Put(h.payload[last] / 16, 4, rest)))
  }

  predicate Encodable(p: Avtpdu) {
    p.Stream? ==> ValidSpecific(p.stream.specific)
  }

  function PduBits(p: Avtpdu, rest: bits): bits
    requires Encodable(p)
  {
    match p
    case Stream(h) => StreamBits(h, rest)
    case Control(h) => ControlBits(h, rest)
    case Alternative(h) => AlternativeBits(h, rest)
  }

  // ----- Decoding -----

  lemma WidthLimits()
    ensures Pow2(1) == 2 && Pow2(2) == 4 && Pow2(3) == 8 && Pow2(4) == 0x10
    ensures Pow2(7) == 0x80 && Pow2(8) == 0x100 && Pow2(9) == 0x200 && Pow2(10) == 0x400 && Pow2(11) == 0x800
    ensures Pow2(16) == 0x1_0000 && Pow2(32) == 0x1_0000_0000
  {
    assert Pow2(12) == 0x1000;
    assert Pow2(20) == 0x10_0000;
    assert Pow2(26) == 0x400_0000;
  }

  /** One field; the result always fits the width. */
  function Field(b: bits, width: nat): (r: Result<(nat, bits), DecodeError>)
    ensures r.Ok? ==> r.value.0 < Pow2(width) && b == Put(r.value.0, width, r.value.1)
  {
    match Take(b, width)
    case Err(_) => Err(Io)
    case Ok(x) => PutOfTake(b, width); Ok(x)
  }

  function FieldBytes(b: bits, n: nat): (r: Result<(bytes, bits), DecodeError>)
    ensures r.Ok? ==> |r.value.0| == n && b == PutBytes(r.value.0, r.value.1)
  {
    match TakeBytes(b, n)
    case Err(_) => Err(Io)
    case Ok(x) => PutBytesOfTake(b, n); Ok(x)
  }

  function DecodeCommon(b: bits): Result<(CommonHeader, bits), DecodeError> {
    WidthLimits();
    var (raw, b1) :- Field(b, 8);
    var subtype :- SubtypeFromByte(raw);
    var (bit, b2) :- Field(b1, 1);
    var (version, b3) :- Field(b2, 3);
    Ok((CommonHeader(subtype, bit == 1, version), b3))
  }

  function DecodeStreamId(b: bits): Result<(StreamID, bits), DecodeError> {
    WidthLimits();
    var (mac, b1) :- FieldBytes(b, 6);
    var (uid, b2) :- Field(b1, 16);
    Ok((StreamID(mac, uid), b2))
  }

  function DecodeStream(common: CommonHeader, b: bits): Result<(StreamHeader, bits), DecodeError> {
    WidthLimits();
    var (mr, b1) :- Field(b, 1);
    var (fsd, b2) :- Field(b1, 2);
    var (tv, b3) :- Field(b2, 1);
    var (seqNum, b4) :- Field(b3, 8);
    var (fsd1, b5) :- Field(b4, 7);
    var (tu, b6) :- Field(b5, 1);
    var (id, b7) :- DecodeStreamId(b6);
    var (ts, b8) :- Field(b7, 32);
    var (fsd2, b9) :- FieldBytes(b8, 4);
    var (length, b10) :- Field(b9, 16);
    var (fsd3, b11) :- FieldBytes(b10, 2);
    var (payload, b12) :- FieldBytes(b11, length);
    Ok((StreamHeader(GenericStreamData(common, mr == 1, tv == 1, seqNum, tu == 1, id, ts),
                     SpecificStreamData(fsd, fsd1, fsd2, fsd3, payload)),
        b12))
  }

  function DecodeControl(common: CommonHeader, b: bits): Result<(ControlHeader, bits), DecodeError> {
    WidthLimits();
    var (fsd, b1) :- Field(b, 9);
    var (length, b2) :- Field(b1, 11);
    var (id, b3) :- DecodeStreamId(b2);
    var (payload, b4) :- FieldBytes(b3, length);
    Ok((ControlHeader(common, fsd, length, id, payload), b4))
  }

  function DecodePdu(b: bits): Result<(Avtpdu, bits), DecodeError> {
    var (common, b1) :- DecodeCommon(b);
    match HeaderTypeOf(common.subtype)
    case StreamType =>
      var (h, b2) :- DecodeStream(common, b1);
      Ok((Stream(h), b2))
    case ControlType =>
      var (h, b2) :- DecodeControl(common, b1);
      Ok((Control(h), b2))
    case AlternativeType => Err(Unsupported(common.subtype))
  }

  // ----- Dispatch -----

  function PduCommon(p: Avtpdu): CommonHeader {
    match p
    case Stream(h) => h.generic.common
    case Control(h) => h.common
    case Alternative(h) => h.common
  }

  function PduType(p: Avtpdu): HeaderType {
    match p
    case Stream(_) => StreamType
    case Control(_) => ControlType
    case Alternative(_) => AlternativeType
  }

  predicate SubtypeMatches(p: Avtpdu) {
    HeaderTypeOf(PduCommon(p).subtype) == PduType(p)
  }

  /** The declared control length is the payload's; a stream's length field is computed. */
  predicate LengthsAgree(p: Avtpdu) {
    && Encodable(p)
    && (p.Control? ==> p.control.dataLength == |p.control.payload|)
  }

  /** Bytes on the wire: 24 of stream header, 12 of control header, 12 bits of common header. */
  function WireSize(p: Avtpdu): nat {
    match p
    case Stream(h) => 24 + |h.specific.payload|
    case Control(h) => 12 + |h.payload|
    case Alternative(h) => if h.payload == [] then 2 else 1 + |h.payload|
  }
}
