/**
 * What any sequence of octets reads as, and which PDUs are written: dispatch on the subtype octet, the
 * fields by division and remainder, and each error (src/avtp/avtpdu.rs, src/avtp/subtype.rs).
 */
module WireReads {
  import opened Basics
  import opened BitStreams
  import opened Headers
  import opened HeaderLaws
  import opened Avtpdus
  import opened WireBytes

  // ----- Dispatch on the subtype octet -----

  predicate StreamByte(b: u8) {
    b <= 0x03 || 0x05 <= b <= 0x07 || b == 0x6F || b == 0x7F
  }

  predicate ControlByte(b: u8) {
    0xFA <= b <= 0xFD || b == 0xFF
  }

  predicate AlternativeByte(b: u8) {
    b == 0x04 || b == 0x6E || b == 0x82 || 0xEC <= b <= 0xEE
  }

  /** The header family of a subtype is that of its octet. */
  lemma FamilyOfByte(s: Subtype)
    ensures HeaderTypeOf(s) == StreamType <==> StreamByte(SubtypeByte(s))
    ensures HeaderTypeOf(s) == ControlType <==> ControlByte(SubtypeByte(s))
    ensures HeaderTypeOf(s) == AlternativeType <==> AlternativeByte(SubtypeByte(s))
  {
  }

  lemma DefinedBytes(b: u8)
    ensures SubtypeFromByte(b).Ok? <==> StreamByte(b) || ControlByte(b) || AlternativeByte(b)
    ensures SubtypeFromByte(b).Ok? ==> SubtypeByte(SubtypeFromByte(b).value) == b
    ensures SubtypeFromByte(b).Err? ==> SubtypeFromByte(b) == Err(UnknownSubtype(b))
  {
  }

  /** The subtype octet belongs to the family of the PDU. */
  predicate InFamily(p: Avtpdu) {
    var b := SubtypeByte(PduCommon(p).subtype);
    match p
    case Stream(_) => StreamByte(b)
    case Control(_) => ControlByte(b)
    case Alternative(_) => AlternativeByte(b)
  }

  /**
   * A PDU is written exactly when its subtype octet belongs to its family and a stream payload fits 16 bits;
   * of the two errors, that of the subtype comes first.
   */
  lemma WritesExactly(p: Avtpdu)
    ensures Write(p).Ok? <==> InFamily(p) && (p.Stream? ==> |p.stream.specific.payload| <= 65_535)
    ensures Write(p).Err? ==>
              Write(p).error == if !InFamily(p) then IncompatibleSubtype
                                else PayloadTooLarge(|p.stream.specific.payload|)
  {
    FamilyOfByte(PduCommon(p).subtype);
    WriteSucceeds(p);
    WriteErrors(p);
    hide Write, HeaderTypeOf, SubtypeByte, StreamByte, ControlByte, AlternativeByte;
  }

  lemma WriteErrors(p: Avtpdu)
    ensures Write(p).Err? ==>
              Write(p).error == if !SubtypeMatches(p) then IncompatibleSubtype
                                else PayloadTooLarge(|p.stream.specific.payload|)
  {
    hide HeaderTypeOf, PduBits, BitsToBytes;
  }

  /** The limit on a payload when it is put into a header. */
  lemma PayloadLimit(fsd: u2, fsd1: u7, fsd2: Bytes4, fsd3: Bytes2, payload: bytes)
    ensures NewSpecific(fsd, fsd1, fsd2, fsd3, payload)
         == if |payload| <= 65_535 then Ok(SpecificStreamData(fsd, fsd1, fsd2, fsd3, payload))
            else Err(PayloadTooLarge(|payload|))
  {
  }

  // ----- Fields by division and remainder -----

  function Word16(high: u8, low: u8): u16 {
    0x100 * high + low
  }

  lemma Word16OfBe16(v: u16)
    ensures Word16(Be16(v)[0], Be16(v)[1]) == v
  {
  }

  lemma Be16OfWord16(b: bytes)
    requires |b| == 2
    ensures Be16(Word16(b[0], b[1])) == b
  {
  }

  lemma Be32OfWords(b: bytes)
    requires |b| == 4
    ensures Be32(0x1_0000 * Word16(b[0], b[1]) + Word16(b[2], b[3])) == b
  {
    Be16OfWord16(b[..2]);
    Be16OfWord16(b[2..]);
    hide Be16, Word16;
    var high: int, low: int := Word16(b[0], b[1]), Word16(b[2], b[3]);
    assert (0x1_0000 * high + low) / 0x1_0000 == high && (0x1_0000 * high + low) % 0x1_0000 == low;
    assert b[..2] + b[2..] == b;
  }

  /** Long enough for its header and the payload it declares. */
  predicate CompleteStream(data: bytes) {
    |data| >= 24 && |data| >= 24 + Word16(data[20], data[21])
  }

  function StreamPayload(data: bytes): nat
    requires CompleteStream(data)
  {
    Word16(data[20], data[21])
  }

  function CommonFrom(data: bytes): CommonHeader
    requires |data| >= 2 && SubtypeFromByte(data[0]).Ok?
  {
    CommonHeader(SubtypeFromByte(data[0]).value, data[1] >= 128, data[1] / 16 % 8)
  }

  /** A stream PDU read off its octets. */
  function StreamFrom(data: bytes): StreamHeader
    requires CompleteStream(data) && SubtypeFromByte(data[0]).Ok?
  {
    StreamHeader(
      GenericStreamData(CommonFrom(data), data[1] / 8 % 2 == 1, data[1] % 2 == 1, data[2], data[3] % 2 == 1,
                        StreamID(data[4..10], Word16(data[10], data[11])),
                        0x1_0000 * Word16(data[12], data[13]) + Word16(data[14], data[15])),
      SpecificStreamData(data[1] / 2 % 4, data[3] / 2, data[16..20], data[22..24],
                         data[24..24 + StreamPayload(data)]))
  }

  /** The eleven-bit length in the third and fourth octets. */
  function LengthIn(third: u8, fourth: u8): (length: u11) {
    var high: int := third % 8;
    0x100 * high + fourth
  }

  /** The nine bits in the second and third octets. */
  function FormatDataIn(second: u8, third: u8): (formatData: u9) {
    var high: int := second % 16;
    32 * high + third / 8
  }

  predicate CompleteControl(data: bytes) {
    |data| >= 12 && |data| >= 12 + LengthIn(data[2], data[3])
  }

  /** A control PDU read off its octets. */
  function ControlFrom(data: bytes): ControlHeader
    requires CompleteControl(data) && SubtypeFromByte(data[0]).Ok?
  {
    var length := LengthIn(data[2], data[3]);
    ControlHeader(CommonFrom(data), FormatDataIn(data[1], data[2]), length,
                  StreamID(data[4..10], Word16(data[10], data[11])), data[12..12 + length])
  }

  lemma SecondOctetFrom(data: bytes)
    requires |data| >= 2 && SubtypeFromByte(data[0]).Ok?
    ensures SecondOctet(CommonFrom(data), data[1] % 16) == data[1]
    ensures 8 * Bit(data[1] / 8 % 2 == 1) + 2 * (data[1] / 2 % 4) + Bit(data[1] % 2 == 1) == data[1] % 16
  {
    OctetParts(data[1]);
  }

  lemma OctetParts(b: u8)
    ensures 128 * Bit(b >= 128) + 16 * (b / 16 % 8) + b % 16 == b
    ensures 8 * Bit(b / 8 % 2 == 1) + 2 * (b / 2 % 4) + Bit(b % 2 == 1) == b % 16
  {
    var high, low := b / 16, b % 16;
    assert b == 16 * high + low;
    assert high == 8 * (high / 8) + high % 8 && (b >= 128 <==> high / 8 == 1);
    NibbleParts(high, low);
  }

  lemma NibbleParts(high: u4, low: u4)
    ensures var b := 16 * high + low;
            && 8 * Bit(b / 8 % 2 == 1) + 2 * (b / 2 % 4) + Bit(b % 2 == 1) == low
  {
    var b := 16 * high + low;
    assert b / 8 == 2 * high + low / 8 && b / 2 == 8 * high + low / 2;
    assert b / 8 % 2 == low / 8 && b / 2 % 4 == low / 2 % 4 && b % 2 == low % 2;
    assert low == 8 * (low / 8) + 2 * (low / 2 % 4) + low % 2;
  }

  lemma StreamFromInverse(data: bytes)
    requires CompleteStream(data) && SubtypeFromByte(data[0]).Ok?
    ensures ValidSpecific(StreamFrom(data).specific)
    ensures StreamBytes(StreamFrom(data)) + data[24 + StreamPayload(data)..] == data
  {
    var n := 24 + StreamPayload(data);
    StreamOctetFields(data);
    StreamTailFields(data);
    var h := StreamFrom(data);
    assert 24 <= n <= |data|;
    hide *;
    StreamBytesAre(h, [data[0], data[1], data[2], data[3]], data[4..12], data[12..16], data[16..20], data[20..22],
                   data[22..24], data[24..n]);
    StreamSlices(data, n);
  }

  lemma StreamOctetFields(data: bytes)
    requires CompleteStream(data) && SubtypeFromByte(data[0]).Ok?
    ensures var h := StreamFrom(data);
            && SubtypeByte(h.generic.common.subtype) == data[0]
            && SecondOctet(h.generic.common, FlagNibble(h)) == data[1]
            && h.generic.sequenceNum == data[2]
            && FourthOctet(h) == data[3]
  {
    DefinedBytes(data[0]);
    SecondOctetFrom(data);
    hide Word16, SecondOctet, SubtypeByte, SubtypeFromByte, CommonFrom;
  }

  lemma StreamTailFields(data: bytes)
    requires CompleteStream(data) && SubtypeFromByte(data[0]).Ok?
    ensures var h := StreamFrom(data);
            && |h.specific.payload| <= U16_MAX
            && IdBytes(h.generic.streamId) == data[4..12]
            && Be32(h.generic.timestamp) == data[12..16]
            && h.specific.formatData2 == data[16..20]
            && Be16(|h.specific.payload|) == data[20..22]
            && h.specific.formatData3 == data[22..24]
            && h.specific.payload == data[24..24 + StreamPayload(data)]
  {
    Be16OfWord16(data[10..12]);
    Be32OfWords(data[12..16]);
    Be16OfWord16(data[20..22]);
    hide Be16, Be32, Word16, SubtypeFromByte, CommonFrom;
    assert data[4..10] + data[10..12] == data[4..12];
  }

  lemma StreamBytesAre(h: StreamHeader, octets: bytes, id: bytes, ts: bytes, d2: bytes, length: bytes, d3: bytes,
                       payload: bytes)
    requires ValidSpecific(h.specific) && |octets| == 4
    requires SubtypeByte(h.generic.common.subtype) == octets[0]
    requires SecondOctet(h.generic.common, FlagNibble(h)) == octets[1]
    requires h.generic.sequenceNum == octets[2] && FourthOctet(h) == octets[3]
    requires IdBytes(h.generic.streamId) == id && Be32(h.generic.timestamp) == ts && h.specific.formatData2 == d2
    requires Be16(|h.specific.payload|) == length && h.specific.formatData3 == d3 && h.specific.payload == payload
    ensures StreamBytes(h) == octets + id + ts + d2 + length + d3 + payload
  {
    hide IdBytes, Be16, Be32, SecondOctet, SubtypeByte, FlagNibble, FourthOctet;
    assert octets == [octets[0], octets[1], octets[2], octets[3]];
  }

  lemma StreamSlices(data: bytes, n: nat)
    requires 24 <= n <= |data|
    ensures [data[0], data[1], data[2], data[3]] + data[4..12] + data[12..16] + data[16..20]
            + data[20..22] + data[22..24] + data[24..n] + data[n..] == data
  {
  }

  lemma ControlFromInverse(data: bytes)
    requires CompleteControl(data) && SubtypeFromByte(data[0]).Ok?
    ensures ControlBytes(ControlFrom(data)) + data[12 + LengthIn(data[2], data[3])..] == data
  {
    var n := 12 + LengthIn(data[2], data[3]);
    ControlFields(data);
    var h := ControlFrom(data);
    assert 12 <= n <= |data|;
    hide *;
    ControlBytesAre(h, [data[0], data[1], data[2], data[3]], data[4..12], data[12..n]);
    assert [data[0], data[1], data[2], data[3]] + data[4..12] + data[12..n] + data[n..] == data;
  }

  lemma ControlFields(data: bytes)
    requires CompleteControl(data) && SubtypeFromByte(data[0]).Ok?
    ensures var h := ControlFrom(data);
            && SubtypeByte(h.common.subtype) == data[0]
            && SecondOctet(h.common, h.formatData / 32) == data[1]
            && 8 * (h.formatData % 32) + h.dataLength / 0x100 == data[2]
            && h.dataLength % 0x100 == data[3]
            && IdBytes(h.streamId) == data[4..12]
            && h.payload == data[12..12 + LengthIn(data[2], data[3])]
            && h.dataLength == |h.payload|
  {
    DefinedBytes(data[0]);
    SecondOctetFrom(data);
    Be16OfWord16(data[10..12]);
    LengthFrom(data[1], data[2], data[3]);
    hide Be16, Word16, SecondOctet, SubtypeByte, SubtypeFromByte, CommonFrom, LengthIn, FormatDataIn;
    assert data[4..10] + data[10..12] == data[4..12];
  }

  lemma ControlBytesAre(h: ControlHeader, octets: bytes, id: bytes, payload: bytes)
    requires |octets| == 4
    requires SubtypeByte(h.common.subtype) == octets[0] && SecondOctet(h.common, h.formatData / 32) == octets[1]
    requires 8 * (h.formatData % 32) + h.dataLength / 0x100 == octets[2] && h.dataLength % 0x100 == octets[3]
    requires IdBytes(h.streamId) == id && h.payload == payload
    ensures ControlBytes(h) == octets + id + payload
  {
    hide IdBytes, SecondOctet, SubtypeByte;
    assert octets == [octets[0], octets[1], octets[2], octets[3]];
  }

  lemma LengthFrom(second: u8, third: u8, fourth: u8)
    ensures var formatData, length := FormatDataIn(second, third), LengthIn(third, fourth);
            && formatData / 32 == second % 16
            && 8 * (formatData % 32) + length / 0x100 == third
            && length % 0x100 == fourth
  {
    var high: int, top: int := second % 16, third % 8;
    assert FormatDataIn(second, third) == 32 * high + third / 8;
    assert LengthIn(third, fourth) == 0x100 * top + fourth;
  }

  // ----- Reading -----

  lemma ReadsStream(data: bytes)
    requires CompleteStream(data) && StreamByte(data[0])
    ensures SubtypeFromByte(data[0]).Ok?
    ensures Read(data) == Ok((Stream(StreamFrom(data)), data[24 + StreamPayload(data)..]))
  {
    DefinedBytes(data[0]);
    hide Read, Write, StreamBytes, SubtypeFromByte, SubtypeByte, StreamByte, CompleteStream, StreamPayload;
    var p, tail := Stream(StreamFrom(data)), data[24 + StreamPayload(data)..];
    StreamFromInverse(data);
    WritesExactly(p);
    WrittenOctets(p);
    ReadOfWrite(p, tail);
  }

  lemma ReadsControl(data: bytes)
    requires CompleteControl(data) && ControlByte(data[0])
    ensures SubtypeFromByte(data[0]).Ok?
    ensures Read(data) == Ok((Control(ControlFrom(data)), data[12 + LengthIn(data[2], data[3])..]))
  {
    DefinedBytes(data[0]);
    hide Read, Write, ControlBytes, SubtypeFromByte, SubtypeByte, ControlByte, CompleteControl, LengthIn;
    var p, tail := Control(ControlFrom(data)), data[12 + LengthIn(data[2], data[3])..];
    ControlFromInverse(data);
    WritesExactly(p);
    WrittenOctets(p);
    ReadOfWrite(p, tail);
  }

  /** The front of anything that was read. */
  lemma ReadFront(data: bytes)
    requires Read(data).Ok?
    ensures var p := Read(data).value.0;
            && (p.Stream? ==> data != [] && StreamByte(data[0]) && CompleteStream(data))
            && (p.Control? ==> data != [] && ControlByte(data[0]) && CompleteControl(data))
            && !p.Alternative?
  {
    hide Read, Write, SubtypeByte, StreamByte, ControlByte;
    WriteOfRead(data);
    var p := Read(data).value.0;
    WritesExactly(p);
    WrittenOctets(p);
    if p.Stream? {
      StreamFront(p.stream, data, Read(data).value.1);
    } else {
      ControlFront(p.control, data, Read(data).value.1);
    }
  }

  lemma StreamFront(h: StreamHeader, data: bytes, left: bytes)
    requires ValidSpecific(h.specific) && data == StreamBytes(h) + left
    ensures |data| >= 24 && data[0] == SubtypeByte(h.generic.common.subtype) && CompleteStream(data)
  {
    hide Be16, Be32, SecondOctet, SubtypeByte, Word16;
    Word16OfBe16(|h.specific.payload|);
    assert data[20..22] == Be16(|h.specific.payload|);
  }

  lemma ControlFront(h: ControlHeader, data: bytes, left: bytes)
    requires Read(data) == Ok((Control(h), left)) && data == ControlBytes(h) + left
    ensures |data| >= 12 && data[0] == SubtypeByte(h.common.subtype) && CompleteControl(data)
  {
    hide *;
    ReadLengthAgrees(data);
    var octets := [SubtypeByte(h.common.subtype), SecondOctet(h.common, h.formatData / 32),
                   8 * (h.formatData % 32) + h.dataLength / 0x100, h.dataLength % 0x100];
    ControlBytesAre(h, octets, IdBytes(h.streamId), h.payload);
    IdLength(h.streamId);
    assert data[..4] == octets && data[0] == octets[0] && data[2] == octets[2] && data[3] == octets[3];
    ThirdOctet(h.formatData % 32, h.dataLength);
    CompleteWhen(data, |h.payload|);
  }

  lemma IdLength(id: StreamID)
    ensures |IdBytes(id)| == 8
  {
  }

  lemma CompleteWhen(data: bytes, length: nat)
    requires |data| >= 12 + length && LengthIn(data[2], data[3]) == length
    ensures CompleteControl(data)
  {
  }

  lemma ThirdOctet(low: nat, length: u11)
    requires low < 32
    ensures LengthIn(8 * low + length / 0x100, length % 0x100) == length
  {
  }

  lemma ReadLengthAgrees(data: bytes)
    requires Read(data).Ok? && Read(data).value.0.Control?
    ensures var h := Read(data).value.0.control; h.dataLength == |h.payload|
  {
    EncodeOfDecode(BytesToBits(data));
    hide DecodePdu, PduBits, BytesToBits;
  }

  lemma FirstOctet(data: bytes)
    requires data != []
    ensures Field(BytesToBits(data), 8) == Ok((data[0], BytesToBits(data[1..])))
  {
    Pow2Of8();
    FieldOfPut(data[0], 8, BytesToBits(data[1..]));
  }

  /** With two octets there the common header decodes, or the subtype is unknown. */
  lemma CommonOutcome(data: bytes)
    requires data != []
    ensures SubtypeFromByte(data[0]).Err? ==> DecodeCommon(BytesToBits(data)) == Err(UnknownSubtype(data[0]))
    ensures SubtypeFromByte(data[0]).Ok? && |data| >= 2 ==>
              var r := DecodeCommon(BytesToBits(data));
              r.Ok? && r.value.0.subtype == SubtypeFromByte(data[0]).value
    ensures SubtypeFromByte(data[0]).Ok? && |data| == 1 ==> DecodeCommon(BytesToBits(data)) == Err(Io)
  {
    FirstOctet(data);
    DefinedBytes(data[0]);
    var rest := BytesToBits(data[1..]);
    ShortField(rest, 1);
    if |data| >= 2 {
      ShortField(Field(rest, 1).value.1, 3);
    }
    hide Field, BytesToBits, SubtypeFromByte;
  }

  lemma ShortField(b: bits, width: nat)
    ensures Field(b, width).Ok? <==> |b| >= width
    ensures Field(b, width).Ok? ==> |Field(b, width).value.1| == |b| - width
    ensures Field(b, width).Err? ==> Field(b, width) == Err(Io)
  {
  }

  lemma StreamFailsOnlyShort(common: CommonHeader, b: bits)
    ensures DecodeStream(common, b).Err? ==> DecodeStream(common, b) == Err(Io)
  {
    hide Put, PutBytes;
  }

  lemma ControlFailsOnlyShort(common: CommonHeader, b: bits)
    ensures DecodeControl(common, b).Err? ==> DecodeControl(common, b) == Err(Io)
  {
    hide Put, PutBytes;
  }

  /** The errors of a read, by the subtype octet. */
  lemma ReadErrors(data: bytes)
    requires data != [] && Read(data).Err?
    ensures var b := data[0];
            Read(data).error
            == if !(StreamByte(b) || ControlByte(b) || AlternativeByte(b)) then UnknownSubtype(b)
               else if AlternativeByte(b) && |data| >= 2 then Unsupported(SubtypeFromByte(b).value)
               else Io
  {
    DefinedBytes(data[0]);
    CommonOutcome(data);
    var common := DecodeCommon(BytesToBits(data));
    if common.Ok? {
      FamilyOfByte(common.value.0.subtype);
      StreamFailsOnlyShort(common.value.0, common.value.1);
      ControlFailsOnlyShort(common.value.0, common.value.1);
    }
    hide DecodeCommon, DecodeStream, DecodeControl, BytesToBits, SubtypeFromByte, SubtypeByte, StreamByte, ControlByte,
         AlternativeByte, HeaderTypeOf;
  }

  /**
   * Reading, for every input: complete stream and control PDUs give exactly their fields and leave
   * exactly what follows; anything else is an error, which the subtype octet determines.
   */
  lemma ReadsExactly(data: bytes)
    ensures data == [] ==> Read(data) == Err(Io)
    ensures data != [] ==>
              var b := data[0];
              if StreamByte(b) then
                if CompleteStream(data) then
                  && SubtypeFromByte(b).Ok?
                  && Read(data) == Ok((Stream(StreamFrom(data)), data[24 + StreamPayload(data)..]))
                else Read(data) == Err(Io)
              else if ControlByte(b) then
                if CompleteControl(data) then
                  && SubtypeFromByte(b).Ok?
                  && Read(data) == Ok((Control(ControlFrom(data)), data[12 + LengthIn(data[2], data[3])..]))
                else Read(data) == Err(Io)
              else if AlternativeByte(b) then
                && SubtypeFromByte(b).Ok?
                && Read(data) == Err(if |data| >= 2 then Unsupported(SubtypeFromByte(b).value) else Io)
              else Read(data) == Err(UnknownSubtype(b))
  {
    if data == [] {
      NothingToRead();
    } else {
      DefinedBytes(data[0]);
      FamiliesApart(data[0]);
      hide Read, StreamByte, ControlByte, AlternativeByte, SubtypeFromByte, CompleteStream, CompleteControl, StreamFrom,
           ControlFrom;
      if Read(data).Ok? {
        ReadFront(data);
      } else {
        ReadErrors(data);
      }
      if StreamByte(data[0]) && CompleteStream(data) {
        ReadsStream(data);
      }
      if ControlByte(data[0]) && CompleteControl(data) {
        ReadsControl(data);
      }
    }
  }

  lemma FamiliesApart(b: u8)
    ensures !(StreamByte(b) && ControlByte(b)) && !(StreamByte(b) && AlternativeByte(b))
    ensures !(ControlByte(b) && AlternativeByte(b))
  {
  }

  lemma NothingToRead()
    ensures Read([]) == Err(Io)
  {
    ShortField([], 8);
    assert BytesToBits([]) == [];
  }
}
