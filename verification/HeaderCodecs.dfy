/**
 * The field-by-field encoders and decoders over a mutable bit stream (src/avtp/headers/,
 * src/avtp/avtpdu.rs), proved to produce and to consume exactly the layouts of `Headers`.
 */
module HeaderCodecs {
  import opened Basics
  import opened BitStreams
  import opened Headers
  import opened HeaderLaws
  import Avtpdus

  // ----- Encoders -----

  method EncodeCommon(h: CommonHeader, w: BitWriter)
    requires w.Valid()
    modifies w
    ensures w.Valid()
    ensures forall rest: bits :: Then(old(w.Contents()), CommonBits(h, rest)) == Then(w.Contents(), rest)
  {
    hide Put, BitsOf, Then, w.Contents;
    WidthLimits();
    w.Write(SubtypeByte(h.subtype), 8);
    w.Write(Bit(h.specificBit), 1);
    w.Write(h.version, 3);
  }

  method EncodeStreamId(id: StreamID, w: BitWriter)
    requires w.Valid()
    modifies w
    ensures w.Valid()
    ensures forall rest: bits :: Then(old(w.Contents()), StreamIdBits(id, rest)) == Then(w.Contents(), rest)
  {
    hide Put, PutBytes, BitsOf, Then, w.Contents;
    WidthLimits();
    w.WriteBytes(id.mac);
    w.Write(id.uniqueId, 16);
  }

  method EncodeValidity(h: StreamHeader, w: BitWriter)
    requires w.Valid()
    modifies w
    ensures w.Valid()
    ensures forall rest: bits :: Then(old(w.Contents()), ValidityBits(h, rest)) == Then(w.Contents(), rest)
  {
    WidthLimits();
    hide Put, BitsOf, Then, w.Contents, Pow2;
    w.Write(Bit(h.generic.mediaClockRestart), 1);
    w.Write(h.specific.formatData, 2);
    w.Write(Bit(h.generic.timestampValid), 1);
  }

  method EncodeSequence(h: StreamHeader, w: BitWriter)
    requires w.Valid()
    modifies w
    ensures w.Valid()
    ensures forall rest: bits :: Then(old(w.Contents()), SequenceBits(h, rest)) == Then(w.Contents(), rest)
  {
    WidthLimits();
    hide Put, BitsOf, Then, w.Contents, Pow2;
    w.Write(h.generic.sequenceNum, 8);
    w.Write(h.specific.formatData1, 7);
    w.Write(Bit(h.generic.timestampUncertain), 1);
  }

  /** The length field is checked before it is written; the writer then holds a partial header. */
  method EncodeStream(h: StreamHeader, w: BitWriter) returns (r: Result<(), WriteError>)
    requires w.Valid()
    modifies w
    ensures w.Valid()
    ensures r == if ValidSpecific(h.specific) then Ok(()) else Err(PayloadTooLarge(|h.specific.payload|))
    ensures r.Ok? ==> forall rest: bits :: Then(old(w.Contents()), StreamBits(h, rest)) == Then(w.Contents(), rest)
  {
    hide Put, PutBytes, BitsOf, Then, w.Contents, CommonBits, ValidityBits, SequenceBits, StreamIdBits;
    WidthLimits();
    EncodeCommon(h.generic.common, w);
    EncodeValidity(h, w);
    EncodeSequence(h, w);
    EncodeStreamId(h.generic.streamId, w);
    w.Write(h.generic.timestamp, 32);
    w.WriteBytes(h.specific.formatData2);
    if |h.specific.payload| > U16_MAX {
      return Err(PayloadTooLarge(|h.specific.payload|));
    }
    w.Write(|h.specific.payload|, 16);
    w.WriteBytes(h.specific.formatData3);
    w.WriteBytes(h.specific.payload);
    r := Ok(());
  }

  method EncodeControl(h: ControlHeader, w: BitWriter)
    requires w.Valid()
    modifies w
    ensures w.Valid()
    ensures forall rest: bits :: Then(old(w.Contents()), ControlBits(h, rest)) == Then(w.Contents(), rest)
  {
    hide Put, PutBytes, BitsOf, Then, w.Contents, CommonBits, StreamIdBits;
    WidthLimits();
    EncodeCommon(h.common, w);
    w.Write(h.formatData, 9);
    w.Write(h.dataLength, 11);
    EncodeStreamId(h.streamId, w);
    w.WriteBytes(h.payload);
  }

  method EncodeAlternative(h: AlternativeHeader, w: BitWriter)
    requires w.Valid()
    modifies w
    ensures w.Valid()
    ensures forall rest: bits :: Then(old(w.Contents()), AlternativeBits(h, rest)) == Then(w.Contents(), rest)
  {
    hide Put, PutBytes, BitsOf, Then, w.Contents, CommonBits;
    WidthLimits();
    EncodeCommon(h.common, w);
    if h.payload == [] {
      w.Write(0, 4);
    } else {
      var last := |h.payload| - 1;
      w.WriteBytes(h.payload[..last]);
      w.Write(h.payload[last] / 16, 4);
    }
  }

  /** `Avtpdu::write` into a growing buffer. */
  method WritePdu(p: Avtpdu) returns (r: Result<bytes, WriteError>)
    ensures r == Avtpdus.Write(p)
  {
    var valid := Avtpdus.ValidateSubtype(p);
    if valid.Err? {
      return Err(valid.error);
    }
    var w := new BitWriter();
    ghost var none: bits := [];
    match p {
      case Stream(h) =>
        var encoded := EncodeStream(h, w);
        if encoded.Err? {
          return Err(encoded.error);
        }
      case Control(h) =>
        EncodeControl(h, w);
      case Alternative(h) =>
        EncodeAlternative(h, w);
    }
    assert Then(none, PduBits(p, none)) == Then(w.Contents(), none);
    FlushedWriter(p, w);
    r := Ok(w.emitted);
  }

  /** After a whole PDU the writer is byte aligned and its buffer is the encoding. */
  lemma FlushedWriter(p: Avtpdu, w: BitWriter)
    requires w.Valid() && Encodable(p) && SubtypeMatches(p)
    requires [] + PduBits(p, []) == w.Contents() + []
    ensures w.ByteAligned() && Avtpdus.Write(p) == Ok(w.emitted)
  {
    hide PduBits, BitsToBytes, w.Contents;
    EncodeAppend(p, []);
    FlushedBuffer(w, PduBits(p, []));
  }

  // ----- Decoders -----

  /** The value of one field, with the reader's end of input as an I/O error. */
  method ReadField(reader: BitReader, width: nat) returns (r: Result<nat, DecodeError>)
    requires reader.Valid()
    modifies reader
    ensures reader.Valid()
    ensures Reads(Field(old(reader.Remaining()), width), r, reader.Remaining())
  {
    var v := reader.Read(width);
    r := if v.Ok? then Ok(v.value) else Err(Io);
  }

  method ReadFieldBytes(reader: BitReader, n: nat) returns (r: Result<bytes, DecodeError>)
    requires reader.Valid()
    modifies reader
    ensures reader.Valid()
    ensures Reads(FieldBytes(old(reader.Remaining()), n), r, reader.Remaining())
  {
    var v := reader.ReadBytes(n);
    r := if v.Ok? then Ok(v.value) else Err(Io);
  }

  /** A reading method agrees with a decoding function: same outcome, same remaining stream. */
  ghost predicate Reads<T(!new)>(expected: Result<(T, bits), DecodeError>, got: Result<T, DecodeError>, left: bits) {
    match expected
    case Ok(x) => got == Ok(x.0) && left == x.1
    case Err(e) => got == Err(e)
  }

  method ReadCommon(reader: BitReader) returns (r: Result<CommonHeader, DecodeError>)
    requires reader.Valid()
    modifies reader
    ensures reader.Valid()
    ensures Reads(DecodeCommon(old(reader.Remaining())), r, reader.Remaining())
  {
    hide Field, reader.Remaining;
    WidthLimits();
    var raw :- ReadField(reader, 8);
    var subtype := SubtypeFromByte(raw);
    if subtype.Err? {
      return Err(subtype.error);
    }
    var bit :- ReadField(reader, 1);
    var version :- ReadField(reader, 3);
    r := Ok(CommonHeader(subtype.value, bit == 1, version));
  }

  method ReadStreamId(reader: BitReader) returns (r: Result<StreamID, DecodeError>)
    requires reader.Valid()
    modifies reader
    ensures reader.Valid()
    ensures Reads(DecodeStreamId(old(reader.Remaining())), r, reader.Remaining())
  {
    hide Field, FieldBytes, reader.Remaining;
    WidthLimits();
    var mac :- ReadFieldBytes(reader, 6);
    var uid :- ReadField(reader, 16);
    r := Ok(StreamID(mac, uid));
  }

  method ReadStream(common: CommonHeader, reader: BitReader) returns (r: Result<StreamHeader, DecodeError>)
    requires reader.Valid()
    modifies reader
    ensures reader.Valid()
    ensures Reads(DecodeStream(common, old(reader.Remaining())), r, reader.Remaining())
  {
    WidthLimits();
    hide Field, FieldBytes, DecodeStreamId, reader.Remaining, Pow2;
    var mr :- ReadField(reader, 1);
    var fsd :- ReadField(reader, 2);
    var tv :- ReadField(reader, 1);
    var seqNum :- ReadField(reader, 8);
    var fsd1 :- ReadField(reader, 7);
    var tu :- ReadField(reader, 1);
    var id :- ReadStreamId(reader);
    var ts :- ReadField(reader, 32);
    var fsd2 :- ReadFieldBytes(reader, 4);
    var length :- ReadField(reader, 16);
    var fsd3 :- ReadFieldBytes(reader, 2);
    var payload :- ReadFieldBytes(reader, length);
    r := Ok(StreamHeader(GenericStreamData(common, mr == 1, tv == 1, seqNum, tu == 1, id, ts),
                         SpecificStreamData(fsd, fsd1, fsd2, fsd3, payload)));
  }

  method ReadControl(common: CommonHeader, reader: BitReader) returns (r: Result<ControlHeader, DecodeError>)
    requires reader.Valid()
    modifies reader
    ensures reader.Valid()
    ensures Reads(DecodeControl(common, old(reader.Remaining())), r, reader.Remaining())
  {
    WidthLimits();
    hide Field, FieldBytes, DecodeStreamId, reader.Remaining, Pow2;
    var fsd :- ReadField(reader, 9);
    var length :- ReadField(reader, 11);
    var id :- ReadStreamId(reader);
    var payload :- ReadFieldBytes(reader, length);
    r := Ok(ControlHeader(common, fsd, length, id, payload));
  }

  /** `Avtpdu::read`: the PDU, and the input bytes the reader has not consumed. */
  method ReadPdu(data: bytes) returns (r: Result<(Avtpdu, bytes), DecodeError>)
    ensures r == Avtpdus.Read(data)
  {
    hide DecodeCommon, DecodeStream, DecodeControl;
    var reader := new BitReader(data);
    ghost var all := reader.Remaining();
    var common :- ReadCommon(reader);
    match HeaderTypeOf(common.subtype) {
      case StreamType =>
        var h :- ReadStream(common, reader);
        UnreadInput(data, Stream(h), reader);
        r := Ok((Stream(h), reader.input));
      case ControlType =>
        var h :- ReadControl(common, reader);
        UnreadInput(data, Control(h), reader);
        r := Ok((Control(h), reader.input));
      case AlternativeType =>
        r := Err(Unsupported(common.subtype));
    }
  }

  /** After a whole PDU the reader is byte aligned, so its unread input is the rest of the data. */
  lemma UnreadInput(data: bytes, p: Avtpdu, reader: BitReader)
    requires reader.Valid()
    requires DecodePdu(BytesToBits(data)) == Ok((p, reader.Remaining()))
    ensures reader.ByteAligned()
    ensures Avtpdus.Read(data) == Ok((p, reader.input))
  {
    hide *;
    var b, rest := BytesToBits(data), reader.Remaining();
    Avtpdus.DecodeStaysAligned(b);
    ReaderParts(reader);
    var k := |data| - |reader.input|;
    assert reader.queued == 0;
    assert rest == b[8 * k..];
    Avtpdus.BytesToBitsSuffix(data, k);
    Avtpdus.BytesToBitsInjective(reader.input, data[k..]);
    Avtpdus.ReadIs(data, p, rest);
    UnreadIs(data, rest, k);
  }

  lemma UnreadIs(data: bytes, rest: bits, k: nat)
    requires k <= |data| && |rest| == 8 * (|data| - k)
    ensures Avtpdus.Unread(data, rest) == data[k..]
  {
  }

  lemma ReaderParts(reader: BitReader)
    requires reader.Valid()
    ensures reader.queued < 8 && |reader.Remaining()| == reader.queued + 8 * |reader.input|
    ensures reader.queued == 0 ==> reader.ByteAligned() && reader.Remaining() == BytesToBits(reader.input)
  {
    hide Pow2;
  }
}
