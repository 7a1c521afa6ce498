/**
 * The AVTP Audio Format, IEEE Std 1722-2016 section 7: a second packing layer inside the
 * format-specific bytes of a stream header (src/avtp/formats/aaf/common.rs, pcm.rs, aes3.rs).
 */
module Aafs {
  import opened Basics
  import opened BitStreams
  import opened Headers

  type Bytes3 = s: seq<u8> | |s| == 3 witness [0, 0, 0]

  datatype AafFormat = User | Float32Bit | Int32Bit | Int24Bit | Int16Bit | AES3_32Bit

  /** The formats interpreted as raw PCM samples. */
  type PcmFormat = f: AafFormat | f != AES3_32Bit witness User

  function FormatCode(f: AafFormat): u8 {
    match f
    case User => 0
    case Float32Bit => 1
    case Int32Bit => 2
    case Int24Bit => 3
    case Int16Bit => 4
    case AES3_32Bit => 5
  }

  function FormatFromCode(code: u8): Result<AafFormat, InvalidAaf> {
    if code == 0 then Ok(User)
    else if code == 1 then Ok(Float32Bit)
    else if code == 2 then Ok(Int32Bit)
    else if code == 3 then Ok(Int24Bit)
    else if code == 4 then Ok(Int16Bit)
    else if code == 5 then Ok(AES3_32Bit)
    else Err(FormatReserved(code))
  }

  function WordSize(f: PcmFormat): Option<nat> {
    match f
    case User => None
    case Float32Bit | Int32Bit => Some(32)
    case Int24Bit => Some(24)
    case Int16Bit => Some(16)
  }

  datatype SampleRate =
    | UserSpecified | KHz8 | KHz16 | KHz32 | KHz44_1 | KHz48 | KHz88_2 | KHz96 | KHz176_4 | KHz192 | KHz24

  function RateCode(r: SampleRate): u4 {
    match r
    case UserSpecified => 0
    case KHz8 => 1
    case KHz16 => 2
    case KHz32 => 3
    case KHz44_1 => 4
    case KHz48 => 5
    case KHz88_2 => 6
    case KHz96 => 7
    case KHz176_4 => 8
    case KHz192 => 9
    case KHz24 => 10
  }

  function RateFromCode(code: u4): Result<SampleRate, InvalidPcm> {
    if code == 0 then Ok(UserSpecified)
    else if code == 1 then Ok(KHz8)
    else if code == 2 then Ok(KHz16)
    else if code == 3 then Ok(KHz32)
    else if code == 4 then Ok(KHz44_1)
    else if code == 5 then Ok(KHz48)
    else if code == 6 then Ok(KHz88_2)
    else if code == 7 then Ok(KHz96)
    else if code == 8 then Ok(KHz176_4)
    else if code == 9 then Ok(KHz192)
    else if code == 10 then Ok(KHz24)
    else Err(SampleRateReserved(code))
  }

  datatype InvalidPcm =
    | SampleRateReserved(code: u4)
    | BitDepthInvalid(depth: u8, format: AafFormat)
    | BitDepthZero
    | ChannelsPerFrameZero
    | PayloadSizeInvalid(size: nat, frameSize: nat)
    | PcmPayloadTooLarge(size: nat)

  datatype InvalidAaf =
    | InvalidSubtype(subtype: Subtype)
    | StreamIdInvalid
    | UnsupportedVersion(version: u3)
    | FormatReserved(code: u8)
    | PcmError(error: InvalidPcm)

  datatype AafPcm = AafPcm(rate: SampleRate, channels: u10, format: PcmFormat, bitDepth: u8, payload: bytes)

  datatype AafSpecific = AafSpecific(format: AafFormat, data1: Bytes3, asfd: u3, data2: u8, payload: bytes)

  datatype AafVariant = Pcm(pcm: AafPcm) | Aes3(specific: AafSpecific)

  datatype Aaf = Aaf(streamData: GenericStreamData, formatData: AafVariant, sparseTimestamp: bool, eventFlags: u4)

  // ----- PCM validation -----

  function ValidatedBitDepth(depth: u8, format: PcmFormat): Result<u8, InvalidPcm> {
    if depth == 0 then Err(BitDepthZero)
    else if format == Float32Bit && depth != 32 then Err(BitDepthInvalid(depth, format))
    else if WordSize(format).Some? && depth > WordSize(format).value then Err(BitDepthInvalid(depth, format))
    else Ok(depth)
  }

  function FrameSize(format: PcmFormat, channels: u10): nat
    requires WordSize(format).Some?
  {
    (WordSize(format).value / 8) * channels
  }

  function ValidatePayloadSize(format: PcmFormat, size: nat, channels: u10): Result<(), InvalidPcm>
    requires channels > 0
  {
    if size > U16_MAX then Err(PcmPayloadTooLarge(size))
    else if WordSize(format).None? then Ok(())
    else
      FrameSizePositive(format, channels);
      if size % FrameSize(format, channels) != 0 then Err(PayloadSizeInvalid(size, FrameSize(format, channels)))
      else Ok(())
  }

  lemma FrameSizePositive(format: PcmFormat, channels: u10)
    requires WordSize(format).Some? && channels > 0
    ensures FrameSize(format, channels) > 0
  {
    var w := WordSize(format).value / 8;
    assert w >= 2;
    assert w * channels >= channels;
  }

  function NewPcm(rate: SampleRate, channels: u10, format: PcmFormat, depth: u8, payload: bytes)
    : Result<AafPcm, InvalidPcm>
  {
    var valid :- ValidatedBitDepth(depth, format);
    if channels == 0 then Err(ChannelsPerFrameZero)
    else
      var _ :- ValidatePayloadSize(format, |payload|, channels);
      Ok(AafPcm(rate, channels, format, valid, payload))
  }

  /** What every constructed PCM value satisfies. */
  predicate ValidPcm(p: AafPcm) {
    && p.channels > 0
    && p.bitDepth > 0
    && (p.format == Float32Bit ==> p.bitDepth == 32)
    && |p.payload| <= U16_MAX
    && (WordSize(p.format).Some? ==>
          && p.bitDepth <= WordSize(p.format).value
          && FrameSize(p.format, p.channels) > 0
          && |p.payload| % FrameSize(p.format, p.channels) == 0)
  }

  /** `AafPcm::new` accepts exactly the arguments that make a valid value, unchanged. */
  lemma NewPcmAcceptsValid(rate: SampleRate, channels: u10, format: PcmFormat, depth: u8, payload: bytes)
    ensures var p := AafPcm(rate, channels, format, depth, payload);
            && (NewPcm(rate, channels, format, depth, payload).Ok? <==> ValidPcm(p))
            && (ValidPcm(p) ==> NewPcm(rate, channels, format, depth, payload) == Ok(p))
  {
    if channels > 0 && WordSize(format).Some? {
      FrameSizePositive(format, channels);
    }
  }

  /** `set_nominal_sample_rate` touches no constrained field. */
  lemma SetRateKeepsValid(p: AafPcm, rate: SampleRate)
    requires ValidPcm(p)
    ensures ValidPcm(p.(rate := rate))
  {
  }

  /** `None` when the format has no fixed word. */
  function SampleCount(p: AafPcm): Option<nat>
    requires ValidPcm(p)
  {
    if WordSize(p.format).None? then None else Some(|p.payload| / FrameSize(p.format, p.channels))
  }

  /** The payload is exactly its samples: no partial frame, none left over. */
  lemma SampleCountExact(p: AafPcm)
    requires ValidPcm(p)
    ensures SampleCount(p).None? <==> p.format == User
    ensures SampleCount(p).Some? ==> |p.payload| == SampleCount(p).value * FrameSize(p.format, p.channels)
  {
    if WordSize(p.format).Some? {
      hide FrameSize;
      var frame := FrameSize(p.format, p.channels);
      assert |p.payload| == |p.payload| / frame * frame + |p.payload| % frame;
    }
  }

  // ----- Packing -----

  datatype PcmFields = PcmFields(nsr: u4, channels: u10, depth: u8)

  function PcmFieldBits(f: PcmFields, reserved: u2): bits {
    Put(f.nsr, 4, Put(reserved, 2, Put(f.channels, 10, Put(f.depth, 8, []))))
  }

  function PackPcm(f: PcmFields): Bytes3 {
    BitsToBytes(PcmFieldBits(f, 0))
  }

  /** Reads 4, 2 (dropped), 10 and 8 bits; a three-byte buffer cannot run out. */
  function UnpackPcm(d: Bytes3): (PcmFields, u2) {
    WidthLimits();
    var (nsr, b1) := Field(BytesToBits(d), 4).value;
    var (reserved, b2) := Field(b1, 2).value;
    var (channels, b3) := Field(b2, 10).value;
    var (depth, b4) := Field(b3, 8).value;
    (PcmFields(nsr, channels, depth), reserved)
  }

  datatype TailFields = TailFields(asfd: u3, sparse: bool, eventFlags: u4, data2: u8)

  function TailBits(f: TailFields): bits {
    Put(f.asfd, 3, Put(Bit(f.sparse), 1, Put(f.eventFlags, 4, Put(f.data2, 8, []))))
  }

  function PackTail(f: TailFields): Bytes2 {
    BitsToBytes(TailBits(f))
  }

  function UnpackTail(d: Bytes2): TailFields {
    WidthLimits();
    var (asfd, b1) := Field(BytesToBits(d), 3).value;
    var (sparse, b2) := Field(b1, 1).value;
    var (evt, b3) := Field(b2, 4).value;
    var (data2, b4) := Field(b3, 8).value;
    TailFields(asfd, sparse == 1, evt, data2)
  }

  // ----- Conversions -----

  function PcmFromSpecific(d: AafSpecific): Result<AafPcm, InvalidPcm>
    requires d.format != AES3_32Bit
  {
    var fields := UnpackPcm(d.data1).0;
    var rate :- RateFromCode(fields.nsr);
    var depth :- ValidatedBitDepth(fields.depth, d.format);
    if fields.channels == 0 then Err(ChannelsPerFrameZero)
    else
      var _ :- ValidatePayloadSize(d.format, |d.payload|, fields.channels);
      Ok(AafPcm(rate, fields.channels, d.format, depth, d.payload))
  }

  function PcmIntoSpecific(p: AafPcm): AafSpecific {
    AafSpecific(p.format, PackPcm(PcmFields(RateCode(p.rate), p.channels, p.bitDepth)), 0, 0, p.payload)
  }

  function VariantFromSpecific(d: AafSpecific): Result<AafVariant, InvalidAaf> {
    if d.format == AES3_32Bit then Ok(Aes3(d))
    else match PcmFromSpecific(d)
         case Ok(p) => Ok(Pcm(p))
         case Err(e) => Err(PcmError(e))
  }

  function VariantIntoSpecific(v: AafVariant): AafSpecific {
    match v
    case Pcm(p) => PcmIntoSpecific(p)
    case Aes3(d) => d
  }

  function ValidateStreamData(g: GenericStreamData): Result<(), InvalidAaf> {
    if g.common.subtype != AAF then Err(InvalidSubtype(g.common.subtype))
    else if !g.common.specificBit then Err(StreamIdInvalid)
    else if g.common.version != 0 then Err(UnsupportedVersion(g.common.version))
    else Ok(())
  }

  function NewAaf(g: GenericStreamData, v: AafVariant, sparse: bool, evt: u4): Result<Aaf, InvalidAaf> {
    var _ :- ValidateStreamData(g);
    Ok(Aaf(g, v, sparse, evt))
  }

  function SetStreamData(a: Aaf, g: GenericStreamData): Result<Aaf, InvalidAaf> {
    var _ :- ValidateStreamData(g);
    Ok(a.(streamData := g))
  }

  function SpecificOf(h: StreamHeader, format: AafFormat): AafSpecific {
    var d := h.specific.formatData2;
    var tail := UnpackTail(h.specific.formatData3);
    AafSpecific(format, [d[1], d[2], d[3]], tail.asfd, tail.data2, h.specific.payload)
  }

  function AafFromStream(h: StreamHeader): Result<Aaf, InvalidAaf> {
    var _ :- ValidateStreamData(h.generic);
    var format :- FormatFromCode(h.specific.formatData2[0]);
    var tail := UnpackTail(h.specific.formatData3);
    var v :- VariantFromSpecific(SpecificOf(h, format));
    Ok(Aaf(h.generic, v, tail.sparse, tail.eventFlags))
  }

  /** `None` is the `expect` on the payload size. */
  function AafIntoStream(a: Aaf): Option<StreamHeader> {
    var d := VariantIntoSpecific(a.formatData);
    var tail := PackTail(TailFields(d.asfd, a.sparseTimestamp, a.eventFlags, d.data2));
    match NewSpecific(0, 0, [FormatCode(d.format), d.data1[0], d.data1[1], d.data1[2]], tail, d.payload)
    case Ok(specific) => Some(StreamHeader(a.streamData, specific))
    case Err(_) => None
  }

  /** The values the public constructors and conversions can produce. */
  predicate ValidAaf(a: Aaf) {
    && ValidateStreamData(a.streamData).Ok?
    && match a.formatData
       case Pcm(p) => ValidPcm(p)
       case Aes3(d) => d.format == AES3_32Bit && |d.payload| <= U16_MAX
  }
}
