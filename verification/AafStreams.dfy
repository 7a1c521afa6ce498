/** The AAF PCM talker and listener as state machines (src/avtp/formats/aaf/stream.rs, src/avtp/stream.rs). */
module AafStreams {
  import opened Basics
  import opened PtpTimes
  import opened Timestamps
  import opened Clocks
  import opened Headers
  import opened Aafs
  import opened AafLaws

  /** The presentation time of a packet on the wrapping 32-bit timeline. */
  function Stamp(time: PtpTime, delay: u32): AvtpTimestamp {
    (AsNanos(time) + delay) % TWO_32
  }

  // ----- Talker -----

  datatype ConfigError = ConfigBitDepthZero | ConfigChannelsZero

  datatype TalkerError = TalkerPcm(pcm: InvalidPcm) | TalkerClock(clock: ClockError)

  datatype TalkerState = TalkerState(
    streamId: StreamID,
    format: PcmFormat,
    rate: SampleRate,
    channels: u10,
    bitDepth: u8,
    sequenceNum: u8,
    clock: ClockState,
    delay: u32)

  /** The delay in nanoseconds wraps at 32 bits, as the multiplication does in a release build. */
  function DelayNs(delayMs: u32): u32 {
    (delayMs * 1_000_000) % TWO_32
  }

  function NewTalker(id: StreamID, format: PcmFormat, rate: SampleRate, channels: u10, bitDepth: u8,
                     clock: ClockState, delayMs: u32): Result<TalkerState, ConfigError>
  {
    if bitDepth == 0 then Err(ConfigBitDepthZero)
    else if channels == 0 then Err(ConfigChannelsZero)
    else Ok(TalkerState(id, format, rate, channels, bitDepth, 0, clock, DelayNs(delayMs)))
  }

  function TalkerHeader(s: TalkerState, time: PtpTime): GenericStreamData {
    GenericStreamData(CommonHeader(AAF, true, 0), false, true, s.sequenceNum, false, s.streamId,
                      WrappingAdd(FromPtpTime(time), s.delay))
  }

  /** Both `expect`s on this path are met: the result is a stream header outright. */
  function PacketOf(s: TalkerState, time: PtpTime, pcm: AafPcm): StreamHeader
    requires ValidPcm(pcm)
  {
    var aaf := NewAaf(TalkerHeader(s, time), Pcm(pcm), false, 0).value;
    IntoStreamNeverPanics(aaf);
    AafIntoStream(aaf).value
  }

  function PcmOf(s: TalkerState, payload: bytes): Result<AafPcm, InvalidPcm> {
    NewPcm(s.rate, s.channels, s.format, s.bitDepth, payload)
  }

  function BuildPacket(s: TalkerState, now: Instant, reading: Option<PtpTime>, payload: bytes)
    : (TalkerState, Result<Avtpdu, TalkerError>)
  {
    var (clock, time) := SynchronizedTime(s.clock, now, reading);
    match time
    case Err(e) => (s.(clock := clock), Err(TalkerClock(e)))
    case Ok(t) =>
      match PcmOf(s, payload)
      case Err(e) => (s.(clock := clock), Err(TalkerPcm(e)))
      case Ok(pcm) =>
        NewPcmAcceptsValid(s.rate, s.channels, s.format, s.bitDepth, payload);
        (s.(clock := clock, sequenceNum := NextSeq(s.sequenceNum)), Ok(Stream(PacketOf(s, t, pcm))))
  }

  /** `u8::wrapping_add(1)`. */
  function NextSeq(n: u8): u8 {
    (n + 1) % 256
  }

  /** `u8::wrapping_sub`: how many numbers lie between the expected one and the one received. */
  function SeqGap(received: u8, expected: u8): u8 {
    (received - expected) % 256
  }

  // ----- Listener -----

  datatype StreamFilter = Any | MacOnly(mac: MacAddress) | Exact(id: StreamID)

  function Matches(filter: StreamFilter, id: StreamID): bool {
    match filter
    case Any => true
    case MacOnly(mac) => id.mac == mac
    case Exact(wanted) => id == wanted
  }

  datatype ReceivedPcm = ReceivedPcm(
    timestamp: AvtpTimestamp,
    seqNum: u8,
    payload: bytes,
    rate: SampleRate,
    channels: u10,
    bitDepth: u8,
    format: PcmFormat,
    packetsLost: u32)

  function ReceivedFrom(aaf: Aaf, lost: u32): ReceivedPcm
    requires aaf.formatData.Pcm?
  {
    var p := aaf.formatData.pcm;
    ReceivedPcm(aaf.streamData.timestamp, aaf.streamData.sequenceNum, p.payload, p.rate, p.channels,
                p.bitDepth, p.format, lost)
  }

  function LostBefore(expected: Option<u8>, seqNum: u8): u32 {
    if expected.None? then 0 else SeqGap(seqNum, expected.value)
  }

  /** The listener's only state is the sequence number it expects next. */
  function Process(filter: StreamFilter, expected: Option<u8>, pdu: Avtpdu)
    : (Option<u8>, Result<Option<ReceivedPcm>, InvalidAaf>)
  {
    if !pdu.Stream? then (expected, Ok(None))
    else match AafFromStream(pdu.stream)
         case Err(e) => (expected, Err(e))
         case Ok(aaf) =>
           if !Matches(filter, aaf.streamData.streamId) then (expected, Ok(None))
           else if !aaf.formatData.Pcm? then (expected, Ok(None))
           else
             var seqNum := aaf.streamData.sequenceNum;
             (Some(NextSeq(seqNum)), Ok(Some(ReceivedFrom(aaf, LostBefore(expected, seqNum)))))
  }
}
