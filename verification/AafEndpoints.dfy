/** The mutable talker and listener objects (src/avtp/formats/aaf/stream.rs). */
module AafEndpoints {
  import opened Basics
  import opened PtpTimes
  import opened Timestamps
  import opened Clocks
  import opened SynchronizedClocks
  import opened Headers
  import opened Aafs
  import opened AafCodecs
  import opened AafStreams

  class AafPcmTalker {
    const streamId: StreamID
    const format: PcmFormat
    const sampleRate: SampleRate
    const channels: u10
    const bitDepth: u8
    var sequenceNum: u8
    const ptpClock: SynchronizedClock
    const playbackDelayNs: u32

    ghost function State(): TalkerState
      reads this, ptpClock
    {
      TalkerState(streamId, format, sampleRate, channels, bitDepth, sequenceNum, ptpClock.State(), playbackDelayNs)
    }

    constructor (id: StreamID, format: PcmFormat, rate: SampleRate, channels: u10, bitDepth: u8,
                 clock: SynchronizedClock, delayMs: u32)
      requires channels > 0 && bitDepth > 0
      ensures ptpClock == clock
      ensures NewTalker(id, format, rate, channels, bitDepth, clock.State(), delayMs) == Ok(State())
    {
      this.streamId, this.format, this.sampleRate, this.channels, this.bitDepth := id, format, rate, channels, bitDepth;
      sequenceNum, ptpClock, playbackDelayNs := 0, clock, DelayNs(delayMs);
    }

    /** `AafPcmTalker::new`: the two configuration errors come before construction. */
    static method New(id: StreamID, format: PcmFormat, rate: SampleRate, channels: u10, bitDepth: u8,
                      clock: SynchronizedClock, delayMs: u32)
      returns (r: Result<AafPcmTalker, ConfigError>)
      ensures match NewTalker(id, format, rate, channels, bitDepth, clock.State(), delayMs)
              case Ok(s) => r.Ok? && fresh(r.value) && r.value.ptpClock == clock && r.value.State() == s
              case Err(e) => r == Err(e)
    {
      if bitDepth == 0 {
        return Err(ConfigBitDepthZero);
      }
      if channels == 0 {
        return Err(ConfigChannelsZero);
      }
      var talker := new AafPcmTalker(id, format, rate, channels, bitDepth, clock, delayMs);
      r := Ok(talker);
    }

    method BuildPacket(now: Instant, reading: Option<PtpTime>, payload: bytes)
      returns (r: Result<Avtpdu, TalkerError>)
      modifies this, ptpClock
      ensures (State(), r) == AafStreams.BuildPacket(old(State()), now, reading, payload)
    {
      hide SynchronizedTime, NewPcm, AafIntoStream, FromPtpTime;
      ghost var s := State();
      var time := ptpClock.PtpTimeNow(now, reading);
      if time.Err? {
        return Err(TalkerClock(time.error));
      }
      var timestamp := WrappingAdd(FromPtpTime(time.value), playbackDelayNs);
      var pcm := NewPcm(sampleRate, channels, format, bitDepth, payload);
      if pcm.Err? {
        return Err(TalkerPcm(pcm.error));
      }
      NewPcmAcceptsValid(sampleRate, channels, format, bitDepth, payload);
      var common := CommonHeader(AAF, true, 0);
      var generic := GenericStreamData(common, false, true, sequenceNum, false, streamId, timestamp);
      var aaf := NewAaf(generic, Pcm(pcm.value), false, 0).value;
      var header := IntoStream(aaf);
      sequenceNum := NextSeq(sequenceNum);
      assert header == PacketOf(s, time.value, pcm.value);
      r := Ok(Stream(header));
    }
  }

  class AafPcmListener {
    const filter: StreamFilter
    var expectedSeq: Option<u8>

    constructor (streamId: Option<StreamID>)
      ensures expectedSeq == None
      ensures filter == if streamId.Some? then Exact(streamId.value) else Any
    {
      filter := if streamId.Some? then Exact(streamId.value) else Any;
      expectedSeq := None;
    }

    constructor WithMacFilter(mac: MacAddress)
      ensures expectedSeq == None && filter == MacOnly(mac)
    {
      filter, expectedSeq := MacOnly(mac), None;
    }

    method Process(pdu: Avtpdu) returns (r: Result<Option<ReceivedPcm>, InvalidAaf>)
      modifies this
      ensures (expectedSeq, r) == AafStreams.Process(filter, old(expectedSeq), pdu)
    {
      hide AafFromStream, NextSeq, SeqGap;
      if !pdu.Stream? {
        return Ok(None);
      }
      var parsed := FromStream(pdu.stream);
      if parsed.Err? {
        return Err(parsed.error);
      }
      var aaf := parsed.value;
      if !Matches(filter, aaf.streamData.streamId) {
        return Ok(None);
      }
      if !aaf.formatData.Pcm? {
        return Ok(None);
      }
      var seqNum := aaf.streamData.sequenceNum;
      var packetsLost: u32 := 0;
      match expectedSeq {
        case None =>
          expectedSeq := Some(NextSeq(seqNum));
        case Some(expected) =>
          packetsLost := SeqGap(seqNum, expected);
          expectedSeq := Some(NextSeq(seqNum));
      }
      r := Ok(Some(ReceivedFrom(aaf, packetsLost)));
    }
  }
}
