/**
 * Sending a WAV file over AAF: the talker configured from its header, which payloads it accepts, and
 * when the bytes survive (src/avtp/formats/aaf/pcm.rs, src/bin/avtp-integration-test.rs).
 */
module WavTransport {
  import opened Basics
  import opened Clocks
  import opened Headers
  import opened Aafs
  import opened AafStreams
  import opened PcmBytes
  import opened Wavs

  // ----- Formats and rates -----

  datatype UnsupportedEncoding =
    | UnsupportedBitDepth(bits: u16)
    | InvalidFloatBitDepth(bits: u16)
    | UnsupportedAudioFormat(format: AudioFormat)

  function FromWavHeader(h: WavHeader): Result<PcmFormat, UnsupportedEncoding> {
    match h.audioFormat
    case LinearPcm =>
      if h.bitsPerSample == 16 then Ok(Int16Bit)
      else if h.bitsPerSample == 24 then Ok(Int24Bit)
      else if h.bitsPerSample == 32 then Ok(Int32Bit)
      else Err(UnsupportedBitDepth(h.bitsPerSample))
    case IeeeFloat =>
      if h.bitsPerSample == 32 then Ok(Float32Bit) else Err(InvalidFloatBitDepth(h.bitsPerSample))
    case Other(_) => Err(UnsupportedAudioFormat(h.audioFormat))
  }

  function FromHz(hz: u32): Option<SampleRate> {
    if hz == 8_000 then Some(KHz8)
    else if hz == 16_000 then Some(KHz16)
    else if hz == 24_000 then Some(KHz24)
    else if hz == 32_000 then Some(KHz32)
    else if hz == 44_100 then Some(KHz44_1)
    else if hz == 48_000 then Some(KHz48)
    else if hz == 88_200 then Some(KHz88_2)
    else if hz == 96_000 then Some(KHz96)
    else if hz == 176_400 then Some(KHz176_4)
    else if hz == 192_000 then Some(KHz192)
    else None
  }

  function RateHz(r: SampleRate): Option<u32> {
    match r
    case UserSpecified => None
    case KHz8 => Some(8_000)
    case KHz16 => Some(16_000)
    case KHz32 => Some(32_000)
    case KHz44_1 => Some(44_100)
    case KHz48 => Some(48_000)
    case KHz88_2 => Some(88_200)
    case KHz96 => Some(96_000)
    case KHz176_4 => Some(176_400)
    case KHz192 => Some(192_000)
    case KHz24 => Some(24_000)
  }

  /** The two rate conversions are inverse, on every rate with a frequency and every known frequency. */
  lemma HzRoundTrip(r: SampleRate, hz: u32)
    ensures FromHz(hz) == Some(r) <==> RateHz(r) == Some(hz)
  {
  }

  /** An accepted header's sample word is its container, whatever the valid bits. */
  lemma ContainerIsWord(h: WavHeader)
    ensures FromWavHeader(h).Ok? ==>
              && WordSize(FromWavHeader(h).value) == Some(h.bitsPerSample)
              && (FromWavHeader(h).value == Float32Bit <==> h.audioFormat == IeeeFloat)
  {
  }

  /** Integer samples of 16, 24 and 32 bits and 32-bit floats have a format; the refusal names the other's fault. */
  lemma EncodingsExactly(h: WavHeader)
    ensures FromWavHeader(h).Ok?
      <==> || (h.audioFormat == LinearPcm && h.bitsPerSample in {16, 24, 32})
           || (h.audioFormat == IeeeFloat && h.bitsPerSample == 32)
    ensures FromWavHeader(h).Err? ==>
              FromWavHeader(h).error == if h.audioFormat == LinearPcm then UnsupportedBitDepth(h.bitsPerSample)
                                        else if h.audioFormat == IeeeFloat then InvalidFloatBitDepth(h.bitsPerSample)
                                        else UnsupportedAudioFormat(h.audioFormat)
  {
  }

  lemma RatesExactly(hz: u32)
    ensures FromHz(hz).Some?
      <==> hz in {8_000, 16_000, 24_000, 32_000, 44_100, 48_000, 88_200, 96_000, 176_400, 192_000}
    ensures FromHz(hz).Some? ==> RateHz(FromHz(hz).value) == Some(hz)
  {
  }

  // ----- Configuration -----

  /** `ChannelsPanic` is the panic of a 10-bit integer given more than 1023 channels. */
  datatype SetupError =
    | InvalidDepth(bits: u16)
    | BadEncoding(encoding: UnsupportedEncoding)
    | BadRate(hz: u32)
    | ChannelsPanic(channels: u16)
    | BadTalker(config: ConfigError)

  function Setup(h: WavHeader, id: StreamID, clock: ClockState, delayMs: u32): Result<TalkerState, SetupError> {
    if h.validBits > 255 then Err(InvalidDepth(h.validBits))
    else match FromWavHeader(h)
         case Err(e) => Err(BadEncoding(e))
         case Ok(format) =>
           match FromHz(h.sampleRate)
           case None => Err(BadRate(h.sampleRate))
           case Some(rate) =>
             if h.channels > 1023 then Err(ChannelsPanic(h.channels))
             else match NewTalker(id, format, rate, h.channels, h.validBits, clock, delayMs)
                  case Err(e) => Err(BadTalker(e))
                  case Ok(s) => Ok(s)
  }

  /** What a configured talker has taken from the header. */
  predicate ConfiguredBy(h: WavHeader, s: TalkerState) {
    && WordSize(s.format) == Some(h.bitsPerSample) && h.bitsPerSample in {16, 24, 32}
    && (s.format == Float32Bit <==> h.audioFormat == IeeeFloat)
    && RateHz(s.rate) == Some(h.sampleRate)
    && 0 < s.channels == h.channels
    && 0 < s.bitDepth == h.validBits
    && s.sequenceNum == 0
  }

  lemma SetupConfigures(h: WavHeader, id: StreamID, clock: ClockState, delayMs: u32)
    ensures var r := Setup(h, id, clock, delayMs);
            && (r.Ok? ==> ConfiguredBy(h, r.value) && r.value.streamId == id && r.value.clock == clock)
            && (r.Ok? <==>
                  && 0 < h.validBits <= 255 && 0 < h.channels <= 1023
                  && FromWavHeader(h).Ok? && FromHz(h.sampleRate).Some?)
  {
    if FromHz(h.sampleRate).Some? {
      HzRoundTrip(FromHz(h.sampleRate).value, h.sampleRate);
    }
    ContainerIsWord(h);
  }

  /** Each refusal, in the order in which they come. */
  lemma SetupRefuses(h: WavHeader, id: StreamID, clock: ClockState, delayMs: u32)
    ensures var r := Setup(h, id, clock, delayMs);
            if h.validBits > 255 then r == Err(InvalidDepth(h.validBits))
            else if FromWavHeader(h).Err? then r == Err(BadEncoding(FromWavHeader(h).error))
            else if FromHz(h.sampleRate).None? then r == Err(BadRate(h.sampleRate))
            else if h.channels > 1023 then r == Err(ChannelsPanic(h.channels))
            else if h.validBits == 0 then r == Err(BadTalker(ConfigBitDepthZero))
            else if h.channels == 0 then r == Err(BadTalker(ConfigChannelsZero))
            else r.Ok?
  {
    hide FromWavHeader, FromHz, DelayNs;
  }

  // ----- Which payloads are accepted -----

  /** The depth check every packet makes; configuration does not. */
  predicate DepthFits(h: WavHeader) {
    h.validBits <= h.bitsPerSample && (h.audioFormat == IeeeFloat ==> h.validBits == 32)
  }

  function Word(h: WavHeader): nat {
    h.bitsPerSample / 8
  }

  function Frame(h: WavHeader): nat {
    h.channels * Word(h)
  }

  /** Every packet of the file is accepted as a payload. */
  ghost predicate Sendable(h: WavHeader, s: TalkerState, pcmLe: bytes, size: nat)
    requires Word(h) > 0 && size > 0
  {
    forall c :: c in Chunks(pcmLe, size) ==> PcmOf(s, Swapped(c, Word(h))).Ok?
  }

  lemma PayloadAccepted(h: WavHeader, s: TalkerState, payload: bytes)
    requires ConfiguredBy(h, s) && Frame(h) > 0
    ensures PcmOf(s, payload).Ok? <==> DepthFits(h) && |payload| <= U16_MAX && |payload| % Frame(h) == 0
  {
    NewPcmAcceptsValid(s.rate, s.channels, s.format, s.bitDepth, payload);
    assert FrameSize(s.format, s.channels) == Frame(h);
  }

  lemma FramePositive(h: WavHeader, s: TalkerState)
    requires ConfiguredBy(h, s)
    ensures Word(h) >= 2 && Frame(h) > 0
  {
    assert h.channels * Word(h) >= Word(h);
  }

  lemma FirstChunk(s: bytes, size: nat)
    requires s != [] && size > 0
    ensures Chunks(s, size) != [] && |Chunks(s, size)[0]| == if |s| <= size then |s| else size
  {
  }

  /** Some chunk, the last one, is as ragged as the whole file. */
  lemma {:induction false} RaggedChunk(s: bytes, size: nat, frame: nat) returns (c: bytes)
    requires s != [] && size > 0 && frame > 0 && size % frame == 0
    ensures c in Chunks(s, size) && |c| % frame == |s| % frame
    decreases |s|
  {
    if |s| <= size {
      c := s;
    } else {
      assert Chunks(s, size) == [s[..size]] + Chunks(s[size..], size);
      hide Chunks;
      c := RaggedChunk(s[size..], size, frame);
      WholeFramesAside(|s|, size, frame);
    }
  }

  lemma WholeFramesAside(n: nat, size: nat, frame: nat)
    requires frame > 0 && size % frame == 0 && size <= n
    ensures (n - size) % frame == n % frame
  {
    var q := size / frame;
    assert n == n - size + q * frame;
    ModAddMultiple(n - size, q, frame);
  }

  lemma WholeFrames(samples: nat, frame: nat)
    requires samples > 0 && frame > 0
    ensures samples * frame > 0 && (samples * frame) % frame == 0
  {
    ModUnique(samples * frame, samples, 0, frame);
  }

  /** Each packet of a file has the depth check in common and makes its own size checks. */
  lemma ChunkAccepted(h: WavHeader, s: TalkerState, c: bytes)
    requires ConfiguredBy(h, s)
    ensures Word(h) > 0 && Frame(h) > 0
    ensures PcmOf(s, Swapped(c, Word(h))).Ok? <==> DepthFits(h) && |c| <= U16_MAX && |c| % Frame(h) == 0
  {
    FramePositive(h, s);
    hide Swapped, PcmOf, ConfiguredBy, DepthFits, Frame, Word;
    PayloadAccepted(h, s, Swapped(c, Word(h)));
  }

  lemma PacketSize(h: WavHeader, s: TalkerState, samples: nat)
    requires ConfiguredBy(h, s) && samples > 0
    ensures Word(h) > 0 && Frame(h) > 0 && samples * Frame(h) > 0 && (samples * Frame(h)) % Frame(h) == 0
  {
    FramePositive(h, s);
    hide Frame, ConfiguredBy;
    WholeFrames(samples, Frame(h));
  }

  /**
   * A file is accepted packet by packet exactly when it is empty, or its valid bits suit its
   * container, its packets fit the 16-bit length field and it ends with a whole frame.
   */
  lemma SendableIff(h: WavHeader, s: TalkerState, pcmLe: bytes, samples: nat)
    requires ConfiguredBy(h, s) && samples > 0
    ensures Word(h) > 0 && Frame(h) > 0 && samples * Frame(h) > 0
    ensures Sendable(h, s, pcmLe, samples * Frame(h))
      <==> || pcmLe == []
           || (&& DepthFits(h)
               && (|pcmLe| <= U16_MAX || samples * Frame(h) <= U16_MAX)
               && |pcmLe| % Frame(h) == 0)
  {
    PacketSize(h, s, samples);
    hide Chunks, Swapped, PcmOf, ConfiguredBy, DepthFits, Frame, Word;
    var size := samples * Frame(h);
    if pcmLe == [] {
      NoChunks(size);
    } else if Sendable(h, s, pcmLe, size) {
      FirstChunk(pcmLe, size);
      var first := Chunks(pcmLe, size)[0];
      var last := RaggedChunk(pcmLe, size, Frame(h));
      assert first in Chunks(pcmLe, size);
      ChunkAccepted(h, s, first);
      ChunkAccepted(h, s, last);
    } else {
      var c :| c in Chunks(pcmLe, size) && !PcmOf(s, Swapped(c, Word(h))).Ok?;
      ChunkAccepted(h, s, c);
      ChunksShrink(pcmLe, size);
      if |pcmLe| % Frame(h) == 0 {
        ChunksAreFrames(pcmLe, size, Frame(h));
      }
    }
  }

  lemma NoChunks(size: nat)
    requires size > 0
    ensures Chunks([], size) == []
  {
  }

  lemma {:induction false} ChunksShrink(s: bytes, size: nat)
    requires size > 0
    ensures forall c :: c in Chunks(s, size) ==> |c| <= |s| && |c| <= size
    decreases |s|
  {
    if |s| > size {
      ChunksShrink(s[size..], size);
    }
  }

  // ----- When the bytes survive -----

  /**
   * The sender swaps container words, the receiver words of the transmitted valid bits. Of the files
   * a talker can send, exactly those whose valid bits fill the container come back unchanged: for
   * others the receiver swaps shorter words, or panics on words of no byte at all.
   */
  lemma SurvivesIffFullWidth(h: WavHeader, s: TalkerState, n: nat)
    requires ConfiguredBy(h, s) && DepthFits(h) && n > 0 && n % Word(h) == 0
    ensures s.bitDepth / 8 > 0 && Conserves(Word(h), s.bitDepth / 8, n) <==> h.validBits == h.bitsPerSample
  {
    FramePositive(h, s);
    hide Conserves;
    if s.bitDepth / 8 > 0 {
      ConservationNeedsEqualWords(Word(h), s.bitDepth / 8, n);
    }
  }

  /** A file of 12-bit samples in 16-bit containers: configured, sent, and not restored. */
  lemma NarrowFileIsCorrupted(id: StreamID, clock: ClockState, delayMs: u32)
    ensures var h := WavHeader(2, 48_000, 16, 12, LinearPcm);
            && Setup(h, id, clock, delayMs).Ok?
            && DepthFits(h)
            && Swapped(Swapped([1, 0], Word(h)), Setup(h, id, clock, delayMs).value.bitDepth / 8) == [0, 1]
  {
    NarrowSamplesAreCorrupted();
    hide Swapped;
  }

  /** Valid bits wider than the container pass configuration, and then every packet is refused. */
  lemma WideDepthIsRefusedLate(id: StreamID, clock: ClockState, delayMs: u32, payload: bytes)
    ensures var h := WavHeader(2, 48_000, 16, 24, LinearPcm);
            var r := Setup(h, id, clock, delayMs);
            r.Ok? && PcmOf(r.value, payload) == Err(BitDepthInvalid(24, Int16Bit))
  {
  }
}
