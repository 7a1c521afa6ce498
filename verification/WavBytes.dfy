/**
 * WAV files octet by octet: the format chunk in numbers, what any format chunk decodes to, and the whole
 * file (src/audio/wav.rs).
 */
module WavBytes {
  import opened Basics
  import opened Wavs
  import opened WavLaws
  import opened WavIo

  // ----- Little-endian fields -----

  /** The least significant octet comes first. */
  lemma LittleEndian(v: u16, x: u32, b: Tag4)
    ensures Le16(v) == [v % 256, v / 256]
    ensures Le32(x) == [x % 256, x / 256 % 256, x / 65_536 % 256, x / 16_777_216]
    ensures var b0: int, b1: int, b2: int, b3: int := b[0], b[1], b[2], b[3];
            && From16(b[0], b[1]) == b0 + 256 * b1
            && From32(b) == b0 + 256 * b1 + 65_536 * b2 + 16_777_216 * b3
  {
  }

  // ----- The format chunk as it is written -----

  /** The tag of a sample format. */
  function FormatTag(f: AudioFormat): u16 {
    match f
    case LinearPcm => 1
    case IeeeFloat => 3
    case Other(tag) => tag
  }

  /** Container and valid bits differ, more than two channels, or integer samples wider than 16 bits. */
  predicate IsExtensible(h: WavHeader) {
    h.validBits != h.bitsPerSample || h.channels > 2 || (h.audioFormat == LinearPcm && h.bitsPerSample > 16)
  }

  /** The extension filled in for an extensible header: its size, the valid bits, no speakers, the format's GUID. */
  function FilledExtension(validBits: u16, tag: u16): bytes {
    [22, 0, validBits % 256, validBits / 256, 0, 0, 0, 0, tag % 256, tag / 256,
     0x00, 0x00, 0x00, 0x00, 0x10, 0x00, 0x80, 0x00, 0x00, 0xAA, 0x00, 0x38, 0x9B, 0x71]
  }

  /** The fields of the chunk; the two derived rates wrap at their width. */
  lemma FmtFields(h: WavHeader, ext: bytes)
    ensures var d := FmtData(h, ext);
            && |d| >= 16
            && From16(d[0], d[1]) == (if |ext| >= 24 || IsExtensible(h) then 0xFFFE else FormatTag(h.audioFormat))
            && From16(d[2], d[3]) == h.channels
            && From32(d[4..8]) == h.sampleRate
            && From32(d[8..12]) == (h.sampleRate * (h.channels * (h.bitsPerSample / 8))) % 0x1_0000_0000
            && From16(d[12], d[13]) == (h.channels * (h.bitsPerSample / 8)) % 0x1_0000
            && From16(d[14], d[15]) == h.bitsPerSample
            && d[16..] == if ext == [] && IsExtensible(h) then FilledExtension(h.validBits, FormatTag(h.audioFormat))
                          else ext
  {
    BaseFields(h, ext);
    DerivedFields(h, ext);
    ByteRateIs(h);
    TagAndExtension(h, ext);
    hide FmtData, ByteRate, BlockAlign, From16, From32, WrittenTag, WrittenExtension, IsExtensible, FormatTag,
         FilledExtension;
    AlignIs(h);
  }

  lemma DerivedFields(h: WavHeader, ext: bytes)
    ensures var d := FmtData(h, ext);
            && |d| >= 16
            && From32(d[8..12]) == ByteRate(h) && From16(d[12], d[13]) == BlockAlign(h)
  {
    Le32RoundTrip(ByteRate(h));
    Le16RoundTrip(BlockAlign(h));
    hide WrittenTag, WrittenExtension, ByteRate, BlockAlign, Le16, Le32, From16, From32;
    var d := FmtData(h, ext);
    assert d[8..12] == Le32(ByteRate(h));
    assert d[12] == Le16(BlockAlign(h))[0] && d[13] == Le16(BlockAlign(h))[1];
  }

  lemma ByteRateIs(h: WavHeader)
    ensures ByteRate(h) == (h.sampleRate * (h.channels * (h.bitsPerSample / 8))) % 0x1_0000_0000
  {
    var width := h.bitsPerSample / 8;
    var first := h.sampleRate * h.channels;
    WrappedProduct(first, width, 0x1_0000_0000);
    assert first * width == h.sampleRate * (h.channels * width);
  }

  /** Reducing a factor first makes no difference to the reduced product. */
  lemma WrappedProduct(a: nat, b: nat, m: nat)
    requires m > 0
    ensures (a % m * b) % m == (a * b) % m
  {
    var q := a / m;
    assert a == q * m + a % m;
    assert a * b == a % m * b + (q * b) * m;
    ModAddMultiple(a % m * b, q * b, m);
  }

  lemma AlignIs(h: WavHeader)
    ensures BlockAlign(h) == (h.channels * (h.bitsPerSample / 8)) % 0x1_0000
  {
  }

  lemma TagAndExtension(h: WavHeader, ext: bytes)
    ensures WrittenTag(h, ext) == if |ext| >= 24 || IsExtensible(h) then 0xFFFE else FormatTag(h.audioFormat)
    ensures WrittenExtension(h, ext)
         == if ext == [] && IsExtensible(h) then FilledExtension(h.validBits, FormatTag(h.audioFormat)) else ext
  {
    assert CanonicalExtension(h) == FilledExtension(h.validBits, FormatTag(h.audioFormat));
  }

  /**
   * When nothing overflows, the byte rate is the sample rate times the block alignment, and for containers of
   * whole octets the alignment is the size of one sample for every channel.
   */
  lemma DerivedRates(h: WavHeader, ext: bytes)
    requires h.channels * (h.bitsPerSample / 8) <= 65_535
    requires h.sampleRate * (h.channels * (h.bitsPerSample / 8)) <= 4_294_967_295
    ensures var d := FmtData(h, ext);
            && |d| >= 16
            && From32(d[8..12]) == h.sampleRate * From16(d[12], d[13])
            && From16(d[12], d[13]) == h.channels * (h.bitsPerSample / 8)
            && (h.bitsPerSample % 8 == 0 ==> 8 * From16(d[12], d[13]) == h.channels * h.bitsPerSample)
  {
    hide *;
    var d, align := FmtData(h, ext), h.channels * (h.bitsPerSample / 8);
    FmtFields(h, ext);
    NothingWraps(h.sampleRate, align, From32(d[8..12]), From16(d[12], d[13]));
    if h.bitsPerSample % 8 == 0 {
      WholeOctets(h.channels, h.bitsPerSample);
    }
  }

  lemma NothingWraps(rate: nat, align: nat, byteRate: int, alignField: int)
    requires align <= 65_535 && rate * align <= 4_294_967_295
    requires byteRate == (rate * align) % 0x1_0000_0000 && alignField == align % 0x1_0000
    ensures alignField == align && byteRate == rate * alignField
  {
  }

  lemma WholeOctets(channels: nat, bits: nat)
    requires bits % 8 == 0
    ensures 8 * (channels * (bits / 8)) == channels * bits
  {
    var width := bits / 8;
    assert bits == 8 * width;
  }

  // ----- What any format chunk decodes to -----

  function FormatOfTag(tag: u16): AudioFormat {
    if tag == 1 then LinearPcm else if tag == 3 then IeeeFloat else Other(tag)
  }

  /** The header in a chunk of any octets, or the size it should have had at least. */
  lemma DecodesExactly(d: bytes)
    requires |d| <= 4_294_967_295
    ensures DecodeFmt(d)
         == if |d| < 16 then Err(InvalidChunkSize(|d|, 16))
            else if d[..2] != [0xFE, 0xFF] then
              Ok(WavHeader(From16(d[2], d[3]), From32(d[4..8]), From16(d[14], d[15]), From16(d[14], d[15]),
                           FormatOfTag(From16(d[0], d[1]))))
            else if |d| < 40 then Err(InvalidChunkSize(|d|, 40))
            else
              Ok(WavHeader(From16(d[2], d[3]), From32(d[4..8]), From16(d[14], d[15]),
                           if d[18..20] == [0, 0] then From16(d[14], d[15]) else From16(d[18], d[19]),
                           if d[26..40] == [0x00, 0x00, 0x00, 0x00, 0x10, 0x00, 0x80, 0x00, 0x00, 0xAA, 0x00, 0x38,
                                            0x9B, 0x71]
                           then FormatOfTag(From16(d[24], d[25])) else Other(From16(d[24], d[25]))))
  {
    if |d| >= 16 {
      Word16Is(d[..2], 0xFE, 0xFF);
    }
    if |d| >= 40 {
      Word16Is(d[18..20], 0, 0);
    }
    hide From32, From16;
    TagsAre();
  }

  lemma Word16Is(b: bytes, low: u8, high: u8)
    requires |b| == 2
    ensures b == [low, high] <==> From16(b[0], b[1]) == From16(low, high)
  {
  }

  lemma TagsAre()
    ensures From16(0xFE, 0xFF) == 0xFFFE && From16(0, 0) == 0
  {
  }

  // ----- Whole files -----

  /** One chunk: identifier, size, data, and a zero octet after data of odd length. */
  function ChunkOctets(id: Tag4, data: bytes): bytes {
    id + Le32(|data| % 0x1_0000_0000) + data + (if |data| % 2 == 1 then [0] else [])
  }

  function ListOctets(cs: seq<WavChunk>): bytes {
    if cs == [] then [] else ChunkOctets(cs[0].id, cs[0].data) + ListOctets(cs[1..])
  }

  /** RIFF, the size, WAVE, and the chunks with the format and the data among them. */
  function FileOctets(w: Wav, size: u32): bytes {
    [0x52, 0x49, 0x46, 0x46] + Le32(size) + [0x57, 0x41, 0x56, 0x45]
    + ListOctets(w.beforeFmt)
    + ChunkOctets([0x66, 0x6D, 0x74, 0x20], FmtData(w.header, w.fmtExtension))
    + ListOctets(w.beforeData)
    + ChunkOctets([0x64, 0x61, 0x74, 0x61], w.data)
    + ListOctets(w.afterData)
  }

  /** The same without an end: both sizes are all ones, and the samples follow. */
  function StreamOctets(p: WavPreamble): bytes {
    [0x52, 0x49, 0x46, 0x46, 0xFF, 0xFF, 0xFF, 0xFF, 0x57, 0x41, 0x56, 0x45]
    + ListOctets(p.beforeFmt)
    + ChunkOctets([0x66, 0x6D, 0x74, 0x20], FmtData(p.header, p.fmtExtension))
    + ListOctets(p.beforeData)
    + [0x64, 0x61, 0x74, 0x61, 0xFF, 0xFF, 0xFF, 0xFF]
  }

  lemma ChunkIs(c: WavChunk)
    ensures |ChunkOctets(c.id, c.data)| == SerializedSize(c)
    ensures Fits(c) ==> PutChunk(c, []) == ChunkOctets(c.id, c.data)
  {
    hide Le32;
    if Fits(c) {
      WrittenChunk([], c, ChunkOctets(c.id, c.data));
      assert [] + PutChunk(c, []) == PutChunk(c, []);
    }
  }

  lemma {:induction false} ListIs(cs: seq<WavChunk>)
    ensures |ListOctets(cs)| == TotalSize(cs)
    ensures AllFit(cs) ==> PutChunks(cs, []) == ListOctets(cs)
  {
    hide Fits, PutChunk, ChunkOctets, SerializedSize;
    if cs != [] {
      ChunkIs(cs[0]);
      ListIs(cs[1..]);
      if AllFit(cs) {
        ChunkInFront(cs[0], PutChunks(cs[1..], []));
      }
    }
  }

  lemma FileSize(w: Wav, size: u32)
    ensures |FileOctets(w, size)| == 8 + RiffSize(w)
  {
    ListIs(w.beforeFmt);
    ChunkIs(FmtChunk(w.header, w.fmtExtension));
    ListIs(w.beforeData);
    ChunkIs(WavChunk(DATA, w.data));
    ListIs(w.afterData);
    hide ListOctets, ChunkOctets, FmtData, SerializedSize, TotalSize, Le32;
  }

  /** A file is written octet by octet, unless it is longer than its size field can say. */
  lemma FileWrittenExactly(w: Wav)
    ensures var size := |FileOctets(w, 0)| - 8;
            Write(w) == if size > 4_294_967_295 then Err(TooLarge) else Ok(FileOctets(w, size))
  {
    FileSize(w, 0);
    SizeLimit();
    WriteRefused(w);
    hide *;
    WriteSucceedsWhen(w);
    if Write(w).Ok? {
      FileInParts(w, []);
      FileSize(w, RiffSize(w));
      ListIs(w.beforeFmt);
      ListIs(w.beforeData);
      ListIs(w.afterData);
      PartsAre(w, RiffSize(w), Write(w).value);
    }
  }

  lemma SizeLimit()
    ensures U32_MAX == 4_294_967_295
  {
  }

  lemma WriteRefused(w: Wav)
    ensures Write(w).Err? ==> Write(w) == Err(TooLarge)
  {
  }

  lemma PartsAre(w: Wav, size: u32, written: bytes)
    requires Fits(FmtChunk(w.header, w.fmtExtension)) && Fits(WavChunk(DATA, w.data))
    requires [] + written
          == [] + RiffHeader(size) + ListOctets(w.beforeFmt) + PutChunk(FmtChunk(w.header, w.fmtExtension), [])
             + ListOctets(w.beforeData) + PutChunk(WavChunk(DATA, w.data), []) + ListOctets(w.afterData)
    ensures written == FileOctets(w, size)
  {
    ChunkIs(FmtChunk(w.header, w.fmtExtension));
    ChunkIs(WavChunk(DATA, w.data));
    hide ListOctets, ChunkOctets, PutChunk, FmtData, Le32;
    assert [] + written == written;
    assert [] + RiffHeader(size) == RiffHeader(size);
  }

  /** The preamble of a stream is written octet by octet, unless one of its chunks is too long for its size field. */
  lemma StreamWrittenExactly(p: WavPreamble)
    ensures Wavs.WriteStream(p)
         == if && (forall c :: c in p.beforeFmt + p.beforeData ==> |c.data| <= 4_294_967_295)
               && |FmtData(p.header, p.fmtExtension)| <= 4_294_967_295
            then Ok(StreamOctets(p)) else Err(TooLarge)
  {
    StreamRefused(p);
    StreamFits(p);
    hide *;
    if Wavs.WriteStream(p).Ok? {
      StreamSucceedsWhen(p);
      StreamInParts(p, []);
      ListIs(p.beforeFmt);
      ListIs(p.beforeData);
      StreamPartsAre(p, Wavs.WriteStream(p).value);
    }
  }

  lemma StreamRefused(p: WavPreamble)
    ensures Wavs.WriteStream(p).Err? ==> Wavs.WriteStream(p) == Err(TooLarge)
  {
  }

  lemma StreamFits(p: WavPreamble)
    ensures Wavs.WriteStream(p).Ok?
      <==> && (forall c :: c in p.beforeFmt + p.beforeData ==> |c.data| <= 4_294_967_295)
           && |FmtData(p.header, p.fmtExtension)| <= 4_294_967_295
  {
    StreamSucceedsWhen(p);
    hide Wavs.WriteStream, FmtData;
    if Wavs.WriteStream(p).Err? && AllFit(p.beforeFmt) && Fits(FmtChunk(p.header, p.fmtExtension)) {
      var i :| 0 <= i < |p.beforeData| && !Fits(p.beforeData[i]);
      assert p.beforeData[i] in p.beforeFmt + p.beforeData;
    }
  }

  lemma StreamPartsAre(p: WavPreamble, written: bytes)
    requires Fits(FmtChunk(p.header, p.fmtExtension))
    requires [] + written
          == [] + RiffHeader(U32_MAX) + ListOctets(p.beforeFmt) + PutChunk(FmtChunk(p.header, p.fmtExtension), [])
             + ListOctets(p.beforeData) + DATA + Le32(U32_MAX)
    ensures written == StreamOctets(p)
  {
    ChunkIs(FmtChunk(p.header, p.fmtExtension));
    assert Le32(U32_MAX) == [0xFF, 0xFF, 0xFF, 0xFF];
    hide ListOctets, ChunkOctets, PutChunk, FmtData, Le32;
    assert [] + written == written;
    assert [] + RiffHeader(U32_MAX) == [0x52, 0x49, 0x46, 0x46, 0xFF, 0xFF, 0xFF, 0xFF, 0x57, 0x41, 0x56, 0x45];
  }
}
