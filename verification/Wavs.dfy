/**
 * RIFF/WAVE files as values: the chunk parser and the chunk printer (src/audio/wav.rs), following the
 * Waveform Audio File Format of "Multimedia Programming Interface and Data Specifications 1.0" with
 * the WAVEFORMATEXTENSIBLE extension.
 */
module Wavs {
  import opened Basics

  type Tag4 = s: seq<u8> | |s| == 4 witness [0, 0, 0, 0]

  const RIFF: Tag4 := [0x52, 0x49, 0x46, 0x46]
  const WAVE: Tag4 := [0x57, 0x41, 0x56, 0x45]
  const FMT: Tag4 := [0x66, 0x6D, 0x74, 0x20]
  const DATA: Tag4 := [0x64, 0x61, 0x74, 0x61]
  const WAVE_FORMAT_EXTENSIBLE: u16 := 0xFFFE
  const U32_MAX: u32 := 0xFFFF_FFFF
  const GUID_SUFFIX: bytes :=
    [0x00, 0x00, 0x00, 0x00, 0x10, 0x00, 0x80, 0x00, 0x00, 0xAA, 0x00, 0x38, 0x9B, 0x71]

  datatype WavError =
    | InvalidMagic(found: Tag4, expected: Tag4)
    | InvalidChunkSize(size: u32, least: nat)
    | DataBeforeFmt
    | MissingFmtChunk
    | MissingDataChunk
    | UnexpectedEof

  datatype WriteError = TooLarge

  datatype WavChunk = WavChunk(id: Tag4, data: bytes)

  datatype ChunkHeader = ChunkHeader(id: Tag4, size: u32)

  datatype AudioFormat = LinearPcm | IeeeFloat | Other(tag: u16)

  datatype WavHeader = WavHeader(channels: u16, sampleRate: u32, bitsPerSample: u16, validBits: u16,
                                 audioFormat: AudioFormat)

  datatype WavPreamble = WavPreamble(
    beforeFmt: seq<WavChunk>, header: WavHeader, fmtExtension: bytes, beforeData: seq<WavChunk>, dataSize: u32)

  datatype Wav = Wav(
    beforeFmt: seq<WavChunk>, header: WavHeader, fmtExtension: bytes, beforeData: seq<WavChunk>, data: bytes,
    afterData: seq<WavChunk>)

  // ----- Little-endian fields -----

  function Le16(v: u16): (b: bytes)
    ensures |b| == 2
  {
    [v % 0x100, v / 0x100]
  }

  function Le32(v: u32): (b: bytes)
    ensures |b| == 4
  {
    [v % 0x100, v / 0x100 % 0x100, v / 0x1_0000 % 0x100, v / 0x100_0000]
  }

  function From16(b0: u8, b1: u8): u16 {
    var low: int, high: int := b0, b1;
    low + 0x100 * high
  }

  function From32(b: Tag4): u32 {
    var b0: int, b1: int, b2: int, b3: int := b[0], b[1], b[2], b[3];
    b0 + 0x100 * b1 + 0x1_0000 * b2 + 0x100_0000 * b3
  }

  // ----- The format chunk -----

  function FormatFromTag(tag: u16): AudioFormat {
    if tag == 1 then LinearPcm else if tag == 3 then IeeeFloat else Other(tag)
  }

  function TagOf(f: AudioFormat): u16 {
    match f
    case LinearPcm => 1
    case IeeeFloat => 3
    case Other(tag) => tag
  }

  function ClampedSize(n: nat): u32 {
    if n > U32_MAX then U32_MAX else n
  }

  function DecodeFmt(d: bytes): Result<WavHeader, WavError> {
    if |d| < 16 then Err(InvalidChunkSize(ClampedSize(|d|), 16))
    else
      var rawFormat := FormatFromTag(From16(d[0], d[1]));
      var bits := From16(d[14], d[15]);
      var channels, rate := From16(d[2], d[3]), From32(d[4..8]);
      if rawFormat != Other(WAVE_FORMAT_EXTENSIBLE) then Ok(WavHeader(channels, rate, bits, bits, rawFormat))
      else if |d| < 40 then Err(InvalidChunkSize(ClampedSize(|d|), 40))
      else
        var rawValid := From16(d[18], d[19]);
        var subTag := From16(d[24], d[25]);
        var format := if d[26..40] == GUID_SUFFIX then FormatFromTag(subTag) else Other(subTag);
        Ok(WavHeader(channels, rate, bits, if rawValid == 0 then bits else rawValid, format))
  }

  predicate NeedsExtensible(h: WavHeader) {
    || h.validBits != h.bitsPerSample
    || h.channels > 2
    || (h.audioFormat == LinearPcm && h.bitsPerSample > 16)
  }

  function CanonicalExtension(h: WavHeader): (e: bytes)
    ensures |e| == 24
  {
    Le16(22) + Le16(h.validBits) + Le32(0) + Le16(TagOf(h.audioFormat)) + GUID_SUFFIX
  }

  /** Both derived rates wrap at their field width, as in a release build; neither is read back. */
  function ByteRate(h: WavHeader): u32 {
    ((h.sampleRate * h.channels) % TWO_32 * (h.bitsPerSample / 8)) % TWO_32
  }

  function BlockAlign(h: WavHeader): u16 {
    (h.channels * (h.bitsPerSample / 8)) % TWO_16
  }

  /** The extension actually written: an empty one is filled in when the extensible form is needed. */
  function WrittenExtension(h: WavHeader, ext: bytes): bytes {
    if ext == [] && NeedsExtensible(h) then CanonicalExtension(h) else ext
  }

  function WrittenTag(h: WavHeader, ext: bytes): u16 {
    if |ext| >= 24 || NeedsExtensible(h) then WAVE_FORMAT_EXTENSIBLE else TagOf(h.audioFormat)
  }

  function FmtData(h: WavHeader, ext: bytes): bytes {
    Le16(WrittenTag(h, ext)) + Le16(h.channels) + Le32(h.sampleRate) + Le32(ByteRate(h)) + Le16(BlockAlign(h))
    + Le16(h.bitsPerSample) + WrittenExtension(h, ext)
  }

  function FmtChunk(h: WavHeader, ext: bytes): WavChunk {
    WavChunk(FMT, FmtData(h, ext))
  }

  // ----- Printing -----

  function Padding(n: nat): bytes {
    if n % 2 == 1 then [0] else []
  }

  predicate Fits(c: WavChunk) {
    |c.data| <= U32_MAX
  }

  /** A chunk in front of the rest of the file. */
  function PutChunk(c: WavChunk, rest: bytes): bytes
    requires Fits(c)
  {
    c.id + (Le32(|c.data|) + (c.data + (Padding(|c.data|) + rest)))
  }

  predicate AllFit(cs: seq<WavChunk>) {
    forall i :: 0 <= i < |cs| ==> Fits(cs[i])
  }

  function PutChunks(cs: seq<WavChunk>, rest: bytes): bytes
    requires AllFit(cs)
  {
    if cs == [] then rest else PutChunk(cs[0], PutChunks(cs[1..], rest))
  }

  function SerializedSize(c: WavChunk): nat {
    8 + |c.data| + |c.data| % 2
  }

  function TotalSize(cs: seq<WavChunk>): nat {
    if cs == [] then 0 else SerializedSize(cs[0]) + TotalSize(cs[1..])
  }

  /** The value of the RIFF size field. */
  function RiffSize(w: Wav): nat {
    4 + TotalSize(w.beforeFmt) + SerializedSize(FmtChunk(w.header, w.fmtExtension)) + TotalSize(w.beforeData)
    + SerializedSize(WavChunk(DATA, w.data)) + TotalSize(w.afterData)
  }

  function RiffHeader(size: u32): (b: bytes)
    ensures |b| == 12
  {
    RIFF + Le32(size) + WAVE
  }

  lemma {:induction false} SmallTotalsFit(cs: seq<WavChunk>)
    requires TotalSize(cs) <= U32_MAX
    ensures AllFit(cs)
  {
    if cs != [] {
      SmallTotalsFit(cs[1..]);
      assert forall i :: 0 < i < |cs| ==> cs[i] == cs[1..][i - 1];
    }
  }

  /** Everything from the first chunk up to the data chunk's header. */
  function PutPreamble(beforeFmt: seq<WavChunk>, h: WavHeader, ext: bytes, beforeData: seq<WavChunk>, rest: bytes)
    : bytes
    requires AllFit(beforeFmt) && AllFit(beforeData) && Fits(FmtChunk(h, ext))
  {
    PutChunks(beforeFmt, PutChunk(FmtChunk(h, ext), PutChunks(beforeData, rest)))
  }

  predicate Writable(w: Wav) {
    RiffSize(w) <= U32_MAX
  }

  lemma WritableFits(w: Wav)
    requires Writable(w)
    ensures AllFit(w.beforeFmt) && AllFit(w.beforeData) && AllFit(w.afterData)
    ensures Fits(FmtChunk(w.header, w.fmtExtension)) && Fits(WavChunk(DATA, w.data))
  {
    SmallTotalsFit(w.beforeFmt);
    SmallTotalsFit(w.beforeData);
    SmallTotalsFit(w.afterData);
  }

  /** `Wav::write`: refused exactly when the whole file overflows the RIFF size field. */
  function Write(w: Wav): Result<bytes, WriteError> {
    if !Writable(w) then Err(TooLarge)
    else
      WritableFits(w);
      Ok(RiffHeader(RiffSize(w))
         + PutPreamble(w.beforeFmt, w.header, w.fmtExtension, w.beforeData,
                       PutChunk(WavChunk(DATA, w.data), PutChunks(w.afterData, []))))
  }

  predicate StreamWritable(p: WavPreamble) {
    AllFit(p.beforeFmt) && Fits(FmtChunk(p.header, p.fmtExtension)) && AllFit(p.beforeData)
  }

  /** `WavPreamble::write_stream`: both size fields are all ones, and the samples follow. */
  function WriteStream(p: WavPreamble): Result<bytes, WriteError> {
    if !StreamWritable(p) then Err(TooLarge)
    else Ok(RiffHeader(U32_MAX)
            + PutPreamble(p.beforeFmt, p.header, p.fmtExtension, p.beforeData, DATA + Le32(U32_MAX)))
  }

  // ----- Parsing -----

  function TakeBytes(b: bytes, n: nat): Result<(bytes, bytes), WavError> {
    if |b| < n then Err(UnexpectedEof) else Ok((b[..n], b[n..]))
  }

  /** End of input in or before the identifier is the end of the file, not an error. */
  function ReadChunkHeader(b: bytes): (r: Result<Option<(ChunkHeader, bytes)>, WavError>)
    ensures r.Ok? && r.value.Some? ==> |r.value.value.1| < |b|
  {
    if |b| < 4 then Ok(None)
    else if |b| < 8 then Err(UnexpectedEof)
    else Ok(Some((ChunkHeader(b[..4], From32(b[4..8])), b[8..])))
  }

  function SkipPadding(b: bytes, size: u32): Result<bytes, WavError> {
    if size % 2 == 0 then Ok(b)
    else if b == [] then Err(UnexpectedEof)
    else Ok(b[1..])
  }

  function ReadChunk(b: bytes, h: ChunkHeader): (r: Result<(WavChunk, bytes), WavError>)
    ensures r.Ok? ==> |r.value.1| <= |b|
  {
    var (data, b1) :- TakeBytes(b, h.size);
    var b2 :- SkipPadding(b1, h.size);
    Ok((WavChunk(h.id, data), b2))
  }

  function ReadRiffHeader(b: bytes): Result<bytes, WavError> {
    if |b| < 4 then Err(UnexpectedEof)
    else if b[..4] != RIFF then Err(InvalidMagic(b[..4], RIFF))
    else if |b| < 12 then Err(UnexpectedEof)
    else if b[8..12] != WAVE then Err(InvalidMagic(b[8..12], WAVE))
    else Ok(b[12..])
  }

  /** What the parser has collected so far. */
  datatype Progress = Progress(
    beforeFmt: seq<WavChunk>, fmt: Option<(WavHeader, bytes)>, beforeData: seq<WavChunk>)

  function AddChunk(s: Progress, c: WavChunk): Progress {
    if s.fmt.Some? then s.(beforeData := s.beforeData + [c]) else s.(beforeFmt := s.beforeFmt + [c])
  }

  /** The chunk loop up to and including the data chunk's header; a later format chunk replaces an earlier one. */
  function ParseLoop(b: bytes, s: Progress): Result<(WavPreamble, bytes), WavError>
    decreases |b|
  {
    var next :- ReadChunkHeader(b);
    match next
    case None => Err(if s.fmt.Some? then MissingDataChunk else MissingFmtChunk)
    case Some((h, b1)) =>
      if h.id == DATA then
        if s.fmt.None? then Err(DataBeforeFmt)
        else Ok((WavPreamble(s.beforeFmt, s.fmt.value.0, s.fmt.value.1, s.beforeData, h.size), b1))
      else
        var (chunk, b2) :- ReadChunk(b1, h);
        if h.id == FMT then
          var header :- DecodeFmt(chunk.data);
          ParseLoop(b2, s.(fmt := Some((header, chunk.data[16..]))))
        else ParseLoop(b2, AddChunk(s, chunk))
  }

  const START: Progress := Progress([], None, [])

  function ReadPreamble(b: bytes): Result<(WavPreamble, bytes), WavError> {
    var b1 :- ReadRiffHeader(b);
    ParseLoop(b1, START)
  }

  function ReadTrailing(b: bytes): Result<seq<WavChunk>, WavError>
    decreases |b|
  {
    var next :- ReadChunkHeader(b);
    match next
    case None => Ok([])
    case Some((h, b1)) =>
      var (chunk, b2) :- ReadChunk(b1, h);
      var rest :- ReadTrailing(b2);
      Ok([chunk] + rest)
  }

  /** `Wav::read`. */
  function Read(b: bytes): Result<Wav, WavError> {
    var (p, b1) :- ReadPreamble(b);
    var (data, b2) :- TakeBytes(b1, p.dataSize);
    var b3 :- SkipPadding(b2, p.dataSize);
    var after :- ReadTrailing(b3);
    Ok(Wav(p.beforeFmt, p.header, p.fmtExtension, p.beforeData, data, after))
  }
}
