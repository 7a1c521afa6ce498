/** The WAV parser inverts the WAV printer, on exactly which values, and the sizes it declares. */
module WavLaws {
  import opened Basics
  import opened Wavs

  // ----- Fields -----

  lemma Le16RoundTrip(v: u16)
    ensures From16(Le16(v)[0], Le16(v)[1]) == v
  {
  }

  lemma Le32RoundTrip(v: u32)
    ensures From32(Le32(v)) == v
  {
    assert v == v % 0x100 + 0x100 * (v / 0x100);
    assert v / 0x100 == v / 0x100 % 0x100 + 0x100 * (v / 0x1_0000);
    assert v / 0x1_0000 == v / 0x1_0000 % 0x100 + 0x100 * (v / 0x100_0000);
  }

  // ----- The format chunk -----

  /** A tag that decodes to the format it encodes. */
  predicate CanonicalFormat(f: AudioFormat) {
    f != Other(1) && f != Other(3)
  }

  /** What the header must say for a given full-length extension. */
  predicate AgreesWithExtension(h: WavHeader, ext: bytes)
    requires |ext| >= 24
  {
    var rawValid := From16(ext[2], ext[3]);
    var subTag := From16(ext[8], ext[9]);
    && h.validBits == (if rawValid == 0 then h.bitsPerSample else rawValid)
    && (if ext[10..24] == GUID_SUFFIX then CanonicalFormat(h.audioFormat) && TagOf(h.audioFormat) == subTag
        else h.audioFormat == Other(subTag))
  }

  /** The headers and extensions a format chunk can represent, checkable before writing. */
  predicate Representable(h: WavHeader, ext: bytes) {
    if |ext| >= 24 then AgreesWithExtension(h, ext)
    else if NeedsExtensible(h) then
      ext == [] && CanonicalFormat(h.audioFormat) && (h.validBits != 0 || h.bitsPerSample == 0)
    else CanonicalFormat(h.audioFormat) && h.audioFormat != Other(WAVE_FORMAT_EXTENSIBLE)
  }

  lemma FormatRoundTrip(f: AudioFormat, tag: u16)
    ensures FormatFromTag(TagOf(f)) == f <==> CanonicalFormat(f)
    ensures FormatFromTag(tag) == f <==> CanonicalFormat(f) && TagOf(f) == tag
  {
  }

  /** The sixteen base bytes, read back. */
  lemma BaseFields(h: WavHeader, ext: bytes)
    ensures var d := FmtData(h, ext);
            && |d| == 16 + |WrittenExtension(h, ext)|
            && d[16..] == WrittenExtension(h, ext)
            && From16(d[0], d[1]) == WrittenTag(h, ext)
            && From16(d[2], d[3]) == h.channels
            && From32(d[4..8]) == h.sampleRate
            && From16(d[14], d[15]) == h.bitsPerSample
  {
    hide WrittenTag, WrittenExtension, ByteRate, BlockAlign, Le16, Le32, From16, From32;
    var d := FmtData(h, ext);
    var tag, rate := WrittenTag(h, ext), Le32(h.sampleRate);
    assert d[0] == Le16(tag)[0] && d[1] == Le16(tag)[1];
    assert d[2] == Le16(h.channels)[0] && d[3] == Le16(h.channels)[1];
    assert d[4..8] == rate;
    assert d[14] == Le16(h.bitsPerSample)[0] && d[15] == Le16(h.bitsPerSample)[1];
    Le16RoundTrip(tag);
    Le16RoundTrip(h.channels);
    Le32RoundTrip(h.sampleRate);
    Le16RoundTrip(h.bitsPerSample);
  }

  lemma CanonicalExtensionFields(h: WavHeader)
    ensures var e := CanonicalExtension(h);
            && From16(e[2], e[3]) == h.validBits
            && From16(e[8], e[9]) == TagOf(h.audioFormat)
            && e[10..24] == GUID_SUFFIX
  {
    Le16RoundTrip(h.validBits);
    Le16RoundTrip(TagOf(h.audioFormat));
    hide Le16, Le32, From16;
  }

  /** The decoder on a chunk whose tag says extensible. */
  lemma DecodeExtensible(h: WavHeader, ext: bytes, e: bytes)
    requires e == WrittenExtension(h, ext) && WrittenTag(h, ext) == WAVE_FORMAT_EXTENSIBLE
    ensures |e| < 24 ==> DecodeFmt(FmtData(h, ext)).Err?
    ensures |e| >= 24 ==>
              var format := if e[10..24] == GUID_SUFFIX then FormatFromTag(From16(e[8], e[9]))
                            else Other(From16(e[8], e[9]));
              var rawValid := From16(e[2], e[3]);
              DecodeFmt(FmtData(h, ext))
              == Ok(WavHeader(h.channels, h.sampleRate, h.bitsPerSample,
                              if rawValid == 0 then h.bitsPerSample else rawValid, format))
  {
    BaseFields(h, ext);
    hide FmtData, WrittenExtension, WrittenTag, From16, From32;
    var d := FmtData(h, ext);
    if |e| >= 24 {
      assert d[26..40] == e[10..24];
      assert d[18] == e[2] && d[19] == e[3] && d[24] == e[8] && d[25] == e[9];
    }
  }

  lemma DecodePlain(h: WavHeader, ext: bytes)
    requires WrittenTag(h, ext) == TagOf(h.audioFormat) && TagOf(h.audioFormat) != WAVE_FORMAT_EXTENSIBLE
    ensures DecodeFmt(FmtData(h, ext))
         == Ok(WavHeader(h.channels, h.sampleRate, h.bitsPerSample, h.bitsPerSample,
                         FormatFromTag(TagOf(h.audioFormat))))
  {
    BaseFields(h, ext);
    hide FmtData, WrittenExtension, WrittenTag, From16, From32;
  }

  /**
   * The format chunk gives back its header for exactly the representable headers and extensions. A
   * non-empty extension below 24 bytes in the extensible form, for one, is refused by the reader.
   */
  lemma FmtRoundTrip(h: WavHeader, ext: bytes)
    ensures DecodeFmt(FmtData(h, ext)) == Ok(h) <==> Representable(h, ext)
  {
    var e := WrittenExtension(h, ext);
    hide FmtData, DecodeFmt, CanonicalExtension, From16;
    FormatRoundTrip(h.audioFormat, 0);
    if WrittenTag(h, ext) == WAVE_FORMAT_EXTENSIBLE {
      DecodeExtensible(h, ext, e);
      if |e| >= 24 {
        FormatRoundTrip(h.audioFormat, From16(e[8], e[9]));
      }
      if ext == [] {
        CanonicalExtensionFields(h);
      }
    } else {
      DecodePlain(h, ext);
    }
  }

  /** Writing a filled-in extension again changes nothing. */
  lemma ExtensionIsStable(h: WavHeader, ext: bytes)
    ensures var e := WrittenExtension(h, ext);
            WrittenExtension(h, e) == e && FmtData(h, e) == FmtData(h, ext)
  {
    hide CanonicalExtension, Le16, Le32;
  }

  // ----- Chunks -----

  lemma HeaderOfPut(c: WavChunk, rest: bytes)
    requires Fits(c)
    ensures ReadChunkHeader(PutChunk(c, rest))
         == Ok(Some((ChunkHeader(c.id, |c.data|), c.data + (Padding(|c.data|) + rest))))
  {
    var b := PutChunk(c, rest);
    Le32RoundTrip(|c.data|);
    hide Le32, From32, Padding;
    assert b[..4] == c.id;
    assert b[4..8] == Le32(|c.data|);
    assert b[8..] == c.data + (Padding(|c.data|) + rest);
  }

  lemma DataOfPut(data: bytes, rest: bytes)
    requires |data| <= U32_MAX
    ensures TakeBytes(data + (Padding(|data|) + rest), |data|) == Ok((data, Padding(|data|) + rest))
    ensures SkipPadding(Padding(|data|) + rest, |data|) == Ok(rest)
  {
    var b := data + (Padding(|data|) + rest);
    assert b[..|data|] == data && b[|data|..] == Padding(|data|) + rest;
    if |data| % 2 == 1 {
      assert (Padding(|data|) + rest)[1..] == rest;
    } else {
      assert Padding(|data|) + rest == rest;
    }
  }

  lemma ChunkOfPut(c: WavChunk, rest: bytes)
    requires Fits(c)
    ensures ReadChunk(c.data + (Padding(|c.data|) + rest), ChunkHeader(c.id, |c.data|)) == Ok((c, rest))
  {
    hide TakeBytes, SkipPadding, Padding;
    DataOfPut(c.data, rest);
  }

  predicate Ordinary(c: WavChunk) {
    c.id != FMT && c.id != DATA
  }

  predicate AllOrdinary(cs: seq<WavChunk>) {
    forall i :: 0 <= i < |cs| ==> Ordinary(cs[i])
  }

  function AddChunks(s: Progress, cs: seq<WavChunk>): Progress {
    if s.fmt.Some? then s.(beforeData := s.beforeData + cs) else s.(beforeFmt := s.beforeFmt + cs)
  }

  /** The loop passes over ordinary chunks, collecting them. */
  lemma {:induction false} LoopCollects(cs: seq<WavChunk>, rest: bytes, s: Progress)
    requires AllFit(cs) && AllOrdinary(cs)
    ensures ParseLoop(PutChunks(cs, rest), s) == ParseLoop(rest, AddChunks(s, cs))
    decreases |cs|
  {
    hide PutChunk, ReadChunk, ReadChunkHeader, Padding, DecodeFmt;
    if cs == [] {
      assert AddChunks(s, cs) == s;
    } else {
      var c := cs[0];
      var later := PutChunks(cs[1..], rest);
      HeaderOfPut(c, later);
      ChunkOfPut(c, later);
      LoopCollects(cs[1..], rest, AddChunk(s, c));
      assert [c] + cs[1..] == cs;
      assert AddChunks(AddChunk(s, c), cs[1..]) == AddChunks(s, cs) by {
        assert s.beforeData + [c] + cs[1..] == s.beforeData + ([c] + cs[1..]);
        assert s.beforeFmt + [c] + cs[1..] == s.beforeFmt + ([c] + cs[1..]);
      }
    }
  }

  /** One format chunk: its header replaces whatever was known. */
  lemma LoopDecodesFmt(h: WavHeader, ext: bytes, rest: bytes, s: Progress)
    requires Fits(FmtChunk(h, ext))
    ensures ParseLoop(PutChunk(FmtChunk(h, ext), rest), s)
         == var decoded := DecodeFmt(FmtData(h, ext));
            if decoded.Err? then Err(decoded.error)
            else ParseLoop(rest, s.(fmt := Some((decoded.value, WrittenExtension(h, ext)))))
  {
    BaseFields(h, ext);
    var c := FmtChunk(h, ext);
    HeaderOfPut(c, rest);
    ChunkOfPut(c, rest);
    hide PutChunk, ReadChunk, ReadChunkHeader, Padding, DecodeFmt, FmtData, WrittenExtension;
  }

  lemma LoopStopsAtData(size: u32, rest: bytes, s: Progress)
    requires s.fmt.Some?
    ensures ParseLoop(DATA + (Le32(size) + rest), s)
         == Ok((WavPreamble(s.beforeFmt, s.fmt.value.0, s.fmt.value.1, s.beforeData, size), rest))
  {
    var b := DATA + (Le32(size) + rest);
    Le32RoundTrip(size);
    hide Le32, From32;
    assert b[..4] == DATA && b[4..8] == Le32(size) && b[8..] == rest;
  }

  /** A whole printed preamble, up to the data chunk's header. */
  lemma PreambleParses(beforeFmt: seq<WavChunk>, h: WavHeader, ext: bytes, beforeData: seq<WavChunk>, size: u32,
                       rest: bytes)
    requires AllFit(beforeFmt) && AllFit(beforeData) && Fits(FmtChunk(h, ext))
    requires AllOrdinary(beforeFmt) && AllOrdinary(beforeData)
    ensures ParseLoop(PutPreamble(beforeFmt, h, ext, beforeData, DATA + (Le32(size) + rest)), START)
         == var decoded := DecodeFmt(FmtData(h, ext));
            if decoded.Err? then Err(decoded.error)
            else Ok((WavPreamble(beforeFmt, decoded.value, WrittenExtension(h, ext), beforeData, size), rest))
  {
    hide PutChunk, PutChunks, ParseLoop, DecodeFmt, FmtData, WrittenExtension, Le32;
    var tail := DATA + (Le32(size) + rest);
    var mid := PutChunks(beforeData, tail);
    assert [] + beforeFmt == beforeFmt && [] + beforeData == beforeData;
    LoopCollects(beforeFmt, PutChunk(FmtChunk(h, ext), mid), START);
    var s1 := START.(beforeFmt := beforeFmt);
    LoopDecodesFmt(h, ext, mid, s1);
    if DecodeFmt(FmtData(h, ext)).Ok? {
      var s2 := s1.(fmt := Some((DecodeFmt(FmtData(h, ext)).value, WrittenExtension(h, ext))));
      LoopCollects(beforeData, tail, s2);
      LoopStopsAtData(size, rest, s2.(beforeData := beforeData));
    }
  }

  lemma RiffHeaderParses(size: u32, rest: bytes)
    ensures ReadRiffHeader(RiffHeader(size) + rest) == Ok(rest)
  {
    hide Le32;
    var b := RiffHeader(size) + rest;
    assert b[..4] == RIFF && b[8..12] == WAVE && b[12..] == rest;
  }

  lemma {:induction false} TrailingParses(cs: seq<WavChunk>)
    requires AllFit(cs)
    ensures ReadTrailing(PutChunks(cs, [])) == Ok(cs)
  {
    hide PutChunk, ReadChunk, ReadChunkHeader, Padding;
    if cs == [] {
      NothingTrails();
    } else {
      var later := PutChunks(cs[1..], []);
      HeaderOfPut(cs[0], later);
      ChunkOfPut(cs[0], later);
      TrailingParses(cs[1..]);
      assert [cs[0]] + cs[1..] == cs;
    }
  }

  lemma NothingTrails()
    ensures ReadTrailing([]) == Ok([])
  {
  }

  // ----- What the parser can return -----

  /** Format and data chunks never end up in the lists of ordinary chunks. */
  lemma {:induction false} ParsedChunksAreOrdinary(b: bytes, s: Progress)
    requires AllOrdinary(s.beforeFmt) && AllOrdinary(s.beforeData)
    ensures var r := ParseLoop(b, s);
            r.Ok? ==> AllOrdinary(r.value.0.beforeFmt) && AllOrdinary(r.value.0.beforeData)
    decreases |b|
  {
    var next := ReadChunkHeader(b);
    if next.Ok? && next.value.Some? {
      var (h, b1) := next.value.value;
      var read := ReadChunk(b1, h);
      if h.id != DATA && read.Ok? {
        var (chunk, b2) := read.value;
        assert chunk.id == h.id;
        if h.id == FMT {
          var decoded := DecodeFmt(chunk.data);
          if decoded.Ok? {
            ParsedChunksAreOrdinary(b2, s.(fmt := Some((decoded.value, chunk.data[16..]))));
          }
        } else {
          ParsedChunksAreOrdinary(b2, AddChunk(s, chunk));
        }
      }
    }
  }

  // ----- Files -----

  /** No format or data chunk hides among the chunks before the data. */
  predicate NoReserved(beforeFmt: seq<WavChunk>, beforeData: seq<WavChunk>) {
    AllOrdinary(beforeFmt) && AllOrdinary(beforeData)
  }

  /** The value a file reads back as: only an empty extension may have been filled in. */
  function Normalized(w: Wav): Wav {
    w.(fmtExtension := WrittenExtension(w.header, w.fmtExtension))
  }

  function NormalizedPreamble(p: WavPreamble, size: u32): WavPreamble {
    p.(fmtExtension := WrittenExtension(p.header, p.fmtExtension), dataSize := size)
  }

  /** The data chunk is its header, then its bytes, padding and what follows. */
  lemma DataChunkBytes(data: bytes, rest: bytes)
    requires |data| <= U32_MAX
    ensures PutChunk(WavChunk(DATA, data), rest) == DATA + (Le32(|data|) + (data + (Padding(|data|) + rest)))
  {
  }

  lemma PreambleOf(beforeFmt: seq<WavChunk>, h: WavHeader, ext: bytes, beforeData: seq<WavChunk>, riff: u32,
                   size: u32, rest: bytes)
    requires AllFit(beforeFmt) && AllFit(beforeData) && Fits(FmtChunk(h, ext))
    requires NoReserved(beforeFmt, beforeData)
    ensures ReadPreamble(RiffHeader(riff) + PutPreamble(beforeFmt, h, ext, beforeData, DATA + (Le32(size) + rest)))
         == var decoded := DecodeFmt(FmtData(h, ext));
            if decoded.Err? then Err(decoded.error)
            else Ok((WavPreamble(beforeFmt, decoded.value, WrittenExtension(h, ext), beforeData, size), rest))
  {
    hide PutPreamble, RiffHeader, ReadRiffHeader, ParseLoop, DecodeFmt, FmtData, WrittenExtension, Le32;
    RiffHeaderParses(riff, PutPreamble(beforeFmt, h, ext, beforeData, DATA + (Le32(size) + rest)));
    PreambleParses(beforeFmt, h, ext, beforeData, size, rest);
  }

  /** The rest of a file, after its preamble has been read. */
  lemma BodyParses(p: WavPreamble, data: bytes, after: seq<WavChunk>)
    requires |data| == p.dataSize <= U32_MAX && AllFit(after)
    ensures var b := data + (Padding(|data|) + PutChunks(after, []));
            && TakeBytes(b, p.dataSize) == Ok((data, Padding(|data|) + PutChunks(after, [])))
            && SkipPadding(Padding(|data|) + PutChunks(after, []), p.dataSize) == Ok(PutChunks(after, []))
            && ReadTrailing(PutChunks(after, [])) == Ok(after)
  {
    hide PutChunks, ReadTrailing, TakeBytes, SkipPadding, Padding;
    DataOfPut(data, PutChunks(after, []));
    TrailingParses(after);
  }

  /** Reading a printed file whose chunk lists are clean: everything but the header is certain. */
  lemma ReadOfCleanWrite(w: Wav)
    requires Writable(w) && NoReserved(w.beforeFmt, w.beforeData)
    ensures Read(Write(w).value)
         == var decoded := DecodeFmt(FmtData(w.header, w.fmtExtension));
            if decoded.Err? then Err(decoded.error) else Ok(Normalized(w).(header := decoded.value))
  {
    WritableFits(w);
    var tail := PutChunks(w.afterData, []);
    var body := w.data + (Padding(|w.data|) + tail);
    var h, ext := w.header, w.fmtExtension;
    DataChunkBytes(w.data, tail);
    assert Write(w).value
        == RiffHeader(RiffSize(w))
           + PutPreamble(w.beforeFmt, h, ext, w.beforeData, DATA + (Le32(|w.data|) + body)) by {
      hide PutChunks, PutPreamble, RiffHeader, RiffSize, Padding, FmtChunk, Le32;
    }
    hide *;
    PreambleOf(w.beforeFmt, h, ext, w.beforeData, RiffSize(w), |w.data|, body);
    var decoded := DecodeFmt(FmtData(h, ext));
    if decoded.Ok? {
      var p := WavPreamble(w.beforeFmt, decoded.value, WrittenExtension(h, ext), w.beforeData, |w.data|);
      BodyParses(p, w.data, w.afterData);
      ReadFromParts(Write(w).value, p, body, w.data, Padding(|w.data|) + tail, tail, w.afterData);
      NormalizedParts(w, decoded.value);
    } else {
      ReadFails(Write(w).value, decoded.error);
    }
  }

  lemma NormalizedParts(w: Wav, header: WavHeader)
    ensures Normalized(w).(header := header)
         == Wav(w.beforeFmt, header, WrittenExtension(w.header, w.fmtExtension), w.beforeData, w.data, w.afterData)
  {
  }

  lemma ReadFails(b: bytes, e: WavError)
    requires ReadPreamble(b) == Err(e)
    ensures Read(b) == Err(e)
  {
    hide ReadPreamble;
  }

  /** `Wav::read` is the preamble, then `data_size` bytes, the padding, and the trailing chunks. */
  lemma ReadFromParts(b: bytes, p: WavPreamble, b1: bytes, data: bytes, b2: bytes, b3: bytes, after: seq<WavChunk>)
    requires ReadPreamble(b) == Ok((p, b1))
    requires TakeBytes(b1, p.dataSize) == Ok((data, b2)) && SkipPadding(b2, p.dataSize) == Ok(b3)
    requires ReadTrailing(b3) == Ok(after)
    ensures Read(b) == Ok(Wav(p.beforeFmt, p.header, p.fmtExtension, p.beforeData, data, after))
  {
    hide ReadPreamble, TakeBytes, SkipPadding, ReadTrailing;
  }

  /** The trailing chunks account for the rest of the input, up to an incomplete identifier at its end. */
  lemma {:induction false} TrailingConsumes(b: bytes)
    requires ReadTrailing(b).Ok?
    ensures TotalSize(ReadTrailing(b).value) <= |b| < TotalSize(ReadTrailing(b).value) + 4
    decreases |b|
  {
    var next := ReadChunkHeader(b).value;
    if next.Some? {
      var (h, b1) := next.value;
      var (chunk, b2) := ReadChunk(b1, h).value;
      TrailingConsumes(b2);
      ChunkConsumes(b, h, b1);
      hide ReadChunkHeader, ReadChunk, SerializedSize;
      assert ReadTrailing(b).value[1..] == ReadTrailing(b2).value;
    }
  }

  lemma ChunkConsumes(b: bytes, h: ChunkHeader, b1: bytes)
    requires ReadChunkHeader(b) == Ok(Some((h, b1))) && ReadChunk(b1, h).Ok?
    ensures var (chunk, b2) := ReadChunk(b1, h).value;
            |b| == SerializedSize(chunk) + |b2|
  {
  }

  /** The data chunk's own bytes in the file: payload and padding. */
  function PaddedSize(size: u32): nat {
    size + size % 2
  }

  /**
   * A whole-file read agrees with a preamble read of the same input: same metadata and the same
   * errors; it succeeds exactly when the declared data and its padding are there and whole chunks
   * follow them, takes its data from where the preamble ended, and leaves less than an identifier.
   */
  lemma ReadAgreesWithPreamble(b: bytes)
    ensures ReadPreamble(b).Err? ==> Read(b) == Err(ReadPreamble(b).error)
    ensures ReadPreamble(b).Ok? ==>
              var (p, rest) := ReadPreamble(b).value;
              var used := PaddedSize(p.dataSize);
              && (Read(b).Ok? <==> used <= |rest| && ReadTrailing(rest[used..]).Ok?)
              && (Read(b).Ok? ==>
                    var w := Read(b).value;
                    && WavPreamble(w.beforeFmt, w.header, w.fmtExtension, w.beforeData, |w.data|) == p
                    && w.data <= rest
                    && used + TotalSize(w.afterData) <= |rest| < used + TotalSize(w.afterData) + 4)
  {
    hide ReadPreamble, ReadTrailing, TotalSize;
    if ReadPreamble(b).Ok? {
      var (p, rest) := ReadPreamble(b).value;
      var used := PaddedSize(p.dataSize);
      DataAndPadding(rest, p.dataSize);
      if used <= |rest| && ReadTrailing(rest[used..]).Ok? {
        TrailingConsumes(rest[used..]);
      }
    }
  }

  lemma DataAndPadding(rest: bytes, size: u32)
    ensures PaddedSize(size) <= |rest| ==>
              && TakeBytes(rest, size) == Ok((rest[..size], rest[size..]))
              && SkipPadding(rest[size..], size) == Ok(rest[PaddedSize(size)..])
    ensures PaddedSize(size) > |rest| ==>
              TakeBytes(rest, size).Err? || SkipPadding(TakeBytes(rest, size).value.1, size).Err?
  {
  }

  lemma ReadIsOrdinary(b: bytes)
    requires Read(b).Ok?
    ensures NoReserved(Read(b).value.beforeFmt, Read(b).value.beforeData)
  {
    hide ParseLoop, TakeBytes, SkipPadding, ReadTrailing;
    ParsedChunksAreOrdinary(ReadRiffHeader(b).value, START);
  }

  /**
   * The round trip: of all values that can be written, exactly those with clean chunk lists and a
   * representable header and extension read back as themselves, up to filling in an empty extension.
   */
  lemma ReadOfWrite(w: Wav)
    requires Write(w).Ok?
    ensures Read(Write(w).value) == Ok(Normalized(w))
      <==> NoReserved(w.beforeFmt, w.beforeData) && Representable(w.header, w.fmtExtension)
  {
    var b := Write(w).value;
    FmtRoundTrip(w.header, w.fmtExtension);
    if NoReserved(w.beforeFmt, w.beforeData) {
      ReadOfCleanWrite(w);
    } else if Read(b).Ok? {
      ReadIsOrdinary(b);
    }
    hide Read, NoReserved, Representable, DecodeFmt, FmtData, WrittenExtension, PutPreamble, PutChunk, PutChunks,
         RiffHeader, RiffSize;
  }

  /** Hence writing what was read back gives the same file. */
  lemma WriteReadWrite(w: Wav)
    requires Write(w).Ok? && NoReserved(w.beforeFmt, w.beforeData) && Representable(w.header, w.fmtExtension)
    ensures Read(Write(w).value).Ok? && Write(Read(Write(w).value).value) == Write(w)
  {
    ReadOfWrite(w);
    hide Read, NoReserved, Representable;
    NormalizedWritesSame(w);
  }

  lemma NormalizedWritesSame(w: Wav)
    ensures Write(Normalized(w)) == Write(w)
  {
    hide FmtData, WrittenExtension, PutChunk, PutChunks, RiffHeader, SerializedSize, TotalSize, AllFit;
    ExtensionIsStable(w.header, w.fmtExtension);
  }

  /** The streaming preamble, followed by any samples, gives the preamble back under the same conditions. */
  lemma PreambleOfStream(p: WavPreamble, samples: bytes)
    requires WriteStream(p).Ok?
    ensures ReadPreamble(WriteStream(p).value + samples) == Ok((NormalizedPreamble(p, U32_MAX), samples))
      <==> NoReserved(p.beforeFmt, p.beforeData) && Representable(p.header, p.fmtExtension)
  {
    var b := WriteStream(p).value + samples;
    FmtRoundTrip(p.header, p.fmtExtension);
    if NoReserved(p.beforeFmt, p.beforeData) {
      StreamBytes(p, samples);
      PreambleOf(p.beforeFmt, p.header, p.fmtExtension, p.beforeData, U32_MAX, U32_MAX, samples);
    } else if ReadPreamble(b).Ok? {
      ParsedChunksAreOrdinary(ReadRiffHeader(b).value, START);
    }
    hide ReadPreamble, Representable, DecodeFmt, FmtData, WrittenExtension, PutPreamble, RiffHeader, Le32;
  }

  lemma StreamBytes(p: WavPreamble, samples: bytes)
    requires WriteStream(p).Ok?
    ensures WriteStream(p).value + samples
         == RiffHeader(U32_MAX)
            + PutPreamble(p.beforeFmt, p.header, p.fmtExtension, p.beforeData, DATA + (Le32(U32_MAX) + samples))
  {
    hide PutChunk, PutChunks, RiffHeader, FmtChunk, Le32;
    var last := DATA + Le32(U32_MAX);
    assert last + samples == DATA + (Le32(U32_MAX) + samples);
    PreambleAppend(p.beforeFmt, p.header, p.fmtExtension, p.beforeData, last, samples);
    var body := PutPreamble(p.beforeFmt, p.header, p.fmtExtension, p.beforeData, last);
    assert RiffHeader(U32_MAX) + body + samples == RiffHeader(U32_MAX) + (body + samples);
  }

  lemma ChunkAppend(c: WavChunk, rest: bytes, tail: bytes)
    requires Fits(c)
    ensures PutChunk(c, rest) + tail == PutChunk(c, rest + tail)
    ensures |PutChunk(c, rest)| == SerializedSize(c) + |rest|
  {
    hide Le32;
    var pad := Padding(|c.data|);
    assert pad + rest + tail == pad + (rest + tail);
    assert c.data + (pad + rest) + tail == c.data + (pad + (rest + tail));
    assert Le32(|c.data|) + (c.data + (pad + rest)) + tail == Le32(|c.data|) + (c.data + (pad + (rest + tail)));
    assert PutChunk(c, rest) + tail == c.id + (Le32(|c.data|) + (c.data + (pad + rest)) + tail);
  }

  lemma {:induction false} ChunksAppend(cs: seq<WavChunk>, rest: bytes, tail: bytes)
    requires AllFit(cs)
    ensures PutChunks(cs, rest) + tail == PutChunks(cs, rest + tail)
    ensures |PutChunks(cs, rest)| == TotalSize(cs) + |rest|
  {
    hide PutChunk, SerializedSize;
    if cs != [] {
      ChunksAppend(cs[1..], rest, tail);
      ChunkAppend(cs[0], PutChunks(cs[1..], rest), tail);
    }
  }

  lemma PreambleAppend(beforeFmt: seq<WavChunk>, h: WavHeader, ext: bytes, beforeData: seq<WavChunk>, rest: bytes,
                       tail: bytes)
    requires AllFit(beforeFmt) && AllFit(beforeData) && Fits(FmtChunk(h, ext))
    ensures PutPreamble(beforeFmt, h, ext, beforeData, rest) + tail
         == PutPreamble(beforeFmt, h, ext, beforeData, rest + tail)
    ensures |PutPreamble(beforeFmt, h, ext, beforeData, rest)|
         == TotalSize(beforeFmt) + SerializedSize(FmtChunk(h, ext)) + TotalSize(beforeData) + |rest|
  {
    hide PutChunk, PutChunks, FmtChunk, SerializedSize;
    var mid := PutChunks(beforeData, rest);
    ChunksAppend(beforeData, rest, tail);
    ChunkAppend(FmtChunk(h, ext), mid, tail);
    ChunksAppend(beforeFmt, PutChunk(FmtChunk(h, ext), mid), tail);
  }

  /** A successful write emits exactly eight bytes more than its RIFF size field says, and says so. */
  lemma WrittenSize(w: Wav)
    requires Write(w).Ok?
    ensures var b := Write(w).value;
            && |b| == 8 + RiffSize(w)
            && From32(b[4..8]) == RiffSize(w)
  {
    WritableFits(w);
    var data := WavChunk(DATA, w.data);
    var tail := PutChunks(w.afterData, []);
    ChunksAppend(w.afterData, [], []);
    ChunkAppend(data, tail, []);
    PreambleAppend(w.beforeFmt, w.header, w.fmtExtension, w.beforeData, PutChunk(data, tail), []);
    Le32RoundTrip(RiffSize(w));
    hide PutChunk, PutChunks, PutPreamble, FmtChunk, SerializedSize, TotalSize, Le32, From32;
    assert Write(w).value[4..8] == Le32(RiffSize(w));
  }
}
