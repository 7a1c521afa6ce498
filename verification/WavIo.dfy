/** Reading and writing WAV data through a mutable byte stream (src/audio/wav.rs). */
module WavIo {
  import opened Basics
  import opened Wavs
  import opened WavLaws

  /** A `Read` over bytes; only the end of input can fail. */
  class ByteReader {
    var left: bytes

    constructor (data: bytes)
      ensures left == data
    {
      left := data;
    }

    method ReadExact(n: nat) returns (r: Result<bytes, WavError>)
      modifies this
      ensures TakeBytes(old(left), n).Ok? ==> r.Ok? && TakeBytes(old(left), n) == Ok((r.value, left))
      ensures TakeBytes(old(left), n).Err? ==> r == Err(UnexpectedEof)
    {
      if |left| < n {
        left := [];
        return Err(UnexpectedEof);
      }
      r := Ok(left[..n]);
      left := left[n..];
    }

    method ReadChunkHeader() returns (r: Result<Option<ChunkHeader>, WavError>)
      modifies this
      ensures var spec := Wavs.ReadChunkHeader(old(left));
              && (spec.Err? ==> r == Err(spec.error))
              && (spec.Ok? && spec.value.None? ==> r == Ok(None))
              && (spec.Ok? && spec.value.Some? ==> r == Ok(Some(spec.value.value.0)) && left == spec.value.value.1)
    {
      var id := ReadExact(4);
      if id.Err? {
        return Ok(None);
      }
      var size := ReadExact(4);
      if size.Err? {
        return Err(size.error);
      }
      r := Ok(Some(ChunkHeader(id.value, From32(size.value))));
    }

    method SkipPadding(size: u32) returns (r: Result<(), WavError>)
      modifies this
      ensures var spec := Wavs.SkipPadding(old(left), size);
              && (spec.Err? ==> r == Err(spec.error))
              && (spec.Ok? ==> r.Ok? && left == spec.value)
    {
      if size % 2 == 1 {
        var padding := ReadExact(1);
        if padding.Err? {
          return Err(padding.error);
        }
      }
      r := Ok(());
    }

    method ReadChunk(h: ChunkHeader) returns (r: Result<WavChunk, WavError>)
      modifies this
      ensures var spec := Wavs.ReadChunk(old(left), h);
              && (spec.Err? ==> r == Err(spec.error))
              && (spec.Ok? ==> r == Ok(spec.value.0) && left == spec.value.1)
    {
      hide Wavs.SkipPadding;
      var data := ReadExact(h.size);
      if data.Err? {
        return Err(data.error);
      }
      var skipped := SkipPadding(h.size);
      if skipped.Err? {
        return Err(skipped.error);
      }
      r := Ok(WavChunk(h.id, data.value));
    }

    method ReadRiffHeader() returns (r: Result<(), WavError>)
      modifies this
      ensures var spec := Wavs.ReadRiffHeader(old(left));
              && (spec.Err? ==> r == Err(spec.error))
              && (spec.Ok? ==> r.Ok? && left == spec.value)
    {
      ghost var b := left;
      var magic := ReadExact(4);
      if magic.Err? {
        return Err(magic.error);
      }
      if magic.value != RIFF {
        return Err(InvalidMagic(magic.value, RIFF));
      }
      var size := ReadExact(4);
      if size.Err? {
        return Err(size.error);
      }
      assert left == b[8..];
      var form := ReadExact(4);
      if form.Err? {
        return Err(form.error);
      }
      assert form.value == b[8..12];
      if form.value != WAVE {
        return Err(InvalidMagic(form.value, WAVE));
      }
      assert left == b[12..];
      r := Ok(());
    }

    /** `WavPreamble::read`: leaves the reader at the first data byte. */
    method ReadPreamble() returns (r: Result<WavPreamble, WavError>)
      modifies this
      ensures var spec := Wavs.ReadPreamble(old(left));
              && (spec.Err? ==> r == Err(spec.error))
              && (spec.Ok? ==> r == Ok(spec.value.0) && left == spec.value.1)
    {
      hide Wavs.ReadRiffHeader, Wavs.ReadChunkHeader, Wavs.ReadChunk, Wavs.DecodeFmt;
      ghost var b := left;
      var riff := ReadRiffHeader();
      if riff.Err? {
        return Err(riff.error);
      }
      var chunksBeforeFmt: seq<WavChunk> := [];
      var chunksBeforeData: seq<WavChunk> := [];
      var header: Option<WavHeader> := None;
      var fmtExtension: bytes := [];
      while true
        invariant Wavs.ReadPreamble(b)
               == ParseLoop(left, Collected(chunksBeforeFmt, header, fmtExtension, chunksBeforeData))
        decreases |left|
      {
        ghost var s := Collected(chunksBeforeFmt, header, fmtExtension, chunksBeforeData);
        ghost var before := left;
        var next := ReadChunkHeader();
        if next.Err? {
          return Err(next.error);
        }
        if next.value.None? {
          return Err(if header.Some? then MissingDataChunk else MissingFmtChunk);
        }
        var chunkHeader := next.value.value;
        if chunkHeader.id == DATA {
          if header.None? {
            return Err(DataBeforeFmt);
          }
          return Ok(WavPreamble(chunksBeforeFmt, header.value, fmtExtension, chunksBeforeData, chunkHeader.size));
        }
        ChunkKeepsId(left, chunkHeader);
        var chunk := ReadChunk(chunkHeader);
        if chunk.Err? {
          return Err(chunk.error);
        }
        if chunk.value.id == FMT {
          var decoded := DecodeFmt(chunk.value.data);
          if decoded.Err? {
            return Err(decoded.error);
          }
          DecodedIsLong(chunk.value.data);
          fmtExtension := chunk.value.data[16..];
          header := Some(decoded.value);
        } else if header.Some? {
          chunksBeforeData := chunksBeforeData + [chunk.value];
        } else {
          chunksBeforeFmt := chunksBeforeFmt + [chunk.value];
        }
      }
    }

    /** `Wav::read`. */
    method ReadWav() returns (r: Result<Wav, WavError>)
      modifies this
      ensures r == Wavs.Read(old(left))
    {
      hide Wavs.ReadPreamble, Wavs.SkipPadding, Wavs.ReadChunkHeader, Wavs.ReadChunk;
      var preamble := ReadPreamble();
      if preamble.Err? {
        return Err(preamble.error);
      }
      var p := preamble.value;
      var data := ReadExact(p.dataSize);
      if data.Err? {
        return Err(data.error);
      }
      var skipped := SkipPadding(p.dataSize);
      if skipped.Err? {
        return Err(skipped.error);
      }
      var after := ReadRest();
      if after.Err? {
        return Err(after.error);
      }
      r := Ok(Wav(p.beforeFmt, p.header, p.fmtExtension, p.beforeData, data.value, after.value));
    }

    /** The loop over the chunks after the data. */
    method ReadRest() returns (r: Result<seq<WavChunk>, WavError>)
      modifies this
      ensures r == ReadTrailing(old(left))
    {
      hide Wavs.ReadChunkHeader, Wavs.ReadChunk;
      ghost var b := left;
      var chunks: seq<WavChunk> := [];
      PrependNothing(ReadTrailing(b));
      while true
        invariant ReadTrailing(b) == Prepend(chunks, ReadTrailing(left))
        decreases |left|
      {
        ghost var rest := ReadTrailing(left);
        var next := ReadChunkHeader();
        if next.Err? {
          return Err(next.error);
        }
        if next.value.None? {
          assert chunks + [] == chunks;
          return Ok(chunks);
        }
        var chunk := ReadChunk(next.value.value);
        if chunk.Err? {
          return Err(chunk.error);
        }
        PrependSnoc(chunks, chunk.value, ReadTrailing(left));
        chunks := chunks + [chunk.value];
      }
    }
  }

  function Collected(beforeFmt: seq<WavChunk>, header: Option<WavHeader>, ext: bytes, beforeData: seq<WavChunk>)
    : Progress
  {
    Progress(beforeFmt, if header.Some? then Some((header.value, ext)) else None, beforeData)
  }

  function Prepend(chunks: seq<WavChunk>, rest: Result<seq<WavChunk>, WavError>): Result<seq<WavChunk>, WavError> {
    if rest.Ok? then Ok(chunks + rest.value) else rest
  }

  lemma PrependNothing(rest: Result<seq<WavChunk>, WavError>)
    ensures Prepend([], rest) == rest
  {
    if rest.Ok? {
      assert [] + rest.value == rest.value;
    }
  }

  lemma PrependSnoc(chunks: seq<WavChunk>, c: WavChunk, rest: Result<seq<WavChunk>, WavError>)
    ensures rest.Ok? ==> Prepend(chunks + [c], rest) == Prepend(chunks, Ok([c] + rest.value))
  {
    if rest.Ok? {
      assert chunks + [c] + rest.value == chunks + ([c] + rest.value);
    }
  }

  lemma ChunkKeepsId(b: bytes, h: ChunkHeader)
    ensures Wavs.ReadChunk(b, h).Ok? ==> Wavs.ReadChunk(b, h).value.0.id == h.id
  {
  }

  lemma DecodedIsLong(d: bytes)
    requires DecodeFmt(d).Ok?
    ensures |d| >= 16
  {
  }

  /** A `Write` into a growing buffer. */
  class ByteWriter {
    var out: bytes

    constructor ()
      ensures out == []
    {
      out := [];
    }

    method WriteAll(b: bytes)
      modifies this
      ensures out == old(out) + b
    {
      out := out + b;
    }

    /** A refused chunk writes nothing. */
    method WriteChunk(c: WavChunk) returns (ok: bool)
      modifies this
      ensures ok <==> Fits(c)
      ensures out == if ok then old(out) + PutChunk(c, []) else old(out)
    {
      if |c.data| > U32_MAX {
        return false;
      }
      hide Le32, Padding;
      ghost var start := out;
      WriteAll(c.id);
      WriteAll(Le32(|c.data|));
      WriteAll(c.data);
      assert Padding(|c.data|) == if |c.data| % 2 == 1 then [0] else [] by {
        PaddingIs(|c.data|);
      }
      if |c.data| % 2 == 1 {
        WriteAll([0]);
      }
      ok := true;
      WrittenChunk(start, c, out);
    }

    /** Stops at the first chunk that is refused; the ones before it have been written. */
    method WriteChunks(cs: seq<WavChunk>) returns (ok: bool)
      modifies this
      ensures ok <==> AllFit(cs)
      ensures out == old(out) + PutChunks(FittingPrefix(cs), [])
    {
      hide PutChunk, PutChunks, Fits, FittingPrefix;
      ghost var start := out;
      NoChunks();
      for i := 0 to |cs|
        invariant AllFit(cs[..i])
        invariant out == start + PutChunks(cs[..i], [])
      {
        var written := WriteChunk(cs[i]);
        if !written {
          FirstMisfit(cs, i);
          return false;
        }
        OneMoreChunk(cs, i);
      }
      ok := true;
      assert cs[..|cs|] == cs;
      AllFitting(cs);
    }

    method WriteRiffHeader(size: u32)
      modifies this
      ensures out == old(out) + RiffHeader(size)
    {
      hide Le32;
      WriteAll(RIFF);
      WriteAll(Le32(size));
      WriteAll(WAVE);
    }

    /** `Wav::write`: a file too large for its size field is refused before anything is written. */
    method WriteWav(w: Wav) returns (ok: bool)
      modifies this
      ensures ok <==> Write(w).Ok?
      ensures out == if ok then old(out) + Write(w).value else old(out)
    {
      hide PutChunk, PutChunks, RiffHeader, FmtData, RiffSize, AllFit, Fits, Write, FittingPrefix;
      WriteSucceedsWhen(w);
      var fmtChunk := IntoWavChunk(w.header, w.fmtExtension);
      var dataChunk := WavChunk(DATA, w.data);
      var riffSize := RiffSize(w);
      if riffSize > U32_MAX {
        return false;
      }
      ghost var start := out;
      FileInParts(w, start);
      AllFitting(w.beforeFmt);
      AllFitting(w.beforeData);
      AllFitting(w.afterData);
      WriteRiffHeader(riffSize);
      var written := WriteChunks(w.beforeFmt);
      written := WriteChunk(fmtChunk);
      written := WriteChunks(w.beforeData);
      written := WriteChunk(dataChunk);
      written := WriteChunks(w.afterData);
      ok := true;
    }

    /** `WavPreamble::write_stream`: the samples are to follow. A refused chunk leaves what precedes it written. */
    method WriteStream(p: WavPreamble) returns (ok: bool)
      modifies this
      ensures ok <==> Wavs.WriteStream(p).Ok?
      ensures out == old(out) + StreamWritten(p)
      ensures ok ==> out == old(out) + Wavs.WriteStream(p).value
    {
      hide PutChunk, PutChunks, RiffHeader, FmtData, AllFit, Fits, Le32, Wavs.WriteStream, FittingPrefix;
      StreamSucceedsWhen(p);
      ghost var start := out;
      WriteRiffHeader(U32_MAX);
      ok := WriteChunks(p.beforeFmt);
      if !ok {
        RegroupLast(start, RiffHeader(U32_MAX), PutChunks(FittingPrefix(p.beforeFmt), []));
        return;
      }
      var fmtChunk := IntoWavChunk(p.header, p.fmtExtension);
      ok := WriteChunk(fmtChunk);
      if !ok {
        RegroupLast(start, RiffHeader(U32_MAX), PutChunks(FittingPrefix(p.beforeFmt), []));
        return;
      }
      ok := WriteChunks(p.beforeData);
      if ok {
        WriteAll(DATA);
        WriteAll(Le32(U32_MAX));
        StreamWrittenWhole(p);
      }
      StreamParts(p, start, ok);
    }
  }

  /** The longest prefix of chunks that are all accepted. */
  function FittingPrefix(cs: seq<WavChunk>): (r: seq<WavChunk>)
    ensures AllFit(r) && r <= cs
  {
    if cs == [] || !Fits(cs[0]) then [] else [cs[0]] + FittingPrefix(cs[1..])
  }

  lemma {:induction false} AllFitting(cs: seq<WavChunk>)
    requires AllFit(cs)
    ensures FittingPrefix(cs) == cs
  {
    hide Fits;
    if cs != [] {
      AllFitting(cs[1..]);
    }
  }

  lemma {:induction false} FirstMisfit(cs: seq<WavChunk>, i: nat)
    requires i < |cs| && AllFit(cs[..i]) && !Fits(cs[i])
    ensures FittingPrefix(cs) == cs[..i]
  {
    hide Fits;
    if i > 0 {
      assert cs[..i][0] == cs[0];
      assert cs[1..][..i - 1] == cs[..i][1..];
      FirstMisfit(cs[1..], i - 1);
    }
  }

  /** What a streaming write puts out: the whole preamble, or everything up to the first refused chunk. */
  function StreamWritten(p: WavPreamble): bytes {
    var fmt := FmtChunk(p.header, p.fmtExtension);
    var start := RiffHeader(U32_MAX) + PutChunks(FittingPrefix(p.beforeFmt), []);
    if !AllFit(p.beforeFmt) || !Fits(fmt) then start
    else start + StreamRest(fmt, p.beforeData)
  }

  function StreamRest(fmt: WavChunk, beforeData: seq<WavChunk>): bytes
    requires Fits(fmt)
  {
    PutChunk(fmt, []) + PutChunks(FittingPrefix(beforeData), [])
    + if AllFit(beforeData) then DATA + Le32(U32_MAX) else []
  }

  /** On success the whole printed preamble has been written. */
  lemma StreamWrittenWhole(p: WavPreamble)
    requires Wavs.WriteStream(p).Ok?
    ensures StreamWritten(p) == Wavs.WriteStream(p).value
  {
    hide PutChunk, PutChunks, RiffHeader, FmtData, Le32, FittingPrefix;
    AllFitting(p.beforeFmt);
    AllFitting(p.beforeData);
    StreamInParts(p, []);
    var fmt := FmtChunk(p.header, p.fmtExtension);
    assert [] + Wavs.WriteStream(p).value == Wavs.WriteStream(p).value;
    assert [] + RiffHeader(U32_MAX) == RiffHeader(U32_MAX);
    StreamShape(RiffHeader(U32_MAX), PutChunks(p.beforeFmt, []), PutChunk(fmt, []), PutChunks(p.beforeData, []), DATA,
                Le32(U32_MAX));
  }

  lemma StreamShape(a: bytes, b: bytes, c: bytes, d: bytes, e: bytes, f: bytes)
    ensures a + b + (c + d + (e + f)) == a + b + c + d + e + f
  {
  }

  lemma StreamParts(p: WavPreamble, start: bytes, ok: bool)
    requires AllFit(p.beforeFmt) && Fits(FmtChunk(p.header, p.fmtExtension)) && ok == AllFit(p.beforeData)
    ensures start + StreamWritten(p)
         == start + RiffHeader(U32_MAX) + PutChunks(FittingPrefix(p.beforeFmt), [])
            + PutChunk(FmtChunk(p.header, p.fmtExtension), []) + PutChunks(FittingPrefix(p.beforeData), [])
            + (if ok then DATA else []) + (if ok then Le32(U32_MAX) else [])
  {
    hide PutChunk, PutChunks, RiffHeader, FmtData, Le32, FittingPrefix, AllFit, Fits;
    var fmt := FmtChunk(p.header, p.fmtExtension);
    var e, f := if ok then DATA else [], if ok then Le32(U32_MAX) else [];
    var a, b := RiffHeader(U32_MAX), PutChunks(FittingPrefix(p.beforeFmt), []);
    var c, d := PutChunk(fmt, []), PutChunks(FittingPrefix(p.beforeData), []);
    assert StreamWritten(p) == a + b + (c + d + (e + f));
    StreamShape(a, b, c, d, e, f);
    StartShape(start, a, b, c, d, e, f);
  }

  lemma StartShape(start: bytes, a: bytes, b: bytes, c: bytes, d: bytes, e: bytes, f: bytes)
    ensures start + (a + b + c + d + e + f) == start + a + b + c + d + e + f
  {
  }

  /** `WavHeader::into_wav_chunk`: the fields are appended to a buffer one by one. */
  method IntoWavChunk(h: WavHeader, ext: bytes) returns (c: WavChunk)
    ensures c == FmtChunk(h, ext)
  {
    hide Le16, Le32, ByteRate, BlockAlign, CanonicalExtension, TagOf, NeedsExtensible;
    var needsExtensible := |ext| >= 24 || NeedsExtensible(h);
    var extension := if ext == [] && needsExtensible then CanonicalExtension(h) else ext;
    var formatTag := if needsExtensible then WAVE_FORMAT_EXTENSIBLE else TagOf(h.audioFormat);
    assert formatTag == WrittenTag(h, ext) && extension == WrittenExtension(h, ext);
    hide WrittenTag, WrittenExtension;
    var data: bytes := [];
    data := data + Le16(formatTag);
    data := data + Le16(h.channels);
    data := data + Le32(h.sampleRate);
    data := data + Le32(ByteRate(h));
    data := data + Le16(BlockAlign(h));
    data := data + Le16(h.bitsPerSample);
    data := data + extension;
    c := WavChunk(FMT, data);
  }

  lemma PaddingIs(n: nat)
    ensures Padding(n) == if n % 2 == 1 then [0] else []
  {
  }

  lemma WrittenChunk(start: bytes, c: WavChunk, out: bytes)
    requires Fits(c) && out == start + c.id + Le32(|c.data|) + c.data + Padding(|c.data|)
    ensures out == start + PutChunk(c, [])
  {
    hide Le32, Padding;
    var pad, size := Padding(|c.data|), Le32(|c.data|);
    assert pad + [] == pad;
    assert start + (c.id + (size + (c.data + pad))) == start + c.id + size + c.data + pad;
  }

  lemma NoChunks()
    ensures PutChunks([], []) == []
  {
  }

  lemma OneMoreChunk(cs: seq<WavChunk>, i: nat)
    requires i < |cs| && AllFit(cs[..i]) && Fits(cs[i])
    ensures AllFit(cs[..i + 1])
    ensures PutChunks(cs[..i + 1], []) == PutChunks(cs[..i], []) + PutChunk(cs[i], [])
  {
    assert cs[..i + 1] == cs[..i] + [cs[i]];
    SnocChunk(cs[..i], cs[i]);
  }

  lemma {:induction false} SnocChunk(cs: seq<WavChunk>, c: WavChunk)
    requires AllFit(cs) && Fits(c)
    ensures AllFit(cs + [c])
    ensures PutChunks(cs + [c], []) == PutChunks(cs, []) + PutChunk(c, [])
  {
    hide PutChunk, Fits;
    assert AllFit(cs + [c]);
    if cs == [] {
      assert cs + [c] == [c] && [c][1..] == [];
      assert PutChunks([c], []) == PutChunk(c, PutChunks([], []));
    } else {
      var rest := cs[1..];
      assert (cs + [c])[1..] == rest + [c];
      SnocChunk(rest, c);
      ChunkAppend(cs[0], PutChunks(rest, []), PutChunk(c, []));
    }
  }

  /** A chunk, or a list of them, in front of anything is its own bytes in front of it. */
  lemma ChunkInFront(c: WavChunk, rest: bytes)
    requires Fits(c)
    ensures PutChunk(c, rest) == PutChunk(c, []) + rest
  {
    ChunkAppend(c, [], rest);
    hide PutChunk;
    assert [] + rest == rest;
  }

  lemma ChunksInFront(cs: seq<WavChunk>, rest: bytes)
    requires AllFit(cs)
    ensures PutChunks(cs, rest) == PutChunks(cs, []) + rest
  {
    ChunksAppend(cs, [], rest);
    hide PutChunks;
    assert [] + rest == rest;
  }

  lemma PreambleInParts(beforeFmt: seq<WavChunk>, fmt: WavChunk, beforeData: seq<WavChunk>, rest: bytes)
    requires AllFit(beforeFmt) && AllFit(beforeData) && Fits(fmt)
    ensures PutChunks(beforeFmt, PutChunk(fmt, PutChunks(beforeData, rest)))
         == PutChunks(beforeFmt, []) + (PutChunk(fmt, []) + (PutChunks(beforeData, []) + rest))
  {
    hide PutChunk, PutChunks;
    ChunksInFront(beforeData, rest);
    ChunkInFront(fmt, PutChunks(beforeData, rest));
    ChunksInFront(beforeFmt, PutChunk(fmt, PutChunks(beforeData, rest)));
  }

  lemma WriteSucceedsWhen(w: Wav)
    ensures Write(w).Ok? <==> RiffSize(w) <= U32_MAX
  {
    hide RiffSize, PutPreamble, PutChunk, PutChunks;
  }

  lemma FileInParts(w: Wav, start: bytes)
    requires Write(w).Ok?
    ensures RiffSize(w) <= U32_MAX
    ensures AllFit(w.beforeFmt) && AllFit(w.beforeData) && AllFit(w.afterData)
    ensures Fits(FmtChunk(w.header, w.fmtExtension)) && Fits(WavChunk(DATA, w.data))
    ensures start + Write(w).value
         == start + RiffHeader(RiffSize(w)) + PutChunks(w.beforeFmt, [])
            + PutChunk(FmtChunk(w.header, w.fmtExtension), []) + PutChunks(w.beforeData, [])
            + PutChunk(WavChunk(DATA, w.data), []) + PutChunks(w.afterData, [])
  {
    hide RiffSize, PutChunk, PutChunks, RiffHeader, FmtData;
    WritableFits(w);
    var fmt, data := FmtChunk(w.header, w.fmtExtension), WavChunk(DATA, w.data);
    var after := PutChunks(w.afterData, []);
    PreambleInParts(w.beforeFmt, fmt, w.beforeData, PutChunk(data, after));
    ChunkInFront(data, after);
    Regroup(start, RiffHeader(RiffSize(w)), PutChunks(w.beforeFmt, []), PutChunk(fmt, []), PutChunks(w.beforeData, []),
            PutChunk(data, []) + after);
    RegroupLast(start + RiffHeader(RiffSize(w)) + PutChunks(w.beforeFmt, []) + PutChunk(fmt, [])
                + PutChunks(w.beforeData, []), PutChunk(data, []), after);
  }

  lemma StreamSucceedsWhen(p: WavPreamble)
    ensures Wavs.WriteStream(p).Ok?
      <==> AllFit(p.beforeFmt) && Fits(FmtChunk(p.header, p.fmtExtension)) && AllFit(p.beforeData)
  {
    hide PutPreamble, PutChunk, PutChunks;
  }

  lemma StreamInParts(p: WavPreamble, start: bytes)
    requires Wavs.WriteStream(p).Ok?
    ensures AllFit(p.beforeFmt) && Fits(FmtChunk(p.header, p.fmtExtension)) && AllFit(p.beforeData)
    ensures start + Wavs.WriteStream(p).value
         == start + RiffHeader(U32_MAX) + PutChunks(p.beforeFmt, []) + PutChunk(FmtChunk(p.header, p.fmtExtension), [])
            + PutChunks(p.beforeData, []) + DATA + Le32(U32_MAX)
  {
    hide PutChunk, PutChunks, RiffHeader, FmtData, Le32;
    var fmt := FmtChunk(p.header, p.fmtExtension);
    PreambleInParts(p.beforeFmt, fmt, p.beforeData, DATA + Le32(U32_MAX));
    Regroup(start, RiffHeader(U32_MAX), PutChunks(p.beforeFmt, []), PutChunk(fmt, []), PutChunks(p.beforeData, []),
            DATA + Le32(U32_MAX));
    RegroupLast(start + RiffHeader(U32_MAX) + PutChunks(p.beforeFmt, []) + PutChunk(fmt, [])
                + PutChunks(p.beforeData, []), DATA, Le32(U32_MAX));
  }

  lemma Regroup(start: bytes, a: bytes, b: bytes, c: bytes, d: bytes, e: bytes)
    ensures start + (a + (b + (c + (d + e)))) == start + a + b + c + d + e
  {
  }

  lemma RegroupLast(start: bytes, a: bytes, b: bytes)
    ensures start + (a + b) == start + a + b
  {
  }
}
