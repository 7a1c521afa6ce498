/**
 * The AAF conversions as the source runs them, field by field over local bit readers and writers
 * (src/avtp/formats/aaf/common.rs, pcm.rs), proved against the packing functions of `Aafs`.
 */
module AafCodecs {
  import opened Basics
  import opened BitStreams
  import opened Headers
  import opened Aafs
  import opened AafLaws

  method WriteTail(f: TailFields) returns (d: Bytes2)
    ensures d == PackTail(f)
  {
    WidthLimits();
    var w := new BitWriter();
    ghost var none: bits := [];
    assert Then(none, TailBits(f)) == Then(w.Contents(), TailBits(f));
    hide Put, BitsOf, Then, w.Contents, Pow2;
    w.Write(f.asfd, 3);
    w.Write(Bit(f.sparse), 1);
    w.Write(f.eventFlags, 4);
    w.Write(f.data2, 8);
    TailSize(f);
    FlushedBuffer(w, TailBits(f));
    d := w.emitted;
  }

  lemma TailSize(f: TailFields)
    ensures |TailBits(f)| == 16
  {
  }

  method WritePcmFields(f: PcmFields) returns (d: Bytes3)
    ensures d == PackPcm(f)
  {
    WidthLimits();
    var w := new BitWriter();
    ghost var none: bits := [];
    assert Then(none, PcmFieldBits(f, 0)) == Then(w.Contents(), PcmFieldBits(f, 0));
    hide Put, BitsOf, Then, w.Contents, Pow2;
    w.Write(f.nsr, 4);
    w.Write(0, 2);
    w.Write(f.channels, 10);
    w.Write(f.depth, 8);
    PcmFieldSize(f);
    FlushedBuffer(w, PcmFieldBits(f, 0));
    d := w.emitted;
  }

  lemma PcmFieldSize(f: PcmFields)
    ensures |PcmFieldBits(f, 0)| == 24
  {
  }

  /** A field of a buffer that cannot run out. */
  method ReadPresent(reader: BitReader, width: nat) returns (v: nat)
    requires reader.Valid() && width <= |reader.Remaining()|
    modifies reader
    ensures reader.Valid()
    ensures Field(old(reader.Remaining()), width) == Ok((v, reader.Remaining()))
    ensures v < Pow2(width) && |old(reader.Remaining())| == width + |reader.Remaining()|
  {
    ghost var b := reader.Remaining();
    assert Take(b, width).Ok?;
    var r := reader.Read(width);
    v := r.value;
    PutOfTake(b, width);
  }

  method ReadTail(d: Bytes2) returns (f: TailFields)
    ensures f == UnpackTail(d)
  {
    WidthLimits();
    var reader := new BitReader(d);
    hide Field, reader.Remaining, Pow2, BytesToBits;
    var asfd := ReadPresent(reader, 3);
    var sparse := ReadPresent(reader, 1);
    var evt := ReadPresent(reader, 4);
    var data2 := ReadPresent(reader, 8);
    f := TailFields(asfd, sparse == 1, evt, data2);
  }

  method ReadPcmFields(d: Bytes3) returns (f: PcmFields, reserved: u2)
    ensures (f, reserved) == UnpackPcm(d)
  {
    WidthLimits();
    var reader := new BitReader(d);
    hide Field, reader.Remaining, Pow2, BytesToBits;
    var nsr := ReadPresent(reader, 4);
    reserved := ReadPresent(reader, 2);
    var channels := ReadPresent(reader, 10);
    var depth := ReadPresent(reader, 8);
    f := PcmFields(nsr, channels, depth);
  }

  /** `AafPcm::from_specific`. */
  method PcmFrom(d: AafSpecific) returns (r: Result<AafPcm, InvalidPcm>)
    requires d.format != AES3_32Bit
    ensures r == PcmFromSpecific(d)
  {
    hide UnpackPcm, ValidatePayloadSize;
    var fields, _ := ReadPcmFields(d.data1);
    var rate :- RateFromCode(fields.nsr);
    var depth :- ValidatedBitDepth(fields.depth, d.format);
    if fields.channels == 0 {
      return Err(ChannelsPerFrameZero);
    }
    var _ :- ValidatePayloadSize(d.format, |d.payload|, fields.channels);
    r := Ok(AafPcm(rate, fields.channels, d.format, depth, d.payload));
  }

  /** `TryFrom<StreamHeader> for Aaf`. */
  method FromStream(h: StreamHeader) returns (r: Result<Aaf, InvalidAaf>)
    ensures r == AafFromStream(h)
  {
    hide UnpackTail, PcmFromSpecific;
    var _ :- ValidateStreamData(h.generic);
    var d := h.specific.formatData2;
    var tail := ReadTail(h.specific.formatData3);
    var format :- FormatFromCode(d[0]);
    var specific := AafSpecific(format, [d[1], d[2], d[3]], tail.asfd, tail.data2, h.specific.payload);
    if format == AES3_32Bit {
      return Ok(Aaf(h.generic, Aes3(specific), tail.sparse, tail.eventFlags));
    }
    var pcm := PcmFrom(specific);
    if pcm.Err? {
      return Err(PcmError(pcm.error));
    }
    r := Ok(Aaf(h.generic, Pcm(pcm.value), tail.sparse, tail.eventFlags));
  }

  /** `From<Aaf> for StreamHeader`; the payload-size `expect` is met. */
  method IntoStream(a: Aaf) returns (h: StreamHeader)
    requires ValidAaf(a)
    ensures AafIntoStream(a) == Some(h)
    ensures AafFromStream(h) == Ok(a)
  {
    hide PackPcm, PackTail, AafFromStream;
    IntoStreamNeverPanics(a);
    AafRoundTrip(a);
    var d: AafSpecific;
    match a.formatData {
      case Pcm(p) =>
        var data1 := WritePcmFields(PcmFields(RateCode(p.rate), p.channels, p.bitDepth));
        d := AafSpecific(p.format, data1, 0, 0, p.payload);
      case Aes3(specific) =>
        d := specific;
    }
    var tail := WriteTail(TailFields(d.asfd, a.sparseTimestamp, a.eventFlags, d.data2));
    var specific := NewSpecific(0, 0, [FormatCode(d.format), d.data1[0], d.data1[1], d.data1[2]], tail, d.payload);
    h := StreamHeader(a.streamData, specific.value);
  }
}
