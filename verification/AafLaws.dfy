/** Canonicalisation laws of the AAF conversions (src/avtp/formats/aaf/common.rs, pcm.rs). */
module AafLaws {
  import opened Basics
  import opened BitStreams
  import opened Headers
  import opened HeaderLaws
  import opened Aafs

  // ----- The packed fields -----

  lemma CodesInvert(f: AafFormat, r: SampleRate, format: u8, rate: u4)
    ensures FormatFromCode(FormatCode(f)) == Ok(f)
    ensures RateFromCode(RateCode(r)) == Ok(r)
    ensures FormatFromCode(format).Ok? ==> FormatCode(FormatFromCode(format).value) == format
    ensures RateFromCode(rate).Ok? ==> RateCode(RateFromCode(rate).value) == rate
  {
  }

  lemma UnpackOfPack(f: PcmFields)
    ensures UnpackPcm(PackPcm(f)) == (f, 0)
  {
    BytesToBitsOfBits(PcmFieldBits(f, 0));
    WidthLimits();
    hide Put, Field;
    var b3 := Put(f.depth, 8, []);
    var b2 := Put(f.channels, 10, b3);
    FieldOfPut(f.nsr, 4, Put(0, 2, b2));
    FieldOfPut(0, 2, b2);
    FieldOfPut(f.channels, 10, b3);
    FieldOfPut(f.depth, 8, []);
  }

  /** Unpacking loses nothing but the names: the three bytes are the four fields. */
  lemma BitsOfUnpack(d: Bytes3)
    ensures BytesToBits(d) == PcmFieldBits(UnpackPcm(d).0, UnpackPcm(d).1)
  {
    var (nsr, b1) := Field(BytesToBits(d), 4).value;
    var (reserved, b2) := Field(b1, 2).value;
    var (channels, b3) := Field(b2, 10).value;
    var (depth, b4) := Field(b3, 8).value;
    assert b4 == [];
  }

  lemma {:induction false} UnpackOfPackTail(f: TailFields)
    ensures UnpackTail(PackTail(f)) == f
  {
    BytesToBitsOfBits(TailBits(f));
    WidthLimits();
    hide Put, Field;
    var b3 := Put(f.data2, 8, []);
    var b2 := Put(f.eventFlags, 4, b3);
    var b1 := Put(Bit(f.sparse), 1, b2);
    FieldOfPut(f.asfd, 3, b1);
    FieldOfPut(Bit(f.sparse), 1, b2);
    FieldOfPut(f.eventFlags, 4, b3);
    FieldOfPut(f.data2, 8, []);
  }

  lemma BitsOfUnpackTail(d: Bytes2)
    ensures BytesToBits(d) == TailBits(UnpackTail(d))
  {
    WidthLimits();
    var (asfd, b1) := Field(BytesToBits(d), 3).value;
    var (sparse, b2) := Field(b1, 1).value;
    var (evt, b3) := Field(b2, 4).value;
    var (data2, b4) := Field(b3, 8).value;
    assert b4 == [];
    hide Put, Field, BytesToBits;
    assert UnpackTail(d) == TailFields(asfd, sparse == 1, evt, data2);
    assert Bit(sparse == 1) == sparse;
  }

  // ----- Aaf to stream header to Aaf -----

  lemma PcmSpecificRoundTrip(p: AafPcm)
    requires ValidPcm(p)
    ensures PcmFromSpecific(PcmIntoSpecific(p)) == Ok(p)
  {
    hide PackPcm, UnpackPcm;
    UnpackOfPack(PcmFields(RateCode(p.rate), p.channels, p.bitDepth));
    CodesInvert(p.format, p.rate, 0, 0);
  }

  /** The conversion's `expect` cannot fire on any constructible value. */
  lemma IntoStreamNeverPanics(a: Aaf)
    requires ValidAaf(a)
    ensures AafIntoStream(a).Some?
    ensures ValidSpecific(AafIntoStream(a).value.specific)
    ensures AafIntoStream(a).value.generic == a.streamData
  {
    hide PackPcm, PackTail;
  }

  /** Every constructible Aaf survives the trip through a stream header unchanged. */
  lemma {:induction false} AafRoundTrip(a: Aaf)
    requires ValidAaf(a)
    ensures AafFromStream(AafIntoStream(a).value) == Ok(a)
  {
    hide PackPcm, UnpackPcm, PackTail, UnpackTail;
    IntoStreamNeverPanics(a);
    var d := VariantIntoSpecific(a.formatData);
    UnpackOfPackTail(TailFields(d.asfd, a.sparseTimestamp, a.eventFlags, d.data2));
    CodesInvert(d.format, KHz8, 0, 0);
    var h := AafIntoStream(a).value;
    assert SpecificOf(h, d.format) == d;
    if a.formatData.Pcm? {
      PcmSpecificRoundTrip(a.formatData.pcm);
    }
  }

  // ----- Stream header to Aaf to stream header -----

  /** Everything a stream header converts to is constructible. */
  lemma FromStreamIsValid(h: StreamHeader)
    requires ValidSpecific(h.specific) && AafFromStream(h).Ok?
    ensures ValidAaf(AafFromStream(h).value)
  {
    hide UnpackPcm, UnpackTail;
    var format := FormatFromCode(h.specific.formatData2[0]).value;
    if format != AES3_32Bit {
      var d := SpecificOf(h, format);
      var fields := UnpackPcm(d.data1).0;
      if fields.channels > 0 && WordSize(format).Some? {
        FrameSizePositive(format, fields.channels);
      }
    }
  }

  /** `t` is `s` with exactly the bits at `zeroed` positions cleared. */
  ghost predicate ClearedAt(s: bytes, t: bytes, zeroed: set<nat>) {
    && |t| == |s|
    && forall i: nat :: i < 8 * |s| ==>
         BytesToBits(t)[i] == (BytesToBits(s)[i] && i !in zeroed)
  }

  /** The two reserved bits after the sample-rate code. */
  const PCM_RESERVED: set<nat> := {4, 5}

  /** The asfd bits and the whole second byte. */
  const TAIL_RESERVED: set<nat> := set i: nat | i < 16 && (i < 3 || 8 <= i)

  lemma ZeroBits(width: nat)
    ensures forall i :: 0 <= i < width ==> !BitsOf(0, width)[i]
  {
  }

  lemma RepackClearsReserved(d: Bytes3)
    ensures ClearedAt(d, PackPcm(UnpackPcm(d).0), PCM_RESERVED)
  {
    var (f, reserved) := UnpackPcm(d);
    BitsOfUnpack(d);
    BytesToBitsOfBits(PcmFieldBits(f, 0));
    ZeroBits(2);
    hide UnpackPcm, BitsOf, BytesToBits, BitsToBytes;
    var s, t := PcmFieldBits(f, reserved), PcmFieldBits(f, 0);
    forall i: nat | i < 24
      ensures t[i] == (s[i] && i !in PCM_RESERVED)
    {
    }
  }

  lemma {:induction false} RetailClearsReserved(d: Bytes2)
    ensures ClearedAt(d, PackTail(UnpackTail(d).(asfd := 0, data2 := 0)), TAIL_RESERVED)
  {
    hide *;
    var f := UnpackTail(d);
    var f0 := f.(asfd := 0, data2 := 0);
    BitsOfUnpackTail(d);
    BitsOfPackTail(f0);
    ZeroBits(3);
    ZeroBits(8);
    TailInThree(f);
    TailInThree(f0);
    MiddleKept(f);
    OuterBitsCleared(BitsOf(f.asfd, 3), TailMiddle(f), BitsOf(f.data2, 8), BitsOf(0, 3), BitsOf(0, 8));
    ClearedAtBits(d, PackTail(f0), TAIL_RESERVED);
  }

  lemma BitsOfPackTail(f: TailFields)
    ensures BytesToBits(PackTail(f)) == TailBits(f)
  {
    BytesToBitsOfBits(TailBits(f));
    hide TailBits, BytesToBits, BitsToBytes;
  }

  lemma MiddleKept(f: TailFields)
    ensures TailMiddle(f.(asfd := 0, data2 := 0)) == TailMiddle(f)
  {
    hide BitsOf;
  }

  lemma ClearedAtBits(s: bytes, t: bytes, zeroed: set<nat>)
    requires |t| == |s|
    requires forall i: nat :: i < 8 * |s| ==> BytesToBits(t)[i] == (BytesToBits(s)[i] && i !in zeroed)
    ensures ClearedAt(s, t, zeroed)
  {
    hide BytesToBits;
  }

  /** The bits of the tail that survive canonicalisation. */
  function TailMiddle(f: TailFields): (b: bits)
    ensures |b| == 5
  {
    BitsOf(Bit(f.sparse), 1) + BitsOf(f.eventFlags, 4)
  }

  lemma TailInThree(f: TailFields)
    ensures TailBits(f) == BitsOf(f.asfd, 3) + TailMiddle(f) + BitsOf(f.data2, 8)
  {
    hide BitsOf;
    var data2 := BitsOf(f.data2, 8);
    assert data2 + [] == data2;
    assert BitsOf(Bit(f.sparse), 1) + (BitsOf(f.eventFlags, 4) + data2) == TailMiddle(f) + data2;
  }

  lemma OuterBitsCleared(a: bits, middle: bits, z: bits, a0: bits, z0: bits)
    requires |a| == |a0| == 3 && |middle| == 5 && |z| == |z0| == 8
    requires (forall i :: 0 <= i < 3 ==> !a0[i]) && (forall i :: 0 <= i < 8 ==> !z0[i])
    ensures forall i: nat :: i < 16 ==>
              (a0 + middle + z0)[i] == ((a + middle + z)[i] && i !in TAIL_RESERVED)
  {
  }

  /** The canonical form of a stream header: through Aaf and back. */
  function Canonical(h: StreamHeader): StreamHeader
    requires ValidSpecific(h.specific) && AafFromStream(h).Ok?
  {
    FromStreamIsValid(h);
    IntoStreamNeverPanics(AafFromStream(h).value);
    AafIntoStream(AafFromStream(h).value).value
  }

  /**
   * Canonicalising clears reserved bits and nothing else: the two f_s_d fields always, and for PCM
   * also asfd, the second tail byte and the two reserved bits of the format data.
   */
  lemma CanonicalClearsReserved(h: StreamHeader)
    requires ValidSpecific(h.specific) && AafFromStream(h).Ok?
    ensures var c := Canonical(h);
            var s, t := h.specific, c.specific;
            && c.generic == h.generic
            && t.formatData == 0 && t.formatData1 == 0
            && t.formatData2[0] == s.formatData2[0]
            && t.payload == s.payload
            && (AafFromStream(h).value.formatData.Pcm? ==>
                  && ClearedAt(s.formatData2[1..], t.formatData2[1..], PCM_RESERVED)
                  && ClearedAt(s.formatData3, t.formatData3, TAIL_RESERVED))
            && (AafFromStream(h).value.formatData.Aes3? ==>
                  t.formatData2 == s.formatData2 && t.formatData3 == s.formatData3)
  {
    if AafFromStream(h).value.formatData.Pcm? {
      CanonicalPcm(h);
    } else {
      CanonicalAes3(h);
    }
  }

  lemma CanonicalAes3(h: StreamHeader)
    requires ValidSpecific(h.specific) && AafFromStream(h).Ok? && AafFromStream(h).value.formatData.Aes3?
    ensures Canonical(h) == h.(specific := h.specific.(formatData := 0, formatData1 := 0))
  {
    hide UnpackPcm, UnpackTail, PackTail;
    CodesInvert(User, KHz8, h.specific.formatData2[0], 0);
    PackOfUnpackTail(h.specific.formatData3);
    var d := h.specific.formatData2;
    assert [d[0], d[1], d[2], d[3]] == d;
  }

  lemma PackOfUnpackTail(d: Bytes2)
    ensures PackTail(UnpackTail(d)) == d
  {
    BitsOfUnpackTail(d);
    hide UnpackTail, BytesToBits, BitsToBytes, TailBits;
    BitsToBytesOfBytes(d);
  }

  lemma CanonicalPcm(h: StreamHeader)
    requires ValidSpecific(h.specific) && AafFromStream(h).Ok? && AafFromStream(h).value.formatData.Pcm?
    ensures var c := Canonical(h);
            var s, t := h.specific, c.specific;
            && c.generic == h.generic
            && t.formatData == 0 && t.formatData1 == 0
            && t.formatData2[0] == s.formatData2[0]
            && t.payload == s.payload
            && ClearedAt(s.formatData2[1..], t.formatData2[1..], PCM_RESERVED)
            && ClearedAt(s.formatData3, t.formatData3, TAIL_RESERVED)
  {
    hide UnpackPcm, PackPcm, UnpackTail, PackTail, ClearedAt;
    var code := h.specific.formatData2[0];
    CodesInvert(User, KHz8, code, 0);
    var d := SpecificOf(h, FormatFromCode(code).value);
    var fields := UnpackPcm(d.data1).0;
    CodesInvert(User, KHz8, 0, fields.nsr);
    RepackClearsReserved(d.data1);
    RetailClearsReserved(h.specific.formatData3);
    assert h.specific.formatData2[1..] == d.data1;
    assert Canonical(h).specific.formatData2[1..] == PackPcm(fields);
  }

  /** Canonicalising twice is canonicalising once. */
  lemma CanonicalIdempotent(h: StreamHeader)
    requires ValidSpecific(h.specific) && AafFromStream(h).Ok?
    ensures var c := Canonical(h);
            && ValidSpecific(c.specific)
            && AafFromStream(c) == AafFromStream(h)
            && Canonical(c) == c
  {
    FromStreamIsValid(h);
    var a := AafFromStream(h).value;
    hide AafFromStream, AafIntoStream, ValidAaf;
    IntoStreamNeverPanics(a);
    AafRoundTrip(a);
  }

  /**
   * Constructor and setter accept exactly the stream data of an AAF header of version 0 with its bit set, put
   * them in place with everything else as given or as it was, and keep constructibility.
   */
  lemma ConstructorsAreValid(g: GenericStreamData, v: AafVariant, sparse: bool, evt: u4, a: Aaf)
    ensures var r := NewAaf(g, v, sparse, evt);
            && (r.Ok? <==> g.common == CommonHeader(AAF, true, 0))
            && (r.Ok? ==> r.value == Aaf(g, v, sparse, evt))
            && (r.Ok? && v.Pcm? && ValidPcm(v.pcm) ==> ValidAaf(r.value))
    ensures var r := SetStreamData(a, g);
            && (r.Ok? <==> g.common == CommonHeader(AAF, true, 0))
            && (r.Ok? ==> r.value == Aaf(g, a.formatData, a.sparseTimestamp, a.eventFlags))
            && (r.Ok? && ValidAaf(a) ==> ValidAaf(r.value))
  {
    hide ValidPcm;
  }
}
