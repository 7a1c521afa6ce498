/**
 * The wire format byte by byte: what each octet of a PDU is, by division and remainder, and what a
 * sequence of octets reads as, IEEE Std 1722-2016 section 4.4 (src/avtp/avtpdu.rs, src/avtp/headers/).
 */
module WireBytes {
  import opened Basics
  import opened BitStreams
  import opened Headers
  import opened Avtpdus

  // ----- Joining and splitting fields -----

  /** Two adjacent fields are one wider field. */
  lemma {:induction false} BitsOfJoined(high: nat, low: nat, v: nat, w: nat)
    requires low < Pow2(w)
    ensures BitsOf(high * Pow2(w) + low, v + w) == BitsOf(high, v) + BitsOf(low, w)
    decreases w
  {
    if w == 0 {
      assert BitsOf(high, v) + [] == BitsOf(high, v);
    } else {
      var half := Pow2(w - 1);
      assert high * Pow2(w) == 2 * (high * half);
      BitsOfJoined(high, low / 2, v, w - 1);
      assert (high * Pow2(w) + low) / 2 == high * half + low / 2 && (high * Pow2(w) + low) % 2 == low % 2;
      assert BitsOf(high, v) + BitsOf(low / 2, w - 1) + [low % 2 == 1]
          == BitsOf(high, v) + (BitsOf(low / 2, w - 1) + [low % 2 == 1]);
    }
  }

  /** The same on a stream; `unit` is the weight of the higher field. */
  lemma PutJoined(high: nat, low: nat, v: nat, w: nat, unit: nat, rest: bits)
    requires unit == Pow2(w) && low < unit
    ensures Put(high, v, Put(low, w, rest)) == Put(high * unit + low, v + w, rest)
  {
    BitsOfJoined(high, low, v, w);
    assert BitsOf(high, v) + (BitsOf(low, w) + rest) == BitsOf(high, v) + BitsOf(low, w) + rest;
  }

  /** One more byte is one more eight-bit field. */
  lemma PutBytesCons(first: u8, s: bytes, rest: bits)
    ensures PutBytes([first] + s, rest) == Put(first, 8, PutBytes(s, rest))
  {
    assert ([first] + s)[1..] == s;
    assert BitsOf(first, 8) + BytesToBits(s) + rest == BitsOf(first, 8) + (BytesToBits(s) + rest);
  }

  lemma PutBytesTwice(s: bytes, t: bytes, rest: bits)
    ensures PutBytes(s, PutBytes(t, rest)) == PutBytes(s + t, rest)
  {
    BytesToBitsConcat(s, t);
    assert BytesToBits(s) + (BytesToBits(t) + rest) == BytesToBits(s) + BytesToBits(t) + rest;
  }

  function Be16(v: u16): (b: bytes)
    ensures |b| == 2
  {
    [v / 0x100, v % 0x100]
  }

  function Be32(v: u32): (b: bytes)
    ensures |b| == 4
  {
    Be16(v / 0x1_0000) + Be16(v % 0x1_0000)
  }

  lemma PutByte(v: u8, rest: bits)
    ensures Put(v, 8, rest) == PutBytes([v], rest)
  {
    PutBytesCons(v, [], rest);
    assert [v] + [] == [v] && PutBytes([], rest) == rest;
  }

  lemma PutBe16(v: u16, rest: bits)
    ensures Put(v, 16, rest) == PutBytes(Be16(v), rest)
  {
    WidthLimits();
    hide Put, PutBytes, Pow2;
    PutJoined(v / 0x100, v % 0x100, 8, 8, 0x100, rest);
    PutByte(v % 0x100, rest);
    PutBytesCons(v / 0x100, [v % 0x100], rest);
    assert [v / 0x100] + [v % 0x100] == Be16(v);
  }

  lemma PutBe32(v: u32, rest: bits)
    ensures Put(v, 32, rest) == PutBytes(Be32(v), rest)
  {
    var high, low := v / 0x1_0000, v % 0x1_0000;
    assert v == 0x1_0000 * high + low && Be32(v) == Be16(high) + Be16(low);
    hide *;
    JoinHalves(high, low, rest);
    PutBe16(low, rest);
    PutBe16(high, PutBytes(Be16(low), rest));
    PutBytesTwice(Be16(high), Be16(low), rest);
  }

  lemma JoinHalves(high: u16, low: u16, rest: bits)
    ensures Put(high, 16, Put(low, 16, rest)) == Put(0x1_0000 * high + low, 32, rest)
  {
    WidthLimits();
    hide Put, Pow2;
    PutJoined(high, low, 16, 16, 0x1_0000, rest);
  }

  // ----- Whole PDUs -----

  function IdBytes(id: StreamID): bytes {
    id.mac + Be16(id.uniqueId)
  }

  /** The second octet: header-specific bit, version, and four more bits. */
  function SecondOctet(h: CommonHeader, nibble: u4): u8 {
    128 * Bit(h.specificBit) + 16 * h.version + nibble
  }

  /** The rest of the second octet of a stream PDU: media clock restart, two bits of format data, timestamp valid. */
  function FlagNibble(h: StreamHeader): u4 {
    8 * Bit(h.generic.mediaClockRestart) + 2 * h.specific.formatData + Bit(h.generic.timestampValid)
  }

  /** Seven bits of format data, and whether the timestamp is uncertain. */
  function FourthOctet(h: StreamHeader): u8 {
    2 * h.specific.formatData1 + Bit(h.generic.timestampUncertain)
  }

  /** A stream PDU, octet by octet. */
  function StreamBytes(h: StreamHeader): bytes
    requires ValidSpecific(h.specific)
  {
    var g, s := h.generic, h.specific;
    [SubtypeByte(g.common.subtype),
     SecondOctet(g.common, FlagNibble(h)),
     g.sequenceNum,
     FourthOctet(h)]
    + IdBytes(g.streamId) + Be32(g.timestamp) + s.formatData2 + Be16(|s.payload|) + s.formatData3 + s.payload
  }

  /** A control PDU, octet by octet. */
  function ControlBytes(h: ControlHeader): bytes {
    [SubtypeByte(h.common.subtype),
     SecondOctet(h.common, h.formatData / 32),
     8 * (h.formatData % 32) + h.dataLength / 0x100,
     h.dataLength % 0x100]
    + IdBytes(h.streamId) + h.payload
  }

  /** Bytes shifted down by half an octet behind the nibble `n`, without the last half octet. */
  function Nibbles(n: u4, payload: bytes): bytes
    decreases |payload|
  {
    if payload == [] then [16 * n]
    else if |payload| == 1 then [16 * n + payload[0] / 16]
    else [16 * n + payload[0] / 16] + Nibbles(payload[0] % 16, payload[1..])
  }

  function AlternativeBytes(h: AlternativeHeader): bytes {
    [SubtypeByte(h.common.subtype)] + Nibbles(8 * Bit(h.common.specificBit) + h.common.version, h.payload)
  }

  function PduBytes(p: Avtpdu): bytes
    requires Encodable(p)
  {
    match p
    case Stream(h) => StreamBytes(h)
    case Control(h) => ControlBytes(h)
    case Alternative(h) => AlternativeBytes(h)
  }

  lemma CommonOctets(h: CommonHeader, nibble: u4, rest: bits)
    ensures CommonBits(h, Put(nibble, 4, rest)) == PutBytes([SubtypeByte(h.subtype), SecondOctet(h, nibble)], rest)
  {
    WidthLimits();
    hide Put, PutBytes, Pow2;
    var sub, second := SubtypeByte(h.subtype), SecondOctet(h, nibble);
    PutJoined(h.version, nibble, 3, 4, 16, rest);
    PutJoined(Bit(h.specificBit), 16 * h.version + nibble, 1, 7, 128, rest);
    PutByte(second, rest);
    PutBytesCons(sub, [second], rest);
    assert [sub] + [second] == [sub, second];
  }

  lemma IdOctets(id: StreamID, rest: bits)
    ensures StreamIdBits(id, rest) == PutBytes(IdBytes(id), rest)
  {
    hide Put, PutBytes, Be16;
    PutBe16(id.uniqueId, rest);
    PutBytesTwice(id.mac, Be16(id.uniqueId), rest);
  }

  /** The three octets after the subtype. */
  lemma StreamFlagOctets(h: StreamHeader, rest: bits)
    ensures StreamFlagBits(h, rest)
         == Put(FlagNibble(h), 4, PutBytes([h.generic.sequenceNum, FourthOctet(h)], rest))
  {
    WidthLimits();
    hide Put, PutBytes, Pow2;
    var g, s := h.generic, h.specific;
    var mr, tv, tu := Bit(g.mediaClockRestart), Bit(g.timestampValid), Bit(g.timestampUncertain);
    var fourth := 2 * s.formatData1 + tu;
    PutJoined(s.formatData1, tu, 7, 1, 2, rest);
    PutByte(fourth, rest);
    PutBytesCons(g.sequenceNum, [fourth], rest);
    assert [g.sequenceNum] + [fourth] == [g.sequenceNum, fourth];
    var tail := PutBytes([g.sequenceNum, fourth], rest);
    PutJoined(s.formatData, tv, 2, 1, 2, tail);
    PutJoined(mr, 2 * s.formatData + tv, 1, 3, 8, tail);
  }

  lemma StreamBodyOctets(h: StreamHeader, rest: bits)
    requires ValidSpecific(h.specific)
    ensures var g, s := h.generic, h.specific;
            StreamBodyBits(h, rest)
            == PutBytes(IdBytes(g.streamId) + Be32(g.timestamp) + s.formatData2 + Be16(|s.payload|) + s.formatData3
                        + s.payload, rest)
  {
    hide Put, PutBytes, StreamIdBits, IdBytes, Be16, Be32;
    var g, s := h.generic, h.specific;
    var tail := PutBytes(s.formatData3, PutBytes(s.payload, rest));
    PutBe16(|s.payload|, tail);
    PutBe32(g.timestamp, PutBytes(s.formatData2, PutBytes(Be16(|s.payload|), tail)));
    IdOctets(g.streamId, PutBytes(Be32(g.timestamp), PutBytes(s.formatData2, PutBytes(Be16(|s.payload|), tail))));
    SixParts(IdBytes(g.streamId), Be32(g.timestamp), s.formatData2, Be16(|s.payload|), s.formatData3, s.payload, rest);
  }

  lemma SixParts(a: bytes, b: bytes, c: bytes, d: bytes, e: bytes, f: bytes, rest: bits)
    ensures PutBytes(a, PutBytes(b, PutBytes(c, PutBytes(d, PutBytes(e, PutBytes(f, rest))))))
         == PutBytes(a + b + c + d + e + f, rest)
  {
    hide PutBytes;
    PutBytesTwice(a, b, PutBytes(c, PutBytes(d, PutBytes(e, PutBytes(f, rest)))));
    PutBytesTwice(a + b, c, PutBytes(d, PutBytes(e, PutBytes(f, rest))));
    PutBytesTwice(a + b + c, d, PutBytes(e, PutBytes(f, rest)));
    PutBytesTwice(a + b + c + d, e, PutBytes(f, rest));
    PutBytesTwice(a + b + c + d + e, f, rest);
  }

  lemma StreamOctets(h: StreamHeader, rest: bits)
    requires ValidSpecific(h.specific)
    ensures StreamBits(h, rest) == PutBytes(StreamBytes(h), rest)
  {
    StreamBytesInParts(h);
    assert StreamBits(h, rest) == CommonBits(h.generic.common, StreamFlagBits(h, StreamBodyBits(h, rest)));
    hide *;
    var g, s := h.generic, h.specific;
    var two := [g.sequenceNum, FourthOctet(h)];
    var body := IdBytes(g.streamId) + Be32(g.timestamp) + s.formatData2 + Be16(|s.payload|) + s.formatData3 + s.payload;
    StreamBodyOctets(h, rest);
    StreamFlagOctets(h, PutBytes(body, rest));
    PutBytesTwice(two, body, rest);
    CommonOctets(g.common, FlagNibble(h), PutBytes(two + body, rest));
    PutBytesTwice([SubtypeByte(g.common.subtype), SecondOctet(g.common, FlagNibble(h))], two + body, rest);
  }

  lemma StreamBytesInParts(h: StreamHeader)
    requires ValidSpecific(h.specific)
    ensures var g, s := h.generic, h.specific;
            var two := [g.sequenceNum, FourthOctet(h)];
            var body := IdBytes(g.streamId) + Be32(g.timestamp) + s.formatData2 + Be16(|s.payload|) + s.formatData3
                        + s.payload;
            StreamBytes(h) == [SubtypeByte(g.common.subtype), SecondOctet(g.common, FlagNibble(h))] + (two + body)
  {
    hide IdBytes, Be16, Be32, SecondOctet, SubtypeByte, FlagNibble, FourthOctet;
  }

  lemma ControlOctets(h: ControlHeader, rest: bits)
    ensures ControlBits(h, rest) == PutBytes(ControlBytes(h), rest)
  {
    WidthLimits();
    hide Put, PutBytes, Pow2, CommonBits, StreamIdBits, IdBytes;
    var high, low := h.formatData / 32, h.formatData % 32;
    var third := 8 * low + h.dataLength / 0x100;
    var two: bytes := [third, h.dataLength % 0x100];
    var body := IdBytes(h.streamId) + h.payload;
    IdOctets(h.streamId, PutBytes(h.payload, rest));
    PutBytesTwice(IdBytes(h.streamId), h.payload, rest);
    LengthOctets(h.formatData, h.dataLength, PutBytes(body, rest));
    PutBytesTwice(two, body, rest);
    CommonOctets(h.common, high, PutBytes(two + body, rest));
    PutBytesTwice([SubtypeByte(h.common.subtype), SecondOctet(h.common, high)], two + body, rest);
    assert [SubtypeByte(h.common.subtype), SecondOctet(h.common, high)] + (two + body) == ControlBytes(h);
  }

  /** Nine bits and eleven bits are four bits and two octets. */
  lemma LengthOctets(formatData: u9, length: u11, rest: bits)
    ensures Put(formatData, 9, Put(length, 11, rest))
         == Put(formatData / 32, 4, PutBytes([8 * (formatData % 32) + length / 0x100, length % 0x100], rest))
  {
    var high, low, top, bottom := formatData / 32, formatData % 32, length / 0x100, length % 0x100;
    assert formatData == 32 * high + low && length == 0x100 * top + bottom;
    hide *;
    LengthParts(high, low, top, bottom, rest);
  }

  lemma LengthParts(high: u4, low: nat, top: u3, bottom: u8, rest: bits)
    requires low < 32
    ensures Put(32 * high + low, 9, Put(0x100 * top + bottom, 11, rest))
         == Put(high, 4, PutBytes([8 * low + top, bottom], rest))
  {
    hide *;
    JoinEleven(top, bottom, rest);
    JoinNine(high, low, Put(top, 3, Put(bottom, 8, rest)));
    JoinEight(low, top, Put(bottom, 8, rest));
    PutByte(bottom, rest);
    PutBytesCons(8 * low + top, [bottom], rest);
    assert [8 * low + top] + [bottom] == [8 * low + top, bottom];
  }

  lemma JoinEleven(top: u3, bottom: u8, rest: bits)
    ensures Put(top, 3, Put(bottom, 8, rest)) == Put(0x100 * top + bottom, 11, rest)
  {
    Pow2Of8();
    hide Put, Pow2;
    PutJoined(top, bottom, 3, 8, 0x100, rest);
  }

  lemma JoinNine(high: u4, low: nat, rest: bits)
    requires low < 32
    ensures Put(high, 4, Put(low, 5, rest)) == Put(32 * high + low, 9, rest)
  {
    assert Pow2(5) == 32;
    hide Put, Pow2;
    PutJoined(high, low, 4, 5, 32, rest);
  }

  lemma JoinEight(low: nat, top: u3, rest: bits)
    requires low < 32
    ensures Put(low, 5, Put(top, 3, rest)) == Put(8 * low + top, 8, rest)
  {
    assert Pow2(3) == 8;
    hide Put, Pow2;
    PutJoined(low, top, 5, 3, 8, rest);
  }

  lemma {:induction false} NibbleOctets(n: u4, payload: bytes, rest: bits)
    requires payload != []
    ensures var last := |payload| - 1;
            Put(n, 4, PutBytes(payload[..last], Put(payload[last] / 16, 4, rest)))
            == PutBytes(Nibbles(n, payload), rest)
    decreases |payload|
  {
    WidthLimits();
    hide Put, PutBytes, Pow2;
    var last, first := |payload| - 1, payload[0];
    var tail := Put(payload[last] / 16, 4, rest);
    var octet := 16 * n + first / 16;
    if last == 0 {
      NoBytes(tail);
      assert payload[..0] == [];
      PutJoined(n, first / 16, 4, 4, 16, rest);
      PutByte(octet, rest);
    } else {
      var more := payload[1..];
      assert payload[..last] == [first] + more[..last - 1];
      var later := PutBytes(more[..last - 1], tail);
      PutBytesCons(first, more[..last - 1], tail);
      PutJoined(first / 16, first % 16, 4, 4, 16, later);
      PutJoined(n, first / 16, 4, 4, 16, Put(first % 16, 4, later));
      NibbleOctets(first % 16, more, rest);
      PutBytesCons(octet, Nibbles(first % 16, more), rest);
    }
  }

  lemma NoBytes(rest: bits)
    ensures PutBytes([], rest) == rest
  {
  }

  lemma AlternativeOctets(h: AlternativeHeader, rest: bits)
    ensures AlternativeBits(h, rest) == PutBytes(AlternativeBytes(h), rest)
  {
    WidthLimits();
    hide Put, PutBytes, Pow2, Nibbles;
    var sub, n := SubtypeByte(h.common.subtype), 8 * Bit(h.common.specificBit) + h.common.version;
    var tail := if h.payload == [] then Put(0, 4, rest)
                else PutBytes(h.payload[..|h.payload| - 1], Put(h.payload[|h.payload| - 1] / 16, 4, rest));
    PutJoined(Bit(h.common.specificBit), h.common.version, 1, 3, 8, tail);
    if h.payload == [] {
      PutJoined(n, 0, 4, 4, 16, rest);
      PutByte(16 * n, rest);
      NoNibbles(n);
    } else {
      NibbleOctets(n, h.payload, rest);
    }
    PutBytesCons(sub, Nibbles(n, h.payload), rest);
  }

  lemma NoNibbles(n: u4)
    ensures Nibbles(n, []) == [16 * n]
  {
  }

  /** What a successful write puts on the wire, octet by octet. */
  lemma WrittenOctets(p: Avtpdu)
    requires Write(p).Ok?
    ensures Encodable(p) && Write(p).value == PduBytes(p)
  {
    WrittenBits(p);
    PduOctets(p);
    hide *;
    NoRest(PduBytes(p));
    BytesToBitsInjective(Write(p).value, PduBytes(p));
  }

  lemma PduOctets(p: Avtpdu)
    requires Encodable(p)
    ensures PduBits(p, []) == PutBytes(PduBytes(p), [])
  {
    hide Put, PutBytes, StreamBits, ControlBits, AlternativeBits, StreamBytes, ControlBytes, AlternativeBytes;
    match p
    case Stream(h) => StreamOctets(h, []);
    case Control(h) => ControlOctets(h, []);
    case Alternative(h) => AlternativeOctets(h, []);
  }

  lemma NoRest(s: bytes)
    ensures PutBytes(s, []) == BytesToBits(s)
  {
    assert BytesToBits(s) + [] == BytesToBits(s);
  }
}
