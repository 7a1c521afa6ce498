/** Reading and writing whole AVTPDUs as bytes (src/avtp/avtpdu.rs). */
module Avtpdus {
  import opened Basics
  import opened BitStreams
  import opened Headers
  import opened HeaderLaws

  function ValidateSubtype(p: Avtpdu): Result<(), WriteError> {
    if SubtypeMatches(p) then Ok(()) else Err(IncompatibleSubtype)
  }

  lemma WholeBytes(p: Avtpdu)
    requires Encodable(p)
    ensures |PduBits(p, [])| % 8 == 0
  {
    hide *;
    EncodeAppend(p, []);
    MultipleOfEight(|PduBits(p, [])|, WireSize(p));
  }

  lemma MultipleOfEight(n: nat, k: nat)
    requires n == 8 * k
    ensures n % 8 == 0
  {
  }

  /** The bytes `write` appends to its buffer. */
  function Write(p: Avtpdu): Result<bytes, WriteError> {
    var _ :- ValidateSubtype(p);
    if Encodable(p) then
      WholeBytes(p);
      Ok(BitsToBytes(PduBits(p, [])))
    else Err(PayloadTooLarge(|p.stream.specific.payload|))
  }

  /** The PDU at the front of `data`, and the bytes `read` leaves unread. */
  function Read(data: bytes): Result<(Avtpdu, bytes), DecodeError> {
    var b := BytesToBits(data);
    var (p, rest) :- DecodePdu(b);
    DecodeStaysAligned(b);
    Ok((p, Unread(data, rest)))
  }

  /** The last bytes of `data`, as many as `rest` has whole bytes. */
  function Unread(data: bytes, rest: bits): bytes
    requires |rest| / 8 <= |data|
  {
    data[|data| - |rest| / 8..]
  }

  lemma ReadIs(data: bytes, p: Avtpdu, rest: bits)
    requires DecodePdu(BytesToBits(data)) == Ok((p, rest)) && |rest| / 8 <= |data|
    ensures Read(data) == Ok((p, Unread(data, rest)))
  {
    hide DecodePdu, PduBits, BytesToBits, WireSize, Encodable, Unread;
  }

  lemma DecodeStaysAligned(b: bits)
    requires DecodePdu(b).Ok?
    ensures var (p, rest) := DecodePdu(b).value;
            && Encodable(p)
            && |b| == 8 * WireSize(p) + |rest|
            && b == PduBits(p, []) + rest
  {
    EncodeOfDecode(b);
    hide DecodePdu;
    AppendedSize(DecodePdu(b).value.0, DecodePdu(b).value.1);
  }

  lemma AppendedSize(p: Avtpdu, rest: bits)
    requires Encodable(p)
    ensures |PduBits(p, rest)| == 8 * WireSize(p) + |rest|
    ensures PduBits(p, rest) == PduBits(p, []) + rest
  {
    hide PduBits, WireSize;
    EncodeAppend(p, rest);
  }

  lemma WrittenBits(p: Avtpdu)
    requires Write(p).Ok?
    ensures Encodable(p) && BytesToBits(Write(p).value) == PduBits(p, [])
    ensures |Write(p).value| == WireSize(p)
  {
    hide PduBits, BytesToBits;
    EncodeAppend(p, []);
    BytesToBitsOfBits(PduBits(p, []));
  }

  lemma BytesToBitsInjective(s: bytes, t: bytes)
    requires BytesToBits(s) == BytesToBits(t)
    ensures s == t
  {
    BitsToBytesOfBytes(s);
    BitsToBytesOfBytes(t);
  }

  lemma BytesToBitsSuffix(s: bytes, k: nat)
    requires k <= |s|
    ensures BytesToBits(s)[..8 * k] == BytesToBits(s[..k])
    ensures BytesToBits(s)[8 * k..] == BytesToBits(s[k..])
  {
    assert s == s[..k] + s[k..];
    BytesToBitsConcat(s[..k], s[k..]);
  }

  /** `write` refuses exactly the PDUs whose variant contradicts their subtype or whose payload is too long. */
  lemma WriteSucceeds(p: Avtpdu)
    ensures Write(p).Ok? <==> SubtypeMatches(p) && Encodable(p)
    ensures Write(p).Ok? ==> |Write(p).value| == WireSize(p)
  {
    hide PduBits;
    if Write(p).Ok? {
      WrittenBits(p);
    }
  }

  /**
   * A written PDU, followed by anything (Ethernet padding, say), reads back as itself and leaves
   * exactly what followed: always for streams, and for control PDUs exactly when the length field
   * equals the payload length.
   */
  lemma ReadOfWrite(p: Avtpdu, tail: bytes)
    requires Write(p).Ok? && !p.Alternative?
    ensures Read(Write(p).value + tail) == Ok((p, tail)) <==> LengthsAgree(p)
  {
    hide PduBits, BytesToBits, DecodePdu;
    var s := Write(p).value;
    var data := s + tail;
    WrittenBits(p);
    BytesToBitsConcat(s, tail);
    EncodeAppend(p, BytesToBits(tail));
    assert BytesToBits(data) == PduBits(p, BytesToBits(tail));
    if LengthsAgree(p) {
      DecodeOfEncode(p, BytesToBits(tail));
      assert data[|s|..] == tail;
    } else if Read(data) == Ok((p, tail)) {
      EncodeOfDecode(BytesToBits(data));
    }
  }

  /** Re-encoding any PDU that was read gives back exactly the bytes it was read from. */
  lemma WriteOfRead(data: bytes)
    requires Read(data).Ok?
    ensures var (p, left) := Read(data).value;
            && !p.Alternative?
            && Write(p).Ok?
            && data == Write(p).value + left
  {
    hide PduBits, DecodePdu;
    var b := BytesToBits(data);
    var (p, rest) := DecodePdu(b).value;
    EncodeOfDecode(b);
    DecodeStaysAligned(b);
    WriteSucceeds(p);
    WrittenBits(p);
    var k := WireSize(p);
    BytesToBitsSuffix(data, k);
    assert b[..8 * k] == PduBits(p, []);
    BytesToBitsInjective(data[..k], Write(p).value);
    assert data == data[..k] + data[k..];
  }

  /** Every alternative subtype reaches an unimplemented decoder, whatever follows. */
  lemma AlternativeNeverReads(h: AlternativeHeader, rest: bits)
    requires HeaderTypeOf(h.common.subtype) == AlternativeType
    ensures DecodePdu(AlternativeBits(h, rest)) == Err(Unsupported(h.common.subtype))
  {
    hide Put, PutBytes, CommonBits, DecodeCommon;
    if h.payload == [] {
      CommonRoundTrip(h.common, Put(0, 4, rest));
    } else {
      var last := |h.payload| - 1;
      CommonRoundTrip(h.common, PutBytes(h.payload[..last], Put(h.payload[last] / 16, 4, rest)));
    }
  }
}
