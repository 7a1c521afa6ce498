/**
 * Big-endian bit streams: the sequence model of fields and bytes, and the mutable writer and reader
 * (the crate's uses of `BitWriter` and `BitReader`, src/io/enc_dec.rs) that refine it.
 */
module BitStreams {
  import opened Basics

  type bits = seq<bool>

  datatype Eof = Eof

  function Pow2(n: nat): (p: nat)
    ensures p >= 1
  {
    if n == 0 then 1 else 2 * Pow2(n - 1)
  }

  /** The low `width` bits of `v`, most significant first. */
  function BitsOf(v: nat, width: nat): (b: bits)
    ensures |b| == width
  {
    if width == 0 then [] else BitsOf(v / 2, width - 1) + [v % 2 == 1]
  }

  function ValueOf(b: bits): nat {
    if b == [] then 0 else 2 * ValueOf(b[..|b| - 1]) + (if b[|b| - 1] then 1 else 0)
  }

  function BytesToBits(s: bytes): (b: bits)
    ensures |b| == 8 * |s|
  {
    if s == [] then [] else BitsOf(s[0], 8) + BytesToBits(s[1..])
  }

  /** A field followed by the rest of the stream. */
  function Put(v: nat, width: nat, rest: bits): bits {
    BitsOf(v, width) + rest
  }

  function PutBytes(s: bytes, rest: bits): bits {
    BytesToBits(s) + rest
  }

  /** What a stream will hold: the bits written so far, then those still pending. */
  function Then(written: bits, pending: bits): bits {
    written + pending
  }

  function Take(b: bits, width: nat): Result<(nat, bits), Eof> {
    if |b| < width then Err(Eof) else Ok((ValueOf(b[..width]), b[width..]))
  }

  function TakeBytes(b: bits, n: nat): Result<(bytes, bits), Eof> {
    if |b| < 8 * n then Err(Eof) else Ok((BitsToBytes(b[..8 * n]), b[8 * n..]))
  }

  function BitsToBytes(b: bits): (s: bytes)
    requires |b| % 8 == 0
    ensures |s| == |b| / 8
  {
    if b == [] then [] else ValueIsByte(b[..8]); [ValueOf(b[..8])] + BitsToBytes(b[8..])
  }

  function Bit(v: bool): nat {
    if v then 1 else 0
  }

  // ----- Fields -----

  lemma ValueBound(b: bits)
    ensures ValueOf(b) < Pow2(|b|)
  {
  }

  lemma Pow2Of8()
    ensures Pow2(8) == 0x100
  {
    assert Pow2(4) == 16;
  }

  lemma ValueIsByte(b: bits)
    requires |b| == 8
    ensures 0 <= ValueOf(b) < 0x100
  {
    Pow2Of8();
    ValueBound(b);
  }

  lemma {:induction false} ValueOfBitsOf(v: nat, width: nat)
    requires v < Pow2(width)
    ensures ValueOf(BitsOf(v, width)) == v
  {
    if width > 0 {
      ValueOfBitsOf(v / 2, width - 1);
      var b := BitsOf(v, width);
      assert b[..|b| - 1] == BitsOf(v / 2, width - 1);
    }
  }

  lemma {:induction false} BitsOfValueOf(b: bits)
    ensures BitsOf(ValueOf(b), |b|) == b
  {
    if b != [] {
      BitsOfValueOf(b[..|b| - 1]);
    }
  }

  /** Reading a field back: the value that fits the width, and the untouched rest. */
  lemma TakeOfPut(v: nat, width: nat, rest: bits)
    requires v < Pow2(width)
    ensures Take(Put(v, width, rest), width) == Ok((v, rest))
  {
    ValueOfBitsOf(v, width);
    assert Put(v, width, rest)[..width] == BitsOf(v, width);
    assert Put(v, width, rest)[width..] == rest;
  }

  /** Whatever was read is what writing the read value puts back. */
  lemma PutOfTake(b: bits, width: nat)
    requires Take(b, width).Ok?
    ensures var (v, rest) := Take(b, width).value;
            && v < Pow2(width)
            && b == Put(v, width, rest)
            && |b| == width + |rest|
  {
    ValueBound(b[..width]);
    BitsOfValueOf(b[..width]);
    assert b == b[..width] + b[width..];
  }

  lemma PutAppend(v: nat, width: nat, rest: bits, tail: bits)
    ensures Put(v, width, rest) + tail == Put(v, width, rest + tail)
  {
    assert BitsOf(v, width) + rest + tail == BitsOf(v, width) + (rest + tail);
  }

  // ----- Bytes -----

  lemma {:induction false} BitsToBytesOfBytes(s: bytes)
    ensures BitsToBytes(BytesToBits(s)) == s
  {
    if s != [] {
      var b := BytesToBits(s);
      Pow2Of8();
      ValueOfBitsOf(s[0], 8);
      assert b[..8] == BitsOf(s[0], 8);
      assert b[8..] == BytesToBits(s[1..]);
      BitsToBytesOfBytes(s[1..]);
    }
  }

  lemma {:induction false} BytesToBitsOfBits(b: bits)
    requires |b| % 8 == 0
    ensures BytesToBits(BitsToBytes(b)) == b
  {
    if b != [] {
      BitsOfValueOf(b[..8]);
      BytesToBitsOfBits(b[8..]);
      assert b == b[..8] + b[8..];
    }
  }

  lemma {:induction false} BytesToBitsConcat(s: bytes, t: bytes)
    ensures BytesToBits(s + t) == BytesToBits(s) + BytesToBits(t)
  {
    if s == [] {
      assert s + t == t;
    } else {
      assert (s + t)[1..] == s[1..] + t;
      BytesToBitsConcat(s[1..], t);
    }
  }

  lemma TakeOfPutBytes(s: bytes, rest: bits)
    ensures TakeBytes(PutBytes(s, rest), |s|) == Ok((s, rest))
  {
    var b := PutBytes(s, rest);
    assert b[..8 * |s|] == BytesToBits(s);
    assert b[8 * |s|..] == rest;
    BitsToBytesOfBytes(s);
  }

  lemma PutBytesOfTake(b: bits, n: nat)
    requires TakeBytes(b, n).Ok?
    ensures var (s, rest) := TakeBytes(b, n).value;
            |s| == n && b == PutBytes(s, rest) && |b| == 8 * n + |rest|
  {
    BytesToBitsOfBits(b[..8 * n]);
    assert b == b[..8 * n] + b[8 * n..];
  }

  lemma TakeShort(b: bits, width: nat)
    ensures Take(b, width).Err? <==> |b| < width
  {
  }

  lemma TakeBytesShort(b: bits, n: nat)
    ensures TakeBytes(b, n).Err? <==> |b| < 8 * n
  {
  }

  lemma PutBytesSnoc(s: bytes, last: u8, rest: bits)
    ensures PutBytes(s + [last], rest) == PutBytes(s, Put(last, 8, rest))
  {
    BytesToBitsConcat(s, [last]);
    assert BytesToBits([last]) == BitsOf(last, 8);
    assert BytesToBits(s) + BitsOf(last, 8) + rest == BytesToBits(s) + (BitsOf(last, 8) + rest);
  }

  lemma PutBytesAppend(s: bytes, rest: bits, tail: bits)
    ensures PutBytes(s, rest) + tail == PutBytes(s, rest + tail)
  {
    assert BytesToBits(s) + rest + tail == BytesToBits(s) + (rest + tail);
  }

  lemma PutBytesAfter(start: bits, s: bytes, rest: bits)
    ensures start + PutBytes(s, rest) == start + BytesToBits(s) + rest
  {
    assert start + (BytesToBits(s) + rest) == start + BytesToBits(s) + rest;
  }

  // ----- The mutable writer -----

  lemma AppendBit(emitted: bytes, queue: nat, queued: nat, bit: bool)
    requires queue < Pow2(queued)
    ensures 2 * queue + Bit(bit) < Pow2(queued + 1)
    ensures BytesToBits(emitted) + BitsOf(2 * queue + Bit(bit), queued + 1)
         == BytesToBits(emitted) + BitsOf(queue, queued) + [bit]
  {
    hide BytesToBits;
    assert BitsOf(2 * queue + Bit(bit), queued + 1) == BitsOf(queue, queued) + [bit];
  }

  /** Eight queued bits are one emitted byte and an empty queue. */
  lemma FullByte(emitted: bytes, queue: nat)
    requires queue < Pow2(8)
    ensures queue < 0x100 && 0 < Pow2(0)
    ensures BytesToBits(emitted) + BitsOf(queue, 8) == BytesToBits(emitted + [queue]) + BitsOf(0, 0)
  {
    Pow2Of8();
    hide Pow2;
    var last: bytes := [queue];
    BytesToBitsConcat(emitted, last);
    assert BytesToBits(last) == BitsOf(queue, 8) + BytesToBits(last[1..]) == BitsOf(queue, 8);
  }

  /** Whole bytes already emitted, and fewer than eight bits still queued. */
  class BitWriter {
    var emitted: bytes
    var queue: nat
    var queued: nat

    ghost predicate Valid()
      reads this
    {
      queued < 8 && queue < Pow2(queued)
    }

    ghost function Contents(): bits
      reads this
    {
      BytesToBits(emitted) + BitsOf(queue, queued)
    }

    predicate ByteAligned()
      reads this
    {
      queued == 0
    }

    constructor ()
      ensures Valid() && Contents() == [] && ByteAligned() && emitted == []
    {
      emitted, queue, queued := [], 0, 0;
    }

    method WriteBit(bit: bool)
      requires Valid()
      modifies this
      ensures Valid() && Contents() == old(Contents()) + [bit]
    {
      hide BitsOf, BytesToBits, Pow2;
      ghost var start := Contents();
      var next := 2 * queue + Bit(bit);
      AppendBit(emitted, queue, queued, bit);
      if queued + 1 < 8 {
        queue, queued := next, queued + 1;
        return;
      }
      FullByte(emitted, next);
      emitted, queue, queued := emitted + [next], 0, 0;
      assert Contents() == start + [bit];
    }

    /** Writes the low `width` bits of `value`, most significant first. */
    method Write(value: nat, width: nat)
      requires Valid() && value < Pow2(width)
      modifies this
      ensures Valid() && Contents() == old(Contents()) + BitsOf(value, width)
      ensures forall rest: bits :: Then(old(Contents()), Put(value, width, rest)) == Then(Contents(), rest)
    {
      ghost var start := Contents();
      var left: nat, low: nat := width, value;
      while left > 0
        invariant left <= width && low < Pow2(left)
        invariant Valid()
        invariant start + BitsOf(value, width) == Contents() + BitsOf(low, left)
      {
        var high := Pow2(left - 1);
        TopBit(low, left);
        ghost var before, whole := Contents(), BitsOf(low, left);
        assert whole == [low >= high] + whole[1..];
        assert before + whole == before + [low >= high] + whole[1..];
        WriteBit(low >= high);
        low, left := if low >= high then low - high else low, left - 1;
      }
      assert Contents() + [] == Contents();
      forall rest: bits
        ensures Then(start, Put(value, width, rest)) == Then(Contents(), rest)
      {
        assert start + (BitsOf(value, width) + rest) == start + BitsOf(value, width) + rest;
      }
    }

    method WriteBytes(s: bytes)
      requires Valid()
      modifies this
      ensures Valid() && Contents() == old(Contents()) + BytesToBits(s)
      ensures forall rest: bits :: Then(old(Contents()), PutBytes(s, rest)) == Then(Contents(), rest)
    {
      ghost var start := Contents();
      Pow2Of8();
      hide Contents, Pow2;
      for i := 0 to |s|
        invariant Valid()
        invariant start + BytesToBits(s) == Contents() + BytesToBits(s[i..])
      {
        assert s[i..][1..] == s[i + 1..];
        Write(s[i], 8);
      }
      forall rest: bits
        ensures Then(start, PutBytes(s, rest)) == Then(Contents(), rest)
      {
        PutBytesAfter(start, s, rest);
      }
    }
  }

  /** A writer holding whole bytes has emitted them all. */
  lemma FlushedBuffer(w: BitWriter, b: bits)
    requires w.Valid() && |b| % 8 == 0 && Then([], b) == Then(w.Contents(), [])
    ensures w.ByteAligned() && w.emitted == BitsToBytes(b)
  {
    hide BitsOf, BytesToBits, BitsToBytes, Pow2;
    assert b == [] + b && w.Contents() + [] == w.Contents();
    assert |b| == 8 * |w.emitted| + w.queued;
    assert w.queued == 0;
    assert b == BytesToBits(w.emitted) + BitsOf(w.queue, 0);
    assert BytesToBits(w.emitted) + [] == BytesToBits(w.emitted);
    BitsToBytesOfBytes(w.emitted);
  }

  /** The first of `width` bits is the top one; the others are the remainder's. */
  lemma {:induction false} TopBit(v: nat, width: nat)
    requires 0 < width && v < Pow2(width)
    ensures var high := Pow2(width - 1);
            var rest := if v >= high then v - high else v;
            && rest < high
            && BitsOf(v, width)[0] == (v >= high)
            && BitsOf(v, width)[1..] == BitsOf(rest, width - 1)
  {
    var high := Pow2(width - 1);
    var rest := if v >= high then v - high else v;
    if width > 1 {
      assert high == 2 * Pow2(width - 2);
      assert v / 2 >= Pow2(width - 2) <==> v >= high;
      assert rest / 2 == (if v >= high then v / 2 - Pow2(width - 2) else v / 2) && rest % 2 == v % 2;
      TopBit(v / 2, width - 1);
      assert BitsOf(v, width)[1..] == BitsOf(v / 2, width - 1)[1..] + [v % 2 == 1];
    }
  }

  // ----- The mutable reader -----

  lemma NothingRemains(queue: nat)
    ensures BitsOf(queue, 0) + BytesToBits([]) == []
  {
  }

  /** With no bits queued the next byte's bits come first. */
  lemma ByteRemains(queue: nat, input: bytes)
    requires input != []
    ensures input[0] < Pow2(8)
    ensures BitsOf(queue, 0) + BytesToBits(input) == BitsOf(input[0], 8) + BytesToBits(input[1..])
  {
    Pow2Of8();
    hide Pow2;
    assert BitsOf(queue, 0) + BytesToBits(input) == BytesToBits(input);
  }

  /** Taking the top queued bit takes the first remaining bit. */
  lemma DropTopBit(queue: nat, queued: nat, rest: bits)
    requires 0 < queued && queue < Pow2(queued)
    ensures var high := Pow2(queued - 1);
            var left := if queue >= high then queue - high else queue;
            var all := BitsOf(queue, queued) + rest;
            && left < high
            && all[0] == (queue >= high)
            && all[1..] == BitsOf(left, queued - 1) + rest
  {
    TopBit(queue, queued);
    hide BitsOf, Pow2;
    var whole := BitsOf(queue, queued);
    assert (whole + rest)[1..] == whole[1..] + rest;
  }

  /** Unread input bytes, and the bits of the current byte not read yet. */
  class BitReader {
    var input: bytes
    var queue: nat
    var queued: nat

    ghost predicate Valid()
      reads this
    {
      queued < 8 && queue < Pow2(queued)
    }

    ghost function Remaining(): bits
      reads this
    {
      BitsOf(queue, queued) + BytesToBits(input)
    }

    predicate ByteAligned()
      reads this
    {
      queued == 0
    }

    constructor (data: bytes)
      ensures Valid() && Remaining() == BytesToBits(data) && ByteAligned() && input == data
    {
      input, queue, queued := data, 0, 0;
      new;
      assert Remaining() == [] + BytesToBits(data);
    }

    method ReadBit() returns (r: Result<bool, Eof>)
      requires Valid()
      modifies this
      ensures Valid()
      ensures r.Err? <==> old(Remaining()) == []
      ensures r.Ok? ==> r.value == old(Remaining())[0] && Remaining() == old(Remaining())[1..]
      ensures r.Err? ==> Remaining() == []
    {
      hide BitsOf, BytesToBits, Pow2;
      if queued == 0 {
        if input == [] {
          NothingRemains(queue);
          return Err(Eof);
        }
        ByteRemains(queue, input);
        queue, queued, input := input[0], 8, input[1..];
      }
      var high := Pow2(queued - 1);
      DropTopBit(queue, queued, BytesToBits(input));
      r := Ok(queue >= high);
      queue, queued := if queue >= high then queue - high else queue, queued - 1;
    }

    /** Reads one field. A failed read leaves nothing in the stream. */
    method Read(width: nat) returns (r: Result<nat, Eof>)
      requires Valid()
      modifies this
      ensures Valid()
      ensures Take(old(Remaining()), width).Ok? ==>
                r.Ok? && Take(old(Remaining()), width) == Ok((r.value, Remaining()))
      ensures Take(old(Remaining()), width).Err? ==> r.Err? && Remaining() == []
    {
      ghost var all := Remaining();
      var value := 0;
      for i := 0 to width
        invariant Valid()
        invariant i <= |all|
        invariant value == ValueOf(all[..i])
        invariant Remaining() == all[i..]
      {
        var bit := ReadBit();
        if bit.Err? {
          return Err(Eof);
        }
        value := 2 * value + Bit(bit.value);
        assert all[..i + 1][..i] == all[..i];
        assert all[i + 1..] == all[i..][1..];
      }
      r := Ok(value);
    }

    method ReadBytes(n: nat) returns (r: Result<bytes, Eof>)
      requires Valid()
      modifies this
      ensures Valid()
      ensures TakeBytes(old(Remaining()), n).Ok? ==>
                r.Ok? && TakeBytes(old(Remaining()), n) == Ok((r.value, Remaining()))
      ensures TakeBytes(old(Remaining()), n).Err? ==> r.Err? && Remaining() == []
    {
      hide Take, TakeBytes;
      ghost var all := Remaining();
      assert all == PutBytes([], all);
      TakeBytesShort(all, n);
      var s: bytes := [];
      for i := 0 to n
        invariant Valid()
        invariant |s| == i
        invariant all == PutBytes(s, Remaining())
      {
        ghost var before := Remaining();
        TakeShort(before, 8);
        var byte := Read(8);
        if byte.Err? {
          return Err(Eof);
        }
        PutOfTake(before, 8);
        Pow2Of8();
        PutBytesSnoc(s, byte.value, Remaining());
        s := s + [byte.value];
      }
      TakeOfPutBytes(s, Remaining());
      r := Ok(s);
    }
  }
}
