/** Byte-order swapping and packetising of PCM data (src/bin/avtp-integration-test.rs). */
module PcmBytes {
  import opened Basics

  function Reversed(s: bytes): (r: bytes)
    ensures |r| == |s|
    ensures forall i :: 0 <= i < |s| ==> r[i] == s[|s| - 1 - i]
  {
    seq(|s|, i requires 0 <= i < |s| => s[|s| - 1 - i])
  }

  /** Every whole word reversed; an incomplete last word is left alone. */
  function Swapped(s: bytes, word: nat): (r: bytes)
    requires word > 0
    ensures |r| == |s|
    decreases |s|
  {
    if |s| < word then s else Reversed(s[..word]) + Swapped(s[word..], word)
  }

  lemma ReversedTwice(s: bytes)
    ensures Reversed(Reversed(s)) == s
  {
  }

  lemma {:induction false} SwappedTwice(s: bytes, word: nat)
    requires word > 0
    ensures Swapped(Swapped(s, word), word) == s
    decreases |s|
  {
    hide Reversed;
    if |s| >= word {
      var r := Swapped(s, word);
      assert r[..word] == Reversed(s[..word]);
      assert r[word..] == Swapped(s[word..], word);
      SwappedTwice(s[word..], word);
      ReversedTwice(s[..word]);
    }
  }

  lemma AtLeastOneWord(n: nat, word: nat)
    requires word > 0 && n > 0 && n % word == 0
    ensures n >= word
  {
    if n < word {
      ModUnique(n, 0, n, word);
    }
  }

  /** In place, slice by slice, as `chunks_exact_mut` and `reverse` do; a zero word size panics. */
  method SwapByteOrder(buf: array<u8>, word: nat)
    requires word > 0
    modifies buf
    ensures buf[..] == Swapped(old(buf[..]), word)
  {
    ghost var was := buf[..];
    var start := 0;
    while start + word <= buf.Length
      invariant 0 <= start <= buf.Length
      invariant Swapped(was, word) == buf[..start] + Swapped(buf[start..], word)
    {
      ghost var now := buf[..];
      assert buf[start..] == now[start..];
      ReverseSlice(buf, start, word);
      SwapOneWord(now, buf[..], start, word);
      start := start + word;
      assert buf[start..] == buf[..][start..] && buf[..start] == buf[..][..start];
    }
    assert buf[..] == buf[..start] + buf[start..];
  }

  lemma SwapOneWord(now: bytes, next: bytes, start: nat, word: nat)
    requires word > 0 && start + word <= |now| == |next|
    requires next == now[..start] + Reversed(now[start..start + word]) + now[start + word..]
    ensures now[..start] + Swapped(now[start..], word)
         == next[..start + word] + Swapped(next[start + word..], word)
  {
    hide Reversed;
    var done, rest := now[..start], now[start..];
    assert rest[..word] == now[start..start + word];
    assert rest[word..] == now[start + word..] == next[start + word..];
    assert next[..start + word] == done + Reversed(rest[..word]);
    assert Swapped(rest, word) == Reversed(rest[..word]) + Swapped(rest[word..], word);
    hide Swapped;
    ConcatAssociates(done, Reversed(rest[..word]), Swapped(rest[word..], word));
  }

  lemma ConcatAssociates(a: bytes, b: bytes, c: bytes)
    ensures a + (b + c) == a + b + c
  {
  }

  /** The mirror image of position `k` within a slice of `length` bytes from `start`. */
  function Mirror(start: nat, length: nat, k: int): int {
    start + length - 1 - (k - start)
  }

  method ReverseSlice(buf: array<u8>, start: nat, length: nat)
    requires start + length <= buf.Length
    modifies buf
    ensures var was := old(buf[..]);
            buf[..] == was[..start] + Reversed(was[start..start + length]) + was[start + length..]
  {
    ghost var was := buf[..];
    hide Reversed;
    var low, high := start, start + length;
    while high - low >= 2
      invariant start <= low <= high <= start + length
      invariant low - start == start + length - high
      invariant forall k :: low <= k < high ==> buf[k] == was[k]
      invariant forall k :: 0 <= k < start || start + length <= k < buf.Length ==> buf[k] == was[k]
      invariant forall k :: start <= k < low || high <= k < start + length ==> buf[k] == was[Mirror(start, length, k)]
    {
      buf[low], buf[high - 1] := buf[high - 1], buf[low];
      low, high := low + 1, high - 1;
    }
    MirroredIsReversed(was, buf[..], start, length);
  }

  lemma MirroredIsReversed(was: bytes, now: bytes, start: nat, length: nat)
    requires start + length <= |was| == |now|
    requires forall k :: 0 <= k < |was| ==>
      now[k] == if start <= k < start + length then was[Mirror(start, length, k)] else was[k]
    ensures now == was[..start] + Reversed(was[start..start + length]) + was[start + length..]
  {
    var middle := was[start..start + length];
    assert now[start..start + length] == Reversed(middle);
    assert now == now[..start] + now[start..start + length] + now[start + length..];
  }

  // ----- When the two sides agree -----

  /** A sequence that differs from zero in its first byte only. */
  function Marked(n: nat): (s: bytes)
    requires n > 0
    ensures |s| == n
  {
    seq(n, i => if i == 0 then 1 else 0)
  }

  predicate AllZero(s: bytes) {
    forall i :: 0 <= i < |s| ==> s[i] == 0
  }

  lemma {:induction false} SwappedZeros(s: bytes, word: nat)
    requires word > 0 && AllZero(s)
    ensures AllZero(Swapped(s, word))
    decreases |s|
  {
    if |s| >= word {
      SwappedZeros(s[word..], word);
    }
  }

  /** Swapping with one word size and back with another restores every buffer of `n` bytes. */
  ghost predicate Conserves(sent: nat, received: nat, n: nat)
    requires sent > 0 && received > 0
  {
    forall s: bytes :: |s| == n ==> Swapped(Swapped(s, sent), received) == s
  }

  /**
   * The two sides derive the word size differently: the sender from the container bits, the receiver
   * from the valid bits. For multi-byte words the bytes survive exactly when the two agree.
   */
  lemma ConservationNeedsEqualWords(sent: nat, received: nat, n: nat)
    requires sent >= 2 && received > 0 && n > 0 && n % sent == 0
    ensures Conserves(sent, received, n) <==> sent == received
  {
    if sent == received {
      forall s: bytes | |s| == n
        ensures Swapped(Swapped(s, sent), received) == s
      {
        SwappedTwice(s, sent);
      }
    } else {
      var s := Marked(n);
      AtLeastOneWord(n, sent);
      FirstByteMoves(s, sent, received);
    }
  }

  /** With different word sizes the first byte does not return to its place. */
  lemma FirstByteMoves(s: bytes, sent: nat, received: nat)
    requires sent >= 2 && received > 0 && sent != received
    requires |s| >= sent && s == Marked(|s|)
    ensures Swapped(Swapped(s, sent), received)[0] == 0
  {
    var t := Swapped(s, sent);
    SwappedZeros(s[sent..], sent);
    assert forall k :: 0 <= k < |t| && k != sent - 1 ==> t[k] == 0;
    if received <= |t| {
      assert Swapped(t, received)[0] == Reversed(t[..received])[0] == t[received - 1];
    } else {
      assert Swapped(t, received)[0] == t[0];
    }
  }

  /** 12 valid bits in a 16-bit container: the receiver's one-byte words never swap back. */
  lemma NarrowSamplesAreCorrupted()
    ensures Swapped(Swapped([1, 0], 16 / 8), 12 / 8) == [0, 1]
  {
    var t := Swapped([1, 0], 2);
    assert t == Reversed([1, 0][..2]) + Swapped([1, 0][2..], 2);
    assert t == [0, 1];
    assert Swapped(t, 1) == Reversed(t[..1]) + Swapped(t[1..], 1);
    assert Swapped(t[1..], 1) == Reversed(t[1..][..1]) + Swapped(t[1..][1..], 1);
  }

  // ----- Packetising -----

  /** `slice::chunks`: every chunk full except possibly the last. */
  function Chunks(s: bytes, size: nat): seq<bytes>
    requires size > 0
    decreases |s|
  {
    if s == [] then []
    else if |s| <= size then [s]
    else [s[..size]] + Chunks(s[size..], size)
  }

  function Concat(chunks: seq<bytes>): bytes {
    if chunks == [] then [] else chunks[0] + Concat(chunks[1..])
  }

  function SwappedAll(chunks: seq<bytes>, word: nat): (r: seq<bytes>)
    requires word > 0
    ensures |r| == |chunks|
    ensures forall i :: 0 <= i < |chunks| ==> r[i] == Swapped(chunks[i], word)
  {
    seq(|chunks|, i requires 0 <= i < |chunks| => Swapped(chunks[i], word))
  }

  lemma {:induction false} ConcatOfChunks(s: bytes, size: nat)
    requires size > 0
    ensures Concat(Chunks(s, size)) == s
    decreases |s|
  {
    if |s| > size {
      ConcatOfChunks(s[size..], size);
      assert Chunks(s, size)[1..] == Chunks(s[size..], size);
      assert s[..size] + s[size..] == s;
    }
  }

  /** Chunks of a whole number of frames are whole numbers of frames, none empty or oversized. */
  lemma {:induction false} ChunksAreFrames(s: bytes, size: nat, frame: nat)
    requires size > 0 && frame > 0 && size % frame == 0 && |s| % frame == 0
    ensures forall c :: c in Chunks(s, size) ==> 0 < |c| <= size && |c| % frame == 0
    decreases |s|
  {
    if |s| > size {
      var q, p := |s| / frame, size / frame;
      assert |s| - size == (q - p) * frame;
      ModUnique(|s| - size, q - p, 0, frame);
      ChunksAreFrames(s[size..], size, frame);
    }
  }

  /** Swapping every packet and swapping it back restores the stream of bytes. */
  lemma PacketisingConserves(s: bytes, size: nat, word: nat)
    requires size > 0 && word > 0
    ensures Concat(SwappedAll(SwappedAll(Chunks(s, size), word), word)) == s
  {
    var chunks := Chunks(s, size);
    var back := SwappedAll(SwappedAll(chunks, word), word);
    forall i | 0 <= i < |chunks|
      ensures back[i] == chunks[i]
    {
      SwappedTwice(chunks[i], word);
    }
    assert back == chunks;
    ConcatOfChunks(s, size);
  }
}
