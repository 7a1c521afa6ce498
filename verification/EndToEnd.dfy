/**
 * The whole audio path: a talker run, the wire with any padding, delivery in any order and with any
 * losses, the listener, exact re-expansion of timestamps, and the jitter buffer.
 */
module EndToEnd {
  import opened Basics
  import opened PtpTimes
  import opened Timestamps
  import opened Headers
  import opened AafStreams
  import opened AafStreamLaws
  import opened PcmBytes
  import opened JitterBuffers
  import opened Reordering
  import opened TalkerThreads
  import Avtpdus

  // ----- Delivery orders -----

  /** Which packets are delivered, in delivery order: any subset, in any order, each at most once. */
  ghost predicate ValidOrder(order: seq<nat>, n: nat) {
    && (forall k :: 0 <= k < |order| ==> order[k] < n)
    && (forall j, k :: 0 <= j < k < |order| ==> order[j] != order[k])
  }

  /** The delivered packet numbers at or above `lo`, in send order. */
  function Kept(order: seq<nat>, lo: nat, n: nat): seq<nat>
    requires lo <= n
    decreases n - lo
  {
    if lo == n then [] else (if lo in order then [lo] else []) + Kept(order, lo + 1, n)
  }

  /** Delivered numbers within a range, strictly increasing. */
  ghost predicate SendOrdered(order: seq<nat>, kept: seq<nat>, lo: nat, n: nat) {
    && (forall i :: 0 <= i < |kept| ==> lo <= kept[i] < n && kept[i] in order)
    && (forall i, j :: 0 <= i < j < |kept| ==> kept[i] < kept[j])
  }

  lemma {:induction false} KeptShape(order: seq<nat>, lo: nat, n: nat)
    requires lo <= n
    ensures SendOrdered(order, Kept(order, lo, n), lo, n)
    decreases n - lo
  {
    if lo < n {
      KeptShape(order, lo + 1, n);
    }
  }

  lemma {:induction false} KeptComplete(order: seq<nat>, lo: nat, n: nat, x: nat)
    requires lo <= x < n && x in order
    ensures x in Kept(order, lo, n)
    decreases n - lo
  {
    var rest := Kept(order, lo + 1, n);
    var head := if lo in order then [lo] else [];
    assert Kept(order, lo, n) == head + rest;
    if lo < x {
      KeptComplete(order, lo + 1, n, x);
      assert x in rest;
    } else {
      assert x in head;
    }
  }

  lemma {:induction false} DistinctBag<T>(s: seq<T>)
    requires forall j, k :: 0 <= j < k < |s| ==> s[j] != s[k]
    ensures forall x :: multiset(s)[x] == if x in s then 1 else 0
  {
    if s != [] {
      var rest := s[1..];
      assert s == [s[0]] + rest;
      DistinctBag(rest);
      assert s[0] !in rest;
    }
  }

  lemma SameDistinctElements<T>(a: seq<T>, b: seq<T>)
    requires forall j, k :: 0 <= j < k < |a| ==> a[j] != a[k]
    requires forall j, k :: 0 <= j < k < |b| ==> b[j] != b[k]
    requires forall x :: x in a <==> x in b
    ensures multiset(a) == multiset(b)
  {
    DistinctBag(a);
    DistinctBag(b);
    assert forall x :: multiset(a)[x] == multiset(b)[x];
  }

  /** When everything is delivered, the send order is 0, 1, 2 and so on. */
  lemma {:induction false} AllKept(order: seq<nat>, lo: nat, n: nat)
    requires lo <= n && forall i :: lo <= i < n ==> i in order
    ensures |Kept(order, lo, n)| == n - lo
    ensures forall i :: 0 <= i < n - lo ==> Kept(order, lo, n)[i] == lo + i
    decreases n - lo
  {
    if lo < n {
      AllKept(order, lo + 1, n);
    }
  }

  // ----- The wire and the listener -----

  /** Frame `k` on the receiving side: the delivered packet's bytes and whatever follows them. */
  ghost predicate FramesOf(sent: seq<SentPacket>, order: seq<nat>, frames: seq<bytes>) {
    && |frames| == |order| && ValidOrder(order, |sent|)
    && forall k :: 0 <= k < |order| ==>
         var w := Avtpdus.Write(sent[order[k]].pdu);
         w.Ok? && w.value <= frames[k]
  }

  /** The PDUs parsed from the frames. */
  ghost predicate ParsedFrom(frames: seq<bytes>, pdus: seq<Avtpdu>) {
    && |pdus| == |frames|
    && forall k :: 0 <= k < |frames| ==> Avtpdus.Read(frames[k]).Ok? && Avtpdus.Read(frames[k]).value.0 == pdus[k]
  }

  /** Every frame parses to the very packet that was sent. */
  lemma FramesParse(s: TalkerState, sent: seq<SentPacket>, order: seq<nat>, frames: seq<bytes>, pdus: seq<Avtpdu>)
    requires AllCarried(s, sent) && FramesOf(sent, order, frames) && ParsedFrom(frames, pdus)
    ensures forall k :: 0 <= k < |order| ==> pdus[k] == sent[order[k]].pdu
  {
    hide Avtpdus.Write, Avtpdus.Read, CarriedBy;
    forall k | 0 <= k < |order|
      ensures pdus[k] == sent[order[k]].pdu
    {
      var p := sent[order[k]];
      var w := Avtpdus.Write(p.pdu).value;
      var pad := frames[k][|w|..];
      assert frames[k] == w + pad;
      TalkerToWire(s, p, order[k], pad);
    }
  }

  /** What the listener reports at delivery `k`, apart from its loss count. */
  predicate ReportOf(s: TalkerState, p: SentPacket, n: nat, r: ReceivedPcm) {
    r == Delivered(s, p, n, r.packetsLost)
  }

  lemma {:induction false} ListenerHearsAll(s: TalkerState, sent: seq<SentPacket>, order: seq<nat>,
                                            pdus: seq<Avtpdu>, filter: StreamFilter, expected: Option<u8>)
    requires AllCarried(s, sent) && Matches(filter, s.streamId)
    requires |pdus| == |order| && forall k :: 0 <= k < |order| ==> order[k] < |sent| && pdus[k] == sent[order[k]].pdu
    ensures var heard := Heard(filter, expected, pdus);
            && |heard| == |order|
            && forall k :: 0 <= k < |order| ==> ReportOf(s, sent[order[k]], order[k], heard[k])
    decreases |order|
  {
    hide CarriedBy, Matches, Process, Delivered, LostBefore, NextSeq, SeqAt;
    if order != [] {
      ListenerReports(s, sent[order[0]], order[0], filter, expected);
      var (next, r) := Process(filter, expected, pdus[0]);
      ListenerHearsAll(s, sent, order[1..], pdus[1..], filter, next);
      var rest := Heard(filter, next, pdus[1..]);
      assert Heard(filter, expected, pdus) == [r.value.value] + rest;
      LossOnlyDiffers(s, sent[order[0]], order[0], LostBefore(expected, SeqAt(s, order[0])));
    }
  }

  lemma LossOnlyDiffers(s: TalkerState, p: SentPacket, n: nat, lost: u32)
    ensures Delivered(s, p, n, lost).packetsLost == lost
  {
  }

  // ----- Buffering -----

  /** The presentation time the talker meant. */
  function Due(s: TalkerState, p: SentPacket): int {
    AsNanos(p.time) + s.delay
  }

  /** The receiver's clock is within the half window of the presentation time, and away from range ends. */
  predicate InWindow(s: TalkerState, p: SentPacket, receivedAt: PtpTime) {
    && -TWO_31 <= Due(s, p) - AsNanos(receivedAt) < TWO_31
    && InteriorReference(receivedAt)
  }

  /** A packet buffered under exactly the presentation time the talker meant. */
  predicate BufferedAs(s: TalkerState, p: SentPacket, n: nat, b: Buffered) {
    Time(b) == Due(s, p) && ReportOf(s, p, n, b.pcm)
  }

  lemma BuffersExactly(s: TalkerState, p: SentPacket, n: nat, a: Arrival)
    requires ReportOf(s, p, n, a.pcm) && InWindow(s, p, a.receivedAt)
    ensures Buffer(a).Some? && BufferedAs(s, p, n, Buffer(a).value)
    ensures Buffer(a).value.receivedAt == a.receivedAt && Buffer(a).value.pcm == a.pcm
  {
    var due := Due(s, p);
    NanosExact(p.time);
    NanosExact(a.receivedAt);
    FromNsI128Inverse(due);
    var t := FromNsI128(due).value;
    ExpandRecovers(t, a.receivedAt);
    hide AsNanos, FromNsI128, ExpandNear;
    assert a.pcm.timestamp == due % TWO_32;
  }

  // ----- Reorder repair, end to end -----

  /** What the drain loop observed is what the listener reported, stamped with its reception time. */
  ghost predicate ArrivalsOf(s: TalkerState, sent: seq<SentPacket>, order: seq<nat>, heard: seq<ReceivedPcm>,
                             receivedAt: seq<PtpTime>, arrivals: seq<seq<Buffered>>)
  {
    && |heard| == |receivedAt| == |order| == |Flat(arrivals)|
    && forall k :: 0 <= k < |order| ==> Buffer(Arrival(heard[k], receivedAt[k])) == Some(Flat(arrivals)[k])
  }

  /** The released packets are those numbered `kept`, in that order, each as it was sent. */
  ghost predicate ReleasedAs(s: TalkerState, sent: seq<SentPacket>, kept: seq<nat>, released: seq<Buffered>) {
    && |released| == |kept|
    && forall m :: 0 <= m < |kept| ==> kept[m] < |sent| && BufferedAs(s, sent[kept[m]], kept[m], released[m])
  }

  /** The delivery position of packet `i`. */
  function Position(order: seq<nat>, i: nat): (k: nat)
    requires i in order
    ensures k < |order| && order[k] == i
  {
    if order[0] == i then 0 else 1 + Position(order[1..], i)
  }

  /** The packets numbered `numbers`, as they were buffered. */
  function Picked(order: seq<nat>, all: seq<Buffered>, numbers: seq<nat>): (r: seq<Buffered>)
    requires |all| == |order| && forall m :: 0 <= m < |numbers| ==> numbers[m] in order
    ensures |r| == |numbers|
    ensures forall m :: 0 <= m < |numbers| ==> r[m] == all[Position(order, numbers[m])]
  {
    seq(|numbers|, m requires 0 <= m < |numbers| => all[Position(order, numbers[m])])
  }

  /** The presentation times of a run strictly increase. */
  ghost predicate DueAscends(s: TalkerState, sent: seq<SentPacket>) {
    forall i, j :: 0 <= i < j < |sent| ==> Due(s, sent[i]) < Due(s, sent[j])
  }

  /** Delivery `k` was buffered as packet `order[k]`. */
  ghost predicate AllBufferedAs(s: TalkerState, sent: seq<SentPacket>, order: seq<nat>, all: seq<Buffered>) {
    && |all| == |order| && ValidOrder(order, |sent|)
    && forall k :: 0 <= k < |order| ==> BufferedAs(s, sent[order[k]], order[k], all[k])
  }

  lemma PickedAscends(s: TalkerState, sent: seq<SentPacket>, order: seq<nat>, all: seq<Buffered>, kept: seq<nat>)
    requires DueAscends(s, sent) && AllBufferedAs(s, sent, order, all)
    requires SendOrdered(order, kept, 0, |sent|)
    ensures StrictlyAscending(Picked(order, all, kept))
    ensures ReleasedAs(s, sent, kept, Picked(order, all, kept))
  {
    hide Due, Time, ReportOf, Position;
    var picked := Picked(order, all, kept);
    forall m | 0 <= m < |kept|
      ensures kept[m] < |sent| && BufferedAs(s, sent[kept[m]], kept[m], picked[m])
    {
      var k := Position(order, kept[m]);
      assert BufferedAs(s, sent[order[k]], order[k], all[k]);
    }
    forall i, j | 0 <= i < j < |kept|
      ensures Time(picked[i]) < Time(picked[j])
    {
      assert BufferedAs(s, sent[kept[i]], kept[i], picked[i]) && BufferedAs(s, sent[kept[j]], kept[j], picked[j]);
    }
  }

  lemma AllDistinct(s: TalkerState, sent: seq<SentPacket>, order: seq<nat>, all: seq<Buffered>)
    requires DueAscends(s, sent) && AllBufferedAs(s, sent, order, all)
    ensures forall j, k :: 0 <= j < k < |all| ==> all[j] != all[k]
  {
    hide Due, Time, ReportOf;
    forall j, k | 0 <= j < k < |all|
      ensures all[j] != all[k]
    {
      assert BufferedAs(s, sent[order[j]], order[j], all[j]) && BufferedAs(s, sent[order[k]], order[k], all[k]);
    }
  }

  lemma AscendingIsDistinct(s: seq<Buffered>)
    requires StrictlyAscending(s)
    ensures forall j, k :: 0 <= j < k < |s| ==> s[j] != s[k]
  {
    hide Time;
  }

  lemma AllPicked(s: TalkerState, sent: seq<SentPacket>, order: seq<nat>, all: seq<Buffered>, kept: seq<nat>, k: nat)
    requires AllBufferedAs(s, sent, order, all) && k < |all|
    requires SendOrdered(order, kept, 0, |sent|) && ContainsAll(kept, order)
    ensures all[k] in Picked(order, all, kept)
  {
    hide BufferedAs;
    assert order[k] in kept;
    var m :| 0 <= m < |kept| && kept[m] == order[k];
    assert order[Position(order, kept[m])] == order[k];
    assert Picked(order, all, kept)[m] == all[k];
  }

  lemma PickedIsAll(s: TalkerState, sent: seq<SentPacket>, order: seq<nat>, all: seq<Buffered>, kept: seq<nat>)
    requires DueAscends(s, sent) && AllBufferedAs(s, sent, order, all)
    requires SendOrdered(order, kept, 0, |sent|) && ContainsAll(kept, order)
    ensures multiset(Picked(order, all, kept)) == multiset(all)
  {
    hide Due, Position, ReleasedAs;
    var picked := Picked(order, all, kept);
    AllDistinct(s, sent, order, all);
    PickedAscends(s, sent, order, all, kept);
    hide Time;
    hide StrictlyAscending;
    forall k | 0 <= k < |all|
      ensures all[k] in picked
    {
      AllPicked(s, sent, order, all, kept, k);
    }
    AscendingIsDistinct(picked);
    SameDistinctElements(picked, all);
  }

  ghost predicate ContainsAll(kept: seq<nat>, order: seq<nat>) {
    forall k :: 0 <= k < |order| ==> order[k] in kept
  }

  lemma KeptContains(order: seq<nat>, n: nat)
    requires ValidOrder(order, n)
    ensures ContainsAll(Kept(order, 0, n), order)
  {
    forall k | 0 <= k < |order|
      ensures order[k] in Kept(order, 0, n)
    {
      KeptComplete(order, 0, n, order[k]);
    }
  }

  lemma DueIncreases(s: TalkerState, calls: seq<BuildCall>, i: nat, j: nat)
    requires i < j < |Sent(s, calls)|
    ensures Due(s, Sent(s, calls)[i]) < Due(s, Sent(s, calls)[j])
  {
    hide Sent, AsNanos;
    var sent := Sent(s, calls);
    SentPacketsCarry(s, calls);
    TimesOfAt(sent, i);
    TimesOfAt(sent, j);
    assert AsNanos(TimesOf(sent)[i]) < AsNanos(TimesOf(sent)[j]);
  }

  /** Everything between talker and jitter buffer: each delivery is buffered as the packet it was sent as. */
  lemma DeliveriesBuffered(s: TalkerState, sent: seq<SentPacket>, order: seq<nat>, frames: seq<bytes>,
                           pdus: seq<Avtpdu>, filter: StreamFilter, receivedAt: seq<PtpTime>,
                           arrivals: seq<seq<Buffered>>)
    requires AllCarried(s, sent) && Matches(filter, s.streamId)
    requires FramesOf(sent, order, frames) && ParsedFrom(frames, pdus)
    requires ArrivalsOf(s, sent, order, Heard(filter, None, pdus), receivedAt, arrivals)
    requires forall k :: 0 <= k < |order| ==> InWindow(s, sent[order[k]], receivedAt[k])
    ensures AllBufferedAs(s, sent, order, Flat(arrivals))
  {
    FramesParse(s, sent, order, frames, pdus);
    ListenerHearsAll(s, sent, order, pdus, filter, None);
    hide Flat, Heard, ReportOf, InWindow, BufferedAs, Buffer, AllCarried, Avtpdus.Read, Avtpdus.Write;
    var all, heard := Flat(arrivals), Heard(filter, None, pdus);
    forall k | 0 <= k < |order|
      ensures BufferedAs(s, sent[order[k]], order[k], all[k])
    {
      BuffersExactly(s, sent[order[k]], order[k], Arrival(heard[k], receivedAt[k]));
    }
  }

  lemma RunDueAscends(s: TalkerState, calls: seq<BuildCall>)
    ensures DueAscends(s, Sent(s, calls))
  {
    hide Sent, Due;
    var sent := Sent(s, calls);
    forall i, j | 0 <= i < j < |sent|
      ensures Due(s, sent[i]) < Due(s, sent[j])
    {
      DueIncreases(s, calls, i, j);
    }
  }

  /** The jitter buffer's part: packets buffered under ascending times come out in send order. */
  lemma {:induction false} BufferRepairs(s: TalkerState, sent: seq<SentPacket>, order: seq<nat>,
                                         arrivals: seq<seq<Buffered>>, readings: seq<PtpTime>,
                                         passes: seq<seq<Buffered>>)
    requires DueAscends(s, sent) && AllBufferedAs(s, sent, order, Flat(arrivals))
    requires GoodSchedule(arrivals, readings, passes) && Punctual(arrivals, readings)
    requires PendingAfter(arrivals, passes, |passes|) == multiset{}
    ensures ReleasedAs(s, sent, Kept(order, 0, |sent|), Flat(passes))
  {
    hide Flat, DueAscends, BufferedAs, Kept, PendingAfter, GoodSchedule, Punctual, StrictlyAscending, ReleasedAs;
    var kept, all := Kept(order, 0, |sent|), Flat(arrivals);
    KeptShape(order, 0, |sent|);
    KeptContains(order, |sent|);
    PickedAscends(s, sent, order, all, kept);
    PickedIsAll(s, sent, order, all, kept);
    ReorderRepair(arrivals, readings, passes, Picked(order, all, kept));
  }

  /**
   * Reorder repair, end to end. One talker run over any clock readings; its packets written, padded,
   * delivered in any order with any losses but no duplicates, read, and reported by a matching
   * listener; each buffered near its reception time, within the half window and before any drain
   * reading has reached its presentation time. Once the buffer is empty, what was released is
   * exactly the delivered packets in send order, each with its own payload, sequence number, format
   * and presentation time.
   */
  lemma DeliveryInSendOrder(s: TalkerState, calls: seq<BuildCall>, order: seq<nat>, frames: seq<bytes>,
                            pdus: seq<Avtpdu>, filter: StreamFilter, receivedAt: seq<PtpTime>,
                            arrivals: seq<seq<Buffered>>, readings: seq<PtpTime>, passes: seq<seq<Buffered>>)
    requires Matches(filter, s.streamId)
    requires FramesOf(Sent(s, calls), order, frames) && ParsedFrom(frames, pdus)
    requires ArrivalsOf(s, Sent(s, calls), order, Heard(filter, None, pdus), receivedAt, arrivals)
    requires forall k :: 0 <= k < |order| ==> InWindow(s, Sent(s, calls)[order[k]], receivedAt[k])
    requires GoodSchedule(arrivals, readings, passes) && Punctual(arrivals, readings)
    requires PendingAfter(arrivals, passes, |passes|) == multiset{}
    ensures ReleasedAs(s, Sent(s, calls), Kept(order, 0, |Sent(s, calls)|), Flat(passes))
  {
    hide *;
    SentPacketsCarry(s, calls);
    DeliveriesBuffered(s, Sent(s, calls), order, frames, pdus, filter, receivedAt, arrivals);
    RunDueAscends(s, calls);
    BufferRepairs(s, Sent(s, calls), order, arrivals, readings, passes);
  }

  // ----- PCM conservation, end to end -----

  lemma {:induction false} ConcatSnoc(chunks: seq<bytes>, last: bytes)
    ensures Concat(chunks + [last]) == Concat(chunks) + last
  {
    if chunks == [] {
      assert chunks + [last] == [last];
    } else {
      assert (chunks + [last])[1..] == chunks[1..] + [last];
      ConcatSnoc(chunks[1..], last);
    }
  }

  /** Every released payload is the swapped chunk at the same place. */
  ghost predicate CarriesChunks(released: seq<Buffered>, chunks: seq<bytes>, word: nat)
    requires word > 0
  {
    && |released| == |chunks|
    && forall m :: 0 <= m < |chunks| ==>
         released[m].pcm.payload == Swapped(chunks[m], word) && WordOf(released[m]) == word
  }

  lemma {:induction false} RestoredIsConcat(released: seq<Buffered>, chunks: seq<bytes>, word: nat)
    requires word > 0 && CarriesChunks(released, chunks, word)
    ensures Swappable(released) && Restored(released) == Concat(chunks)
    decreases |released|
  {
    if released != [] {
      var n := |released| - 1;
      RestoredIsConcat(released[..n], chunks[..n], word);
      SwappedTwice(chunks[n], word);
      hide Swapped;
      ConcatSnoc(chunks[..n], chunks[n]);
      assert chunks[..n] + [chunks[n]] == chunks;
    }
  }

  /** From a run in which every planned call succeeded, packet `i` carries chunk `i`. */
  lemma {:induction false} SentPayloads(s: TalkerState, calls: seq<BuildCall>, i: nat)
    requires |Sent(s, calls)| == |calls| && i < |calls|
    ensures Sent(s, calls)[i].payload == calls[i].payload
    decreases |calls|
  {
    var c := calls[0];
    SentAtMost(BuildPacket(s, c.now, c.reading, c.payload).0, calls[1..]);
    hide BuildPacket, TimeOf;
    if i > 0 {
      SentPayloads(BuildPacket(s, c.now, c.reading, c.payload).0, calls[1..], i - 1);
    }
  }

  lemma {:induction false} SentAtMost(s: TalkerState, calls: seq<BuildCall>)
    ensures |Sent(s, calls)| <= |calls|
    decreases |calls|
  {
    if calls != [] {
      SentAtMost(BuildPacket(s, calls[0].now, calls[0].reading, calls[0].payload).0, calls[1..]);
      hide BuildPacket, TimeOf;
    }
  }

  lemma PayloadReleased(s: TalkerState, p: SentPacket, n: nat, b: Buffered)
    requires BufferedAs(s, p, n, b)
    ensures b.pcm.payload == p.payload && b.pcm.bitDepth == s.bitDepth
  {
    hide Time, Due;
  }

  /**
   * PCM conservation, end to end: if every chunk of the PCM data is sent, every packet is delivered,
   * in whatever order, and the releases are as `DeliveryInSendOrder` shows, then the bytes written
   * out are the bytes read in, for a receiver whose word size is the sender's.
   */
  lemma PcmSurvives(s: TalkerState, pcmLe: bytes, size: nat, word: nat, ticks: seq<TalkerTick>, order: seq<nat>,
                    released: seq<Buffered>)
    requires size > 0 && word > 0 && s.bitDepth / 8 == word && |Chunks(pcmLe, size)| <= |ticks|
    requires var calls := PlannedCalls(Chunks(pcmLe, size), word, ticks);
             && |Sent(s, calls)| == |calls|
             && ValidOrder(order, |calls|) && (forall i :: 0 <= i < |calls| ==> i in order)
             && ReleasedAs(s, Sent(s, calls), Kept(order, 0, |calls|), released)
    ensures Swappable(released) && Restored(released) == pcmLe
  {
    var chunks := Chunks(pcmLe, size);
    var calls := PlannedCalls(chunks, word, ticks);
    AllKept(order, 0, |calls|);
    ConcatOfChunks(pcmLe, size);
    hide Chunks, Sent, BufferedAs, Swapped, Kept;
    forall m | 0 <= m < |chunks|
      ensures released[m].pcm.payload == Swapped(chunks[m], word) && WordOf(released[m]) == word
    {
      SentPayloads(s, calls, m);
      PayloadReleased(s, Sent(s, calls)[m], m, released[m]);
    }
    RestoredIsConcat(released, chunks, word);
  }
}
