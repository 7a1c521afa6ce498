/** The packetising loop of the integration test's talker (src/bin/avtp-integration-test.rs). */
module TalkerThreads {
  import opened Basics
  import opened PtpTimes
  import opened Clocks
  import opened Headers
  import opened AafStreams
  import opened AafStreamLaws
  import opened AafEndpoints
  import opened PcmBytes
  import opened HeaderCodecs
  import Avtpdus

  /**
   * What one iteration meets: the values for the talker's clock and for the validation clock, and
   * whether the interface accepts the frame. A run is given one for every chunk.
   */
  datatype TalkerTick = TalkerTick(now: Instant, reading: Option<PtpTime>, phc: Option<PtpTime>, accepted: bool)

  datatype TalkerRecord = TalkerRecord(frameIdx: nat, seqNum: u8, phcTimeAtSend: PtpTime, timestampEmbedded: u32)

  datatype ThreadError = ZeroChunkPanic | ClockReadFailed | BuildFailed(error: TalkerError) | SendFailed

  /** Bytes per packet: samples times frame size; `checked_mul` cannot fail in 64 bits. */
  function ChunkSize(samplesPerPacket: u32, channels: u16, bytesPerSample: nat): (n: nat)
    ensures n > 0 ==> bytesPerSample > 0
  {
    samplesPerPacket * (channels * bytesPerSample)
  }

  /** The packets a run should send: each chunk swapped to network order, at its tick. */
  function PlannedCalls(chunks: seq<bytes>, word: nat, ticks: seq<TalkerTick>): (calls: seq<BuildCall>)
    requires word > 0 && |chunks| <= |ticks|
    ensures |calls| == |chunks|
    ensures forall i :: 0 <= i < |chunks| ==>
              calls[i] == BuildCall(ticks[i].now, ticks[i].reading, Swapped(chunks[i], word))
  {
    seq(|chunks|, i requires 0 <= i < |chunks| =>
      BuildCall(ticks[i].now, ticks[i].reading, Swapped(chunks[i], word)))
  }

  function TalkerAfter(s: TalkerState, calls: seq<BuildCall>): TalkerState
    decreases |calls|
  {
    if calls == [] then s
    else TalkerAfter(BuildPacket(s, calls[0].now, calls[0].reading, calls[0].payload).0, calls[1..])
  }

  /** One more call at the end of a run. */
  lemma {:induction false} SentSnoc(s: TalkerState, calls: seq<BuildCall>, c: BuildCall)
    ensures var b := TalkerAfter(s, calls);
            var (e, r) := BuildPacket(b, c.now, c.reading, c.payload);
            && TalkerAfter(s, calls + [c]) == e
            && (r.Ok? ==> TimeOf(b, c).Ok?)
            && Sent(s, calls + [c])
               == Sent(s, calls) + (if r.Ok? then [SentPacket(r.value, TimeOf(b, c).value, c.payload)] else [])
    decreases |calls|
  {
    hide BuildPacket, TimeOf;
    if calls == [] {
      BuildNeedsTime(s, c);
      assert ([] + [c])[1..] == [];
    } else {
      var s' := BuildPacket(s, calls[0].now, calls[0].reading, calls[0].payload).0;
      assert (calls + [c])[1..] == calls[1..] + [c];
      SentSnoc(s', calls[1..], c);
      BuildNeedsTime(s, calls[0]);
    }
  }

  /** What the finished loop reports and has put on the wire, packet by packet. */
  ghost predicate Transmitted(sent: seq<SentPacket>, ticks: seq<TalkerTick>, records: seq<TalkerRecord>,
                              frames: seq<bytes>)
  {
    && |records| == |frames| == |sent| <= |ticks|
    && forall i: nat :: i < |sent| ==>
         && sent[i].pdu.Stream?
         && ticks[i].phc.Some? && ticks[i].accepted
         && Avtpdus.Write(sent[i].pdu) == Ok(frames[i])
         && records[i] == TalkerRecord(i, i % 256, ticks[i].phc.value, sent[i].pdu.stream.generic.timestamp)
  }

  lemma TransmittedSnoc(sent: seq<SentPacket>, ticks: seq<TalkerTick>, records: seq<TalkerRecord>,
                        frames: seq<bytes>, p: SentPacket, frame: bytes)
    requires Transmitted(sent, ticks, records, frames)
    requires |sent| < |ticks|
    requires p.pdu.Stream? && Avtpdus.Write(p.pdu) == Ok(frame)
    requires ticks[|sent|].phc.Some? && ticks[|sent|].accepted
    ensures Transmitted(sent + [p], ticks,
                        records + [TalkerRecord(|sent|, |sent| % 256, ticks[|sent|].phc.value,
                                                p.pdu.stream.generic.timestamp)],
                        frames + [frame])
  {
    hide Avtpdus.Write;
  }

  /** After some of the planned calls, all successful: the talker's state and what was recorded. */
  ghost predicate RunProgress(s: TalkerState, calls: seq<BuildCall>, now: TalkerState, ticks: seq<TalkerTick>,
                           records: seq<TalkerRecord>, frames: seq<bytes>)
  {
    && now == TalkerAfter(s, calls)
    && |Sent(s, calls)| == |calls|
    && Transmitted(Sent(s, calls), ticks, records, frames)
  }

  lemma ProgressStep(s: TalkerState, calls: seq<BuildCall>, b: TalkerState, ticks: seq<TalkerTick>,
                     records: seq<TalkerRecord>, frames: seq<bytes>, c: BuildCall, frame: bytes)
    requires RunProgress(s, calls, b, ticks, records, frames)
    requires |calls| < |ticks| && ticks[|calls|].phc.Some? && ticks[|calls|].accepted
    requires var r := BuildPacket(b, c.now, c.reading, c.payload).1;
             r.Ok? && Avtpdus.Write(r.value) == Ok(frame)
    ensures var (e, r) := BuildPacket(b, c.now, c.reading, c.payload);
            && r.value.Stream?
            && RunProgress(s, calls + [c], e, ticks,
                        records + [TalkerRecord(|calls|, |calls| % 256, ticks[|calls|].phc.value,
                                                r.value.stream.generic.timestamp)],
                        frames + [frame])
  {
    hide BuildPacket, TalkerAfter, Sent, Transmitted, Avtpdus.Write, TimeOf;
    SentSnoc(s, calls, c);
    BuiltIsStream(b, c);
    var r := BuildPacket(b, c.now, c.reading, c.payload).1;
    TransmittedSnoc(Sent(s, calls), ticks, records, frames, SentPacket(r.value, TimeOf(b, c).value, c.payload), frame);
  }

  /** A call made in state `b` fails, with this error. */
  predicate CallFails(b: TalkerState, c: BuildCall, tick: TalkerTick, e: ThreadError) {
    if tick.phc.None? then e == ClockReadFailed
    else
      var built := BuildPacket(b, c.now, c.reading, c.payload).1;
      if built.Err? then e == BuildFailed(built.error) else !tick.accepted && e == SendFailed
  }

  /** The run's first failure: every call before it succeeded, and only their frames are on the wire. */
  ghost predicate FailedRun(s: TalkerState, calls: seq<BuildCall>, ticks: seq<TalkerTick>, frames: seq<bytes>,
                            e: ThreadError)
  {
    var n := |frames|;
    && n < |calls| <= |ticks|
    && OnWire(Sent(s, calls[..n]), frames)
    && CallFails(TalkerAfter(s, calls[..n]), calls[n], ticks[n], e)
  }

  ghost predicate OnWire(sent: seq<SentPacket>, frames: seq<bytes>) {
    && |frames| == |sent|
    && forall i: nat :: i < |sent| ==> Avtpdus.Write(sent[i].pdu) == Ok(frames[i])
  }

  /** Whatever is built can be serialised. */
  lemma BuiltIsWritable(s: TalkerState, c: BuildCall)
    ensures var r := BuildPacket(s, c.now, c.reading, c.payload).1;
            r.Ok? ==> Avtpdus.Write(r.value).Ok?
  {
    var r := BuildPacket(s, c.now, c.reading, c.payload).1;
    BuildStep(s, c);
    hide BuildPacket, CarriedBy, TimeOf, Avtpdus.Write, Avtpdus.Read;
    if r.Ok? {
      TalkerToWire(s, SentPacket(r.value, TimeOf(s, c).value, c.payload), 0, []);
    }
  }

  /** One iteration: read the clock, swap a copy of the chunk, build the packet, serialise and send it. */
  method SendChunk(talker: AafPcmTalker, chunk: bytes, word: nat, tick: TalkerTick)
    returns (r: Result<(Avtpdu, bytes), ThreadError>)
    requires word > 0
    modifies talker, talker.ptpClock
    ensures tick.phc.None? ==> r == Err(ClockReadFailed) && talker.State() == old(talker.State())
    ensures tick.phc.Some? ==>
              var (e, built) := BuildPacket(old(talker.State()), tick.now, tick.reading, Swapped(chunk, word));
              && talker.State() == e
              && (built.Err? ==> r == Err(BuildFailed(built.error)))
              && (built.Ok? && !tick.accepted ==> r == Err(SendFailed))
              && (built.Ok? && tick.accepted ==>
                    r.Ok? && r.value.0 == built.value && Avtpdus.Write(built.value) == Ok(r.value.1))
    ensures r.Ok? ==> tick.phc.Some? && tick.accepted
    ensures r != Err(ZeroChunkPanic)
  {
    hide BuildPacket, Avtpdus.Write, Swapped, talker.State;
    if tick.phc.None? {
      return Err(ClockReadFailed);
    }
    var payload := new u8[|chunk|](i requires 0 <= i < |chunk| => chunk[i]);
    assert payload[..] == chunk;
    SwapByteOrder(payload, word);
    BuiltIsWritable(talker.State(), BuildCall(tick.now, tick.reading, payload[..]));
    var pdu := talker.BuildPacket(tick.now, tick.reading, payload[..]);
    if pdu.Err? {
      return Err(BuildFailed(pdu.error));
    }
    var frame := WritePdu(pdu.value);
    if !tick.accepted {
      return Err(SendFailed);
    }
    r := Ok((pdu.value, frame.value));
  }

  /** One iteration, carrying the run's progress from `calls` to one call more, or stopping at its failure. */
  method SendNext(talker: AafPcmTalker, chunk: bytes, word: nat, ticks: seq<TalkerTick>, seqNum: u8,
                  records: seq<TalkerRecord>, frames: seq<bytes>, ghost s: TalkerState, ghost calls: seq<BuildCall>)
    returns (r: Result<(seq<TalkerRecord>, seq<bytes>), ThreadError>)
    requires word > 0 && |records| == |calls| < |ticks| && seqNum == |calls| % 256
    requires RunProgress(s, calls, talker.State(), ticks, records, frames)
    modifies talker, talker.ptpClock
    ensures var tick := ticks[|calls|];
            var c := BuildCall(tick.now, tick.reading, Swapped(chunk, word));
            && (r.Ok? ==>
                  && |r.value.0| == |calls| + 1
                  && RunProgress(s, calls + [c], talker.State(), ticks, r.value.0, r.value.1))
            && (r.Err? ==> r.error != ZeroChunkPanic && CallFails(old(talker.State()), c, tick, r.error))
  {
    hide RunProgress, BuildPacket, Avtpdus.Write, Swapped, talker.State;
    var tick := ticks[|records|];
    ghost var before := talker.State();
    var packet := SendChunk(talker, chunk, word, tick);
    if packet.Err? {
      assert CallFails(before, BuildCall(tick.now, tick.reading, Swapped(chunk, word)), tick, packet.error);
      return Err(packet.error);
    }
    var (pdu, frame) := packet.value;
    ghost var c := BuildCall(tick.now, tick.reading, Swapped(chunk, word));
    ProgressStep(s, calls, before, ticks, records, frames, c, frame);
    var record := TalkerRecord(|records|, seqNum, tick.phc.value, pdu.stream.generic.timestamp);
    r := Ok((records + [record], frames + [frame]));
  }

  lemma ProgressFails(s: TalkerState, calls: seq<BuildCall>, i: nat, now: TalkerState, ticks: seq<TalkerTick>,
                      records: seq<TalkerRecord>, frames: seq<bytes>, e: ThreadError)
    requires i < |calls| <= |ticks|
    requires RunProgress(s, calls[..i], now, ticks, records, frames)
    requires CallFails(now, calls[i], ticks[i], e)
    ensures FailedRun(s, calls, ticks, frames, e)
  {
    hide CallFails, Sent, TalkerAfter, Avtpdus.Write;
  }

  /** The loop over the chunks. */
  method SendChunks(talker: AafPcmTalker, chunks: seq<bytes>, word: nat, ticks: seq<TalkerTick>)
    returns (r: Result<seq<TalkerRecord>, ThreadError>, frames: seq<bytes>)
    requires word > 0 && |chunks| <= |ticks|
    modifies talker, talker.ptpClock
    ensures var s, calls := old(talker.State()), PlannedCalls(chunks, word, ticks);
            if r.Ok? then RunProgress(s, calls, talker.State(), ticks, r.value, frames)
            else r.error != ZeroChunkPanic && FailedRun(s, calls, ticks, frames, r.error)
  {
    ghost var s := talker.State();
    ghost var calls := PlannedCalls(chunks, word, ticks);
    var records: seq<TalkerRecord> := [];
    var seqNum: u8 := 0;
    frames := [];
    StartTransmission(s, ticks);
    hide *;
    assert calls[..0] == [];
    for frameIdx := 0 to |chunks|
      invariant seqNum == frameIdx % 256 && |records| == frameIdx
      invariant RunProgress(s, calls[..frameIdx], talker.State(), ticks, records, frames)
    {
      ghost var before := talker.State();
      var next := SendNext(talker, chunks[frameIdx], word, ticks, seqNum, records, frames, s, calls[..frameIdx]);
      if next.Err? {
        ProgressFails(s, calls, frameIdx, before, ticks, records, frames, next.error);
        return Err(next.error), frames;
      }
      PrefixSnoc(calls, frameIdx);
      records, frames := next.value.0, next.value.1;
      NextSeqCounts(frameIdx);
      seqNum := NextSeq(seqNum);
    }
    assert calls[..|chunks|] == calls;
    r := Ok(records);
  }

  /**
   * Sends the whole WAV payload: on success there is one packet per chunk, in order, each carrying
   * its chunk in network byte order, and the records repeat what the packets carry. Otherwise the
   * error is that of the first failing call, and just the packets before it are on the wire.
   */
  method TalkerThread(talker: AafPcmTalker, bytesPerSample: nat, channels: u16, samplesPerPacket: u32, pcmLe: bytes,
                      ticks: seq<TalkerTick>)
    returns (r: Result<seq<TalkerRecord>, ThreadError>, frames: seq<bytes>)
    requires ChunkSize(samplesPerPacket, channels, bytesPerSample) > 0 ==>
               |Chunks(pcmLe, ChunkSize(samplesPerPacket, channels, bytesPerSample))| <= |ticks|
    modifies talker, talker.ptpClock
    ensures var chunk := ChunkSize(samplesPerPacket, channels, bytesPerSample);
            if chunk == 0 then r == Err(ZeroChunkPanic) && frames == [] && talker.State() == old(talker.State())
            else
              && bytesPerSample > 0
              && var s, calls := old(talker.State()), PlannedCalls(Chunks(pcmLe, chunk), bytesPerSample, ticks);
                 if r.Ok? then RunProgress(s, calls, talker.State(), ticks, r.value, frames)
                 else r.error != ZeroChunkPanic && FailedRun(s, calls, ticks, frames, r.error)
  {
    var chunkSize := ChunkSize(samplesPerPacket, channels, bytesPerSample);
    if chunkSize == 0 {
      return Err(ZeroChunkPanic), [];
    }
    r, frames := SendChunks(talker, Chunks(pcmLe, chunkSize), bytesPerSample, ticks);
  }

  lemma {:induction false} SentPrefix(s: TalkerState, calls: seq<BuildCall>, k: nat)
    requires k <= |calls|
    ensures |Sent(s, calls)| <= |Sent(s, calls[..k])| + |calls| - k
    decreases |calls| - k
  {
    if k < |calls| {
      SentPrefix(s, calls, k + 1);
      PrefixSnoc(calls, k);
      SentSnoc(s, calls[..k], calls[k]);
      hide Sent, BuildPacket, TimeOf;
    } else {
      assert calls[..k] == calls;
    }
  }

  /** Success and failure exclude each other: a run fails only if some call, clock read or send fails. */
  lemma FailuresAreReal(s: TalkerState, calls: seq<BuildCall>, ticks: seq<TalkerTick>, frames: seq<bytes>,
                        e: ThreadError)
    requires FailedRun(s, calls, ticks, frames, e)
    ensures |Sent(s, calls)| < |calls| || ticks[|frames|].phc.None? || !ticks[|frames|].accepted
  {
    var n := |frames|;
    SentSnoc(s, calls[..n], calls[n]);
    PrefixSnoc(calls, n);
    SentPrefix(s, calls, n + 1);
    hide Sent, BuildPacket, TimeOf, Avtpdus.Write;
  }

  lemma PrefixSnoc(calls: seq<BuildCall>, i: nat)
    requires i < |calls|
    ensures calls[..i + 1] == calls[..i] + [calls[i]]
  {
  }

  lemma NextSeqCounts(n: nat)
    ensures NextSeq(n % 256) == (n + 1) % 256
  {
  }

  lemma StartTransmission(s: TalkerState, ticks: seq<TalkerTick>)
    ensures RunProgress(s, [], s, ticks, [], [])
  {
  }

  lemma BuiltIsStream(s: TalkerState, c: BuildCall)
    ensures var r := BuildPacket(s, c.now, c.reading, c.payload).1;
            r.Ok? ==> r.value.Stream?
  {
    hide SynchronizedTime, PcmOf;
  }

  /** From a fresh talker the loop's own counter is the sequence number on the wire. */
  lemma RecordsMatchPackets(s: TalkerState, calls: seq<BuildCall>, ticks: seq<TalkerTick>,
                            records: seq<TalkerRecord>, frames: seq<bytes>, i: nat)
    requires s.sequenceNum == 0 && i < |Sent(s, calls)|
    requires Transmitted(Sent(s, calls), ticks, records, frames)
    ensures records[i].seqNum == Sent(s, calls)[i].pdu.stream.generic.sequenceNum
    ensures records[i].timestampEmbedded == Stamp(Sent(s, calls)[i].time, s.delay)
  {
    hide Sent, Avtpdus.Write, CarriedBy, Stamp;
    var p := Sent(s, calls)[i];
    SentPacketsCarry(s, calls);
    assert CarriedBy(s, p, i);
    CarriedParses(s, p, i);
    StampOfTime(p.time, s.delay);
  }
}
