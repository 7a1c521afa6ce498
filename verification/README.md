# Verification model of rs-1722

`rs-1722` is an IEEE 1722 (AVTP) audio path: a PTP-disciplined clock stamps packets, a talker packs PCM
into bit-exact headers, a listener unpacks them, and a jitter buffer releases them at presentation
time. This project models that path in Dafny 4.11, together with the RIFF/WAVE reader and writer at
its two ends, and proves what the path promises. `dafny verify dfyconfig.toml` checks all of it.

The clock, the codecs, the talker, the listener, the sending, receiving and draining loops, the byte swap and the
WAV reader and writer are classes and methods with loops, as in the source, each proved equal to a
specification function; the theorems are about those functions. What a method and its specification share (a
constant, a rounding, a layout, a filter) is tied down by laws in plain numbers and octets that do not name it.
The layers, bottom up:

- `Basics`, `PtpTimes`, `Timestamps`: integer widths, normalised PTP time, and the wrapping 32-bit
  timeline with its nearest expansion.
- `Clocks` (step functions), `SynchronizedClocks` (the mutable clock), `ClockRuns`, `ClockConvergence` and
  `ClockAccuracy` (theorems over whole runs): the PLL with its monotonic floor. `ClockLaws` says in plain
  arithmetic what one call and one resync do.
- `BitStreams`, `Headers`, `HeaderLaws`, `HeaderCodecs`, `Avtpdus`: big-endian bit writer and reader,
  the header layouts of IEEE Std 1722-2016 section 4.4, and the PDU codec. `WireBytes` and `WireReads` give
  the wire format octet by octet, for every PDU written and every input read.
- `Aafs`, `AafLaws`, `AafCodecs`: the audio format of section 7, packed inside the format-specific bytes.
- `AafStreams` (step functions), `AafEndpoints` (the mutable talker and listener), `AafStreamLaws`
  (theorems over runs), `AafBytes` (conversions and reports from the octets), `PacketLaws` (the packets of a
  talker and of a whole file, in octets and samples).
- `PcmBytes`, `TalkerThreads`, `ReceiverThreads`, `JitterBuffers`, `Reordering`: byte swapping in place, the
  packetising loop, the receive loop, the jitter-buffer loop, and the reordering theorem.
- `Wavs`, `WavLaws`, `WavIo`, `WavBytes`, `WavTransport`: WAV files as values, their laws, the mutable reader
  and writer, the octets of a file (Waveform Audio File Format of "Multimedia Programming Interface and Data
  Specifications 1.0", with the WAVEFORMATEXTENSIBLE extension), and the talker configured from a WAV header.
- `EndToEnd`, `Validation`, `DirectDeliveries`: the composition of all of these, up to the verdict of the
  integration test.

Conventions. Floating point in the PLL is idealised as `real`; every rounding, truncation and cast to an
integer is explicit. The strict growth of the returned times does not rest on that: the `LeastAbove`
lemmas of `ClockRuns` hold for arbitrary integer estimates. An `Instant` is a nanosecond count, and each
PTP read, channel poll and deadline test is a parameter, so the theorems hold for every environment. A
panic of the source is a `None` or an error value. Round trips are stated on the source's whole domain,
with the exact condition where they fail.

## Where the code differs from its documentation

The model follows the code.

- `expand_near` documents its panic as unreachable for valid references (src/avtp/timestamp.rs:54-56). It is
  reachable within 2^31 ns of either end of the range (`Timestamps.ExpandNeverPanics`,
  `Timestamps.ExpandPanicWitness`), and the documented window of 2^32 ns is really a half window of 2^31 ns
  on either side (`Timestamps.ExpandRecovers`).
- The frequency factor is documented as above 1.0 when the local clock runs fast
  (src/avtp/synchronizer.rs:74). It is PTP progress over local progress, so it is above 1.0 when the local
  clock runs slow (`ClockConvergence.RaisedWhenLocalIsSlow`).
- The integration test swaps container words when sending and words of the valid bits when receiving, so
  files with fewer valid than container bits are not all restored (`WavTransport.SurvivesIffFullWidth`,
  `WavTransport.NarrowFileIsCorrupted`).
- A talker accepts a bit depth at construction that every packet then refuses
  (`WavTransport.WideDepthIsRefusedLate`).
- A WAV value with a non-empty extension below 24 bytes that needs the extensible form is written with the
  extensible tag but cannot be read back (`WavLaws.FmtRoundTrip`).
- A control PDU is written with its length field as given; when that differs from the payload length the
  result does not read back (`Avtpdus.ReadOfWrite`).

## Model

| member | source | states |
|---|---|---|
| Validation.VerdictIsPass | src/bin/avtp-integration-test.rs:330-402 | From the guarantees of the three loops, over every clock trace, delivery order, padding and readable foreign traffic: if the whole file is sent with valid bits filling the container, no reception ends the receive loop, the accepted frames are the run's own, each once, within the half window and collected before a drain reading reaches it, and the deadline does not pass, then the verdict is a pass, that is same packet count, same sequence numbers and timestamps in order, identical PCM bytes |
| Validation.RunTest | src/bin/avtp-integration-test.rs:330-402 | The three loops run on what their environment gives them, and the verdict on what they recorded; under those conditions on wire and trace, checked against the frames really sent and the iterations really made, it is a pass |
| Validation.DeliveryIsDrained | src/bin/avtp-integration-test.rs:594-641 | What the drain loop guarantees, over a timely delivery, is a drained schedule of punctual arrivals that are the reports on the heard frames |
| Validation.ObservesReports | src/bin/avtp-integration-test.rs:595-605 | The arrivals the drain loop observed are the listener's reports on the heard frames, expanded near their times of receipt |
| Validation.ObservedInTime | src/bin/avtp-integration-test.rs:594-621 | Collected before any reading has reached it means punctual in the schedule the loop observed |
| Validation.StopsEmptied | src/bin/avtp-integration-test.rs:643-649 | A loop that stops before its deadline has emptied its buffer |
| DirectDeliveries.TimelyDeliveryExists | src/bin/avtp-integration-test.rs:440-461 | The conditions can be met for every successful run with a delay below 2^31 ns, packet times away from the ends of the range and at least eight valid bits: there are traffic and a trace that meet them, without a fault in the drain loop, which stops after that trace's only iteration |
| Validation.PassesIff | src/bin/avtp-integration-test.rs:686-736 | The verdict lists no failure exactly when the record lists have the same length and agree everywhere and the byte sequences are equal |
| Validation.FailuresExactly | src/bin/avtp-integration-test.rs:686-731 | The verdict lists each kind of failure exactly when it is one, a mismatch at its first place and nowhere else, in a fixed order |
| ReceiverThreads.EtherFrames | src/avtp/transport/ethernet.rs:151-161 | Exactly the frames of 14 octets or more with 22 F0 at offset 12 are AVTP, and their payload starts at offset 14 |
| ReceiverThreads.ReceiverThread | src/bin/avtp-integration-test.rs:440-461 | The receive loop over any socket traffic: equals the specified reports and the specified reason for ending, skipping foreign protocols and ending at the first frame that cannot be received, parsed, timed or passed on |
| ReceiverThreads.StopsAtFailure | src/avtp/transport/ethernet.rs:148-165 | The first broken, unreadable or untimed reception, or the first report nobody wants, ends the loop with its error: what was heard before is kept, nothing after it is heard |
| ReceiverThreads.HeardThroughTraffic | src/bin/avtp-integration-test.rs:440-461 | Through traffic with no such reception the loop keeps listening and passes on exactly the reports on the accepted frames alone, each with its time of receipt |
| ReceiverThreads.HeardFramesParse | src/avtp/transport/ethernet.rs:161-164 | The heard PDUs are what the heard payloads parse to |
| EndToEnd.DeliveryInSendOrder | src/bin/avtp-integration-test.rs:594-641 | Reorder repair: any subset of one talker run, delivered in any order within the half window and before a drain reading reaches it, is released exactly in send order, each packet with its own payload, number, format and presentation time |
| EndToEnd.PcmSurvives | src/bin/avtp-integration-test.rs:628-631 | Releases in send order of a fully delivered run give back the original PCM bytes when the receiver's word size is the sender's |
| EndToEnd.FramesParse | src/avtp/avtpdu.rs:160-163 | Every delivered frame, padded or not, parses to the very PDU that was sent |
| EndToEnd.ListenerHearsAll | src/avtp/formats/aaf/stream.rs:239-284 | A matching listener reports every delivered packet with the sender's payload, number, timestamp and format, in any delivery order |
| EndToEnd.BuffersExactly | src/bin/avtp-integration-test.rs:600-604 | Within the half window the buffered presentation time is exactly the synchronised send time plus the delay, not merely congruent to it; report and time of receipt are kept |
| EndToEnd.BufferRepairs | src/bin/avtp-integration-test.rs:619-641 | Packets buffered under ascending presentation times come out in send order, whichever of them were delivered |
| SynchronizedClocks.SynchronizedClock.constructor | src/avtp/synchronizer.rs:125-134 | The new clock is in the fresh state: nominal frequency, no phase, zero floor |
| SynchronizedClocks.SynchronizedClock.WithResyncInterval | src/avtp/synchronizer.rs:122-135 | Construction fails exactly when the initial read fails |
| SynchronizedClocks.SynchronizedClock.Elapsed | src/avtp/synchronizer.rs:159-170 | The mutable clock takes exactly the specified step: same result, same whole new state, on every branch |
| SynchronizedClocks.SynchronizedClock.ElapsedNoResync | src/avtp/synchronizer.rs:183-186 | As above without a read: only the floor can change |
| SynchronizedClocks.SynchronizedClock.PtpTimeNow | src/avtp/synchronizer.rs:199-217 | The absolute time is initial plus elapsed, or the specified error; the floor advances even if the sum is out of range |
| SynchronizedClocks.SynchronizedClock.RawEstimate | src/avtp/synchronizer.rs:223-253 | The unfloored estimate, error cases included, as the specification function gives it |
| SynchronizedClocks.SynchronizedClock.ComputeElapsed | src/avtp/synchronizer.rs:223-266 | The floored estimate and the new floor; an error leaves the state as it was |
| SynchronizedClocks.SynchronizedClock.ResyncPtp | src/avtp/synchronizer.rs:278-346 | The whole new PLL state on the reset and the converging branch; a failed read changes nothing |
| ClockRuns.OutputsAreLeastMonotone | src/avtp/synchronizer.rs:223-266 | Over any run with arbitrary readings the returned durations are the pointwise least strictly increasing positive sequence dominating the raw estimates, with its closed form |
| ClockRuns.LeastAboveIsLeast | src/avtp/synchronizer.rs:255-262 | Raising each estimate just above its predecessor is minimal among all strictly increasing sequences that dominate the estimates |
| ClockRuns.LeastAboveIncreasing | src/avtp/synchronizer.rs:255-262 | The floored sequence strictly increases above the floor and dominates the estimates |
| ClockRuns.LeastAboveClosedForm | src/avtp/synchronizer.rs:255-262 | Entry n is the maximum of floor + n + 1 and every raw[j] + (n - j) |
| ClockRuns.ReturnedIsLeastAbove | src/avtp/synchronizer.rs:223-266 | A run's outputs are its estimates under the floor, failed calls leave no trace in it, and the floor ends at the last output |
| ClockRuns.StepShape | src/avtp/synchronizer.rs:252-265 | One call: a success is the larger of the estimate and floor + 1, a failure leaves the floor untouched |
| ClockRuns.RunKeepsBounds | src/avtp/synchronizer.rs:314-345 | In every reachable state, under any readings and backward steps, frequency and phase are within their clamps and the floor has not decreased |
| ClockRuns.ResyncsAreSpaced | src/avtp/synchronizer.rs:159-170 | Consecutive resync instants of any run, and the first from construction, are at least one interval apart |
| ClockRuns.EstimateIsExactSum | src/avtp/synchronizer.rs:232-253 | Within the clamps neither checked addition nor the saturating cast can bite: the estimate is the exact sum |
| ClockRuns.ElapsedTracksPtp | src/avtp/synchronizer.rs:159-170 | If PTP runs at 0.999 to 1.001 of local time and calls are 1 ns of PTP apart, every value returned over a whole run is within 0.002 * interval + 100000.5 ns of true PTP elapsed time, through resyncs, resets, failures and the floor |
| ClockRuns.TrackingStep | src/avtp/synchronizer.rs:159-170 | The tracking invariant is kept by every call, successful or not |
| ClockRuns.SynchronizedTimeGrows | src/avtp/synchronizer.rs:199-217 | One absolute reading names the new floor and has strictly risen |
| ClockRuns.AbsoluteTimesIncrease | src/avtp/synchronizer.rs:199-217 | Absolute times of any run strictly increase, whatever the PTP readings do |
| ClockRuns.AbsoluteIsInitialPlusElapsed | src/avtp/synchronizer.rs:199-217 | The conversion succeeds exactly within range and then denotes initial + elapsed |
| ClockConvergence.PllConverges | src/avtp/synchronizer.rs:286-343 | At a constant true rate in [0.999, 1.001] with gaps over 1 ms and at most I <= 500 ms no resync resets; after n of them the frequency error is at most 0.9^n of the initial one and, from zero phase, the offset at most 0.1 n I 0.9^n of it, each plus a multiple of the reading error (zero for exact readings) |
| ClockAccuracy.TimeConverges | src/avtp/synchronizer.rs:159-170 | At a constant true rate the returned time converges: after a run with n resyncs a successful call is late by at most (1 + n/10) I 0.9^n times the initial frequency error plus an error floor of noise and rounding, and early by at most that unless an earlier value still holds the floor up |
| ClockAccuracy.BoundVanishes | src/avtp/synchronizer.rs:315-339 | That bound comes as close to its floor as one likes after enough resyncs |
| ClockAccuracy.EstimateError | src/avtp/synchronizer.rs:223-253 | One estimate misses true time by at most interpolation error, phase offset, reading noise and half a nanosecond |
| ClockConvergence.RaisedWhenLocalIsSlow | src/avtp/synchronizer.rs:315-319 | From nominal, a measurement raises the frequency exactly when PTP outran the local clock, and lowers it exactly when it fell behind |
| ClockConvergence.SteadyResync | src/avtp/synchronizer.rs:306-345 | One resync at a steady rate takes the converging branch and contracts both errors |
| ClockConvergence.RetunedContracts | src/avtp/synchronizer.rs:315-319 | The filtered and clamped frequency is nearer to the true rate by a factor 0.9, up to the reading error |
| ClockConvergence.RephasedShrinks | src/avtp/synchronizer.rs:337-339 | Clamp and truncation never enlarge the filtered phase |
| ClockConvergence.RunDrivesPll | src/avtp/synchronizer.rs:159-170 | Any run of calls drives the PLL exactly through its completed resyncs; the floor and the unsynchronised calls do not enter |
| ClockLaws.ResyncOutcome | src/avtp/synchronizer.rs:306-345 | One resync in plain arithmetic: the frequency unchanged up to 1 ms of local time and else 0.9 of the old plus 0.1 of the measured one within 0.999 to 1.001; a prediction error beyond 1 ms restarts from nominal with no phase; any other leaves a phase that is 0.9 of the old plus 0.1 of the error, towards zero and within 100000 ns |
| ClockLaws.PhaseApproachesError | src/avtp/synchronizer.rs:335-339 | Over any number n of resyncs under one constant prediction error of at most 100000 ns, from zero phase, the phase is between (1 - 0.9^n) times the error and 10 ns less, with its sign |
| ClockLaws.EstimateAfterResync | src/avtp/synchronizer.rs:223-253 | At the instant of a resync the estimate is the PTP reading since the start plus the phase |
| ClockLaws.ResetContinuesFromReading | src/avtp/synchronizer.rs:325-333 | After a reset the estimate goes on from the reading at the local rate, with no phase |
| ClockLaws.FreshRunsAtLocalRate | src/avtp/synchronizer.rs:122-135 | Until its first resync a clock estimates exactly the local time since its construction |
| ClockLaws.NominalEstimate | src/avtp/synchronizer.rs:223-253 | At nominal frequency the estimate is the last reading since the start, the local time since that reading, and the phase |
| ClockLaws.ElapsedOutcome | src/avtp/synchronizer.rs:159-170 | A call reads PTP exactly when the interval has passed, and fails exactly for a failed read, an estimate that is no duration, or a floor that cannot rise; otherwise it returns the larger of estimate and floor + 1 |
| ClockLaws.TrackedCallsSucceed | src/avtp/synchronizer.rs:159-170 | At a bounded rate, once more true time has passed than the tracking bound and until the range of durations nears its end, every call whose due read succeeds returns a value |
| ClockLaws.RoundsAwayFromZero | src/avtp/synchronizer.rs:236-240 | Rounding gives the nearest integer, and of two the one away from zero |
| ClockLaws.TruncatesTowardsZero | src/avtp/synchronizer.rs:338-339 | The cast drops the fraction and nothing else |
| ClockLaws.ClampsToNearest | src/avtp/synchronizer.rs:318-339 | A clamped value is in range and no value in range is nearer |
| ClockLaws.DurationsInRange | src/avtp/synchronizer.rs:369-394 | A count is a duration exactly from 0 to 2^64 s - 1 ns, with the right error on either side |
| ClockLaws.SumsInRange | src/avtp/synchronizer.rs:243-250 | A checked sum is refused exactly outside the 128-bit range |
| PtpTimes.NanosExact | src/ptp_phc/time.rs:235-239 | The saturating conversion never saturates: every timestamp has its exact signed count, within the range of 64-bit seconds |
| PtpTimes.FromNsI128Inverse | src/ptp_phc/time.rs:160-171 | None exactly out of range; otherwise `as_nanos` gives the count back |
| PtpTimes.AsNanosInverse | src/ptp_phc/time.rs:160-171 | Every timestamp is recovered from its nanosecond count |
| PtpTimes.ConstructorsExact | src/ptp_phc/time.rs:98-148 | `from_ns` and `new` (carry and overflow panic included) name the instant their arguments add up to |
| PtpTimes.OrderIsNanosOrder | src/ptp_phc/time.rs:80-84 | The derived order is the order of nanosecond counts, and counts are injective |
| Timestamps.TruncationIsModular | src/avtp/timestamp.rs:116-128 | The unsigned wrapping cast chain equals the signed count mod 2^32 for every timestamp, negative seconds included |
| Timestamps.ConversionsAgree | src/avtp/timestamp.rs:106-128 | The conversions from durations and from PTP times agree on equal counts |
| Timestamps.TruncationCommutesWithDelay | src/avtp/timestamp.rs:43-45 | Truncating then adding the delay equals adding the delay then truncating |
| Timestamps.NearestInHalfWindow | src/avtp/timestamp.rs:58-74 | The chosen candidate is congruent to the timestamp and in the half-open window of 2^31 around the reference |
| Timestamps.NearestAmongAll | src/avtp/timestamp.rs:58-74 | Three candidates suffice: the result is nearest among all congruent numbers, ties going to the earlier |
| Timestamps.ExpandRecovers | src/avtp/timestamp.rs:58-77 | Expansion of a truncated instant returns that instant if and only if it lies in the half window |
| Timestamps.ExpandNeverPanics | src/avtp/timestamp.rs:54-77 | The final `expect` is safe for all timestamps if and only if the reference is 2^31 ns inside the range |
| Timestamps.ExpandPanicWitness | src/avtp/timestamp.rs:54-77 | A concrete call that panics, against the documented claim that this is unreachable |
| BitStreams.TakeOfPut | src/avtp/headers/stream.rs:285-290 | Reading a field gives back any value of its width and the untouched rest |
| BitStreams.PutOfTake | src/avtp/headers/stream.rs:285-290 | Whatever a read returned, writing it in front of the rest restores the stream |
| BitStreams.BitWriter.Write | src/avtp/headers/stream.rs:349-354 | The mutable writer appends exactly the low bits, most significant first, across byte boundaries |
| BitStreams.BitWriter.WriteBytes | src/avtp/headers/stream.rs:368-370 | Bytes are appended in order at any bit offset |
| BitStreams.BitReader.Read | src/avtp/headers/stream.rs:285-290 | The mutable reader consumes exactly one field, or fails when fewer bits remain and then leaves none |
| BitStreams.BitReader.ReadBytes | src/io/utils.rs:18-28 | Exactly n bytes are consumed at any bit offset, or the read fails |
| Headers.SubtypeRoundTrip | src/avtp/subtype.rs:178-194 | The byte codec is a bijection onto the defined values and reports every other byte |
| HeaderLaws.DecodeOfEncode | src/avtp/avtpdu.rs:44-70 | Decoding the layout of any stream or length-consistent control PDU in front of any tail gives it back and leaves the tail |
| HeaderLaws.EncodeOfDecode | src/avtp/avtpdu.rs:44-70 | Whatever decodes is well formed and its layout is the very bits consumed |
| HeaderLaws.EncodeAppend | src/avtp/avtpdu.rs:136-149 | A layout occupies 24 + n bytes for streams, 12 + n for control, and always ends byte aligned |
| HeaderLaws.StreamRoundTrip | src/avtp/headers/stream.rs:278-374 | The 20 + 160 bits and payload after the common header round-trip, whatever follows |
| HeaderLaws.ControlRoundTrip | src/avtp/headers/control.rs:70-138 | Likewise for control headers whose length field is the payload length |
| HeaderLaws.CommonRoundTrip | src/avtp/headers/common.rs:36-64 | The 12-bit common header round-trips in front of any bits |
| HeaderLaws.StreamIdRoundTrip | src/avtp/stream_id.rs:21-44 | The 64-bit stream identifier round-trips in front of any bits |
| HeaderCodecs.EncodeStream | src/avtp/headers/stream.rs:341-373 | Field by field on the mutable writer: emits exactly the stream layout, or the size error exactly for payloads over 65535 bytes |
| HeaderCodecs.EncodeControl | src/avtp/headers/control.rs:113-138 | Emits exactly the control layout |
| HeaderCodecs.EncodeAlternative | src/avtp/headers/alternative.rs:115-144 | Emits the layout with the last low nibble dropped |
| HeaderCodecs.EncodeCommon | src/avtp/headers/common.rs:39-45 | Emits exactly the 12-bit layout |
| HeaderCodecs.EncodeStreamId | src/avtp/stream_id.rs:24-29 | Emits exactly the 64-bit layout |
| HeaderCodecs.WritePdu | src/avtp/avtpdu.rs:136-149 | The imperative writer ends byte aligned and its buffer is the specified encoding, or the specified error |
| HeaderCodecs.ReadStream | src/avtp/headers/stream.rs:278-322 | Field by field on the mutable reader: same outcome and same unread bits as the decoding function |
| HeaderCodecs.ReadControl | src/avtp/headers/control.rs:70-95 | Likewise for control headers |
| HeaderCodecs.ReadCommon | src/avtp/headers/common.rs:51-63 | Likewise for the common header, unknown subtypes included |
| HeaderCodecs.ReadStreamId | src/avtp/stream_id.rs:35-43 | Likewise for stream identifiers |
| HeaderCodecs.ReadPdu | src/avtp/avtpdu.rs:160-163 | The imperative reader returns the specified PDU or error and leaves exactly the specified bytes unread |
| Avtpdus.WriteSucceeds | src/avtp/avtpdu.rs:100-149 | A write is refused exactly when variant and subtype disagree or a stream payload exceeds 65535 bytes; otherwise its size is known |
| Avtpdus.ReadOfWrite | src/avtp/avtpdu.rs:136-163 | A written PDU followed by any bytes reads back as itself leaving those bytes, if and only if lengths agree (always for streams) |
| Avtpdus.WriteOfRead | src/avtp/avtpdu.rs:136-163 | Re-encoding any PDU that was read gives back exactly the bytes it was read from |
| Avtpdus.AlternativeNeverReads | src/avtp/headers/alternative.rs:55-94 | Every alternative subtype reaches the unimplemented decoder, so that variant has no round trip |
| WireBytes.WrittenOctets | src/avtp/avtpdu.rs:136-149 | Every octet of every written PDU by division and remainder: subtype, the bit, version and flags, sequence number, identifier, timestamp, format data, lengths and payload, or the half-octet shift of alternative payloads |
| WireReads.ReadsExactly | src/avtp/avtpdu.rs:44-70 | Any octets whatever: a complete stream PDU (subtype 00-03, 05-07, 6F, 7F) or control PDU (FA-FD, FF) gives exactly its fields and what follows it; 04, 6E, 82, EC-EE are unsupported, other subtypes unknown, and everything short is an end of input |
| WireReads.WritesExactly | src/avtp/avtpdu.rs:100-149 | A PDU is written exactly when its subtype octet is one of its variant's and a stream payload has at most 65535 bytes; the subtype error comes first |
| WireReads.FamilyOfByte | src/avtp/subtype.rs:118-142 | The header type of every subtype, by its octet |
| WireReads.ReadsStream | src/avtp/headers/stream.rs:278-322 | A complete stream PDU reads as the fields at their octets and leaves the rest |
| WireReads.ReadsControl | src/avtp/headers/control.rs:70-95 | Likewise a control PDU, with its nine-bit and eleven-bit fields |
| WireReads.PayloadLimit | src/avtp/headers/stream.rs:205-223 | A payload enters a header exactly up to 65535 bytes, and is refused with its size |
| Aafs.NewPcmAcceptsValid | src/avtp/formats/aaf/pcm.rs:408-430 | The constructor accepts exactly the arguments satisfying the format, depth, channel and frame constraints, unchanged |
| Aafs.SetRateKeepsValid | src/avtp/formats/aaf/pcm.rs:435-437 | Changing the nominal rate keeps a PCM value valid |
| Aafs.SampleCountExact | src/avtp/formats/aaf/pcm.rs:457-465 | The payload is exactly its sample frames; no count exactly for the user format |
| AafLaws.CodesInvert | src/avtp/formats/aaf/common.rs:64-84 | The wire codes of formats, and those of sample rates in pcm.rs, invert in both directions; all other codes are reserved |
| AafLaws.UnpackOfPack | src/avtp/formats/aaf/pcm.rs:378-388 | The 4/2/10/8-bit fields survive packing into three bytes, with reserved bits zero |
| AafLaws.UnpackOfPackTail | src/avtp/formats/aaf/common.rs:299-310 | The 3/1/4/8-bit fields survive packing into two bytes |
| AafLaws.AafRoundTrip | src/avtp/formats/aaf/common.rs:248-333 | Aaf to stream header to Aaf is the identity on every constructible value |
| AafLaws.IntoStreamNeverPanics | src/avtp/formats/aaf/common.rs:297-332 | The payload-size `expect` never fires on a constructible value |
| AafLaws.FromStreamIsValid | src/avtp/formats/aaf/common.rs:251-293 | Everything a stream header converts to is constructible |
| AafLaws.CanonicalClearsReserved | src/avtp/formats/aaf/common.rs:248-333 | Stream header to Aaf to stream header clears reserved bits and nothing else: f_s_d always, and for PCM exactly asfd, the second tail byte and the two reserved bits |
| AafLaws.CanonicalIdempotent | src/avtp/formats/aaf/common.rs:248-333 | Canonicalising twice is canonicalising once, and does not change the meaning |
| AafLaws.RepackClearsReserved | src/avtp/formats/aaf/pcm.rs:341-388 | Bit by bit, repacking PCM fields clears positions 4 and 5 only |
| AafLaws.RetailClearsReserved | src/avtp/formats/aaf/common.rs:265-310 | Bit by bit, repacking the tail clears asfd and the second byte only |
| AafLaws.ConstructorsAreValid | src/avtp/formats/aaf/common.rs:198-245 | Constructor and setter accept exactly AAF stream data of version 0 with the bit set, put them in place with everything else as it was, and keep constructibility |
| AafCodecs.WriteTail | src/avtp/formats/aaf/common.rs:299-310 | The local bit writer fills the two-byte buffer with the specified packing |
| AafCodecs.ReadTail | src/avtp/formats/aaf/common.rs:267-273 | The local bit reader returns the specified fields; its `unwrap`s cannot fail |
| AafCodecs.WritePcmFields | src/avtp/formats/aaf/pcm.rs:378-388 | The local bit writer fills the three-byte buffer with the specified packing |
| AafCodecs.ReadPcmFields | src/avtp/formats/aaf/pcm.rs:341-352 | The local bit reader returns the specified fields, reserved bits included; its `unwrap`s cannot fail |
| AafCodecs.PcmFrom | src/avtp/formats/aaf/pcm.rs:341-375 | Same result as the specification, errors in the same order |
| AafCodecs.FromStream | src/avtp/formats/aaf/common.rs:251-293 | Same result as the specification, errors in the same order |
| AafCodecs.IntoStream | src/avtp/formats/aaf/common.rs:297-333 | Never panics, gives the specified header, which converts back to the argument |
| AafBytes.ConvertsExactly | src/avtp/formats/aaf/common.rs:216-293 | What any stream header converts to, from its octets: the checks of subtype, bit, version and format in order with their errors, AES3 frames opaque, and PCM frames exactly when rate, depth, channels and payload size are in order, otherwise with the first fault |
| AafBytes.PcmConverts | src/avtp/formats/aaf/pcm.rs:341-375 | The PCM part of that, in numbers: rate codes 0 to 10, depth within the 32, 24 or 16 bits of the format, at least one channel, at most 65535 bytes, whole frames |
| AafBytes.ConstructsExactly | src/avtp/formats/aaf/pcm.rs:408-430 | The constructor has the same conditions and the same order of faults |
| AafBytes.PackPcmOctets | src/avtp/formats/aaf/pcm.rs:378-388 | The three packed octets: rate code and upper channel bits, lower channel bits, depth |
| AafBytes.UnpackPcmOctets | src/avtp/formats/aaf/pcm.rs:341-352 | The fields in any three octets |
| AafBytes.PackTailOctets | src/avtp/formats/aaf/common.rs:299-310 | The two packed octets: three, one and four bits, then eight |
| AafBytes.UnpackTailOctets | src/avtp/formats/aaf/common.rs:267-273 | The fields in any two octets |
| AafBytes.ProtocolCodes | src/avtp/formats/aaf/common.rs:64-84 | The codes of formats, and those of sample rates in pcm.rs, are those of IEEE Std 1722-2016 section 7 |
| AafEndpoints.AafPcmTalker.constructor | src/avtp/formats/aaf/stream.rs:117-126 | The new talker is in the specified state, its number at zero |
| AafEndpoints.AafPcmTalker.New | src/avtp/formats/aaf/stream.rs:102-127 | Refuses exactly zero depth and zero channels, in that order |
| AafEndpoints.AafPcmTalker.BuildPacket | src/avtp/formats/aaf/stream.rs:144-189 | The mutable talker takes exactly the specified step: packet or error, clock state and sequence number |
| AafEndpoints.AafPcmListener.constructor | src/avtp/formats/aaf/stream.rs:208-217 | Filter and empty expectation |
| AafEndpoints.AafPcmListener.WithMacFilter | src/avtp/formats/aaf/stream.rs:223-228 | Filter and empty expectation |
| AafEndpoints.AafPcmListener.Process | src/avtp/formats/aaf/stream.rs:239-284 | The mutable listener gives exactly the specified report and next expected number on every branch |
| AafStreamLaws.BuildStep | src/avtp/formats/aaf/stream.rs:144-189 | A failed build consumes no number; a successful one carries its payload, its number and a time strictly above the previous floor |
| AafStreamLaws.SentPacketsCarry | src/avtp/formats/aaf/stream.rs:144-189 | Over any run the n-th successful packet carries n mod 256 and its own payload, and packet times strictly increase |
| AafStreamLaws.TalkerToWire | src/avtp/avtpdu.rs:136-163 | Whatever the talker builds can be written and reads back in front of any padding |
| AafStreamLaws.TalkerToListener | src/avtp/formats/aaf/stream.rs:144-284 | Write, pad, read and process: a matching listener reports identical payload, format, channels, depth, rate, number and timestamp, whatever it expected |
| AafStreamLaws.ListenerReports | src/avtp/formats/aaf/stream.rs:239-284 | A matching listener reports a talker packet and expects the next number |
| AafStreamLaws.OnlyAcceptedMatters | src/avtp/formats/aaf/stream.rs:239-284 | Non-interference: foreign PDUs, malformed AAF, other streams and AES3 frames change neither expectation nor reports; each accepted frame is reported |
| AafStreamLaws.GapReport | src/avtp/formats/aaf/stream.rs:259-272 | One gap reports the missed count mod 256, never more than it, and exactly it when at most 255 are missed |
| AafStreamLaws.LossFrom | src/avtp/formats/aaf/stream.rs:259-272 | The accounting from any expected number on, by gaps |
| AafStreamLaws.LossAccounting | src/avtp/formats/aaf/stream.rs:259-272 | For any in-order delivery, foreign frames included, losses plus deliveries are congruent to the span mod 256, at most the span, and equal to it exactly when no gap misses more than 255 |
| AafBytes.ReportsExactly | src/avtp/formats/aaf/stream.rs:239-284 | A listener reports exactly the PCM frames that convert and whose stream is wanted (any, that of the address, or that of both address and identifier), with their fields and the gap mod 256, and then expects the next number; anything else leaves it as it was, an error exactly for a stream PDU that does not convert |
| AafBytes.OtherStreamsIgnored | src/avtp/formats/aaf/stream.rs:239-284 | Non-interference by identifier: in any run, PDUs with another stream identifier and PDUs without one change neither reports nor the expected number |
| JitterBuffers.RecordedReading | src/bin/avtp-integration-test.rs:625-640 | Every release of every pass is recorded with the very reading its own iteration took at it |
| JitterBuffers.FirstPollDecides | src/bin/avtp-integration-test.rs:606-614 | The talker's outcome is that of the first poll that is not pending, a closed channel counting as failure, and stays so |
| PacketLaws.PacketOctets | src/avtp/formats/aaf/stream.rs:144-189 | Every octet of the n-th packet on the wire: 02 81, the number, 00, the stream, the time plus the delay mod 2^32, the codes of format, rate, channels and depth, the payload size, 00 00, the payload |
| PacketLaws.DelayInMilliseconds | src/avtp/formats/aaf/stream.rs:102-127 | The delay of a new talker, given in milliseconds, is added to the time of every packet as a million times as many nanoseconds, mod 2^32 |
| PacketLaws.BuildsExactly | src/avtp/formats/aaf/stream.rs:144-189 | A build fails with the clock's error, and otherwise with the first fault of its PCM; it succeeds exactly when there is neither, and only then takes a number |
| PacketLaws.PacketsHoldSamples | src/bin/avtp-integration-test.rs:521-571 | A successful run over a file of whole frames sends the least number of packets that can hold it; every packet but the last converts to exactly the samples per channel asked for, the last to the rest, at least one and no more, from frames of 24 octets and as many frames of samples |
| PacketLaws.FramesInChunks | src/bin/avtp-integration-test.rs:522-533 | Data of whole frames in chunks of a given number of frames: the least number of chunks, all full but the last |
| PcmBytes.SwapByteOrder | src/bin/avtp-integration-test.rs:780-784 | In place on the array: the buffer becomes the word-swapped buffer, an incomplete last word untouched |
| PcmBytes.ReverseSlice | src/bin/avtp-integration-test.rs:781-783 | In place: one slice reversed, everything else as it was |
| PcmBytes.SwappedTwice | src/bin/avtp-integration-test.rs:780-784 | Swapping twice with one word size is the identity on every buffer |
| PcmBytes.ConservationNeedsEqualWords | src/bin/avtp-integration-test.rs:628-630 | Swapping with one word size and back with another restores every buffer if and only if the sizes are equal |
| PcmBytes.NarrowSamplesAreCorrupted | src/bin/avtp-integration-test.rs:628-630 | A concrete corrupted sample: 12 valid bits in a 16-bit container |
| PcmBytes.ConcatOfChunks | src/bin/avtp-integration-test.rs:533-533 | Chunking loses, adds and reorders nothing |
| PcmBytes.ChunksAreFrames | src/bin/avtp-integration-test.rs:521-533 | Chunks of whole frames are non-empty, within size and whole frames |
| PcmBytes.PacketisingConserves | src/bin/avtp-integration-test.rs:533-544 | Chunk, swap, swap back and concatenate is the identity |
| TalkerThreads.TalkerThread | src/bin/avtp-integration-test.rs:521-571 | The whole sending loop: one packet per chunk in order, each with its swapped chunk, on the wire and in the records; otherwise the error of the first failing clock read, build or send and just the frames before it; a zero chunk size panics |
| TalkerThreads.SendChunks | src/bin/avtp-integration-test.rs:530-570 | The loop alone, from any talker state |
| TalkerThreads.SendChunk | src/bin/avtp-integration-test.rs:539-558 | One iteration: clock read, swapped copy, build, serialise, send; fails exactly when the read, the build or the send fails, with that error |
| TalkerThreads.FailuresAreReal | src/bin/avtp-integration-test.rs:539-552 | A run is reported failed only if some call, clock read or send of it really fails |
| TalkerThreads.BuiltIsWritable | src/bin/avtp-integration-test.rs:546-552 | Serialising a packet the talker built never fails |
| TalkerThreads.RecordsMatchPackets | src/bin/avtp-integration-test.rs:531-567 | The loop's own counter equals the number on the wire, and its recorded timestamp is the truncated presentation time |
| WavTransport.HzRoundTrip | src/avtp/formats/aaf/pcm.rs:156-190 | The two rate conversions are mutually inverse |
| WavTransport.ContainerIsWord | src/avtp/formats/aaf/pcm.rs:95-130 | An accepted header's sample word is its container width, and float exactly for float files |
| WavTransport.SetupConfigures | src/bin/avtp-integration-test.rs:503-519 | Configuration succeeds exactly for 1-255 valid bits, 1-1023 channels and known format and rate, and takes them over |
| WavTransport.EncodingsExactly | src/avtp/formats/aaf/pcm.rs:95-118 | Formats exist exactly for integer samples of 16, 24 and 32 bits and floats of 32 bits, and every refusal names its fault |
| WavTransport.RatesExactly | src/avtp/formats/aaf/pcm.rs:156-172 | The known frequencies are these ten, each with its own rate |
| WavTransport.SetupRefuses | src/bin/avtp-integration-test.rs:501-519 | Each refusal of a configuration, in the order of the checks |
| WavTransport.SendableIff | src/avtp/formats/aaf/pcm.rs:272-335 | Every packet of a file is accepted if and only if the file is empty, or the valid bits suit the container, its packets fit 65535 bytes and it ends with a whole frame |
| WavTransport.SurvivesIffFullWidth | src/bin/avtp-integration-test.rs:521-631 | Of the files a talker can send, both byte swaps restore every buffer exactly for those whose valid bits fill the container |
| WavTransport.NarrowFileIsCorrupted | src/bin/avtp-integration-test.rs:628-631 | A concrete header and sample: configured, sendable, and not restored |
| WavTransport.WideDepthIsRefusedLate | src/bin/avtp-integration-test.rs:503-519 | A concrete header that passes configuration and then has every packet refused |
| JitterBuffers.DrainLoop | src/bin/avtp-integration-test.rs:578-659 | The whole loop over any trace: every pass is safe (conserved, due, ascending, remainder in the future), records and bytes are those of the releases with their own readings, it ends at the first iteration whose exit test holds and only then reports the talker's outcome, and fails only at a faulty iteration |
| JitterBuffers.DrainPass | src/bin/avtp-integration-test.rs:617-641 | The inner loop releases all that is due and nothing else, in nondecreasing presentation time, and records it |
| JitterBuffers.PushAll | src/bin/avtp-integration-test.rs:595-605 | All arrivals are buffered under their expanded times, or the expansion panics |
| JitterBuffers.Peek | src/bin/avtp-integration-test.rs:619-625 | The head is some entry of least presentation time |
| JitterBuffers.Iterate | src/bin/avtp-integration-test.rs:594-641 | One iteration keeps the loop invariant: received equals released plus buffered |
| JitterBuffers.ScheduleSnoc | src/bin/avtp-integration-test.rs:594-641 | A safe pass extends a safe schedule and the multiset account of what is buffered |
| Reordering.ReorderRepair | src/bin/avtp-integration-test.rs:594-641 | A safe schedule of punctual arrivals that empties the buffer releases exactly the time-ordered sequence, whatever the arrival order |
| Reordering.ReleasesAscend | src/bin/avtp-integration-test.rs:619-641 | With punctual arrivals the releases ascend across passes too |
| Reordering.LaterIsFuture | src/bin/avtp-integration-test.rs:617-641 | What a later pass releases is strictly in the future of every earlier reading |
| Reordering.OrderIsUnique | src/bin/avtp-integration-test.rs:174-178 | Distinct presentation times leave one ascending arrangement of a multiset |
| WavLaws.ReadOfWrite | src/audio/wav.rs:372-446 | For every writable value: it reads back as itself (an empty extension filled in when needed) if and only if no `fmt ` or `data` chunk precedes the data and header and extension are representable |
| WavLaws.FmtRoundTrip | src/audio/wav.rs:204-306 | The format chunk gives back its header if and only if header and extension are representable, which excludes non-empty short extensions in the extensible form |
| WavLaws.WriteReadWrite | src/audio/wav.rs:372-446 | Writing what was read back gives the same file |
| WavLaws.WrittenSize | src/audio/wav.rs:400-427 | A successful write is exactly 8 + riff_size bytes and says so in its size field |
| WavLaws.ChunkAppend | src/audio/wav.rs:324-346 | Each chunk occupies exactly its serialised size, padding included |
| WavLaws.PreambleOfStream | src/audio/wav.rs:552-569 | The streaming preamble in front of any samples reads back with data size 0xFFFFFFFF and leaves the samples, under exactly the same conditions |
| WavLaws.LoopCollects | src/audio/wav.rs:505-536 | The chunk loop passes over ordinary chunks, collecting them in order on the right side of the format chunk |
| WavLaws.ParsedChunksAreOrdinary | src/audio/wav.rs:514-535 | No parse ever returns a format or data chunk among the ordinary ones |
| WavLaws.PreambleParses | src/audio/wav.rs:498-537 | A printed preamble parses to its parts, or fails with the header's decoding error |
| WavLaws.ReadAgreesWithPreamble | src/audio/wav.rs:372-391 | A whole-file read has the metadata and the errors of a preamble read of the same input; it succeeds exactly when the declared data, its padding and whole trailing chunks follow, takes its data from where the preamble ended, and leaves less than a chunk identifier |
| WavLaws.TrailingConsumes | src/audio/wav.rs:378-381 | The trailing chunks account for the rest of the input, each by its serialised size, up to an incomplete identifier |
| WavBytes.LittleEndian | src/audio/wav.rs:275-283 | Two- and four-octet fields have their least significant octet first, written and read |
| WavBytes.FmtFields | src/audio/wav.rs:259-310 | The format chunk field by field: the tag 1, 3 or FFFE by widths and channels, the byte rate and block alignment as products mod 2^32 and 2^16, and the filled-in extension octet by octet |
| WavBytes.DerivedRates | src/audio/wav.rs:277-281 | When nothing overflows the byte rate field is the sample rate times the alignment field, and that is channels times bits over eight |
| WavBytes.DecodesExactly | src/audio/wav.rs:204-253 | What a format chunk of any octets decodes to, or the size it should have had |
| WavBytes.FileWrittenExactly | src/audio/wav.rs:400-446 | The written file octet by octet, or the refusal exactly when it is longer than its 32-bit size field can say |
| WavBytes.StreamWrittenExactly | src/audio/wav.rs:552-569 | The streaming preamble octet by octet, or the refusal exactly for a chunk longer than its size field can say |
| WavIo.ByteReader.ReadPreamble | src/audio/wav.rs:498-537 | The imperative chunk loop equals the parser: same preamble or error, reader at the first data byte |
| WavIo.ByteReader.ReadWav | src/audio/wav.rs:372-391 | The imperative whole-file reader equals the parser on every input |
| WavIo.ByteReader.ReadRest | src/audio/wav.rs:378-381 | The trailing-chunk loop equals the recursive parser |
| WavIo.ByteReader.ReadChunk | src/audio/wav.rs:316-322 | Payload and padding consumed exactly, or end of input |
| WavIo.ByteReader.ReadChunkHeader | src/audio/wav.rs:177-194 | End of input in the identifier is the end of the file, in the size an error |
| WavIo.ByteReader.ReadRiffHeader | src/audio/wav.rs:454-476 | Both magics checked in order with the right error |
| WavIo.ByteReader.SkipPadding | src/audio/wav.rs:573-580 | One byte after an odd size, none after an even one |
| WavIo.ByteWriter.WriteWav | src/audio/wav.rs:400-446 | The imperative writer appends exactly the printed file, or nothing when its size overflows |
| WavIo.ByteWriter.WriteStream | src/audio/wav.rs:552-569 | The imperative writer appends exactly the printed preamble, or, exactly for an oversized chunk, fails having written everything before it |
| WavIo.StreamWrittenWhole | src/audio/wav.rs:552-569 | What a successful streaming write has put out is the whole printed preamble |
| WavIo.ByteWriter.WriteChunks | src/audio/wav.rs:429-431 | A loop of chunks: all printed, or exactly those before the first refused one |
| WavIo.ByteWriter.WriteChunk | src/audio/wav.rs:324-340 | Header, payload and padding printed, or nothing for an oversized payload |
| WavIo.ByteWriter.WriteRiffHeader | src/audio/wav.rs:482-487 | The twelve header bytes are appended |
| WavIo.IntoWavChunk | src/audio/wav.rs:259-286 | Appending the fields one by one gives the specified format chunk |

## Left out

- ClockRuns.ElapsedTracksPtp: bounds the clock over real arithmetic; the rounding of IEEE 754 doubles inside the PLL (relevant above 2^53 ns) is not modelled.
- ClockConvergence.PllConverges: likewise over real arithmetic.
- ClockAccuracy.TimeConverges: likewise over real arithmetic.
- JitterBuffers.DrainLoop: among equal presentation times any entry may come first, as the binary heap leaves it open; a trace that ends before the loop does gives an outcome of its own; packets still in the channel when the loop ends are not in any iteration of the trace, and nothing is claimed about them.
- TalkerThreads.TalkerThread: pacing and sleeping are left out; the run is given, for every chunk, the clock values it meets and whether the interface accepts its frame.
- HeaderCodecs.ReadPdu: says nothing about the reader's position after a failed read, which the source leaves unspecified too.
- WavIo.ByteReader.ReadPreamble: likewise after a failed read; only end of input can fail a read.
- Avtpdus.AlternativeNeverReads: the unimplemented decoder of alternative headers is an error value; no round trip exists for that variant.
- Write errors of the stream behind the WAV writer and the bit writer, out-of-memory and the allocation sizes of readers.
- Debug-build overflow panics: the talker's delay in nanoseconds and the WAV byte-rate and block-align fields wrap, as in a release build; the round trips do not depend on the latter two.
- Aafs.SetRateKeepsValid: the setters of AAF and header values are modelled as functions from value to value, since nothing else refers to the updated value.
- Frame indices and chunk sizes are unbounded naturals where the source uses 64-bit counters.
- The external bit-stream crate is modelled by its big-endian behaviour, including that a value wider than its field is an error which these callers never meet; a failed read leaves nothing to read.
- Raw sockets and interface lookup (src/avtp/transport/ethernet.rs): the receive loop is given a trace of raw frames and failures; the addresses in the Ethernet header are not modelled.
- PTP devices, ioctls and the PTP daemon wrappers (src/ptp_phc, src/ptp_proto): a reading is a value or an error.
- Threads, channels and deadlines of the integration test: replaced by traces of loop iterations; `Validation.RunTest` runs the three loops one after the other on their traces.
- The encapsulation style of subtypes, display formatting, CSV output and command lines.
- AES3 payload semantics: the source keeps AES3 frames as opaque data, and so does the model.
