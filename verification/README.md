# Streaming speech-to-text runtime: a Dafny model

The repository is a streaming transcription runtime. Audio arrives in arbitrary chunks; a log-Mel frontend, a causal
encoder with a per-layer K/V ring, an adapter and an autoregressive decoder all advance while it arrives, behind a bounded
event queue that can stall the decoder at any event. The code claims that whatever the chunking, polling and stalling, the
result is exactly that of the plain batch pipeline. This project models that machinery and proves the claim, together with
the buffering code around it (server audio input, outbound messages, WAV and GGUF containers, SHA-256, UTF-8 cuts).

The numeric kernels (Mel frame, convolution rows, K/V projection, attention block, adapter, decoder step, detokenizer) are
function parameters (`Kernels`), so every theorem holds for every choice of them. Attention is a function of the multiset of
unmasked (K,V) columns, the decoder a function of its whole input history. A backend failure is a nondeterministic outcome
in front of each encoder push and of each adapter, prefill and decoder call; a ghost flag records it. A failure half way
through an encoder push is not modelled.

`dafny verify dfyconfig.toml` checks the project.

## Layout

- `Common`, `Kernels`, `RingMath`, `DeviceRing`, `Bytes`: values, ring arithmetic, ring writes, little-endian integers.
- `MelSpec` / `MelFrontend`: the batch spectrogram / the incremental frontend that must reproduce it.
- `ConvStem`, `EncoderSpec`, `EncoderPlan`, `BlockAttention`, `EncoderKv`: the convolution stem, the direct sliding-window
  recursion, index plans and schedules, masks and column layouts, and the cached encoder.
- `Reference` / `SchedulerSpec`, `Scheduler`: the uninterrupted decode / the interruptible scheduler.
- `Events`, `Utf8`, `StreamPlan`, `Stream`: event queue, text cuts, padding arithmetic, the session lifecycle.
- `FinishLimit`: runs that finish cannot complete.
- `Batch`: the whole batch pipeline, and the server's batch client over the streaming session.
- `DecoderRing`, `LegacyEncoder`: the decoder K/V ring and the chunked legacy encoder.
- `PcmInput`, `Outbound`, `Wav`, `Gguf`, `Sha256`: supporting cores.

## Main results

1. For every sequence of feeds, polls, resumes and a finish in which no slice follows a backpressured slice (always so when
   feeds hold at most 16000 samples), a completed session has exactly the tokens and transcript of the uninterrupted
   pipeline over the padded signal (`Stream.Stream.CompletedRun`, `Stream.Stream.Finish`); the batch pipeline computes the
   same (`Batch.TranscribeAudio`), and so does the server's drain-and-resume client for every queue capacity
   (`Batch.BatchClient.Transcribe`): its loops terminate, and with logical batches of at most 32 frames it succeeds unless it
   is cancelled or a device call fails. Finish succeeds exactly when no device call fails and the outputs still to come fit
   the queue and its reserve (`Stream.Stream.Finish`).
2. At every moment of every run the TOKEN events shown are the decoder outputs in order with consecutive ids, snapshots
   extend each other, and terminal events only end the trace (`Stream.Stream.TraceContract`).
3. The cached encoder equals the direct 750-frame sliding-window recursion for every batching and every way of pushing Mel
   frames, and before finish what it has executed is a function of the number of stable frames alone
   (`EncoderKv.EncoderKv.PushMel`, `EncoderKv.EncoderKv.Finish`).
4. The incremental frontend equals the batch spectrogram for every chunking (`MelFrontend.MelFrontend.Finish`).
5. The reference decode is characterised without any run: it is the only token sequence in which every token answers the
   prompt and the tokens before it, and which stops where the decoder may (`Reference.DecodedIff`).
6. A feed whose estimated tokens and one snapshot fit the event queue never stalls the decoder, whatever its size: either
   every snapshot fits too, or the single-snapshot policy leaves room for every token (`Stream.Stream.NoStall`).

## What the proofs showed about the code

- The terminal reserve of 64 slots covers the finish tail for every input length exactly when a logical encoder batch is at
  most 32 frames (`StreamPlan.ReserveCovers`). With the default 4-row schedule the tail is 18 positions, and 19 when the
  last token holds 1 to 39 samples (`StreamPlan.DefaultTail`); the comment at src/voxtral-stream-internal.h:57-58 says at
  most 18. With logical batches of 64 or 128 frames the tail can need 70 or 90 slots: 40961 samples fed in three slices to a
  queue of 20 events that nobody polls make finish fail, whatever the audio, when the decoder never says EOS
  (`FinishLimit.FinishFails`).
- The token estimate that selects the snapshot policy, ceil(count/1280) + 19, covers what a feed can make available exactly
  when a logical batch is at most 64 frames (`StreamPlan.EstimateCovers`): with 128-frame batches the sample after 40999
  others releases 26 positions against an estimate of 20.
- The legacy chunked encoder emits half as many rows as there are Mel frames exactly when its last contributing chunk has an
  even index; otherwise the left truncation of that chunk loses two rows and shifts the rows behind them
  (`LegacyEncoder.TotalTokens`, `LegacyEncoder.EmitAt`; 3008 frames give 1502 rows). The truncation cuts in front of the
  layers, so a run from the start of the stream computes the rows of the direct recursion exactly when nothing is cut
  (`LegacyEncoder.RunAgreesExactly`).
- The zero-filled fixed window of the reusable encoder graph equals the stream convolution exactly from frame 1 on; at
  frame 0 it does not when the first convolution has a bias (`ConvStem.SteadyStemExactCondition`). Streams never run it
  there: they start with a 128-frame block.
- The reflection step computes `2 * len - 2 - idx` in 32 bits. Completing a signal doubles a length that does not fit
  exactly when the signal has 2^30 samples or more and its last frame is not stable yet (`MelFrontend.OverflowsExactly`,
  `MelFrontend.MelFrontend.Finish`); a padded stream does so exactly from a padded length of 2^30 on
  (`StreamPlan.PaddedOverflows`; 1073679360 samples pad to 2^30 + 256, `StreamPlan.OverflowingInput`). C++ leaves that signed
  overflow undefined. The model wraps around and records it in a ghost flag; where arithmetic does wrap, the index still
  comes out right and every result holds.

## Model

| member | source | states |
|---|---|---|
| `RingMath.GatherIsSpan` | src/voxtral.cpp:3642-3651 | reading the planned physical segments of a span gives the logical entries oldest to newest, whatever the wrap |
| `RingMath.WrittenResident` | src/voxtral.cpp:3653-3676 | appending keeps the newest capacity entries of the history in the ring and clobbers nothing newer |
| `RingMath.PhysicalMaskIsWindow` | src/voxtral.cpp:4104-4119 | a mask over physical slots that opens the slots of a position span shows, as a multiset, exactly that span of the history |
| `DeviceRing.CopySegments` | src/voxtral.cpp:2172-2185 | the graph's copy loop writes the rows segment by segment, each segment taking the next rows, and touches nothing else in the buffer |
| `DeviceRing.StoredIsWritten` | src/voxtral.cpp:3642-3651 | through the planned segments of a span every row ends up at its absolute position |
| `DeviceRing.CopyChunk` | src/voxtral.cpp:4018-4043 | the run-by-run copy into the encoder-output ring yields the same ring |
| `DeviceRing.ScatterRows` | src/voxtral.cpp:4104-4112 | storing each row in the slot of its own position yields the same ring |
| `ConvStem.ConvDimsClosedForm` | src/voxtral.cpp:1670-1687 | with an exact ceiling: one output per started stride, right padding only completes the last one |
| `ConvStem.Conv0Taps` | src/voxtral.cpp:1767-1806 | row i of the first layer is the kernel over rows i, i+1, i+2 of the window padded as the dimensions say: two zero frames in front |
| `ConvStem.Conv1Taps` | src/voxtral.cpp:1891-1906 | row e of the second layer is the kernel over rows 2e, 2e+1, 2e+2 of the padded rows: one zero row in front, one behind an odd length |
| `ConvStem.StemOfWholeStream` | src/voxtral.cpp:1885-1906 | the direct value of an encoder input row is that row of the two layers over the whole stream |
| `ConvStem.StemReads` | src/voxtral.cpp:3677-3680 | inside the stream, frame e is computed from Mel[2e-3 .. 2e+1], three kernel applications of the first layer and one of the second |
| `ConvStem.WindowedStem` | src/voxtral.cpp:3677-3683 | the two-layer causal convolution of the planned Mel window, sliced at its start, equals the convolution of the whole stream at the same frames, including the zero-padded first two |
| `ConvStem.SteadyStemExactCondition` | src/voxtral.cpp:4072-4103 | the zero-filled 12-frame window gives the stream rows for every kernel and stream if and only if it starts at frame 1 or later |
| `EncoderPlan.PlanReadsWindow` | src/voxtral.cpp:3653-3692 | after writing the new rows piece by piece through the write segments, the read segments hold the whole causal window of the batch in order, and the write segments the new rows: no live row is overwritten |
| `EncoderPlan.PlanStores` | src/voxtral.cpp:3674 | the write segments take exactly the new rows and put each in slot position % capacity |
| `EncoderPlan.PlanEvicts` | src/voxtral.cpp:3685-3690 | the evictions of consecutive batches add up to max(0, head - window) |
| `EncoderPlan.CapacityIsLeast` | src/voxtral.cpp:3658-3663 | every 128-frame batch has a plan exactly from a capacity of 878 slots on |
| `EncoderPlan.ScheduleFromEnv` | src/voxtral.cpp:107-154 | for every setting of the knobs: the physical block is the smallest admissible shape for the rows asked for, the logical batch the largest one not above what is asked for that divides the block |
| `EncoderPlan.FeedBatchesAre` | src/voxtral.cpp:4379-4414 | before finish exactly these batches run: nothing below 128 realizable frames, then a 128-frame block and the full logical batches behind it |
| `EncoderPlan.FeedLag` | src/voxtral.cpp:4379-4414 | once started, a feeding encoder lags the realizable frames by less than one logical batch |
| `EncoderPlan.RoomForBatch` | src/voxtral.cpp:4416-4423 | a logical batch of a feed never crosses the physical block it starts in |
| `EncoderPlan.TilesOnce` | src/voxtral.cpp:4379-4426 | a log of executed batches that tiles the frames contains every frame exactly once |
| `EncoderSpec.HidPrefix` | src/voxtral.cpp:3694-3702 | a frame's row in any layer depends on no Mel frame past the two its convolution ends with |
| `EncoderSpec.LayerReads` | src/voxtral.cpp:3636-3638 | a layer attends from frame e over the K/V of the at most 750 frames that end with e, each projected from its own row at its own position |
| `BlockAttention.BlockShowsSpan` | src/voxtral.cpp:2201-2266 | the prefix/old/new/future columns of a block under its mask show each real query exactly its causal window, in order, for every offset and both attention layouts |
| `BlockAttention.DummySees` | src/voxtral.cpp:4259-4278 | a dummy query of the segmented family sees exactly the first column, so that its softmax is defined; one of the fused family sees none |
| `BlockAttention.RingShowsWindow` | src/voxtral.cpp:4104-4119 | the slot mask of the reusable graph shows each query exactly its causal window |
| `BlockAttention.SlotMask` | src/voxtral.cpp:4104-4119 | the loop over keys opens exactly the physical slots of the window |
| `EncoderKv.EncoderKv.Run` | src/voxtral.cpp:4360-4371 | one execution emits its frames with the rows of the direct recursion, keeps every layer's ring exact and trims the tail; its guards never fire |
| `EncoderKv.EncoderKv.Drive` | src/voxtral.cpp:4379-4426 | before finish the executed batches are those of the Mel count; at the end every realizable frame is emitted |
| `EncoderKv.EncoderKv.TrimTail` | src/voxtral.cpp:4348-4358 | the kept Mel tail starts exactly at the left context of the next convolution |
| `EncoderKv.EncoderKv.TailBounded` | src/voxtral.cpp:4346-4358 | the Mel tail stays bounded for any stream length |
| `EncoderKv.EncoderKv.PushMel` | src/voxtral.cpp:4865-4881 | for every partition of the stable frames into pushes, outputs equal the direct recursion and the list of executed batches depends on the frame count only; non-contiguous or late pushes are refused |
| `EncoderKv.EncoderKv.PushMelFinal` | src/voxtral.cpp:4893-4914 | the terminal push emits floor(mel/2) frames, each equal to the direct recursion |
| `EncoderKv.EncoderKv.Finish` | src/voxtral.cpp:4944-4956 | finish completes floor(mel/2) frames, each executed once |
| `EncoderKv.EncoderKv.Reset` | src/voxtral.cpp:4704-4711 | clearing the counters alone is a fresh encoder: stale ring rows are never read |
| `EncoderKv.EncodeWhole` | src/voxtral.cpp:4438-4475 | the batch encoder equals the direct recursion with its final norm, cut to whole adapter groups, and fails exactly below 8 Mel frames |
| `EncoderKv.BatchEnds` | src/voxtral.cpp:4416-4423 | a batch is shorter than asked for only at the end of what is realizable or at the end of its block |
| `MelSpec.StableWindow` | src/voxtral-mel.cpp:286-311 | the window of a stable frame reads the same samples whatever is appended |
| `MelSpec.StableReadsInTail` | src/voxtral-mel.cpp:295-311 | every read of a stable frame lies at or behind the first sample the tail keeps for it |
| `MelSpec.FinishReadsInTail` | src/voxtral-mel.cpp:421-436 | at most one frame is missing at the end, and its reflected reads stay in the tail |
| `MelSpec.FrameReads` | src/voxtral-mel.cpp:197-248 | frame f is computed from the 400 samples around sample 160f, reflected at both ends without repeating the edge; there are floor(n/160) of them |
| `MelSpec.ReflectPeriodic` | src/voxtral-mel.cpp:92-104 | for every length and index the reflection lies in range and differs from the index, or from its negation, by a multiple of 2n - 2 |
| `MelFrontend.ReflectIndex` | src/voxtral-mel.cpp:92-104 | the 32-bit loop, wrapping around, computes the repeated reflection for every length; it leaves the 32-bit range exactly when an index at least one length away meets a length of 2^30 or more |
| `MelFrontend.OverflowsExactly` | src/voxtral-mel.cpp:300-311 | no stable frame overflows; some frame left to the end does, if and only if the total is at least 2^30 and less than 40 modulo the hop |
| `MelFrontend.ComputeBatch` | src/voxtral-mel.cpp:197-248 | padding once and reading contiguous windows gives the batch spectrogram for every addressable length; a doubled length overflows exactly from 2^30 samples on |
| `MelFrontend.MelFrontend.Feed` | src/voxtral-mel.cpp:400-409 | any chunk emits exactly the frames it makes stable, (n - 40)/160 in all from 201 samples on; all frames emitted are batch frames of the longer signal; the tail stays below 400 samples |
| `MelFrontend.MelFrontend.Finish` | src/voxtral-mel.cpp:421-436 | the frames emitted over feeds and finish are the batch spectrogram of everything fed; overflow happens exactly for the totals above |
| `MelFrontend.MelFrontend.FrameData` | src/voxtral-mel.cpp:465-472 | retained frames are those of the emitted stream at their absolute index |
| `MelFrontend.MelFrontend.DiscardBefore` | src/voxtral-mel.cpp:474-486 | retained frames start exactly at the frame asked for, unless history is kept, it is behind already, or there are not that many |
| `Utf8.PrefixAtMost` | src/voxtral-c-api.cpp:303-340 | the longest well-formed UTF-8 prefix within the limit |
| `Utf8.WellFormedIsEncoded` | src/voxtral-c-api.cpp:303-340 | whatever the scanner accepts is the UTF-8 encoding (section 3 of RFC 3629) of a sequence of Unicode scalar values: no overlong form, no surrogate, nothing past 10FFFF |
| `Utf8.EncodedIsWellFormed` | src/voxtral-c-api.cpp:303-340 | and every such encoding is accepted whole |
| `Utf8.CopyEventText` | src/voxtral-c-api.cpp:344-361 | event text is the longest well-formed stable piece that fits, flagged truncated exactly when something is missing |
| `Utf8.StableMonotoneAll` | src/voxtral-stream-decoder.cpp:26-42 | the stable prefix never shrinks as bytes are appended |
| `Utf8.ScannersAgree` | src/voxtral-stream-decoder.cpp:26-42 | on every prefix of well-formed text the backward scan gives the forward scan's longest prefix |
| `Utf8.StableCuts` | src/voxtral-stream-decoder.cpp:26-42 | on arbitrary bytes the backward scan cuts in front of the last byte that is no continuation byte exactly when that byte announces more than follows |
| `Reference.DecodeRealtime` | src/voxtral.cpp:5771-5849 | the batch decode loop needs 39 embeddings; its first token answers BOS and 38 STREAMING_PADs over them, every further token all tokens before it, up to the end of the audio, the limit, or an EOS, which is dropped; the text is theirs |
| `Reference.DecodedIff` | src/voxtral.cpp:5771-5849 | a token sequence is the reference decode if and only if each of its tokens is the decoder's answer to the prompt and the tokens before it, none is EOS, and it stops where the loop does |
| `Reference.TranscriptUnique` | src/voxtral.cpp:5826-5836 | there is only one such sequence |
| `Reference.TextConcat` | src/voxtral.cpp:5848-5849 | the text of tokens in a row is their pieces in a row |
| `Reference.StepsUnique` | src/voxtral.cpp:5826-5836 | a run of true outputs that halts at its end and not before is the reference run |
| `Reference.OutsPrefix` | src/voxtral.cpp:5826-5836 | outputs already produced do not depend on later audio |
| `Events.EventQueue.PushEvent` | src/voxtral-stream-events.cpp:28-48 | a mandatory event is appended, or refused without change and recorded exactly at the bound: the capacity, plus 64 while finalizing |
| `Events.EventQueue.PushEventCoalesced` | src/voxtral-stream-events.cpp:80-123 | a snapshot replaces the first one and goes behind everything (large feed), is appended while there is room, takes the place of the newest snapshot of a full queue, or is dropped when there is none; mandatory events behave as in the bounded push |
| `Events.PartialPushedKeeps` | src/voxtral-stream-events.cpp:80-123 | no snapshot push removes or reorders a TOKEN or terminal event |
| `Events.PartialPushedInOrder` | src/voxtral-stream-events.cpp:86-123 | through coalescing, replacement and dropping, the snapshots polled and queued keep strictly increasing revisions |
| `Events.SnapshotsExtend` | src/voxtral-stream-events.cpp:142-151 | a later snapshot's text extends every earlier one |
| `SchedulerSpec.AdaptedIsEmbs` | src/voxtral.cpp:5440-5447 | while the encoder is at most a ring ahead, the adapter reads the true encoder frames |
| `SchedulerSpec.FaithfulCommits` | src/voxtral-stream-decoder.cpp:68-86 | committing groups keeps the embedding ring, outputs and decoder history those of the uninterrupted decode |
| `SchedulerSpec.StepIsFaithful` | src/voxtral-stream-decoder.cpp:157-188 | a step fed the last output and the ring slot of its position is the reference step at that position: the embedding has not been overwritten |
| `SchedulerSpec.DeliveryShows` | src/voxtral-stream-decoder.cpp:102-148 | delivering the stashed token shows exactly one more output, with the next id, and an ordered snapshot behind it |
| `SchedulerSpec.DeliveryAppends` | src/voxtral-stream-events.cpp:125-151 | with room, delivery appends the TOKEN with its id, position and audio end, then the snapshot that includes it; EOS ends decoding without joining the transcript |
| `SchedulerSpec.HaltedStays` | src/voxtral-stream-decoder.cpp:157-161 | once EOS or the token limit is reached, no later pass delivers an output |
| `SchedulerSpec.SliceIsSafe` | src/voxtral-stream-decoder.cpp:64-75 | after one slice no unread encoder frame has been lapped, unless the throttle stops the adapter from reading on |
| `SchedulerSpec.PassIsCurrent` | src/voxtral-stream-decoder.cpp:64-90 | a pass after one slice, or a resume, has again committed every complete group |
| `SchedulerSpec.HaltedIsDecoded` | src/voxtral-stream-decoder.cpp:157-189 | a faithful run that can go no further has the tokens of the uninterrupted decode, for every token limit, EOS dropped |
| `Scheduler.Scheduler.AdapterRun` | src/voxtral.cpp:5440-5462 | the embedding of group g lands in slot g % 256 and is computed from the slots of frames 4g, 4g+1, 4g+2, 4g+3, in that order |
| `Scheduler.Scheduler.AdapterCommit` | src/voxtral.cpp:5424-5485 | runs of 32 groups and then single groups write the same embeddings as one write |
| `Scheduler.Scheduler.Prefill` | src/voxtral-stream-decoder.cpp:88-100 | prefill feeds BOS and 37 STREAMING_PADs with the embeddings of positions 0..37; the 39th prompt token is fed by the first step |
| `Scheduler.Scheduler.Step` | src/voxtral-stream-decoder.cpp:157-187 | a step feeds the previous token with the embedding of its position and stashes the answer, marked special exactly for 1, 2 and 32 |
| `Scheduler.Scheduler.CommitPending` | src/voxtral-stream-decoder.cpp:102-148 | a stashed token is delivered completely or, on a full queue, nothing changes and its step is not repeated |
| `Scheduler.Scheduler.RunSteps` | src/voxtral-stream-decoder.cpp:157-188 | stepping ends caught up, halted, stalled with the undelivered token stashed, or with a device failure; the queue grows by at most two per output |
| `Scheduler.Scheduler.Pump` | src/voxtral-stream-decoder.cpp:57-190 | one pass keeps all invariants and ends settled, stalled or failed; a stalled decoder that finds room delivers at least one more output |
| `StreamPlan.PaddedLength` | src/voxtral-stream.cpp:557-561 | the padded signal is a whole number of tokens and of 8-frame Mel groups, 49 + ceil(n/1280) in all |
| `StreamPlan.PaddedReads` | src/voxtral-stream.cpp:557-561 | the padded signal is 40960 zeros, the samples, and zeros up to 49 + ceil(n/1280) tokens |
| `StreamPlan.PaddedOverflows` | src/voxtral-stream.cpp:557-563 | completing a stream overflows the doubled length if and only if the padded signal has at least 2^30 samples |
| `StreamPlan.OverflowingInput` | src/voxtral-stream.cpp:557-563 | 1073679360 samples are still addressable when padded, and overflow |
| `StreamPlan.EmissionStep` | src/voxtral.cpp:4379-4426 | a slice or the finish lets the encoder get at most 200 frames ahead of where it stood, for every schedule |
| `StreamPlan.DefaultTail` | src/voxtral-stream-internal.h:57-63 | the exact finish tail of the default schedule: 18 positions, 19 when n mod 1280 is in 1..39, fewer before the decoder has started |
| `StreamPlan.TailBounded` | src/voxtral-stream-internal.h:57-63 | the finish tail of every schedule is bounded, independently of the length |
| `StreamPlan.ReserveCovers` | src/voxtral-stream-internal.h:57-63 | the slot arithmetic of the reserve works out for every length if and only if the logical batch is at most 32; what that means for runs is stated by `Stream.Stream.DecodeTail`, `Stream.Stream.Finish` and `FinishLimit.FinishFails` |
| `StreamPlan.EstimateCovers` | src/voxtral-stream.cpp:141-147 | the token estimate of a feed, ceil(count/1280) + 19, covers the positions it can make available, for every stream and split, if and only if the logical batch is at most 64 |
| `Stream.Stream.PushFrames` | src/voxtral-stream-frontend.cpp:112-134 | the 8-frame cadence hands the encoder exactly the emitted Mel frames, in order |
| `Stream.Stream.DrainMel` | src/voxtral-stream-frontend.cpp:82-135 | every stable frame reaches the encoder, and frames are discarded only behind its cursor |
| `Stream.Stream.HearSlice` | src/voxtral-stream.cpp:197-222 | one slice leaves frontend and encoder exact and the encoder at most 200 frames ahead |
| `Stream.Stream.Advance` | src/voxtral-stream.cpp:223-239 | from a state that had kept up, a pass reads no lapped encoder frame and keeps up again |
| `Stream.Stream.FeedAudio` | src/voxtral-stream.cpp:193-240 | a feed consumes all its samples even when the decoder stalls; feeds of at most 16000 samples never run a slice behind a stalled one |
| `Stream.Stream.NoStall` | src/voxtral-stream.cpp:140-155 | a feed whose estimated tokens and one snapshot fit the queue never stalls the decoder, under either snapshot policy, for a stream that kept up and logical batches of at most 64 |
| `Stream.Stream.FeedCommon` | src/voxtral-stream.cpp:62-269 | resume first, refuse without consuming (above 67108864 samples), or accept whole; statuses, state, sample count and queue growth of every path; a feed whose estimate fits does not stall; a backend error means a device call failed |
| `Stream.Stream.Feed` | src/voxtral-c-api.cpp:710-747 | the samples reported consumed are those accepted; a device failure ends the stream with exactly one ERROR |
| `Stream.Stream.FailStream` | src/voxtral-c-api.cpp:285-301 | the single ERROR always fits the reserve |
| `Stream.Stream.DecodeTail` | src/voxtral-stream.cpp:589-597 | for a stream that kept up and a logical batch of at most 32, the tail never stalls and leaves two free slots |
| `Stream.Stream.Finish` | src/voxtral-stream.cpp:464-643 | idempotent when terminal; refuses while stalled on a full queue (delivering at least one output per drained retry); otherwise, for a stream that kept up, succeeds if and only if no device call fails and the outputs to come fit queue and reserve; without EOS or limit the steps number 11 + ceil(n/1280) |
| `FinishLimit.FinishFails` | src/voxtral-stream.cpp:589-598 | with any logical batch above 32 frames, 40961 samples, 20 event slots, no polling and no EOS, finish fails |
| `Stream.Stream.Cancel` | src/voxtral-stream.cpp:749-793 | one CANCELLED behind everything, never refused; no-op or error in terminal states |
| `Stream.Stream.Reset` | src/voxtral-c-api.cpp:847-871 | refused while running; otherwise the session is as new |
| `Stream.Stream.Poll` | src/voxtral-c-api.cpp:749-800 | events leave in order with consecutive public sequence numbers |
| `Stream.Stream.TraceContract` | src/voxtral-stream-events.cpp:28-151 | at any moment of any run: TOKEN i carries output i, its text, special flag, id i+1, position 38+i and audio end 1280(i+7); snapshot r shows the first r tokens, and snapshots extend each other; terminal events only end the trace |
| `Stream.Stream.CompletedRun` | src/voxtral-stream.cpp:630-643 | a completed run without overrun has the tokens of the uninterrupted pipeline, which are the one transcript of the padded signal's embeddings, their text, and FINAL and COMPLETED behind them |
| `Batch.TranscribeAudio` | src/voxtral.cpp:5969-6016 | the batch pipeline over the padded recording computes the same expected tokens and text, for every addressable length |
| `Batch.ComputeMelEven` | src/voxtral.cpp:5633-5655 | an odd spectrogram loses its first frame, an even one nothing |
| `Batch.RunAdapter` | src/voxtral.cpp:2517-2541 | embedding g is the adapter over encoder rows 4g .. 4g+3 in order, and the embedding of the reference |
| `Batch.BatchClient.DrainEvents` | server/batch-transcription.cpp:9-41 | the token count is the number of TOKEN events polled |
| `Batch.BatchClient.ResumeAfterBackpressure` | server/batch-transcription.cpp:43-69 | the drain-and-resume loop terminates for every queue capacity: the backlog strictly falls each round |
| `Batch.BatchClient.FeedChunk` | server/batch-transcription.cpp:93-121 | every sample of a chunk is fed once, in order |
| `Batch.BatchClient.Transcribe` | server/batch-transcription.cpp:73-167 | a transcription succeeds unless cancelled, hit by a device failure or run with logical batches above 32; then it is the expected text, with every decoder output counted once |
| `DecoderRing.DecoderKvPlan` | src/voxtral.cpp:1615-1644 | a plan exists exactly for a coherent ring, the next position and 1..capacity new entries |
| `DecoderRing.PlanKeepsNewest` | src/voxtral.cpp:1629-1636 | the write segments put each new row in slot position % capacity, and the read segments then show the newest min(capacity, next) entries, oldest first |
| `DecoderRing.PlanCounts` | src/voxtral.cpp:1631-1642 | next, used and oldest after the append; what is evicted adds up to max(0, next - capacity); a wrap is reported exactly when slot zero is written again |
| `DecoderRing.TurnsStep` | src/voxtral.cpp:1638-1642 | an append completes at most one turn of the ring |
| `DecoderRing.DecoderKv.Append` | src/voxtral.cpp:1615-1656 | one execution writes through the planned write segments and reads, through the planned read segments, the newest min(capacity, next) entries oldest first; used, evictions and wraps have their closed forms after any sequence of appends |
| `DecoderRing.DecoderKv.StepView` | src/voxtral.cpp:5241-5266 | the masked prefix before the ring is full, and the whole physical ring once it is, hold the logical window as a multiset |
| `LegacyEncoder.TotalEncTokens` | src/voxtral.cpp:1703-1720 | the precomputed allocation is the length of the batch schedule |
| `LegacyEncoder.TotalTokens` | src/voxtral.cpp:1703-1720 | for multiples of 8 the total is mel/2 if and only if the last contributing chunk has an even index, else two less |
| `LegacyEncoder.TotalTokensShort` | src/voxtral.cpp:1703-1720 | 3008 Mel frames give 1502 rows |
| `LegacyEncoder.EmitAt` | src/voxtral.cpp:3446-3554 | rows come out in stream order: row g sits at rotary position g and is convolution frame g, except that the rows of an odd last chunk are shifted by two |
| `LegacyEncoder.ChunkRunRows` | src/voxtral.cpp:4578-4626 | a run over any even-length part of a chunk gives the rows its emissions stand for: the layers over the kept convolution rows, positions counted from the rotary offset |
| `LegacyEncoder.RunEncoderChunk` | src/voxtral.cpp:3330-3411 | one execution: convolution, left truncation, then layers under the sliding mask local to the run |
| `LegacyEncoder.RunAgreesExactly` | src/voxtral.cpp:1919-1937 | a run from the start of the stream equals the direct recursion, for every kernel and stream, if and only if its truncation cuts nothing |
| `LegacyEncoder.OneChunkIsDirect` | src/voxtral.cpp:3446-3554 | up to one chunk the legacy encoder gives the rows of the direct recursion, and so of the cached encoder |
| `LegacyEncoder.RunEncoderChunked` | src/voxtral.cpp:3446-3554 | the overlapped batch run yields the rows of the schedule, cut and positioned as the graph does; its clamp to the allocation never bites |
| `LegacyEncoder.LegacyStream.PushMel` | src/voxtral.cpp:4628-4683 | during a feed the stream holds a prefix of chunk 0 or exactly the complete chunks, and nothing due is left: fewer than 3000 frames of the current chunk, and a first prefix grown by less than max(256, half) |
| `LegacyEncoder.LegacyStream.Finish` | src/voxtral.cpp:4958-4964 | for every push partition of a Mel total that is a multiple of 8, the replay emits the batch schedule, row by row |
| `PcmInput.PcmQueue.PushSome` | server/bounded-queue.h:28-55 | exactly the samples that fit are queued, in order, behind the old chunks, in worker chunks of 1280 samples and a rest |
| `PcmInput.PcmQueue.Pop` | server/bounded-queue.h:57-72 | exactly the oldest chunk; Finish only when the queue is empty |
| `PcmInput.RealtimeInput.HandleBinary` | server/realtime-session.cpp:277-306 | an even frame of at most 65536 bytes is accepted whole, decoded little-endian and moved on as far as the queue has room; any other ends the session |
| `PcmInput.RealtimeInput.PumpPendingAudio` | server/realtime-session.cpp:308-325 | audio stays pending only on a full queue; otherwise the socket listens again |
| `PcmInput.RealtimeInput.RunPostedPump` | server/realtime-session.cpp:327-334 | no reachable state has pending audio with neither a full queue nor a pump due |
| `PcmInput.RealtimeInput.WorkerPop` | server/realtime-session.cpp:369-391 | the worker sees Finish only after every received sample has been delivered |
| `PcmInput.RealtimeInput.DeliveredInOrder` | server/realtime-session.cpp:277-334 | what the worker has taken is the beginning of what was received, each sample once |
| `Outbound.EditPartial` | server/realtime-session.cpp:745-777 | replacing or erasing a PARTIAL changes the byte count by exactly its size and no other message |
| `Outbound.OutboundQueue.CoalescePartial` | server/realtime-session.cpp:745-767 | exactly the newest PARTIAL is replaced, in place; it is not when there is none or the bytes would exceed 4 MiB |
| `Outbound.OutboundQueue.RemoveOptionalPartial` | server/realtime-session.cpp:768-777 | exactly the newest PARTIAL is removed, and one whenever there is one |
| `Outbound.OutboundQueue.TryEnqueueFromWorker` | server/realtime-session.cpp:674-707 | refused exactly when closed, cancelled or above 4 MiB; accepted behind everything or in the place of the newest PARTIAL; the worker waits only for a message that can fit later |
| `Outbound.OutboundQueue.EnqueueFromIo` | server/realtime-session.cpp:709-736 | accepted in the place of the newest PARTIAL or behind what is left after evicting PARTIALs newest first, no more than needed; refused only when closed or, with every PARTIAL gone, still without room |
| `Outbound.OutboundQueue.MaybeWrite` | server/realtime-session.cpp:779-802 | TOKEN and mandatory payloads are written in acceptance order |
| `Outbound.OutboundQueue.OnWrite` | server/realtime-session.cpp:804-826 | the byte count is again that of the queue, without underflow |
| `Outbound.OutboundQueue.FinishSession` | server/realtime-session.cpp:871-896 | closing releases exactly the queued bytes; a payload in flight keeps its own |
| `Gguf.ReadTensorInfo` | tools/convert_voxtral_to_gguf.py:917-1002 | reading what the writer serialised returns exactly the directory, for any key/value list of scalars, strings and arrays |
| `Gguf.HeaderBytes` | tools/convert_voxtral_to_gguf.py:838-843 | the file starts with the letters GGUF, version 3, the number of tensors and the number of pairs |
| `Gguf.PairBytes` | tools/convert_voxtral_to_gguf.py:845-853 | a pair is its length-prefixed key, its type tag and its value, an array with element type and length in front |
| `Gguf.TensorBytes` | tools/convert_voxtral_to_gguf.py:855-862 | a directory entry holds name, dimensions, type and offset at their places |
| `Gguf.DirectoryFinds` | tools/convert_voxtral_to_gguf.py:994-1002 | a name leads to the last tensor that carries it, with its own type and dims, and nothing else is found; with distinct names that is every tensor |
| `Gguf.Serialize` | tools/convert_voxtral_to_gguf.py:838-866 | the appended pieces are the container layout |
| `Gguf.PlanOffsets` | tools/convert_voxtral_to_gguf.py:875-880 | offsets are aligned, in order, without overlap, with less than one alignment of gap |
| `Gguf.WriteStreamed` | tools/convert_voxtral_to_gguf.py:869-914 | when every source has its planned size the writer never fails; each tensor lies at exactly its directory offset behind the next multiple of 32, with zero bytes between and nothing behind the last |
| `Bytes.LeRoundTrip` | tools/convert_voxtral_to_gguf.py:921-931 | little-endian integers of any width read back |
| `Bytes.LeDigit` | tools/convert_voxtral_to_gguf.py:840-842 | byte i is the i-th digit to base 256 |
| `Sha256.Sha256.Update` | src/voxtral-stream-diagnostics.h:74-84 | the running state is a function of the concatenated data, however it was split |
| `Sha256.Sha256.HexDigest` | src/voxtral-stream-diagnostics.h:86-108 | the digest is that of the data padded as in section 5.1.1 of FIPS 180-4; the running state is unchanged |
| `Sha256.PaddedShape` | src/voxtral-stream-diagnostics.h:87-96 | the padding is a byte 0x80, as few zeros as complete the block, and the bit length in eight bytes, most significant first |
| `Sha256.InitialWords` | src/voxtral-stream-diagnostics.h:30-37 | the initial words are the first 32 fractional bits of the square roots of the first eight primes |
| `Sha256.HexAt` | src/voxtral-stream-diagnostics.h:97-106 | word i of the state is digits 8i .. 8i+7 of the text |
| `Sha256.HexWordBytes` | src/voxtral-stream-diagnostics.h:100-104 | two digits a byte, the most significant byte first |
| `Sha256.BitLength` | src/voxtral-stream-diagnostics.h:89-95 | the wrapping 64-bit byte counter gives the bit length modulo 2^64 |
| `Wav.Walk` | server/wav-reader.cpp:85-124 | success names the unique chunk list with its first fmt and data chunks; failure refutes every acceptable chunk list |
| `Wav.ParsePcm16Wav` | server/wav-reader.cpp:54-143 | accepted if and only if the body is a RIFF file of chunks with a supported first fmt and a non-empty even first data chunk; the samples are that chunk's |
| `Wav.SupportedBytes` | server/wav-reader.cpp:99-141 | a format is supported if and only if its first 16 bytes are those of mono 16-bit PCM at 16 kHz |
| `Wav.FirstIs` | server/wav-reader.cpp:99-116 | of several chunks with one id the first counts |

## Left out

- ggml graphs, backends, model loading, quantization and all floating-point arithmetic: kernels are parameters, and only the
  index plans the graphs consume are modelled. The float ceiling of the convolution dimensions is read as an exact ceiling.
- `Reference.DecodeRealtime`: the decoder is a function of its whole input history; that the K/V ring drops entries older
  than its capacity is stated separately in `DecoderRing` and not composed with the decode theorems.
- `Stream.Stream.CompletedRun`: claims nothing about tokens after a feed in which some slice followed a backpressured slice
  (`overrun`): the encoder ring may then have been lapped. Event order and bookkeeping are still proved for such runs.
- `Stream.Stream.Finish`: for an overrun stream, or a logical batch above 32 frames, terminal events may be refused
  (`dropped`); the trace then ends in a shorter terminal suffix.
- `Stream.Stream.FeedCommon`: leaves out the admission limit `max_total_samples` (unlimited for public streams) and the
  refusals of null and non-finite samples.
- `Stream.Stream.Feed`: requires the padded sample count to stay addressable by the frontend's 32-bit indices (below
  2^31 - 400); the admission limit `max_total_samples`, null and non-finite sample checks and PCM16 scaling are not modelled.
- `MelFrontend.ReflectIndex`: does not model undefined behaviour on signed overflow; the arithmetic wraps around and the
  overflow is recorded. An index of -2^31, which no window reads, is excluded.
- `EncoderKv.EncoderKv.PushMelFinal`: in ring mode requires the 256 Mel frames of the startup block, which the padding of
  every stream provides.
- `LegacyEncoder.LegacyStream.Finish`: requires a Mel total that is a multiple of 8, which the padding provides; other totals
  would re-run the first chunk with a different left truncation than its progressive runs.
- `Sha256.Sha256.Update`: the compression of one block is a parameter.
- `Gguf.ReadTensorInfo`: scalars are bit patterns and names are byte strings; UTF-8 decoding of names is not modelled. Of
  bytes that no writer produced only a missing header, magic or version is stated to be refused.
- `Outbound.OutboundQueue.TryEnqueueFromWorker`: one pass of the waiting loop; that a waiting worker is eventually woken is
  not stated.
- The stages of a stream are created with it, not lazily; allocation failure and exception paths are not modelled.
- Reentrancy (`busy`), the finish hook, warmup, lifecycle-only streams without a context, the finish-only reference decoder
  mode and the offline (non-realtime) model family.
- Telemetry, profiling, latency markers, logging, output hashing hooks, HTTP routing, JSON, timers, the GPU lease and the
  realtime session's lag policy.
- The realtime session's feed and resume loops: the same as the batch client's.
