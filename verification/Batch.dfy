/** The uninterrupted pipeline over a whole recording, and the server's batch client, which drives the streaming
    session instead and must come to the same transcript. */
module Batch {
  import opened Kernels
  import opened RingMath
  import opened MelSpec
  import opened EncoderSpec
  import opened EncoderPlan
  import opened EncoderKv
  import opened Reference
  import opened Events
  import opened SchedulerSpec
  import opened Scheduler
  import opened StreamPlan
  import opened Stream
  import F = MelFrontend

  /** Batch spectrogram with an even number of frames. */
  method ComputeMelEven(k: Kernels, audio: array<real>) returns (mel: seq<MelFrame>, ghost overflow: bool)
    requires F.Fits(audio.Length)
    ensures mel == EvenTrim(Spectrogram(k, audio[..]))
    ensures mel == if audio.Length / 160 % 2 == 0 then Spectrogram(k, audio[..]) else Spectrogram(k, audio[..])[1..]
    ensures overflow <==> audio.Length >= 0x4000_0000
  {
    mel, overflow := F.ComputeBatch(k, audio);
    if |mel| % 2 != 0 {
      mel := mel[1..];
    }
  }

  lemma GroupRows(k: Kernels, mel: seq<MelFrame>, rows: seq<Hidden>, g: nat)
    requires 4 * g + 4 <= |rows| && rows == Outputs(k, mel, 0, |rows|)
    ensures k.adapter(rows[4 * g], rows[4 * g + 1], rows[4 * g + 2], rows[4 * g + 3]) == Emb(k, mel, g)
  {
  }

  lemma EmbsStep(k: Kernels, mel: seq<MelFrame>, g: nat)
    ensures Embs(k, mel, 0, g + 1) == Embs(k, mel, 0, g) + [Emb(k, mel, g)]
  {
  }

  lemma GroupsRead(k: Kernels, mel: seq<MelFrame>, rows: seq<Hidden>, groups: nat)
    requires rows == Outputs(k, mel, 0, 4 * groups)
    ensures forall g :: 0 <= g < groups ==>
      Embs(k, mel, 0, groups)[g] == k.adapter(rows[4 * g], rows[4 * g + 1], rows[4 * g + 2], rows[4 * g + 3])
  {
    hide Outputs;
    forall g | 0 <= g < groups
      ensures Embs(k, mel, 0, groups)[g] == k.adapter(rows[4 * g], rows[4 * g + 1], rows[4 * g + 2], rows[4 * g + 3])
    {
      GroupRows(k, mel, rows, g);
      assert Embs(k, mel, 0, groups)[g] == Emb(k, mel, g);
    }
  }

  /** The adapter over whole groups of encoder rows. */
  method RunAdapter(k: Kernels, mel: seq<MelFrame>, rows: seq<Hidden>, groups: nat) returns (embs: seq<AudioEmb>)
    requires rows == Outputs(k, mel, 0, 4 * groups)
    ensures embs == Embs(k, mel, 0, groups)
    ensures forall g :: 0 <= g < groups ==>
      embs[g] == k.adapter(rows[4 * g], rows[4 * g + 1], rows[4 * g + 2], rows[4 * g + 3])
  {
    hide Outputs;
    embs := [];
    assert Embs(k, mel, 0, 0) == [];
    for g := 0 to groups
      invariant embs == Embs(k, mel, 0, g)
    {
      hide Embs, Outputs;
      var e := 4 * g;
      GroupRows(k, mel, rows, g);
      EmbsStep(k, mel, g);
      embs := embs + [k.adapter(rows[e], rows[e + 1], rows[e + 2], rows[e + 3])];
    }
    GroupsRead(k, mel, rows, groups);
  }

  /** Left pad, samples, right pad. */
  method PadAudio(pcm: seq<real>) returns (padded: array<real>)
    ensures fresh(padded) && padded[..] == Padded(pcm) && padded.Length == PaddedSamples(|pcm|)
  {
    var alignPad := (SAMPLES_PER_TOKEN - |pcm| % SAMPLES_PER_TOKEN) % SAMPLES_PER_TOKEN;
    var total := STREAM_LEFT_PAD + |pcm| + alignPad + RIGHT_PAD_TOKENS * SAMPLES_PER_TOKEN;
    padded := new real[total](i => if STREAM_LEFT_PAD <= i < STREAM_LEFT_PAD + |pcm| then pcm[i - STREAM_LEFT_PAD] else 0.0);
    assert padded[..] == Padded(pcm);
  }

  /** The padded spectrogram is even and a whole number of groups. */
  lemma WholeGroups(k: Kernels, pcm: seq<real>, mel: seq<MelFrame>)
    requires mel == EvenTrim(Spectrogram(k, Padded(pcm)))
    ensures mel == Spectrogram(k, Padded(pcm)) && |mel| == 8 * TotalGroups(|pcm|)
  {
    hide Spectrogram, Padded, TotalGroups;
    PaddedLength(|pcm|);
    PaddedCount(pcm);
  }

  lemma PaddedCount(pcm: seq<real>)
    ensures |Padded(pcm)| == PaddedSamples(|pcm|)
  {
  }

  /** Pad, spectrogram, encoder, adapter, decode: the reference transcript of a recording. */
  method TranscribeAudio(k: Kernels, schedule: Schedule, pcm: seq<real>, maxTokens: int)
    returns (ok: bool, tokens: seq<int>, text: seq<bv8>, ghost overflow: bool)
    requires Normal(schedule) && F.Fits(PaddedSamples(|pcm|))
    ensures ok <==> pcm != []
    ensures ok ==> (overflow <==> PaddedSamples(|pcm|) >= 0x4000_0000)
    ensures ok ==> tokens == ExpectedTokens(k, pcm, maxTokens) && text == Text(k, tokens)
  {
    hide Spectrogram, Padded, TotalGroups, Outputs, Embs, Decoded, Text, PaddedSamples;
    if |pcm| == 0 {
      return false, [], [], false;
    }
    PaddedLength(|pcm|);
    var padded := PadAudio(pcm);
    var mel;
    mel, overflow := ComputeMelEven(k, padded);
    WholeGroups(k, pcm, mel);
    var out := EncodeWhole(k, schedule, mel);
    var embs := RunAdapter(k, mel, out.value, TotalGroups(|pcm|));
    ok, tokens, text := DecodeRealtime(k, embs, maxTokens);
  }

  // ---- the server's batch client -------------------------------------------------------------------------

  const BATCH_CHUNK_SAMPLES := 16000

  datatype Progress = Proceed | Stop

  /** Outputs of the decoder not yet delivered: complete groups of the encoder minus committed outputs. */
  ghost function Backlog(s: Stream): int
    reads s.enc`emitted, s.sched`d, s.sched`outs
  {
    s.enc.emitted / DOWNSAMPLE - |Committed(s.sched.d, s.sched.outs)|
  }

  lemma BacklogBound(s: Stream)
    requires s.Valid()
    ensures Backlog(s) >= 0
  {
    hide RingState, Resident, Outputs, Tiles, Shows, Faithful, Only;
  }

  ghost function TokensIn(trace: seq<Event>): nat {
    |Tokens(trace)|
  }

  lemma CountOne(polled: seq<Event>, e: seq<Event>)
    requires |e| == 1
    ensures TokensIn(polled + e) == TokensIn(polled) + if e[0].Token? then 1 else 0
  {
    OnlyConcat(TokenClass, polled, e);
    assert e == [e[0]];
    OnlyOne(TokenClass, e[0]);
  }

  class BatchClient {
    const stream: Stream
    var tokenCount: nat
    var cancelled: bool
    var ok: bool
    var text: seq<bv8>

    constructor (stream: Stream)
      ensures this.stream == stream && tokenCount == 0 && !cancelled && !ok
    {
      this.stream, tokenCount, cancelled, ok, text := stream, 0, false, false, [];
    }

    /** Poll until the queue is empty, an ERROR arrives or the caller cancels; every TOKEN is counted. */
    method DrainEvents() returns (go: Progress)
      requires stream.Valid() && tokenCount == TokensIn(stream.eq.polled)
      modifies this`tokenCount, this`cancelled, stream`pollSequence, stream`state, stream`terminal, stream`dropped
      modifies stream.eq`queue, stream.eq`polled, stream.eq`overflowed, stream.eq`finalizingFlush
      ensures stream.Valid() && tokenCount == TokensIn(stream.eq.polled)
      ensures go.Proceed? ==> stream.eq.queue == [] && stream.state == old(stream.state) && cancelled == old(cancelled)
      ensures go.Stop? ==> cancelled || old(stream.state) == Failed
    {
      hide *;
      while true
        invariant stream.Valid() && tokenCount == TokensIn(stream.eq.polled) && stream.state == old(stream.state)
        invariant cancelled == old(cancelled)
        decreases |stream.eq.queue|
      {
        var requested: bool := *;
        if requested {
          var _ := stream.Cancel();
          cancelled := true;
          return Stop;
        }
        ghost var polled := stream.eq.polled;
        var e, _ := stream.Poll();
        if |e| == 0 {
          assert polled + e == polled;
          return Proceed;
        }
        CountOne(polled, e);
        if e[0].Token? {
          tokenCount := tokenCount + 1;
        } else if e[0].Error? {
          ErrorMeansFailed(polled, e[0]);
          return Stop;
        }
      }
    }

    /** An ERROR event has been shown only by a failed stream. */
    lemma ErrorMeansFailed(before: seq<Event>, e: Event)
      requires stream.Valid() && stream.eq.polled == before + [e] && e.Error?
      ensures stream.state == Failed
    {
      hide Stream.Live, Scheduler.Sound, Only;
      var shown, rest := stream.eq.polled + stream.eq.queue, stream.eq.queue;
      OnlyConcat(TerminalClass, before + [e], rest);
      OnlyConcat(TerminalClass, before, [e]);
      OnlyOne(TerminalClass, e);
      assert Terminals(shown) == Terminals(before) + [e] + Terminals(rest);
      assert e in stream.terminal;
      if stream.state != Failed {
        NoError();
        assert false;
      }
    }

    lemma NoError()
      requires stream.Valid() && stream.state != Failed
      ensures forall t :: t in stream.terminal ==> !t.Error?
    {
      hide Stream.Live, Scheduler.Sound, Stream.Closed;
      if stream.Accepting() {
        stream.AcceptingIsLive();
        stream.LiveParts();
      } else if stream.state == Done {
        assert forall t :: t in stream.terminal ==> t in [FinalText(stream.transcript), Completed];
      }
    }

    lemma QueueHasRoom()
      requires stream.Valid() && stream.eq.queue == []
      ensures |stream.eq.queue| < stream.eq.Bound()
    {
      hide RingState, Resident, Outputs, Tiles, Books, Shows, Faithful, Only;
    }

    /** Drain and resume with empty feeds until the decoder has caught up: each round delivers at least the stashed
        token, so the backlog strictly falls whatever the queue capacity. */
    method ResumeAfterBackpressure() returns (go: Progress)
      requires stream.Valid() && tokenCount == TokensIn(stream.eq.polled)
      requires stream.Accepting() && Addressable(|stream.pcm|)
      modifies this`tokenCount, this`cancelled, stream, stream.fe, stream.enc, stream.enc.ring, stream.enc.outRing
      modifies stream.sched`d, stream.sched`intact, stream.sched`faulted, stream.sched`outs, stream.sched.aemb
      modifies stream.eq`queue, stream.eq`polled, stream.eq`overflowed, stream.eq`backpressured, stream.eq`aggressive, stream.eq`finalizingFlush
      ensures stream.Valid() && tokenCount == TokensIn(stream.eq.polled)
      ensures go.Proceed? ==> stream.Accepting() && !stream.eq.backpressured
      ensures go.Proceed? ==> stream.pcm == old(stream.pcm) && stream.overrun == old(stream.overrun)
      ensures go.Proceed? ==> cancelled == old(cancelled)
      ensures go.Stop? ==> cancelled || stream.Faulted()
    {
      hide Stream.Valid, TokensIn, Committed, Growth, Grows, Stream.TailFits, Stream.AggressiveFor, Stream.EstimateFits, Stream.Faulted;
      while true
        invariant stream.Valid() && tokenCount == TokensIn(stream.eq.polled) && stream.Accepting()
        invariant stream.pcm == old(stream.pcm) && stream.overrun == old(stream.overrun) && cancelled == old(cancelled)
        decreases Backlog(stream)
      {
        BacklogBound(stream);
        go := DrainEvents();
        if go == Stop {
          return;
        }
        QueueHasRoom();
        var status, consumed := stream.Feed([]);
        if consumed != 0 {
          return Stop;
        }
        if status == LimitExceeded {
          continue;
        }
        if status != Ok {
          return Stop;
        }
        go := DrainEvents();
        return;
      }
    }

    lemma TranscriptReady()
      requires stream.Valid() && stream.state == Done && !stream.overrun
      ensures stream.transcript == Text(stream.k, ExpectedTokens(stream.k, stream.pcm, stream.maxTokens))
      ensures stream.eq.queue == [] ==> TokensIn(stream.eq.polled) == |Committed(stream.sched.d, stream.sched.outs)|
    {
      hide RingState, Resident, Outputs, Tiles, Books, Faithful, Only, Decoded, Text;
      assert stream.eq.queue == [] ==> stream.eq.polled + stream.eq.queue == stream.eq.polled;
    }

    /** Feed one chunk to the end, resuming whenever the event queue fills. */
    method FeedChunk(chunk: seq<real>) returns (go: Progress)
      requires stream.Valid() && tokenCount == TokensIn(stream.eq.polled)
      requires stream.Accepting() && Addressable(|stream.pcm| + |chunk|) && |chunk| <= BATCH_CHUNK_SAMPLES
      modifies this`tokenCount, this`cancelled, stream, stream.fe, stream.enc, stream.enc.ring, stream.enc.outRing
      modifies stream.sched`d, stream.sched`intact, stream.sched`faulted, stream.sched`outs, stream.sched.aemb
      modifies stream.eq`queue, stream.eq`polled, stream.eq`overflowed, stream.eq`backpressured, stream.eq`aggressive, stream.eq`finalizingFlush
      ensures stream.Valid() && tokenCount == TokensIn(stream.eq.polled)
      ensures go.Proceed? ==> stream.Accepting() && stream.pcm == old(stream.pcm) + chunk && stream.overrun == old(stream.overrun)
      ensures go.Proceed? ==> cancelled == old(cancelled)
      ensures go.Stop? ==> cancelled || stream.Faulted()
    {
      hide Stream.Valid, TokensIn, Committed, Growth, Grows, Stream.TailFits, Stream.AggressiveFor, Stream.EstimateFits, Stream.Faulted;
      var chunkOffset := 0;
      assert stream.pcm == old(stream.pcm) + chunk[..0];
      while chunkOffset < |chunk|
        invariant chunkOffset <= |chunk| && stream.Valid() && tokenCount == TokensIn(stream.eq.polled)
        invariant stream.Accepting() && stream.pcm == old(stream.pcm) + chunk[..chunkOffset]
        invariant stream.overrun == old(stream.overrun) && cancelled == old(cancelled)
        decreases |chunk| - chunkOffset, stream.eq.backpressured
      {
        var rest := chunk[chunkOffset..];
        assert chunk[..chunkOffset] + rest == chunk;
        assert old(stream.pcm) + chunk[..chunkOffset] + rest == old(stream.pcm) + (chunk[..chunkOffset] + rest);
        var status, consumed := stream.Feed(rest);
        chunkOffset := chunkOffset + consumed;
        go := DrainEvents();
        if go == Stop {
          return;
        }
        if status == LimitExceeded {
          go := ResumeAfterBackpressure();
          if go == Stop {
            return;
          }
        } else if status != Ok || (consumed == 0 && chunkOffset < |chunk|) {
          return Stop;
        }
      }
      assert chunk[..chunkOffset] == chunk;
      go := Proceed;
    }

    method FinishStream() returns (go: Progress)
      requires stream.Valid() && tokenCount == TokensIn(stream.eq.polled) && stream.Accepting()
      requires F.Fits(PaddedSamples(|stream.pcm|)) && Addressable(|stream.pcm|) && !stream.overrun
      modifies this`tokenCount, this`cancelled, stream, stream.fe, stream.enc, stream.enc.ring, stream.enc.outRing
      modifies stream.sched`d, stream.sched`intact, stream.sched`faulted, stream.sched`outs, stream.sched.aemb
      modifies stream.eq`queue, stream.eq`polled, stream.eq`overflowed, stream.eq`backpressured, stream.eq`aggressive, stream.eq`finalizingFlush
      ensures stream.Valid() && tokenCount == TokensIn(stream.eq.polled)
      ensures go.Proceed? ==> stream.state == Done && stream.pcm == old(stream.pcm) && !stream.overrun && cancelled == old(cancelled)
      ensures go.Stop? ==> cancelled || stream.Faulted() || stream.schedule.logical > 32
    {
      hide Stream.Valid, TokensIn, Committed, Growth, Grows, Stream.TailFits, Stream.AggressiveFor, Stream.EstimateFits, Stream.Faulted;
      while true
        invariant stream.Valid() && tokenCount == TokensIn(stream.eq.polled) && stream.Accepting()
        invariant stream.pcm == old(stream.pcm) && !stream.overrun && cancelled == old(cancelled)
        decreases stream.eq.backpressured
      {
        var requested: bool := *;
        if requested {
          var _ := stream.Cancel();
          cancelled := true;
          return Stop;
        }
        var status := stream.Finish();
        if status == LimitExceeded {
          go := ResumeAfterBackpressure();
          if go == Stop {
            return;
          }
          continue;
        }
        return if status == Ok then Proceed else Stop;
      }
    }

    /** Transcribe a whole recording through the streaming session: whatever the queue capacity, it succeeds unless it is
        cancelled or a device call fails, for every logical batch the terminal reserve covers; then the text is the reference
        transcript and every decoder output has been delivered exactly once. */
    method Transcribe(samples: seq<real>)
      requires stream.Valid() && stream.state == Created && stream.pcm == [] && !stream.overrun && stream.eq.polled == [] && tokenCount == 0
      requires F.Fits(PaddedSamples(|samples|))
      modifies this, stream, stream.fe, stream.enc, stream.enc.ring, stream.enc.outRing
      modifies stream.sched`d, stream.sched`intact, stream.sched`faulted, stream.sched`outs, stream.sched.aemb
      modifies stream.eq`queue, stream.eq`polled, stream.eq`overflowed, stream.eq`backpressured, stream.eq`aggressive, stream.eq`finalizingFlush
      ensures ok ==> text == Text(stream.k, ExpectedTokens(stream.k, samples, stream.maxTokens))
      ensures ok ==> tokenCount == |Committed(stream.sched.d, stream.sched.outs)|
      ensures !stream.Faulted() && !cancelled && stream.schedule.logical <= 32 ==> ok
    {
      hide Stream.Valid, TokensIn, Committed, ExpectedTokens, Stream.Faulted;
      ok := false;
      assert TokensIn([]) == 0 by { NothingPolled(); }
      var offset := 0;
      while offset < |samples|
        invariant offset <= |samples| && stream.Valid() && tokenCount == TokensIn(stream.eq.polled) && !ok
        invariant stream.Accepting() && stream.pcm == samples[..offset] && !stream.overrun
      {
        var requested: bool := *;
        if requested {
          var _ := stream.Cancel();
          cancelled := true;
          return;
        }
        var count := Min(BATCH_CHUNK_SAMPLES, |samples| - offset);
        var go := FeedChunk(samples[offset..offset + count]);
        if go == Stop {
          return;
        }
        assert samples[..offset] + samples[offset..offset + count] == samples[..offset + count];
        offset := offset + count;
      }
      assert samples[..offset] == samples;
      var go := FinishStream();
      if go == Stop {
        return;
      }
      go := DrainEvents();
      if go == Stop || stream.state != Done {
        return;
      }
      TranscriptReady();
      text := stream.transcript;
      ok := true;
    }
  }

  lemma NothingPolled()
    ensures TokensIn([]) == 0
  {
  }
}
