/** Runs that finish cannot complete: with logical batches of more than 32 frames the last pass can owe more events than a
    small queue and its terminal reserve take. */
module FinishLimit {
  import opened Kernels
  import opened RingMath
  import opened MelSpec
  import opened EncoderSpec
  import opened EncoderPlan
  import opened EncoderKv
  import opened Reference
  import opened Events
  import opened SchedulerSpec
  import opened Scheduler
  import opened StreamPlan
  import opened Stream
  import F = MelFrontend

  const SAMPLES := 40961
  const CAPACITY := 20

  /** Logical batches the reserve does not cover. */
  predicate Coarse(s: Schedule) {
    Normal(s) && s.logical > 32
  }

  /** Outputs delivered before finish. */
  function Early(s: Schedule): nat {
    if s.logical == 64 then 10 else 0
  }

  /** n samples fed, nothing polled: every output has left a TOKEN and a snapshot in the queue. */
  ghost predicate Filling(s: Stream, n: nat)
    reads s, s.fe, s.enc, s.enc.ring, s.enc.outRing, s.eq, s.sched, s.sched.aemb
  {
    && s.Valid() && s.Accepting() && !s.overrun && !s.eq.backpressured && |s.pcm| == n
    && s.maxTokens == 0 && Coarse(s.schedule) && s.eq.maxEvents == CAPACITY && NeverEos(s.k)
    && Growth(Mark([], false, 0, false), s.sched.Standing(), CAPACITY, false)
  }

  /** The encoder has emitted the frames of at most ten groups behind the prompt. */
  lemma EmittedSoFar(s: Stream)
    requires s.Valid() && s.Live() && s.pcm != [] && |s.pcm| <= SAMPLES && Coarse(s.schedule)
    ensures s.enc.emitted <= 192
    ensures |s.pcm| == SAMPLES ==> Max(0, s.enc.emitted / DOWNSAMPLE - PREFILL_LEN) == Early(s.schedule)
  {
    hide Stream.Valid, Stream.Live, Stream.Hearing, Stream.Encoding, Stream.Keeping, Stream.Closed, Scheduler.Sound;
    s.LiveParts();
    s.StableSoFar();
    Emitted(s.schedule, |s.pcm|);
  }

  lemma Emitted(s: Schedule, n: nat)
    requires Coarse(s) && n <= SAMPLES
    ensures FeedEmitted(s, StableFrames(n)) <= 192
    ensures n == SAMPLES ==> FeedEmitted(s, StableFrames(n)) == if s.logical == 64 then 192 else 128
  {
    LogicalIsPower(s);
    assert StableFrames(n) <= 511;
    assert n == SAMPLES ==> StableFrames(n) == 511;
  }

  lemma Running(s: Stream)
    requires s.Valid() && s.Live() && !s.overrun && NeverEos(s.k) && s.maxTokens == 0
    ensures !s.sched.d.eos && !Halted(s.sched.d, 0)
    ensures Books(s.k, 0, s.sched.d, s.sched.outs) && Throttled(s.sched.d, s.enc.emitted) && Current(s.sched.d, 0, s.enc.emitted)
    ensures if s.eq.backpressured then s.sched.d.pending.Stashed? else Settled(s.sched.d, 0)
  {
    hide Stream.Hearing, Stream.Encoding, Stream.Closed, Stream.Outcome, Books, Throttled, Settled, Current, Faithful, Shows;
    NeverEnds(s.k, 0, s.enc.mel, s.sched.d, s.sched.aemb[..], s.sched.outs);
  }

  /** With room for ten outputs, the ten that a feed can produce never stall. */
  lemma NeverStalled(s: Stream)
    requires s.Valid() && s.Live() && !s.overrun && NeverEos(s.k) && s.maxTokens == 0
    requires s.pcm != [] && |s.pcm| <= SAMPLES && Coarse(s.schedule)
    requires Growth(Mark([], false, 0, false), s.sched.Standing(), CAPACITY, false)
    ensures s.eq.backpressured ==> s.sched.Standing().queued < CAPACITY
    ensures !s.eq.backpressured && |s.pcm| == SAMPLES ==>
      |s.sched.Standing().committed| == Early(s.schedule) && s.sched.Standing().queued >= 2 * Early(s.schedule)
  {
    hide Stream.Valid, Stream.Live, Books, Throttled, Settled, Current, Committed;
    Running(s);
    EmittedSoFar(s);
    OutputsSoFar(s.k, 0, s.sched.d, s.sched.outs, s.enc.emitted);
  }

  /** So small a queue never switches to single snapshots. */
  lemma TooSmall(s: Stream, n: nat)
    requires s.eq.maxEvents == CAPACITY && 0 < n
    ensures !s.AggressiveFor(n)
  {
  }

  method FeedMore(s: Stream, samples: seq<real>) returns (ok: bool)
    requires Filling(s, |s.pcm|) && 0 < |samples| <= DRAIN_SLICE && |s.pcm| + |samples| <= SAMPLES
    modifies s, s.fe, s.enc, s.enc.ring, s.enc.outRing, s.sched`d, s.sched`intact, s.sched`faulted, s.sched`outs, s.sched.aemb
    modifies s.eq`queue, s.eq`overflowed, s.eq`backpressured, s.eq`aggressive, s.eq`finalizingFlush
    ensures s.Valid() && (if ok then Filling(s, old(|s.pcm|) + |samples|) else s.Faulted() && !s.overrun)
  {
    hide Stream.Valid, Stream.Live, Growth, Scheduler.Standing, Stream.Faulted, Stream.AggressiveFor, Coarse, NeverEos;
    WiredQueue(s);
    ghost var mark := s.sched.Standing();
    TooSmall(s, |samples|);
    var r, _ := s.Feed(samples);
    if r == BackendError {
      return false;
    }
    s.AcceptingIsLive();
    s.LiveParts();
    GrowthOn(Mark([], false, 0, false), mark, s.sched.Standing(), CAPACITY, false);
    NeverStalled(s);
    WiredQueue(s);
    ok := true;
  }

  lemma WiredQueue(s: Stream)
    requires s.Valid()
    ensures s.sched.Standing().queued == |s.eq.queue|
  {
    hide Stream.Live, Stream.Closed, Stream.Outcome, Scheduler.Sound;
  }

  /** The outputs the decoder owes in all. */
  lemma Owed(s: Stream)
    requires |s.pcm| == SAMPLES && NeverEos(s.k) && s.maxTokens == 0
    ensures s.ExpectedOutputs() == 44
  {
    hide Steps, Spectrogram;
    StepsToEnd(s.k, Embs(s.k, Spectrogram(s.k, Padded(s.pcm)), 0, TotalGroups(SAMPLES)), 0);
  }

  /** Feed everything, slice by slice, polling nothing. */
  method FeedAll(s: Stream, samples: seq<real>) returns (ok: bool)
    requires Filling(s, 0) && |samples| == SAMPLES
    modifies s, s.fe, s.enc, s.enc.ring, s.enc.outRing, s.sched`d, s.sched`intact, s.sched`faulted, s.sched`outs, s.sched.aemb
    modifies s.eq`queue, s.eq`overflowed, s.eq`backpressured, s.eq`aggressive, s.eq`finalizingFlush
    ensures s.Valid() && (if ok then Filling(s, SAMPLES) else s.Faulted() && !s.overrun)
  {
    hide Stream.Valid, Growth, Stream.Faulted;
    ok := FeedMore(s, samples[..DRAIN_SLICE]);
    if ok {
      ok := FeedMore(s, samples[DRAIN_SLICE..2 * DRAIN_SLICE]);
    }
    if ok {
      ok := FeedMore(s, samples[2 * DRAIN_SLICE..]);
    }
  }

  /** What finishing still owes, two events an output, does not fit. */
  method FinishFull(s: Stream) returns (r: Status)
    requires Filling(s, SAMPLES)
    modifies s, s.fe, s.enc, s.enc.ring, s.enc.outRing, s.sched`d, s.sched`intact, s.sched`faulted, s.sched`outs, s.sched.aemb
    modifies s.eq`queue, s.eq`overflowed, s.eq`backpressured, s.eq`aggressive, s.eq`finalizingFlush
    ensures s.Valid() && !s.overrun && r == BackendError && s.state == Failed
  {
    hide Stream.Valid, Stream.Live, Growth, Stream.Faulted, Scheduler.Standing, Stream.ExpectedOutputs;
    s.AcceptingIsLive();
    NeverStalled(s);
    Owed(s);
    r := s.Finish();
  }

  /** Three slices, nothing polled: finish fails, whatever the audio, unless a device call fails first. */
  method FinishFails(k: Kernels, schedule: Schedule, samples: seq<real>) returns (s: Stream, r: Status)
    requires |samples| == SAMPLES && NeverEos(k) && Coarse(schedule)
    ensures s.Valid() && !s.overrun && s.schedule == schedule && s.eq.maxEvents == CAPACITY
    ensures s.Faulted() || (r == BackendError && s.state == Failed)
  {
    hide Stream.Valid, Filling, Stream.Faulted;
    s := CreateStream(k, 0, schedule, 8, false, false, CAPACITY, false);
    Fresh(s);
    var ok := FeedAll(s, samples);
    r := BackendError;
    if ok {
      r := FinishFull(s);
    }
  }

  lemma Fresh(s: Stream)
    requires s.Valid() && s.state == Created && s.pcm == [] && !s.overrun
    requires s.maxTokens == 0 && Coarse(s.schedule) && s.eq.maxEvents == CAPACITY && NeverEos(s.k)
    requires s.eq.queue == [] && !s.eq.backpressured && s.sched.d == START && s.sched.outs == []
    ensures Filling(s, 0)
  {
    hide Stream.Live, Stream.Closed, Stream.Outcome, Scheduler.Sound;
  }
}
