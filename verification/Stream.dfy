/** One streaming transcription session: the lifecycle, the feed orchestration over frontend, encoder and scheduler,
    and the terminal events. */
module Stream {
  import opened Kernels
  import opened RingMath
  import opened MelSpec
  import opened EncoderSpec
  import opened EncoderPlan
  import opened EncoderKv
  import opened Reference
  import opened Events
  import opened SchedulerSpec
  import opened Scheduler
  import opened StreamPlan
  import F = MelFrontend
  import Utf8

  datatype State = Created | Running | Finishing | Done | Aborted | Failed

  /** What the frontend has heard: nothing, or the left pad and the samples behind it. */
  function Heard(leftPad: bool, pcm: seq<real>): seq<real> {
    if leftPad then Zeros(STREAM_LEFT_PAD) + pcm else []
  }

  /** Every sample of a whole number of calls fits the frontend's 32-bit sample index. */
  predicate Addressable(n: nat) {
    F.Fits(STREAM_LEFT_PAD + n)
  }

  /** Decoder, outputs and queue of a stream that has heard n samples and kept up, when a feed whose estimate fits begins. */
  ghost predicate BeforeFeed(k: Kernels, maxTokens: int, schedule: Schedule, maxEvents: nat, d: Decoder, outs: seq<int>, n: nat,
                             mark: Mark, count: nat, aggressive: bool)
  {
    && Normal(schedule) && schedule.logical <= 64
    && var e := EmittedAfter(schedule, n);
       && Books(k, maxTokens, d, outs) && Settled(d, maxTokens) && Throttled(d, e) && Current(d, maxTokens, e)
       && mark.committed == Committed(d, outs) && mark.queued + Estimate(count) + 1 <= maxEvents
       && (aggressive <==> mark.queued + 2 * Estimate(count) > maxEvents)
  }

  class Stream {
    const k: Kernels
    const maxTokens: int
    const schedule: Schedule
    const fe: F.MelFrontend
    const enc: EncoderKv
    const eq: EventQueue
    const sched: Scheduler

    var state: State
    var received: nat             // samples accepted
    var leftPadInjected: bool
    var pushed: nat               // Mel frames handed to the encoder
    var transcript: seq<bv8>
    var pollSequence: nat         // events delivered through the public poll

    ghost var pcm: seq<real>      // every sample fed since creation or reset
    ghost var overrun: bool       // some slice followed a backpressured slice of the same feed
    ghost var terminal: seq<Event>  // terminal events enqueued
    ghost var dropped: bool       // a terminal event did not fit
    ghost var faulted: bool       // an encoder call has failed

    // ---- invariants ------------------------------------------------------------------------------------

    ghost predicate Wired() {
      && fe.k == enc.k == sched.k == k && sched.maxTokens == maxTokens
      && enc.schedule == schedule && Normal(schedule) && enc.toRing
      && sched.enc == enc && sched.eq == eq
    }

    ghost predicate Hearing()
      reads this`leftPadInjected, this`pcm, this`pushed, fe
    {
      && fe.Valid() && !fe.finalized && fe.audio == Heard(leftPadInjected, pcm) && (!leftPadInjected ==> pcm == [])
      && fe.melBaseFrame <= pushed <= |fe.emitted|
    }

    ghost predicate Encoding()
      reads this`pushed, fe`emitted, enc, enc.ring, enc.outRing
    {
      enc.Valid() && enc.Feeding() && pushed <= |fe.emitted| && enc.mel == fe.emitted[..pushed]
    }

    /** The scheduler has kept up with an encoder that had emitted e frames. */
    ghost predicate Keeping(e: nat)
      reads this`overrun, eq`backpressured, sched`d, sched`intact
    {
      && (sched.d.pending.Stashed? <==> eq.backpressured)
      && (!eq.backpressured ==> Settled(sched.d, maxTokens))
      && (sched.intact <==> !overrun)
      && Throttled(sched.d, e)
      && (!overrun ==> Current(sched.d, maxTokens, e))
    }

    predicate Accepting()
      reads this`state
    {
      state.Created? || state.Running?
    }

    /** A stream that still accepts audio. */
    ghost predicate Live()
      reads this, fe, enc, enc.ring, enc.outRing, eq, sched
    {
      && Hearing() && Encoding() && pushed == |fe.emitted| && Keeping(enc.emitted)
      && received == |pcm| && (leftPadInjected <==> pcm != []) && (state.Created? <==> pcm == [])
      && !eq.finalizingFlush && !eq.aggressive && terminal == [] && !dropped
    }

    /** The terminal events form the end of what has been shown, and nothing follows them. */
    ghost predicate Closed()
      reads this`terminal, this`pollSequence, eq`polled, eq`queue
    {
      var shown := eq.polled + eq.queue;
      && Terminals(shown) == terminal && |terminal| <= |shown| && shown[|shown| - |terminal|..] == terminal
      && pollSequence == |eq.polled|
    }

    /** Some device call has failed since creation or reset. */
    ghost predicate Faulted()
      reads this`faulted, sched`faulted
    {
      faulted || sched.faulted
    }

    ghost function Expected(): seq<int>
      reads this`pcm
    {
      ExpectedTokens(k, pcm, maxTokens)
    }

    /** What each state means for the terminal events and the transcript. */
    ghost predicate Outcome()
      reads this`state, this`transcript, this`pcm, this`overrun, this`terminal, this`dropped, this`faulted
      reads sched`d, sched`faulted
    {
      && (dropped ==> overrun || schedule.logical > 32) && (Faulted() ==> state.Failed?)
      && match state
         case Created => true
         case Running => true
         case Finishing => false
         case Done =>
           && terminal <= [FinalText(transcript), Completed] && (!dropped ==> |terminal| == 2)
           && transcript == Text(k, sched.d.tokens) && sched.d.pending.NoToken?
           && (!overrun ==> sched.d.tokens == Expected())
         case Aborted => terminal == [Cancelled]
         case Failed =>
           && (Faulted() || overrun || schedule.logical > 32)
           && |terminal| == (if dropped then 0 else 1) && (terminal != [] ==> terminal[0].Error?)
    }

    ghost predicate Valid()
      reads this, fe, enc, enc.ring, enc.outRing, eq, sched, sched.aemb
    {
      && Wired() && sched.Sound() && enc.Config() && Closed() && Outcome()
      && (state.Created? || state.Running? ==> Live())
    }

    /** What a live stream consists of. */
    lemma LiveParts()
      requires Valid() && Live()
      ensures Wired() && sched.Sound() && enc.Config() && Hearing() && Encoding() && Keeping(enc.emitted) && Closed()
      ensures pushed == |fe.emitted| && received == |pcm| && (leftPadInjected <==> pcm != []) && terminal == [] && !dropped
      ensures !eq.finalizingFlush && !eq.aggressive && !Faulted() && Accepting() && |eq.queue| <= eq.maxEvents
    {
      hide Scheduler.Sound, Hearing, Encoding, Keeping, Closed;
      sched.BooksOf();
    }

    lemma AcceptingIsLive()
      requires Valid() && Accepting()
      ensures Live()
    {
      hide Live, Scheduler.Sound, Closed, Outcome;
    }

    lemma ValidParts()
      requires Valid()
      ensures Wired() && sched.Sound() && enc.Config() && Closed() && Outcome()
    {
      hide Live, Scheduler.Sound, Closed, Outcome;
    }

    /** A session with nothing fed yet. */
    lemma Begun()
      requires fe.k == enc.k == sched.k == k && sched.maxTokens == maxTokens
      requires enc.schedule == schedule && Normal(schedule) && enc.toRing && sched.enc == enc && sched.eq == eq
      requires fe.Valid() && fe.audio == [] && fe.emitted == [] && !fe.finalized
      requires enc.Valid() && enc.Feeding() && enc.mel == []
      requires sched.Sound() && sched.d == START && sched.intact && !sched.faulted
      requires eq.queue == [] && eq.polled == [] && !eq.finalizingFlush && !eq.backpressured && !eq.aggressive
      requires state.Created? && received == pushed == pollSequence == 0 && !leftPadInjected
      requires pcm == [] && !overrun && terminal == [] && !dropped && !faulted
      ensures Valid()
    {
      hide RingState, Resident, Outputs, Tiles, Books, Shows, Faithful, AreBatchFrames;
      assert fe.emitted[..0] == [];
      assert enc.emitted == 0;
    }

    /** A session over freshly created stages. */
    constructor (k: Kernels, maxTokens: int, schedule: Schedule, fe: F.MelFrontend, enc: EncoderKv, eq: EventQueue, sched: Scheduler)
      requires fe.k == enc.k == sched.k == k && sched.maxTokens == maxTokens
      requires enc.schedule == schedule && Normal(schedule) && enc.toRing && sched.enc == enc && sched.eq == eq
      requires fe.Valid() && fe.audio == [] && fe.emitted == [] && !fe.finalized
      requires enc.Valid() && enc.Feeding() && enc.mel == []
      requires sched.Sound() && sched.d == START && sched.intact && !sched.faulted
      requires eq.queue == [] && eq.polled == [] && !eq.finalizingFlush && !eq.backpressured && !eq.aggressive
      ensures Valid() && state == Created && pcm == [] && !overrun
      ensures this.k == k && this.maxTokens == maxTokens && this.schedule == schedule
      ensures this.fe == fe && this.enc == enc && this.eq == eq && this.sched == sched
    {
      hide *;
      this.k, this.maxTokens, this.schedule := k, maxTokens, schedule;
      this.fe, this.enc, this.eq, this.sched := fe, enc, eq, sched;
      state, received, leftPadInjected, pushed, transcript, pollSequence := Created, 0, false, 0, [], 0;
      pcm, overrun, terminal, dropped, faulted := [], false, [], false, false;
      new;
      Begun();
    }

    // ---- encoder drain ---------------------------------------------------------------------------------

    /** Push one run of frames to the encoder, whose device may fail. */
    method PushFrames(base: nat, n: nat) returns (ok: bool)
      requires Wired() && fe.Valid() && Encoding() && sched.Sound()
      requires fe.melBaseFrame <= base == pushed && base + n <= |fe.emitted| && 0 < n
      modifies this`pushed, this`faulted, enc, enc.ring, enc.outRing
      ensures sched.Sound() && enc.Config() && (ok ==> Encoding() && pushed == base + n)
      ensures faulted == (old(faulted) || !ok)
      ensures old(enc.emitted) <= enc.emitted
    {
      hide F.MelFrontend.Valid, EncoderKv.Valid, EncoderKv.Feeding, Scheduler.Sound;
      enc.Facts();
      ok := *;
      if !ok {
        faulted := true;
        return;
      }
      var frames := fe.FrameData(base, n);
      ok := enc.PushMel(frames, base);
      sched.EncoderGrows(frames);
      pushed := base + n;
      assert fe.emitted[..base] + fe.emitted[base..base + n] == fe.emitted[..base + n];
    }

    /** Hand every new stable frame to the encoder, eight at a time. */
    method DrainMel() returns (ok: bool)
      requires Wired() && fe.Valid() && Encoding() && sched.Sound() && fe.melBaseFrame <= pushed
      modifies this`pushed, this`faulted, fe`melFrames, fe`melBaseFrame, enc, enc.ring, enc.outRing
      ensures fe.Valid() && sched.Sound() && enc.Config() && old(enc.emitted) <= enc.emitted
      ensures faulted == (old(faulted) || !ok)
      ensures ok ==> Encoding() && fe.melBaseFrame <= pushed == |fe.emitted|
    {
      hide F.MelFrontend.Valid, EncoderKv.Valid, EncoderKv.Feeding, Scheduler.Sound;
      fe.CountIs();
      enc.Facts();
      var total := fe.nextFrame;
      if total <= pushed {
        return true;
      }
      var base := pushed;
      while base < total
        invariant fe.Valid() && Encoding() && sched.Sound()
        invariant fe.melBaseFrame <= base == pushed <= total == |fe.emitted|
        invariant old(enc.emitted) <= enc.emitted && faulted == old(faulted)
      {
        hide Encoding;
        var n := Min(MEL_DRAIN_SLICE, total - base);
        ok := PushFrames(base, n);
        if !ok {
          return;
        }
        base := base + n;
        fe.DiscardBefore(base);
      }
      ok := true;
    }

    // ---- one slice -------------------------------------------------------------------------------------

    /** Frames pushed so far: all stable ones, or none before the first slice. */
    ghost predicate UpToDate()
      reads this`pushed, this`pcm, fe`emitted
    {
      pushed == |fe.emitted| || (pushed == 0 && pcm == [])
    }

    /** Samples into the frontend. */
    method Listen(slice: seq<real>) returns (ok: bool)
      requires Hearing() && Encoding() && leftPadInjected && Addressable(|pcm| + |slice|)
      modifies this`pcm, fe
      ensures ok && Hearing() && Encoding() && pcm == old(pcm) + slice
    {
      hide FeedBatches, FeedEmitted, StableCount, FrameHi, FrameLo, AreBatchFrames, RingState, Resident, Outputs, Tiles;
      ok := fe.Feed(slice);
      if ok {
        assert Zeros(STREAM_LEFT_PAD) + pcm + slice == Zeros(STREAM_LEFT_PAD) + (pcm + slice);
        pcm := pcm + slice;
        assert fe.emitted[..pushed] == old(fe.emitted)[..pushed];
      }
    }

    /** With n samples heard, the encoder has seen the stable frames of n samples. */
    lemma StableSoFar()
      requires Hearing() && Encoding() && leftPadInjected
      ensures |fe.emitted| == StableFrames(|pcm|) && enc.emitted == FeedEmitted(enc.schedule, |enc.mel|)
      ensures |enc.mel| == pushed
    {
    }

    /** Mel and encoder work of one slice: the encoder gets at most 200 frames ahead of where it stood. */
    method HearSlice(slice: seq<real>) returns (ok: bool)
      requires Wired() && Hearing() && Encoding() && sched.Sound() && UpToDate()
      requires leftPadInjected && 0 < |slice| <= DRAIN_SLICE && Addressable(|pcm| + |slice|)
      modifies this`pushed, this`pcm, this`faulted, fe, enc, enc.ring, enc.outRing
      ensures sched.Sound() && enc.Config() && faulted == (old(faulted) || !ok)
      ensures ok ==>
        && Hearing() && Encoding() && pushed == |fe.emitted| && pcm == old(pcm) + slice
        && old(enc.emitted) <= enc.emitted <= old(enc.emitted) + 200
    {
      hide F.MelFrontend.Valid, EncoderKv.Valid, EncoderKv.Feeding, Scheduler.Sound, Encoding, Heard, StableFrames, FeedEmitted;
      ghost var n, was := |pcm|, pushed;
      StableSoFar();
      SliceFrames(n, |slice|);
      ok := Listen(slice);
      if ok {
        ok := DrainMel();
      }
      if ok {
        StableSoFar();
        EmissionStep(schedule, was, pushed);
        FeedNeverAhead(schedule, pushed);
      }
    }

    /** One scheduler pass, from a state that had kept up with an encoder e frames in. */
    method Advance(ghost e: nat) returns (r: Status)
      requires Wired() && sched.Sound() && enc.OutputInv() && Keeping(e)
      requires e <= enc.emitted <= e + 200 && (eq.backpressured ==> enc.emitted == e)
      modifies sched`d, sched`intact, sched`faulted, sched`outs, sched.aemb, eq`queue, eq`overflowed, eq`backpressured
      ensures sched.Sound() && old(sched.d).groups <= sched.d.groups && (old(Closed() && terminal == []) ==> Closed())
      ensures Growth(old(sched.Standing()), sched.Standing(), eq.Bound(), eq.aggressive)
      ensures sched.faulted == (old(sched.faulted) || r == BackendError)
      ensures match r
        case Ok => Keeping(enc.emitted) && !eq.backpressured
        case LimitExceeded => Keeping(enc.emitted) && eq.backpressured && |eq.queue| >= eq.Bound()
        case BackendError => true
        case _ => false
      ensures r != BackendError && old(eq.backpressured && |eq.queue| < eq.Bound()) ==>
        |sched.Standing().committed| > |old(sched.Standing()).committed|
    {
      hide Scheduler.Sound, EncoderKv.OutputInv, Terminals, Growth, Books, Throttled, Current, Closed;
      ghost var d, outs := sched.d, sched.outs;
      sched.BooksOf();
      if !overrun {
        SliceIsSafe(d, maxTokens, e, enc.emitted);
      }
      r := sched.Pump();
      StillClosed();
      sched.BooksOf();
      GrowthOnly(MarkOf(Committed(d, outs), d.eos, old(eq.queue)), sched.Standing(), eq.Bound(), eq.aggressive);
      if r != BackendError && !overrun {
        PassIsCurrent(k, maxTokens, d, outs, sched.d, sched.outs, e, enc.emitted);
      }
    }

    /** Without terminal events, the trace stays open-ended as long as none is added. */
    twostate lemma StillClosed()
      requires eq.polled == old(eq.polled) && unchanged(`pollSequence) && unchanged(`terminal)
      requires Terminals(eq.polled + eq.queue) == old(Terminals(eq.polled + eq.queue))
      ensures old(Closed()) && terminal == [] ==> Closed()
    {
      hide Terminals;
    }

    // ---- feed ------------------------------------------------------------------------------------------

    /** The state between slices of one feed. */
    ghost predicate Slicing()
      reads this`leftPadInjected, this`pushed, this`pcm, this`overrun, this`terminal, this`dropped, this`pollSequence
      reads fe, enc, enc.ring, enc.outRing, sched`d, sched`outs, sched`intact, sched.aemb
      reads eq`queue, eq`polled, eq`maxEvents, eq`finalizingFlush, eq`backpressured
    {
      && Wired() && Hearing() && Encoding() && sched.Sound() && Keeping(enc.emitted) && leftPadInjected
      && Closed() && terminal == [] && !dropped && !eq.finalizingFlush
    }

    /** Work was abandoned half way: the trace is still in order, no terminal event has been sent. */
    ghost predicate Broken()
      reads this`terminal, this`dropped, this`pollSequence, enc`mel, enc`emitted
      reads sched`d, sched`outs, sched`intact, sched.aemb, sched.enc`mel, sched.enc`emitted
      reads eq`queue, eq`polled, eq`maxEvents, eq`finalizingFlush, sched.eq`queue, sched.eq`polled, sched.eq`maxEvents, sched.eq`finalizingFlush
    {
      && Wired() && sched.Sound() && enc.Config() && Closed()
      && terminal == [] && !dropped && !eq.finalizingFlush
    }

    lemma EncoderSound()
      requires Encoding()
      ensures enc.OutputInv() && enc.Config()
    {
      enc.Facts();
    }

    /** The encoder moves on without the decoder. */
    ghost method FallBehind(e: nat)
      requires Wired() && sched.Sound() && Keeping(e) && e <= enc.emitted && eq.backpressured
      modifies this`overrun, sched`intact
      ensures sched.Sound() && Keeping(enc.emitted) && overrun
    {
      hide Scheduler.Sound, Settled, Current;
      overrun := true;
      sched.GiveUp();
    }

    /** Hear one slice and decode what it made available, unless the decoder is already stalled. */
    method FeedSlice(slice: seq<real>, stalled: bool) returns (r: Status)
      requires Slicing() && UpToDate() && stalled == eq.backpressured
      requires 0 < |slice| <= DRAIN_SLICE && Addressable(|pcm| + |slice|)
      modifies this`pushed, this`pcm, this`overrun, this`faulted, fe, enc, enc.ring, enc.outRing
      modifies sched`d, sched`intact, sched`faulted, sched`outs, sched.aemb, eq`queue, eq`overflowed, eq`backpressured
      ensures match r
        case Ok => Slicing() && pushed == |fe.emitted| && pcm == old(pcm) + slice && eq.backpressured == stalled
        case LimitExceeded =>
          && Slicing() && pushed == |fe.emitted| && pcm == old(pcm) + slice && eq.backpressured && |eq.queue| >= eq.Bound()
        case BackendError => Broken()
        case _ => false
      ensures Faulted() == (old(Faulted()) || r == BackendError)
      ensures Growth(old(sched.Standing()), sched.Standing(), eq.Bound(), eq.aggressive)
      ensures r != BackendError ==> overrun == (old(overrun) || stalled)
      ensures old(overrun) ==> overrun
      ensures overrun ==> old(overrun) || stalled
      ensures stalled ==> r != LimitExceeded && eq.queue == old(eq.queue)
    {
      hide F.MelFrontend.Valid, Scheduler.Sound, EncoderKv.OutputInv, Hearing, Encoding, Keeping, Closed, Growth;
      ghost var e := enc.emitted;
      GrowthNone(sched.Standing(), eq.Bound(), eq.aggressive);
      var ok := HearSlice(slice);
      if !ok {
        return BackendError;
      }
      EncoderSound();
      if stalled {
        FallBehind(e);
        return Ok;
      }
      r := Advance(e);
    }

    /** Consume a whole feed slice by slice. The decoder stops at the first slice whose events do not fit, while
        frontend and encoder keep consuming, so that every sample is accepted. */
    method FeedAudio(samples: seq<real>) returns (r: Status)
      requires Slicing() && UpToDate() && !eq.backpressured && 0 < |samples| && Addressable(|pcm| + |samples|)
      modifies this`pushed, this`pcm, this`overrun, this`faulted, fe, enc, enc.ring, enc.outRing
      modifies sched`d, sched`intact, sched`faulted, sched`outs, sched.aemb, eq`queue, eq`overflowed, eq`backpressured
      ensures match r
        case Ok => Slicing() && pushed == |fe.emitted| && pcm == old(pcm) + samples && !eq.backpressured
        case LimitExceeded =>
          && Slicing() && pushed == |fe.emitted| && pcm == old(pcm) + samples && eq.backpressured && |eq.queue| >= eq.Bound()
        case BackendError => Broken()
        case _ => false
      ensures Faulted() == (old(Faulted()) || r == BackendError)
      ensures Growth(old(sched.Standing()), sched.Standing(), eq.Bound(), eq.aggressive)
      ensures old(overrun) ==> overrun
      ensures |samples| <= DRAIN_SLICE ==> overrun == old(overrun)
    {
      hide Slicing, Scheduler.Standing, Growth, Wired, Closed, Outputs, Broken;
      ghost var start := sched.Standing();
      GrowthNone(start, eq.Bound(), eq.aggressive);
      var backpressured := false;
      var off := 0;
      while off < |samples|
        invariant off <= |samples| && Slicing() && UpToDate() && pcm == old(pcm) + samples[..off]
        invariant backpressured == eq.backpressured && (backpressured ==> |eq.queue| >= eq.Bound())
        invariant off > 0 ==> pushed == |fe.emitted|
        invariant old(overrun) ==> overrun
        invariant |samples| <= DRAIN_SLICE ==> overrun == old(overrun) && (backpressured ==> off == |samples|)
        invariant Faulted() == old(Faulted())
        invariant Growth(start, sched.Standing(), eq.Bound(), eq.aggressive)
      {
        var n := Min(DRAIN_SLICE, |samples| - off);
        ghost var mid := sched.Standing();
        var status := FeedSlice(samples[off..off + n], backpressured);
        GrowthOn(start, mid, sched.Standing(), eq.Bound(), eq.aggressive);
        if status == BackendError {
          return BackendError;
        }
        if status == LimitExceeded {
          backpressured := true;
        }
        assert samples[..off] + samples[off..off + n] == samples[..off + n];
        off := off + n;
      }
      assert samples[..off] == samples;
      r := if backpressured then LimitExceeded else Ok;
    }

    /** Inject the left pad once, before the first sample. */
    method EnsureLeftPad()
      requires Hearing() && Encoding() && pushed == |fe.emitted| && (leftPadInjected <==> pcm != []) && Addressable(0)
      modifies this`leftPadInjected, fe
      ensures Hearing() && Encoding() && leftPadInjected && UpToDate()
    {
      hide RingState, Resident, Outputs, Tiles, FeedBatches, FeedEmitted, AreBatchFrames;
      if !leftPadInjected {
        leftPadInjected := true;
        var ok := fe.FeedSilence(STREAM_LEFT_PAD);
        assert [] + seq(STREAM_LEFT_PAD, _ => 0.0) == Zeros(STREAM_LEFT_PAD) + pcm;
        assert fe.emitted[..0] == [];
      }
    }

    /** A live stream whose decoder has moved on. */
    twostate lemma StillLive()
      requires old(Valid() && Live()) && unchanged(this) && unchanged(fe) && unchanged(enc) && unchanged(enc.ring) && unchanged(enc.outRing)
      requires sched.Sound() && Keeping(enc.emitted) && Closed() && !Faulted()
      requires !eq.finalizingFlush && !eq.aggressive
      ensures Valid() && Live()
    {
      hide Scheduler.Sound, Hearing, Encoding, Keeping, Closed;
    }

    /** Resume a stalled decoder before anything else. */
    method ResumeDecoder() returns (r: Status)
      requires Valid() && Live() && eq.backpressured
      modifies sched`d, sched`intact, sched`faulted, sched`outs, sched.aemb, eq`queue, eq`overflowed, eq`backpressured
      ensures match r
        case Ok => Valid() && Live() && !eq.backpressured
        case LimitExceeded => Valid() && Live() && eq.backpressured && |eq.queue| >= eq.Bound()
        case BackendError => Broken()
        case _ => false
      ensures Faulted() == (old(Faulted()) || r == BackendError)
      ensures Growth(old(sched.Standing()), sched.Standing(), eq.Bound(), eq.aggressive)
      ensures r != BackendError && old(|eq.queue| < eq.Bound()) ==>
        |sched.Standing().committed| > |old(sched.Standing()).committed|
    {
      hide Valid, Live, Scheduler.Sound, Hearing, Encoding, Keeping, Closed, Growth;
      LiveParts();
      EncoderSound();
      r := Advance(enc.emitted);
      if r != BackendError {
        StillLive();
      }
    }

    /** One large feed keeps a single snapshot when tokens and snapshots together would not fit but tokens do. */
    function AggressiveFor(count: nat): bool
      reads eq
    {
      var estimate := Estimate(count);
      |eq.queue| + 2 * estimate > eq.maxEvents && |eq.queue| + estimate + 1 <= eq.maxEvents
    }

    /** The policy in numbers: 19 tokens more than the samples hold, two events or one for each. */
    lemma PolicyIs(count: nat)
      ensures AggressiveFor(count) <==>
        var tokens := (count + 1279) / 1280 + 19;
        |eq.queue| + tokens + 1 <= eq.maxEvents < |eq.queue| + 2 * tokens
    {
    }

    method SetAggressive(on: bool)
      requires sched.eq == eq && sched.Sound()
      modifies eq`aggressive
      ensures sched.Sound() && eq.aggressive == on && eq.Bound() == old(eq.Bound()) && sched.Standing() == old(sched.Standing())
    {
      hide Scheduler.Sound;
      eq.aggressive := on;
    }

    method BeginAudio(count: nat)
      requires Valid() && Live() && !eq.backpressured && Addressable(0)
      modifies eq`aggressive, this`leftPadInjected, fe
      ensures Slicing() && UpToDate() && eq.aggressive == old(AggressiveFor(count))
      ensures eq.Bound() == old(eq.Bound()) && sched.Standing() == old(sched.Standing()) && !Faulted()
    {
      hide Valid, Live, Scheduler.Sound, Hearing, Encoding, Keeping, Closed, AggressiveFor;
      LiveParts();
      SetAggressive(AggressiveFor(count));
      EnsureLeftPad();
    }

    /** Restore the snapshot policy of the caller. */
    method EndAudio(previous: bool, ghost whole: bool)
      requires if whole then Slicing() else Broken()
      modifies eq`aggressive
      ensures (if whole then Slicing() else Broken()) && eq.aggressive == previous
      ensures eq.Bound() == old(eq.Bound()) && sched.Standing() == old(sched.Standing())
    {
      hide Slicing, Broken;
      eq.aggressive := previous;
    }

    method BookAudio(count: nat)
      requires Slicing() && pushed == |fe.emitted| && received + count == |pcm| && 0 < count && !Faulted()
      requires Accepting() && !eq.finalizingFlush && !eq.aggressive
      modifies this`received, this`state
      ensures Valid() && state == Running && Accepting() && received == old(received) + count
    {
      hide RingState, Resident, Outputs, Tiles, Books, Shows, Faithful, Terminals, FeedBatches, FeedEmitted, StableCount, AreBatchFrames;
      received := received + count;
      if state == Created {
        state := Running;
      }
    }

    lemma AddressableBelow(m: nat, n: nat)
      requires Addressable(n) && m <= n
      ensures Addressable(m)
    {
    }

    /** The queue has room for the tokens a feed is taken to produce and one snapshot. */
    predicate EstimateFits(count: nat)
      reads eq
    {
      schedule.logical <= 64 && |eq.queue| + (count + 1279) / 1280 + 20 <= eq.maxEvents
    }

    /** A stream that has kept up and is not stalled, before a feed of `count` samples. */
    lemma ReadyToFeed(count: nat)
      requires Valid() && Live() && !eq.backpressured && !overrun && EstimateFits(count)
      ensures BeforeFeed(k, maxTokens, schedule, eq.maxEvents, sched.d, sched.outs, |pcm|, sched.Standing(), count, AggressiveFor(count))
    {
      hide RingState, Resident, Outputs, Tiles, Books, Shows, Faithful, Settled, Current, Throttled, FeedBatches, FeedEmitted, AreBatchFrames;
      hide HasPartial;
      sched.BooksOf();
      if pcm != [] {
        StableSoFar();
      } else {
        assert |enc.mel| == 0;
        NothingEmitted(schedule);
      }
    }

    lemma NothingEmitted(s: Schedule)
      requires 0 < s.logical
      ensures FeedEmitted(s, 0) == 0
    {
    }

    /** A feed whose estimate fits never stalls: with room for two events a token every snapshot fits, with less the single
        snapshot leaves room for every token. */
    lemma NoStall(d: Decoder, outs: seq<int>, n: nat, mark: Mark, count: nat, aggressive: bool)
      requires BeforeFeed(k, maxTokens, schedule, eq.maxEvents, d, outs, n, mark, count, aggressive)
      requires Slicing() && pushed == |fe.emitted| && 0 < count && |pcm| == n + count
      requires Growth(mark, sched.Standing(), eq.Bound(), aggressive)
      ensures eq.backpressured ==> |eq.queue| < eq.Bound()
    {
      hide Scheduler.Sound, Books, Settled, Current, Throttled, FeedEmitted, StableFrames, EmittedAfter, Estimate, Hearing, Encoding, Closed, Committed;
      hide HasPartial;
      EmittedNow();
      StashedNow();
      ArrivalsFit(schedule, n, count);
      OutputsSoFar(k, maxTokens, sched.d, sched.outs, enc.emitted);
      OutputsSoFar(k, maxTokens, d, outs, EmittedAfter(schedule, n));
      if Halted(d, maxTokens) {
        HaltedNotStashed(k, maxTokens, d, outs);
        HaltedStays(k, maxTokens, d, outs, sched.d, sched.outs);
        HaltedNotStashed(k, maxTokens, sched.d, sched.outs);
      }
    }

    lemma EmittedNow()
      requires Slicing() && pcm != [] && pushed == |fe.emitted|
      ensures Wired() && Normal(schedule) && enc.emitted == EmittedAfter(schedule, |pcm|)
    {
      hide Scheduler.Sound, FeedEmitted, StableFrames, Keeping, Closed;
      StableSoFar();
    }

    lemma StashedNow()
      requires Slicing()
      ensures sched.d.pending.Stashed? <==> eq.backpressured
      ensures Books(k, maxTokens, sched.d, sched.outs) && Throttled(sched.d, enc.emitted)
      ensures sched.Standing().committed == Committed(sched.d, sched.outs) && sched.Standing().queued == |eq.queue|
      ensures eq.Bound() == eq.maxEvents
    {
      hide Scheduler.Sound, Hearing, Encoding, Closed, Books, Throttled;
      sched.BooksOf();
    }

    /** Everything a non-empty feed does to the stages, under the snapshot policy its size asks for. */
    method HearAudio(samples: seq<real>) returns (r: Status)
      requires Valid() && Live() && !eq.backpressured && 0 < |samples| && Addressable(|pcm| + |samples|)
      modifies this`leftPadInjected, this`pushed, this`pcm, this`overrun, this`faulted
      modifies fe, enc, enc.ring, enc.outRing, sched`d, sched`intact, sched`faulted, sched`outs, sched.aemb
      modifies eq`queue, eq`overflowed, eq`backpressured, eq`aggressive
      ensures match r
        case Ok => Slicing() && pushed == |fe.emitted| && pcm == old(pcm) + samples && !eq.backpressured
        case LimitExceeded =>
          && Slicing() && pushed == |fe.emitted| && pcm == old(pcm) + samples && eq.backpressured && |eq.queue| >= eq.Bound()
        case BackendError => Broken()
        case _ => false
      ensures Faulted() <==> r == BackendError
      ensures Growth(old(sched.Standing()), sched.Standing(), eq.Bound(), old(AggressiveFor(|samples|)))
      ensures old(overrun) ==> overrun
      ensures |samples| <= DRAIN_SLICE ==> overrun == old(overrun)
      ensures !old(overrun) && old(EstimateFits(|samples|)) ==> r != LimitExceeded
    {
      hide *;
      LiveParts();
      AddressableBelow(0, |pcm| + |samples|);
      ghost var d, outs, n, mark := sched.d, sched.outs, |pcm|, sched.Standing();
      ghost var fits, aggressive := !overrun && EstimateFits(|samples|), AggressiveFor(|samples|);
      if fits {
        ReadyToFeed(|samples|);
      }
      BeginAudio(|samples|);
      r := FeedAudio(samples);
      if fits && r != BackendError {
        NoStall(d, outs, n, mark, |samples|, aggressive);
      }
    }

    /** Accept a non-empty feed of admissible size. */
    method AcceptAudio(samples: seq<real>) returns (r: Status)
      requires Valid() && Live() && !eq.backpressured && 0 < |samples| && Addressable(|pcm| + |samples|)
      modifies this`state, this`received, this`leftPadInjected, this`pushed, this`pcm, this`overrun, this`faulted
      modifies fe, enc, enc.ring, enc.outRing, sched`d, sched`intact, sched`faulted, sched`outs, sched.aemb
      modifies eq`queue, eq`overflowed, eq`backpressured, eq`aggressive
      ensures match r
        case Ok => Valid() && state == Running && pcm == old(pcm) + samples && !eq.backpressured
        case LimitExceeded =>
          Valid() && state == Running && Accepting() && pcm == old(pcm) + samples && eq.backpressured && |eq.queue| >= eq.Bound()
        case BackendError => Broken() && state == old(state) && received == old(received)
        case _ => false
      ensures Faulted() <==> r == BackendError
      ensures r != BackendError ==> received == old(received) + |samples|
      ensures Growth(old(sched.Standing()), sched.Standing(), eq.Bound(), old(AggressiveFor(|samples|)))
      ensures old(overrun) ==> overrun
      ensures |samples| <= DRAIN_SLICE ==> overrun == old(overrun)
      ensures !old(overrun) && old(EstimateFits(|samples|)) ==> r != LimitExceeded
    {
      hide *;
      LiveParts();
      var previous := eq.aggressive;
      r := HearAudio(samples);
      EndAudio(previous, r != BackendError);
      if r != BackendError {
        BookAudio(|samples|);
      }
    }

    // ---- terminal events -------------------------------------------------------------------------------

    /** Enqueue a terminal event behind everything else. */
    method PushTerminal(e: Event) returns (ok: bool)
      requires Wired() && sched.Sound() && Closed() && ClassOf(e) == TerminalClass
      modifies this`terminal, this`dropped, eq`queue, eq`overflowed
      ensures sched.Sound() && Closed() && ok == (old(|eq.queue|) < eq.Bound())
      ensures terminal == (if ok then old(terminal) + [e] else old(terminal)) && dropped == (old(dropped) || !ok)
      ensures |eq.queue| == old(|eq.queue|) + if ok then 1 else 0
    {
      hide Scheduler.Core, Shows, Terminals;
      ShowsTerminal(k, Committed(sched.d, sched.outs), sched.d.tokens, eq.polled + eq.queue, e);
      assert eq.polled + eq.queue + [e] == eq.polled + (eq.queue + [e]);
      ok := eq.PushEvent(e);
      if ok {
        terminal := terminal + [e];
      } else {
        dropped := true;
      }
    }

    /** Open the terminal reserve. */
    method OpenReserve()
      requires Wired() && sched.Sound() && Closed()
      modifies eq`finalizingFlush
      ensures sched.Sound() && Closed() && eq.finalizingFlush
      ensures eq.Bound() == eq.maxEvents + TERMINAL_HEADROOM
    {
      hide Scheduler.Core, Shows, Closed;
      eq.finalizingFlush := true;
    }

    /** Terminal failure: exactly one ERROR, which always fits the reserve. */
    method FailStream(status: Status)
      requires Broken() && Faulted()
      modifies this`terminal, this`dropped, this`state, eq`queue, eq`overflowed, eq`finalizingFlush
      ensures Valid() && state == Failed && terminal == [Error(status)] && !dropped && Faulted()
    {
      hide Scheduler.Sound, Closed, Outcome, Valid;
      sched.BooksOf();
      OpenReserve();
      var _ := PushTerminal(Error(status));
      EnterFailed();
    }

    method EnterFailed()
      requires Wired() && sched.Sound() && enc.Config() && Closed()
      requires (dropped ==> overrun || schedule.logical > 32) && (Faulted() || overrun || schedule.logical > 32)
      requires |terminal| == (if dropped then 0 else 1) && (terminal != [] ==> terminal[0].Error?)
      modifies this`state
      ensures Valid() && state == Failed
    {
      hide Scheduler.Sound, Closed, Live;
      state := Failed;
    }

    // ---- public feed -----------------------------------------------------------------------------------

    /** A feed to a stream that is not stalled. */
    method FeedReady(samples: seq<real>) returns (r: Status)
      requires Valid() && Live() && Accepting() && !eq.backpressured && Addressable(|pcm| + |samples|)
      modifies this`state, this`received, this`leftPadInjected, this`pushed, this`pcm, this`overrun, this`faulted
      modifies fe, enc, enc.ring, enc.outRing, sched`d, sched`intact, sched`faulted, sched`outs, sched.aemb
      modifies eq`queue, eq`overflowed, eq`backpressured, eq`aggressive
      ensures match r
        case Ok => Valid() && !eq.backpressured && pcm == old(pcm) + samples && state == if samples == [] then old(state) else Running
        case LimitExceeded => Valid() && Accepting() && eq.backpressured && |eq.queue| >= eq.Bound() && pcm == old(pcm) + samples
        case InvalidArgument => Valid() && state == old(state) && pcm == old(pcm)
        case BackendError => Broken() && received == old(received) && Faulted()
        case _ => false
      ensures r == InvalidArgument <==> |samples| > 67108864
      ensures |pcm| > |old(pcm)| ==> |samples| <= 67108864
      ensures Growth(old(sched.Standing()), sched.Standing(), eq.Bound(), old(AggressiveFor(|samples|)))
      ensures r != BackendError ==> received - old(received) == |pcm| - |old(pcm)|
      ensures samples == [] ==> r == Ok && eq.queue == old(eq.queue) && enc.emitted == old(enc.emitted)
      ensures old(overrun) ==> overrun
      ensures |samples| <= 16000 ==> overrun == old(overrun)
      ensures !old(overrun) && old(EstimateFits(|samples|)) ==> r != LimitExceeded
    {
      hide *;
      FeedLimits();
      GrowthNone(sched.Standing(), eq.Bound(), AggressiveFor(|samples|));
      if |samples| == 0 {
        assert pcm + samples == pcm;
        return Ok;
      }
      if |samples| > MAX_FEED_SAMPLES {
        return InvalidArgument;
      }
      r := AcceptAudio(samples);
    }

    method FeedCommon(samples: seq<real>) returns (r: Status)
      requires Valid() && (Accepting() ==> Addressable(|pcm| + |samples|))
      modifies this`state, this`received, this`leftPadInjected, this`pushed, this`pcm, this`overrun, this`faulted
      modifies fe, enc, enc.ring, enc.outRing, sched`d, sched`intact, sched`faulted, sched`outs, sched.aemb
      modifies eq`queue, eq`overflowed, eq`backpressured, eq`aggressive
      ensures match r
        case Ok => Valid() && !eq.backpressured && pcm == old(pcm) + samples &&
          state == if samples == [] then old(state) else Running
        case LimitExceeded => Valid() && Accepting() && eq.backpressured && |eq.queue| >= eq.Bound() &&
          (pcm == old(pcm) + samples || (old(eq.backpressured) && pcm == old(pcm)))
        case InvalidArgument => Valid() && |samples| > 67108864 && state == old(state) && pcm == old(pcm)
        case InvalidState => Valid() && state == old(state) && pcm == old(pcm) && eq.queue == old(eq.queue)
        case BackendError => Broken() && received == old(received) && Faulted()
      ensures r == InvalidState <==> !old(Accepting())
      ensures |pcm| > |old(pcm)| ==> |samples| <= 67108864
      ensures old(Accepting() && !eq.backpressured) ==> (r == InvalidArgument <==> |samples| > 67108864)
      ensures Grows(old(sched.Standing()), sched.Standing())
      ensures !old(eq.backpressured) ==> Growth(old(sched.Standing()), sched.Standing(), eq.Bound(), old(AggressiveFor(|samples|)))
      ensures r != BackendError ==> received - old(received) == |pcm| - |old(pcm)|
      ensures old(Accepting() && !eq.backpressured) && samples == [] ==> r == Ok && eq.queue == old(eq.queue)
      ensures samples == [] && r == LimitExceeded ==> old(eq.backpressured)
      ensures samples == [] ==> enc.emitted == old(enc.emitted)
      ensures old(overrun) ==> overrun
      ensures |samples| <= 16000 ==> overrun == old(overrun)
      ensures old(!eq.backpressured && !overrun && EstimateFits(|samples|)) ==> r != LimitExceeded
      ensures r.Ok? || r.LimitExceeded? ==> old(eq.backpressured && |eq.queue| < eq.Bound()) ==>
        |sched.Standing().committed| > |old(sched.Standing()).committed|
    {
      hide *;
      ghost var start, aggressive := sched.Standing(), AggressiveFor(|samples|);
      GrowthNone(start, eq.Bound(), aggressive);
      GrowthGrows(start, start, eq.Bound(), aggressive);
      if !Accepting() {
        return InvalidState;
      }
      AcceptingIsLive();
      if eq.backpressured {
        r := ResumeDecoder();
        GrowthGrows(start, sched.Standing(), eq.Bound(), eq.aggressive);
        if r != Ok {
          return;
        }
      }
      ghost var mid, policy := sched.Standing(), AggressiveFor(|samples|);
      r := FeedReady(samples);
      GrowthOnly(mid, sched.Standing(), eq.Bound(), policy);
      GrowthGrows(mid, sched.Standing(), eq.Bound(), policy);
      GrowsOn(start, mid, sched.Standing());
    }

    /** Feed one chunk. Every accepted sample counts as consumed; a device failure ends the stream with one ERROR. */
    method Feed(samples: seq<real>) returns (r: Status, consumed: nat)
      requires Valid() && (Accepting() ==> Addressable(|pcm| + |samples|))
      modifies this, fe, enc, enc.ring, enc.outRing, sched`d, sched`intact, sched`faulted, sched`outs, sched.aemb
      modifies eq`queue, eq`overflowed, eq`backpressured, eq`aggressive, eq`finalizingFlush
      ensures Valid() && (r != BackendError ==> consumed == |pcm| - |old(pcm)|)
      ensures match r
        case Ok => !eq.backpressured && pcm == old(pcm) + samples && state == if samples == [] then old(state) else Running
        case LimitExceeded => Accepting() && eq.backpressured && |eq.queue| >= eq.Bound() &&
          (pcm == old(pcm) + samples || (old(eq.backpressured) && pcm == old(pcm)))
        case InvalidArgument => |samples| > 67108864 && state == old(state) && pcm == old(pcm)
        case InvalidState => state == old(state) && pcm == old(pcm) && eq.queue == old(eq.queue)
        case BackendError => state == Failed && terminal == [Error(BackendError)] && consumed == 0 && Faulted()
      ensures r == InvalidState <==> !old(Accepting())
      ensures r != BackendError ==> Grows(old(sched.Standing()), sched.Standing())
      ensures r != BackendError && !old(eq.backpressured) ==>
        Growth(old(sched.Standing()), sched.Standing(), eq.Bound(), old(AggressiveFor(|samples|)))
      ensures old(!eq.backpressured && !overrun && EstimateFits(|samples|)) ==> r != LimitExceeded
      ensures samples == [] && r == LimitExceeded ==> old(eq.backpressured)
      ensures samples == [] ==> enc.emitted == old(enc.emitted)
      ensures old(overrun) ==> overrun
      ensures |samples| <= 16000 ==> overrun == old(overrun)
      ensures |pcm| > |old(pcm)| ==> |samples| <= 67108864
      ensures old(Accepting() && !eq.backpressured) ==> (r == InvalidArgument <==> |samples| > 67108864)
      ensures old(Accepting() && !eq.backpressured) && samples == [] ==> r == Ok && eq.queue == old(eq.queue)
      ensures r.Ok? || r.LimitExceeded? ==> old(eq.backpressured && |eq.queue| < eq.Bound()) ==>
        |sched.Standing().committed| > |old(sched.Standing()).committed|
    {
      hide *;
      var before := received;
      r := FeedCommon(samples);
      consumed := received - before;
      if r == BackendError {
        FailStream(r);
      }
    }

    // ---- finish ----------------------------------------------------------------------------------------

    /** Frontend and encoder at the end of the padded signal; decoder not run yet. */
    ghost predicate Flushed()
      reads this`pcm, enc, enc.ring, enc.outRing, sched`d, sched`outs, sched`intact, sched.aemb
      reads eq`queue, eq`polled, eq`maxEvents, eq`finalizingFlush
    {
      && Wired() && sched.Sound() && enc.Valid() && enc.mel == Spectrogram(k, Padded(pcm))
      && enc.emitted == DOWNSAMPLE * TotalGroups(|pcm|)
    }

    /** Right padding and the last frames of the frontend: the Mel stream is the batch spectrogram. */
    method FlushFrontend()
      requires Hearing() && Encoding() && fe.k == k && leftPadInjected && received == |pcm| && pcm != []
      requires F.Fits(PaddedSamples(|pcm|))
      modifies fe
      ensures fe.Valid() && fe.melBaseFrame <= pushed <= |fe.emitted| && Encoding()
      ensures fe.emitted == Spectrogram(k, Padded(pcm)) && (fe.overflow <==> F.FinishOverflows(PaddedSamples(|pcm|)))
    {
      hide FeedBatches, FeedEmitted, StableCount, FrameHi, FrameLo, AreBatchFrames, RingState, Resident, Outputs, Tiles;
      var alignPad := (SAMPLES_PER_TOKEN - received % SAMPLES_PER_TOKEN) % SAMPLES_PER_TOKEN;
      var rightPad := alignPad + RIGHT_PAD_TOKENS * SAMPLES_PER_TOKEN;
      var _ := fe.FeedSilence(rightPad);
      assert fe.audio == Padded(pcm);
      fe.Finish();
      assert fe.emitted[..pushed] == old(fe.emitted)[..pushed];
    }

    /** The flushed suffix of the Mel stream in one push. */
    method DrainFinal() returns (ok: bool)
      requires Wired() && fe.Valid() && Encoding() && sched.Sound() && fe.melBaseFrame <= pushed
      requires 2 * ENC_KV_MAX_NEW <= |fe.emitted|
      modifies this`pushed, this`faulted, fe`melFrames, fe`melBaseFrame, enc, enc.ring, enc.outRing
      ensures fe.Valid() && sched.Sound() && enc.Config() && old(enc.emitted) <= enc.emitted
      ensures faulted == (old(faulted) || !ok)
      ensures ok ==> enc.Valid() && enc.mel == fe.emitted
    {
      hide F.MelFrontend.Valid, EncoderKv.Valid, EncoderKv.Feeding, Scheduler.Sound;
      fe.CountIs();
      enc.Facts();
      var total := fe.nextFrame;
      if total <= pushed {
        assert fe.emitted[..pushed] == fe.emitted;
        return true;
      }
      ok := *;
      if !ok {
        faulted := true;
        return;
      }
      var base := pushed;
      var frames := fe.FrameData(base, total - base);
      ok := enc.PushMelFinal(frames, base);
      sched.EncoderGrows(frames);
      assert fe.emitted[..base] + fe.emitted[base..total] == fe.emitted;
      pushed := total;
      fe.DiscardBefore(total);
    }

    /** All of the padded signal through the encoder. */
    method FlushEncoder() returns (ok: bool)
      requires Wired() && fe.Valid() && Encoding() && sched.Sound()
      requires fe.melBaseFrame <= pushed && |fe.emitted| == 8 * TotalGroups(|pcm|)
      modifies this`pushed, this`faulted, fe`melFrames, fe`melBaseFrame, enc, enc.ring, enc.outRing
      ensures faulted == (old(faulted) || !ok) && fe.overflow == old(fe.overflow)
      ensures sched.Sound() && enc.Config() && old(enc.emitted) <= enc.emitted
      ensures ok ==> enc.Valid() && enc.mel == fe.emitted && enc.emitted == DOWNSAMPLE * TotalGroups(|pcm|)
    {
      hide Wired, Encoding, RingState, Tiles, Resident, Outputs, TotalGroups, Books, Faithful, Shows, AreBatchFrames, StableCount;
      ok := DrainFinal();
      if ok {
        ok := FinishEncoder();
      }
    }

    method FinishEncoder() returns (ok: bool)
      requires Wired() && enc.Valid() && sched.Sound() && (enc.emitted > 0 || 2 * ENC_KV_MAX_NEW <= |enc.mel|)
      modifies this`faulted, enc, enc.ring, enc.outRing
      ensures faulted == (old(faulted) || !ok)
      ensures sched.Sound() && enc.Config() && enc.mel == old(enc.mel) && old(enc.emitted) <= enc.emitted
      ensures ok ==> enc.Valid() && enc.emitted == |enc.mel| / 2
    {
      hide RingState, Resident, Outputs, Tiles, Books, Shows, Faithful;
      ok := *;
      if !ok {
        faulted := true;
        return;
      }
      ok := enc.Finish();
      assert old(enc.mel) + [] == enc.mel;
      sched.EncoderGrows([]);
    }

    /** Outputs of the uninterrupted decode of everything fed. */
    ghost function ExpectedOutputs(): nat
      reads this`pcm
    {
      if pcm == [] then 0 else Steps(k, Embs(k, Spectrogram(k, Padded(pcm)), 0, TotalGroups(|pcm|)), maxTokens, 0)
    }

    /** The outputs still to come fit the queue and its terminal reserve, a TOKEN and a snapshot each; the last one needs
        no room for its snapshot. */
    ghost predicate TailFits(mark: Mark)
      reads this`pcm, eq`maxEvents
    {
      mark.queued + 2 * (ExpectedOutputs() - |mark.committed|) <= eq.maxEvents + TERMINAL_HEADROOM + 1
    }

    /** The flushed encoder is no further ahead than one slice would put it. */
    lemma TailLead(e: nat)
      requires Normal(schedule) && pcm != []
      requires e == FeedEmitted(schedule, StableFrames(|pcm|)) && enc.emitted == DOWNSAMPLE * TotalGroups(|pcm|)
      ensures enc.emitted <= e + 200
    {
      hide FeedEmitted, StableFrames, TotalGroups;
      FinishFrames(|pcm|);
      EmissionStep(schedule, StableFrames(|pcm|), 8 * TotalGroups(|pcm|));
    }

    /** A decoder that had kept up leaves two slots of the reserve free. */
    lemma TailRoom(d: Decoder, outs: seq<int>, e: nat, mark: Mark)
      requires Books(k, maxTokens, d, outs) && Settled(d, maxTokens) && Current(d, maxTokens, e)
      requires mark.committed == Committed(d, outs) && mark.queued <= eq.maxEvents && d.groups <= sched.d.groups
      requires Wired() && sched.Sound() && eq.finalizingFlush && pcm != []
      requires e == FeedEmitted(schedule, StableFrames(|pcm|)) && enc.emitted == DOWNSAMPLE * TotalGroups(|pcm|)
      requires Growth(mark, sched.Standing(), eq.Bound(), eq.aggressive)
      ensures schedule.logical <= 32 ==> |eq.queue| + 2 <= eq.Bound()
    {
      hide Scheduler.Sound, Books, Settled, Current, Throttled, Growth, FeedEmitted, StableFrames, TotalGroups, Committed;
      sched.BooksOf();
      GrowthOnly(mark, sched.Standing(), eq.Bound(), eq.aggressive);
      TailGrowth(k, maxTokens, d, outs, sched.d, sched.outs, e, TotalGroups(|pcm|));
      ReserveHolds(|pcm|);
    }

    /** The last pass: everything that is still missing, within the terminal reserve. */
    method DecodeTail(ghost e: nat) returns (r: Status)
      requires Flushed() && Keeping(e) && !eq.backpressured && !eq.aggressive && pcm != [] && Closed() && terminal == []
      requires e == FeedEmitted(schedule, StableFrames(|pcm|)) && e <= enc.emitted
      requires eq.finalizingFlush && |eq.queue| <= eq.maxEvents
      modifies sched`d, sched`intact, sched`faulted, sched`outs, sched.aemb, eq`queue, eq`overflowed, eq`backpressured
      ensures sched.Sound() && Closed()
      ensures Growth(old(sched.Standing()), sched.Standing(), eq.Bound(), eq.aggressive)
      ensures sched.faulted == (old(sched.faulted) || r == BackendError)
      ensures !overrun && r != BackendError ==> (r == Ok <==> TailFits(old(sched.Standing())))
      ensures !overrun && schedule.logical <= 32 ==> |eq.queue| + 2 <= eq.Bound()
      ensures match r
        case Ok => Flushed() && Keeping(enc.emitted) && !eq.backpressured
        case LimitExceeded => overrun || schedule.logical > 32
        case BackendError => true
        case _ => false
    {
      hide EncoderKv.Valid, Scheduler.Sound, Books, Settled, Current, Closed, Growth, FeedEmitted, StableFrames, FinishTail;
      hide TailFits, TotalGroups, Spectrogram, Padded, Throttled;
      ghost var d, outs, mark := sched.d, sched.outs, sched.Standing();
      TailLead(e);
      enc.Facts();
      sched.BooksOf();
      r := Advance(e);
      if !overrun {
        TailRoom(d, outs, e, mark);
        if r != BackendError {
          TailOutcome(mark);
        }
      }
    }

    /** The last pass stops exactly when its outputs do not fit. */
    lemma TailOutcome(mark: Mark)
      requires Flushed() && Keeping(enc.emitted) && !overrun && pcm != [] && !eq.aggressive
      requires eq.backpressured ==> |eq.queue| >= eq.Bound()
      requires eq.finalizingFlush && mark.queued <= eq.maxEvents && Growth(mark, sched.Standing(), eq.Bound(), eq.aggressive)
      ensures !eq.backpressured <==> TailFits(mark)
    {
      hide RingState, Resident, Outputs, Tiles, Shows, Faithful, Decoded, Steps, Embs;
      if eq.backpressured {
        StashedIsDue(k, maxTokens, enc.mel, sched.d, sched.aemb[..], sched.outs, TotalGroups(|pcm|));
      } else {
        HaltedIsDecoded(k, maxTokens, enc.mel, sched.d, sched.aemb[..], sched.outs, TotalGroups(|pcm|));
      }
    }

    lemma ReserveHolds(n: nat)
      requires Normal(schedule) && 0 < n
      ensures schedule.logical <= 32 ==>
        2 * Max(0, TotalGroups(n) - Max(PREFILL_LEN, FeedEmitted(schedule, StableFrames(n)) / DOWNSAMPLE)) + 2 <= TERMINAL_HEADROOM
    {
      TailBounded(schedule, n);
    }

    /** A settled decoder behind a flushed encoder has decoded the whole padded signal. */
    lemma TailDecoded()
      requires Flushed() && Keeping(enc.emitted) && !eq.backpressured && pcm != []
      ensures sched.d.pending.NoToken?
      ensures !overrun ==> sched.d.tokens == Expected()
      ensures !overrun && !Halted(sched.d, maxTokens) ==> sched.d.steps == 11 + CeilTokens(|pcm|)
    {
      hide RingState, Resident, Outputs, Tiles, Shows, Faithful, Decoded;
      if !overrun {
        HaltedIsDecoded(k, maxTokens, enc.mel, sched.d, sched.aemb[..], sched.outs, TotalGroups(|pcm|));
      }
    }

    /** FINAL_TEXT and COMPLETED; both fit whenever the reserve still has two slots. */
    method EmitFinalAndCompleted()
      requires Wired() && sched.Sound() && enc.Config() && Closed() && terminal == [] && !dropped
      requires transcript == Text(k, sched.d.tokens)
      requires sched.d.pending.NoToken? && (!overrun ==> sched.d.tokens == Expected())
      requires !overrun && schedule.logical <= 32 ==> |eq.queue| + 2 <= eq.Bound()
      requires !Faulted()
      modifies this`terminal, this`dropped, this`state, eq`queue, eq`overflowed
      ensures Valid() && state == Done
    {
      hide RingState, Resident, Outputs, Tiles, Books, Shows, Faithful, Only, ExpectedTokens, Closed, Wired, Valid, Outcome, Text;
      var first := PushTerminal(FinalText(transcript));
      var second := PushTerminal(Completed);
      assert terminal == if second then [FinalText(transcript), Completed] else if first then [FinalText(transcript)] else [];
      EnterDone();
    }

    method Conclude(text: seq<bv8>)
      requires Wired() && sched.Sound() && enc.Config() && Closed() && terminal == [] && !dropped
      requires text == Text(k, sched.d.tokens)
      requires sched.d.pending.NoToken? && (!overrun ==> sched.d.tokens == Expected())
      requires !overrun && schedule.logical <= 32 ==> |eq.queue| + 2 <= eq.Bound()
      requires !Faulted()
      modifies this`transcript, this`terminal, this`dropped, this`state, eq`queue, eq`overflowed
      ensures Valid() && state == Done
    {
      hide RingState, Resident, Outputs, Tiles, Books, Shows, Faithful, Only, Decoded;
      transcript := text;
      EmitFinalAndCompleted();
    }

    lemma TranscriptIsText()
      requires Wired() && sched.Sound()
      ensures sched.d.partialText == Text(k, sched.d.tokens)
    {
    }

    method EnterDone()
      requires Wired() && sched.Sound() && enc.Config() && Closed() && (dropped ==> overrun || schedule.logical > 32)
      requires terminal <= [FinalText(transcript), Completed] && (!dropped ==> |terminal| == 2)
      requires transcript == Text(k, sched.d.tokens) && sched.d.pending.NoToken?
      requires !overrun ==> sched.d.tokens == Expected()
      requires !Faulted()
      modifies this`state
      ensures Valid() && state == Done
    {
      hide Scheduler.Sound, Closed, Live, Text, Expected;
      state := Done;
    }

    /** ERROR at finish. */
    method Abandon()
      requires Wired() && sched.Sound() && enc.Config() && Closed() && terminal == [] && !dropped
      requires !overrun && schedule.logical <= 32 ==> |eq.queue| + 2 <= eq.Bound()
      requires Faulted() || overrun || schedule.logical > 32
      modifies this`terminal, this`dropped, this`state, eq`queue, eq`overflowed
      ensures Valid() && state == Failed
    {
      hide Scheduler.Sound, Closed, Outcome, Valid, Wired;
      var _ := PushTerminal(Error(BackendError));
      EnterFailed();
    }

    /** Finish a stream that has heard something: flush every stage, then conclude. */
    method FinishAudio() returns (r: Status)
      requires Wired() && sched.Sound() && Hearing() && Encoding() && Closed() && Keeping(enc.emitted) && !eq.backpressured
      requires pushed == |fe.emitted| && received == |pcm| && leftPadInjected && pcm != [] && terminal == [] && !dropped
      requires eq.finalizingFlush && |eq.queue| <= eq.maxEvents && !eq.aggressive && !Faulted()
      requires F.Fits(PaddedSamples(|pcm|))
      modifies this`pushed, this`transcript, this`terminal, this`dropped, this`faulted, this`state, fe, enc, enc.ring, enc.outRing
      modifies sched`d, sched`intact, sched`faulted, sched`outs, sched.aemb, eq`queue, eq`overflowed, eq`backpressured
      ensures Valid()
      ensures match r
        case Ok =>
          && state == Done && (fe.overflow <==> PaddedSamples(|pcm|) >= 0x4000_0000)
          && (!overrun && !Halted(sched.d, maxTokens) ==> sched.d.steps == 11 + CeilTokens(|pcm|))
        case BackendError => state == Failed
        case _ => false
      ensures !overrun ==> (r == Ok <==> !Faulted() && TailFits(old(sched.Standing())))
    {
      hide Wired, Hearing, Encoding, Closed, Valid, Flushed, Keeping, Expected, CeilTokens, FeedEmitted, StableFrames, Halted, Settled;
      hide RingState, Resident, Outputs, Tiles, Books, Shows, Faithful, Committed, Only, Text;
      ghost var e := enc.emitted;
      var ok := FlushAll();
      FlushedParts();
      if !ok {
        Abandon();
        return BackendError;
      }
      r := DecodeTail(e);
      FlushedParts();
      if r != Ok {
        Abandon();
        return BackendError;
      }
      TailDecoded();
      TranscriptIsText();
      Conclude(sched.d.partialText);
    }

    lemma FlushedParts()
      ensures Flushed() ==> enc.Config()
    {
    }

    /** Frontend and encoder to the end of the padded signal. */
    method FlushAll() returns (ok: bool)
      requires Wired() && sched.Sound() && Hearing() && Encoding() && Closed() && Keeping(enc.emitted)
      requires pushed == |fe.emitted| && received == |pcm| && leftPadInjected && pcm != []
      requires F.Fits(PaddedSamples(|pcm|))
      modifies this`pushed, this`faulted, fe, enc, enc.ring, enc.outRing
      ensures faulted == (old(faulted) || !ok)
      ensures fe.overflow <==> PaddedSamples(|pcm|) >= 0x4000_0000
      ensures sched.Sound() && enc.Config() && Closed() && Keeping(old(enc.emitted)) && old(enc.emitted) <= enc.emitted
      ensures old(enc.emitted) == FeedEmitted(schedule, StableFrames(|pcm|))
      ensures ok ==> Flushed()
    {
      hide RingState, Resident, Outputs, Tiles, Books, Shows, Faithful, AreBatchFrames, StableCount, FeedBatches, FeedEmitted, Only;
      StableSoFar();
      PaddedLength(|pcm|);
      PaddedOverflows(|pcm|);
      FlushFrontend();
      ok := FlushEncoder();
    }

    /** A stream that has heard nothing expects nothing. */
    lemma NothingHeard()
      requires Valid() && Live()
      ensures pcm == [] ==> sched.d.tokens == [] == Expected() && (!eq.backpressured ==> sched.d.pending.NoToken?)
    {
      hide RingState, Resident, Outputs, Tiles, Shows, Faithful, FeedBatches, FeedEmitted, AreBatchFrames;
      assert pcm == [] ==> |enc.mel| == 0 && enc.emitted == 0;
    }

    lemma NothingToFit(mark: Mark)
      requires pcm == [] && mark.queued <= eq.maxEvents
      ensures TailFits(mark)
    {
    }

    lemma EmptyText()
      ensures Text(k, []) == []
    {
    }

    /** From here on the terminal reserve is open. */
    method EnterFinishing()
      requires Valid() && Live() && !eq.backpressured
      modifies this`state, eq`finalizingFlush
      ensures Wired() && sched.Sound() && Hearing() && Encoding() && Closed() && Keeping(enc.emitted) && !eq.backpressured
      ensures eq.finalizingFlush && |eq.queue| <= eq.maxEvents && !eq.aggressive && !Faulted()
      ensures sched.Standing() == old(sched.Standing()) && sched.Standing().queued <= eq.maxEvents
      ensures |eq.queue| + 2 <= eq.Bound()
      ensures enc.Config() && (pcm == [] ==> sched.d.tokens == [] == Expected() && sched.d.pending.NoToken?)
    {
      hide Valid, Live, Scheduler.Sound, Hearing, Encoding, Keeping, Closed;
      LiveParts();
      NothingHeard();
      OpenReserve();
      state := Finishing;
    }

    method FinishLive() returns (r: Status)
      requires Valid() && Live() && Accepting()
      requires pcm != [] ==> F.Fits(PaddedSamples(|pcm|))
      modifies this`state, this`pushed, this`transcript, this`terminal, this`dropped, this`faulted, fe, enc, enc.ring, enc.outRing
      modifies sched`d, sched`intact, sched`faulted, sched`outs, sched.aemb, eq`queue, eq`overflowed, eq`backpressured, eq`finalizingFlush
      ensures Valid()
      ensures match r
        case Ok => state == Done
        case LimitExceeded => old(eq.backpressured) && eq.backpressured && |eq.queue| >= eq.Bound() && state == old(state)
        case BackendError => state == Failed
        case _ => false
      ensures r.Ok? && pcm != [] ==> (fe.overflow <==> PaddedSamples(|pcm|) >= 0x4000_0000)
      ensures r.Ok? && pcm != [] && !overrun && !Halted(sched.d, maxTokens) ==> sched.d.steps == 11 + CeilTokens(|pcm|)
      ensures !old(eq.backpressured) && !overrun ==> (r == Ok <==> !Faulted() && TailFits(old(sched.Standing())))
      ensures r.LimitExceeded? && old(|eq.queue| < eq.Bound()) ==>
        |sched.Standing().committed| > |old(sched.Standing()).committed|
    {
      hide *;
      AcceptingIsLive();
      if eq.backpressured {
        r := ResumeDecoder();
        if r == LimitExceeded {
          return;
        }
        if r != Ok {
          FailStream(r);
          return;
        }
      }
      LiveParts();
      EnterFinishing();
      if received == 0 {
        NothingToFit(sched.Standing());
        EmptyText();
        Conclude([]);
        return Ok;
      }
      r := FinishAudio();
    }

    /** Finish: idempotent once terminal; a stalled decoder must be drained first; otherwise the stream completes with
        the transcript of the whole padded signal, or fails. */
    method Finish() returns (r: Status)
      requires Valid() && (Accepting() && pcm != [] ==> F.Fits(PaddedSamples(|pcm|)))
      modifies this`state, this`pushed, this`transcript, this`terminal, this`dropped, this`faulted, fe, enc, enc.ring, enc.outRing
      modifies sched`d, sched`intact, sched`faulted, sched`outs, sched.aemb, eq`queue, eq`overflowed, eq`backpressured, eq`finalizingFlush
      ensures Valid()
      ensures match r
        case Ok =>
          if old(Accepting()) then state == Done
          else state == old(state) && terminal == old(terminal) && eq.queue == old(eq.queue)
        case LimitExceeded =>
          old(eq.backpressured) && Accepting() && eq.backpressured && |eq.queue| >= eq.Bound() && state == old(state)
        case InvalidState => old(state) == Failed == state && eq.queue == old(eq.queue)
        case BackendError => state == Failed && (Faulted() || overrun || schedule.logical > 32)
        case _ => false
      ensures r.Ok? && old(Accepting()) && pcm != [] ==> (fe.overflow <==> PaddedSamples(|pcm|) >= 0x4000_0000)
      ensures old(Accepting() && !eq.backpressured) && !overrun ==> (r == Ok <==> !Faulted() && TailFits(old(sched.Standing())))
      ensures r.Ok? && old(Accepting()) && pcm != [] && !overrun && !Halted(sched.d, maxTokens) ==>
        sched.d.steps == 11 + CeilTokens(|pcm|)
      ensures r.LimitExceeded? && old(|eq.queue| < eq.Bound()) ==>
        |sched.Standing().committed| > |old(sched.Standing()).committed|
    {
      if state == Done || state == Aborted {
        return Ok;
      }
      if state == Failed {
        return InvalidState;
      }
      r := FinishLive();
    }

    // ---- cancel, reset, poll ---------------------------------------------------------------------------

    method Abort()
      requires Valid() && Accepting()
      modifies this`state, this`terminal, this`dropped, eq`queue, eq`overflowed, eq`finalizingFlush
      ensures Valid() && state == Aborted && terminal == [Cancelled] && |eq.queue| == old(|eq.queue|) + 1
    {
      hide Valid, Live, Scheduler.Sound, Closed, Keeping, Hearing, Encoding;
      AcceptingIsLive();
      LiveParts();
      OpenReserve();
      var _ := PushTerminal(Cancelled);
      EnterAborted();
    }

    method EnterAborted()
      requires Wired() && sched.Sound() && enc.Config() && Closed() && !dropped && !Faulted() && terminal == [Cancelled]
      modifies this`state
      ensures Valid() && state == Aborted
    {
      hide Scheduler.Sound, Closed, Live;
      state := Aborted;
    }

    /** Cancel: one CANCELLED event, which always fits; a no-op once cancelled or failed. */
    method Cancel() returns (r: Status)
      requires Valid()
      modifies this`state, this`terminal, this`dropped, eq`queue, eq`overflowed, eq`finalizingFlush
      ensures Valid()
      ensures match old(state)
        case Done => r == InvalidState && state == Done && eq.queue == old(eq.queue)
        case Aborted => r == Ok && state == Aborted && eq.queue == old(eq.queue)
        case Failed => r == Ok && state == Failed && eq.queue == old(eq.queue)
        case _ => r == Ok && state == Aborted && terminal == [Cancelled] && |eq.queue| == old(|eq.queue|) + 1
    {
      if state == Done {
        return InvalidState;
      }
      if state == Aborted || state == Failed {
        return Ok;
      }
      r := Ok;
      Abort();
    }

    /** Public reset: not while running; everything but the configuration goes back to the beginning. */
    method Reset() returns (r: Status)
      requires Valid()
      modifies this, fe, enc, eq, sched
      ensures Valid() && eq.maxEvents == old(eq.maxEvents)
      ensures r == if old(state) == Running then InvalidState else Ok
      ensures r == InvalidState ==> state == old(state) && pcm == old(pcm) && eq.queue == old(eq.queue)
      ensures r == Ok ==> state == Created && pcm == [] && !overrun && eq.queue == [] && eq.polled == []
    {
      hide F.MelFrontend.Valid, EncoderKv.Valid, EncoderKv.Feeding, Scheduler.Sound, Closed, Outcome, Valid;
      if state == Running {
        return InvalidState;
      }
      r := Ok;
      ValidParts();
      ResetStages();
      ResetFields();
      Begun();
    }

    method ResetScheduler()
      requires Wired() && sched.Config() && eq.Valid() && eq.queue == [] && eq.polled == [] && !eq.backpressured
      modifies sched
      ensures sched.Sound() && sched.d == START && sched.intact && !sched.faulted
    {
      hide Books, Throttled, Shows, Faithful;
      sched.Reset();
    }

    method ResetStages()
      requires Wired() && enc.Config() && sched.Sound()
      modifies fe, enc, eq, sched
      ensures fe.Valid() && fe.audio == [] && fe.emitted == [] && !fe.finalized
      ensures enc.Valid() && enc.Feeding() && enc.mel == []
      ensures sched.Sound() && sched.d == START && sched.intact && !sched.faulted && eq.maxEvents == old(eq.maxEvents)
      ensures eq.queue == [] && eq.polled == [] && !eq.finalizingFlush && !eq.backpressured && !eq.aggressive
    {
      hide F.MelFrontend.Valid, EncoderKv.Valid, EncoderKv.Feeding, Scheduler.Sound;
      sched.BooksOf();
      fe.Reset();
      enc.Reset();
      eq.Reset();
      ResetScheduler();
    }

    method ResetFields()
      modifies this
      ensures state.Created? && received == pushed == pollSequence == 0 && !leftPadInjected
      ensures pcm == [] && !overrun && terminal == [] && !dropped && !faulted
    {
      state, received, leftPadInjected, pushed := Created, 0, false, 0;
      transcript, pollSequence := [], 0;
      pcm, overrun, terminal, dropped, faulted := [], false, [], false, false;
    }

    /** Deliver the oldest event with the next public sequence number. */
    method Poll() returns (e: seq<Event>, sequence: nat)
      requires Valid()
      modifies this`pollSequence, eq`queue, eq`polled
      ensures Valid() && |e| <= 1 && old(eq.queue) == e + eq.queue && eq.polled == old(eq.polled) + e
      ensures e == [] <==> old(eq.queue) == []
      ensures e != [] ==> sequence == |eq.polled|
    {
      hide Scheduler.Core, Shows, Only, Hearing, Encoding, Keeping, Outcome;
      e := eq.Poll();
      assert eq.polled + eq.queue == old(eq.polled + eq.queue);
      pollSequence := pollSequence + |e|;
      sequence := pollSequence;
    }

    // ---- what a consumer can rely on -------------------------------------------------------------------

    /** At any moment of any run: the TOKEN events shown so far are the decoder outputs in order with ids 1, 2, ...;
        snapshots have increasing revisions and extend each other; terminal events only end the trace. */
    lemma TraceContract(i: nat, j: nat)
      requires Valid()
      ensures var shown, committed := eq.polled + eq.queue, Committed(sched.d, sched.outs);
              && |Tokens(shown)| == |committed|
              && (i < |committed| ==>
                    Tokens(shown)[i] == Token(committed[i], k.piece(committed[i]), committed[i] in {1, 2, 32}, i + 1, 38 + i, 1280 * (i + 7)))
              && (i < |Snapshots(shown)| ==>
                    var s := Snapshots(shown)[i];
                    && s.PartialText? && 0 < s.revision <= |sched.d.tokens| && s.text == Text(k, sched.d.tokens[..s.revision])
                    && s.stablePrefixBytes == Utf8.StableLen(s.text) && s.audioEndSample == 1280 * (s.revision + 6))
              && (i < j < |Snapshots(shown)| ==>
                    && Snapshots(shown)[i].PartialText? && Snapshots(shown)[j].PartialText?
                    && Snapshots(shown)[i].revision < Snapshots(shown)[j].revision
                    && Snapshots(shown)[i].text <= Snapshots(shown)[j].text)
              && |terminal| <= |shown| && shown[|shown| - |terminal|..] == terminal == Terminals(shown)
              && (Accepting() ==> terminal == [])
              && (terminal <= [FinalText(transcript), Completed] || terminal == [Cancelled] || (|terminal| == 1 && terminal[0].Error?))
    {
      hide RingState, Resident, Outputs, Tiles, Books, Faithful, Only, Decoded;
      var shown := eq.polled + eq.queue;
      assert Shows(k, Committed(sched.d, sched.outs), sched.d.tokens, shown);
      assert i < |Snapshots(shown)| ==> SnapshotOf(k, sched.d.tokens, Snapshots(shown)[i]);
      if i < j < |Snapshots(shown)| {
        SnapshotsExtend(k, sched.d.tokens, Snapshots(shown), i, j);
      }
    }

    /** A completed run has the transcript of the uninterrupted pipeline, and its TOKEN events are that transcript's
        tokens, followed at most by EOS. */
    lemma CompletedRun()
      requires Valid() && state == Done && !overrun
      ensures sched.d.tokens == ExpectedTokens(k, pcm, maxTokens) && transcript == Text(k, sched.d.tokens)
      ensures pcm == [] ==> sched.d.tokens == []
      ensures pcm != [] ==>
        IsTranscript(k, Embs(k, Spectrogram(k, Padded(pcm)), 0, TotalGroups(|pcm|)), maxTokens, sched.d.tokens)
      ensures Tokens(eq.polled + eq.queue) == TokenTrace(k, sched.d.tokens + if sched.d.eos then [2] else [])
      ensures schedule.logical <= 32 ==> terminal == [FinalText(transcript), Completed]
    {
      hide RingState, Resident, Outputs, Tiles, Faithful, Only, Decoded, IsTranscript, Embs, Padded, Spectrogram;
      assert sched.d.tokens + [] == sched.d.tokens;
      if pcm != [] {
        DecodedIsTranscript(k, Embs(k, Spectrogram(k, Padded(pcm)), 0, TotalGroups(|pcm|)), maxTokens);
      }
    }
  }

  /** Create a session with its own stages. */
  method CreateStream(k: Kernels, maxTokens: int, schedule: Schedule, finishPhysical: nat, manual: bool, f16: bool,
                      maxEvents: nat, retainHistory: bool) returns (s: Stream)
    requires Normal(schedule) && finishPhysical in {4, 8, 16, 32, 128} && 1 <= maxEvents <= MAX_EVENTS
    ensures s.Valid() && s.state == Created && s.pcm == [] && !s.overrun && s.eq.maxEvents == maxEvents
    ensures s.k == k && s.maxTokens == maxTokens && s.schedule == schedule
    ensures s.eq.queue == s.eq.polled == [] && !s.eq.backpressured && s.sched.d == START && s.sched.outs == []
    ensures fresh(s) && fresh(s.fe) && fresh(s.enc) && fresh(s.enc.ring) && fresh(s.enc.outRing)
    ensures fresh(s.eq) && fresh(s.sched) && fresh(s.sched.aemb)
  {
    hide *;
    var fe := new F.MelFrontend(k, retainHistory);
    var enc := new EncoderKv(k, schedule, finishPhysical, true, manual, f16);
    var eq := new EventQueue(maxEvents);
    var sched := new Scheduler(k, maxTokens, enc, eq);
    s := new Stream(k, maxTokens, schedule, fe, enc, eq, sched);
  }
}
