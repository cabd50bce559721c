/** Padding, frame and group arithmetic of one stream: how much a feed slice or the finish adds at each stage. */
module StreamPlan {
  import opened Kernels
  import opened MelSpec
  import opened RingMath
  import opened EncoderPlan
  import opened Reference
  import opened Events
  import opened SchedulerSpec
  import F = MelFrontend

  const MAX_FEED_SAMPLES := 0x400_0000
  const DRAIN_SLICE := 16000
  const MEL_DRAIN_SLICE := 8

  function Zeros(n: nat): (r: seq<real>)
    ensures |r| == n
  {
    seq(n, _ => 0.0)
  }

  function CeilTokens(n: nat): nat {
    (n + SAMPLES_PER_TOKEN - 1) / SAMPLES_PER_TOKEN
  }

  lemma FeedLimits()
    ensures MAX_FEED_SAMPLES == 67108864 && DRAIN_SLICE == 16000
  {
  }

  /** Zero samples appended at finish: up to the next token boundary, then 17 tokens. */
  function RightPad(n: nat): nat {
    (SAMPLES_PER_TOKEN - n % SAMPLES_PER_TOKEN) % SAMPLES_PER_TOKEN + RIGHT_PAD_TOKENS * SAMPLES_PER_TOKEN
  }

  /** Samples of the whole padded signal of n input samples. */
  function PaddedSamples(n: nat): nat {
    STREAM_LEFT_PAD + n + RightPad(n)
  }

  /** The whole padded signal. */
  function Padded(pcm: seq<real>): seq<real> {
    Zeros(STREAM_LEFT_PAD) + pcm + Zeros(RightPad(|pcm|))
  }

  /** 32 tokens of 1280 zeros, the samples, zeros to the next token boundary and 17 more tokens of zeros. */
  lemma PaddedReads(pcm: seq<real>, i: nat)
    requires i < |Padded(pcm)|
    ensures |Padded(pcm)| == 1280 * (49 + (|pcm| + 1279) / 1280)
    ensures Padded(pcm)[i] == if 40960 <= i < 40960 + |pcm| then pcm[i - 40960] else 0.0
  {
    hide Padded;
    PaddedParts(pcm);
  }

  lemma PaddedParts(pcm: seq<real>)
    ensures |Padded(pcm)| == 40960 + |pcm| + RightPad(|pcm|)
    ensures forall i :: 0 <= i < |Padded(pcm)| ==> Padded(pcm)[i] == if 40960 <= i < 40960 + |pcm| then pcm[i - 40960] else 0.0
    ensures |pcm| + RightPad(|pcm|) == 1280 * (17 + (|pcm| + 1279) / 1280)
  {
  }

  /** Audio positions of the whole padded signal. */
  function TotalGroups(n: nat): (g: nat)
    ensures g >= PROMPT_LEN + 10
  {
    LEFT_PAD_TOKENS + RIGHT_PAD_TOKENS + CeilTokens(n)
  }

  /** Tokens of the uninterrupted pipeline over the whole padded signal: what every run must produce. */
  ghost function ExpectedTokens(k: Kernels, pcm: seq<real>, maxTokens: int): seq<int> {
    if pcm == [] then []
    else Decoded(k, Embs(k, Spectrogram(k, Padded(pcm)), 0, TotalGroups(|pcm|)), maxTokens)
  }

  /** The padded signal is a whole number of tokens, so its Mel and encoder frames divide evenly too. */
  lemma PaddedLength(n: nat)
    ensures PaddedSamples(n) == SAMPLES_PER_TOKEN * TotalGroups(n)
    ensures BatchFrameCount(PaddedSamples(n)) == 8 * TotalGroups(n)
    ensures PaddedSamples(n) % HOP == 0
  {
  }

  /** Finishing a stream doubles a length past 32 bits exactly when the padded signal has 2^30 samples or more. */
  lemma PaddedOverflows(n: nat)
    ensures F.FinishOverflows(PaddedSamples(n)) <==> PaddedSamples(n) >= 0x4000_0000
  {
    PaddedLength(n);
  }

  /** 1073679360 samples (18.6 hours) pad to 2^30 + 256, still within 32-bit indices. */
  lemma OverflowingInput()
    ensures PaddedSamples(1073679360) == 0x4000_0100 && F.Fits(PaddedSamples(1073679360))
    ensures F.FinishOverflows(PaddedSamples(1073679360))
  {
    PaddedOverflows(1073679360);
  }

  /** Mel frames that are stable once n > 0 samples have been fed behind the left pad. */
  function StableFrames(n: nat): (f: nat)
    ensures f == StableCount(STREAM_LEFT_PAD + n)
  {
    255 + (n + 120) / HOP
  }

  lemma StableFramesPerToken(n: nat)
    ensures var q, r := n / SAMPLES_PER_TOKEN, n % SAMPLES_PER_TOKEN;
            StableFrames(n) == 255 + 8 * q + (r + 120) / HOP
  {
  }

  /** One slice adds at most 100 stable frames; the very first one also releases the left pad. */
  lemma SliceFrames(n: nat, m: nat)
    requires m <= DRAIN_SLICE
    ensures StableFrames(n + m) <= StableFrames(n) + 100
    ensures StableFrames(m) <= 355
  {
  }

  /** Finish adds at most 145 frames to what is already stable. */
  lemma FinishFrames(n: nat)
    requires 0 < n
    ensures StableFrames(n) <= 8 * TotalGroups(n) <= StableFrames(n) + 145
  {
    StableFramesPerToken(n);
  }

  /** How far the encoder can get ahead of what it had emitted when `mel` frames were stable. */
  lemma EmissionStep(s: Schedule, mel: nat, mel': nat)
    requires Normal(s)
    requires mel <= mel' && (mel' <= mel + 145 || (mel == 0 && mel' <= 355))
    ensures mel' / 2 <= FeedEmitted(s, mel) + 200
  {
    LogicalFits(s);
    if ENC_KV_MAX_NEW <= Realizable(mel) {
      FeedLag(s, mel);
    }
  }

  lemma FeedNeverAhead(s: Schedule, mel: nat)
    requires 0 < s.logical
    ensures FeedEmitted(s, mel) <= mel / 2
  {
    if ENC_KV_MAX_NEW <= Realizable(mel) {
      FeedLag(s, mel);
    }
  }

  // ---- the finish tail -----------------------------------------------------------------------------------

  /** Decoder positions still missing when finish starts on a stream that has kept up: every position of the
      padded signal from the first one not yet stepped. */
  function FinishTail(s: Schedule, n: nat): int
    requires 0 < s.logical
  {
    TotalGroups(n) - Max(PREFILL_LEN, FeedEmitted(s, StableFrames(n)) / DOWNSAMPLE)
  }

  lemma CeilTokensOf(n: nat)
    ensures CeilTokens(n) == n / SAMPLES_PER_TOKEN + if n % SAMPLES_PER_TOKEN == 0 then 0 else 1
  {
  }

  /** A partial token makes its first hop stable from 40 samples on. */
  lemma HopsOf(r: nat)
    requires r < SAMPLES_PER_TOKEN
    ensures 0 <= (r + 120) / HOP <= 8
    ensures (r + 120) / HOP >= 1 <==> r >= 40
  {
  }

  lemma FourRowsEmitted(mel: nat)
    ensures FeedEmitted(Schedule(4, 4), mel) == if mel / 2 < ENC_KV_MAX_NEW then 0 else mel / 2 / 4 * 4
  {
  }

  /** With the default 4-row schedule the tail is 18 positions, or 19 when the last token holds 1..39 samples
      (and fewer before the decoder has started). */
  lemma DefaultTail(n: nat)
    requires 0 < n
    ensures var s, r := Schedule(4, 4), n % SAMPLES_PER_TOKEN;
            FinishTail(s, n) == if FeedEmitted(s, StableFrames(n)) < DOWNSAMPLE * PREFILL_LEN then 11 + CeilTokens(n)
                                else if 1 <= r < 40 then 19 else 18
  {
    hide FeedEmitted, StableFrames, CeilTokens;
    var q, r := n / SAMPLES_PER_TOKEN, n % SAMPLES_PER_TOKEN;
    StableFramesPerToken(n);
    FourRowsEmitted(StableFrames(n));
    CeilTokensOf(n);
    HopsOf(r);
  }

  function TailLimit(s: Schedule): nat {
    if s.logical <= 4 then 19 else 18 + s.logical / 4
  }

  lemma TailBounded(s: Schedule, n: nat)
    requires Normal(s) && 0 < n
    ensures FinishTail(s, n) <= TailLimit(s)
  {
    var f := StableFrames(n);
    StableFramesPerToken(n);
    LogicalFits(s);
    assert s.logical in {1, 2, 4, 8, 16, 32, 64, 128} by { LogicalIsPower(s); }
    if ENC_KV_MAX_NEW <= Realizable(f) {
      FeedLag(s, f);
      assert FeedEmitted(s, f) % s.logical == 0 by { MultipleOfLogical(s, f); }
    }
  }

  lemma LogicalIsPower(s: Schedule)
    requires Normal(s)
    ensures s.logical in {1, 2, 4, 8, 16, 32, 64, 128}
  {
    LogicalFits(s);
  }

  lemma MultipleOfLogical(s: Schedule, mel: nat)
    requires Normal(s)
    ensures FeedEmitted(s, mel) % s.logical == 0
  {
    LogicalIsPower(s);
    var c := SteadyCount(s, mel);
    MultipleMod(c, s.logical, 1);
    if s.logical == 128 {
    } else {
      LogicalMultiple(s.logical, c);
    }
  }

  lemma LogicalMultiple(l: nat, c: nat)
    requires l in {1, 2, 4, 8, 16, 32, 64}
    ensures (ENC_KV_MAX_NEW + c * l) % l == 0
  {
    ModUnique(ENC_KV_MAX_NEW + c * l, ENC_KV_MAX_NEW / l + c, 0, l);
  }

  /** The terminal reserve covers a TOKEN and a snapshot per tail position plus FINAL and COMPLETED for every input
      length exactly when a logical batch is at most 32 frames. */
  lemma ReserveCovers(s: Schedule)
    requires Normal(s)
    ensures (forall n: nat {:trigger FinishTail(s, n)} :: 0 < n ==> 2 * FinishTail(s, n) + 2 <= TERMINAL_HEADROOM) <==> s.logical <= 32
  {
    LogicalIsPower(s);
    if s.logical <= 32 {
      forall n: nat | 0 < n
        ensures 2 * FinishTail(s, n) + 2 <= TERMINAL_HEADROOM
      {
        TailBounded(s, n);
      }
    } else if s.logical == 64 {
      assert Realizable(StableFrames(40961)) == 255 && 127 / s.logical == 1;
      assert FinishTail(s, 40961) == 34;
    } else {
      assert Realizable(StableFrames(40961)) == 255 && 127 / s.logical == 0;
      assert FinishTail(s, 40961) == 44;
    }
  }

  // ---- the single-snapshot policy ------------------------------------------------------------------------

  /** Tokens one feed of `count` samples is taken to produce at most. */
  function Estimate(count: nat): nat {
    CeilTokens(count) + RIGHT_PAD_TOKENS + 2
  }

  function EmittedAfter(s: Schedule, n: nat): nat
    requires 0 < s.logical
  {
    if n == 0 then 0 else FeedEmitted(s, StableFrames(n))
  }

  /** Decoder positions that `count` samples behind n others make available. */
  function Arrivals(s: Schedule, n: nat, count: nat): int
    requires 0 < s.logical
  {
    Max(PREFILL_LEN, EmittedAfter(s, n + count) / DOWNSAMPLE) - Max(PREFILL_LEN, EmittedAfter(s, n) / DOWNSAMPLE)
  }

  lemma StableGap(n: nat, count: nat)
    ensures StableFrames(n) <= StableFrames(n + count) <= StableFrames(n) + count / HOP + 1
    ensures StableFrames(n) <= 255 ==> n < 40
    ensures n < 40 ==> StableFrames(n + count) <= 255 + (count + 159) / HOP
  {
  }

  lemma ArrivalsFit(s: Schedule, n: nat, count: nat)
    requires Normal(s) && s.logical <= 64 && 0 < count
    ensures Arrivals(s, n, count) <= Estimate(count)
  {
    hide StableFrames, FeedEmitted;
    StableGap(n, count);
    FeedNeverAhead(s, StableFrames(n + count));
    if n > 0 && ENC_KV_MAX_NEW <= Realizable(StableFrames(n)) {
      FeedLag(s, StableFrames(n));
    }
  }

  /** The estimate covers what a feed can make available, for every split of every stream, exactly when a logical batch is
      at most 64 frames. */
  lemma EstimateCovers(s: Schedule)
    requires Normal(s)
    ensures (forall n: nat, count: nat {:trigger Arrivals(s, n, count)} :: 0 < count ==> Arrivals(s, n, count) <= (count + 1279) / 1280 + 19) <==>
            s.logical <= 64
  {
    LogicalIsPower(s);
    if s.logical <= 64 {
      forall n: nat, count: nat | 0 < count
        ensures Arrivals(s, n, count) <= (count + 1279) / 1280 + 19
      {
        ArrivalsFit(s, n, count);
      }
    } else {
      assert Realizable(StableFrames(40999)) == 255 && Realizable(StableFrames(41000)) == 256 && 127 / s.logical == 0 && 128 / s.logical == 1;
      assert Arrivals(s, 40999, 1) == 26;
    }
  }
}
