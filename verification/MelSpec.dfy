/** The batch log-Mel spectrogram: reflect-padded 400-sample windows every 160 samples, last frame dropped. */
module MelSpec {
  import opened Kernels

  const N_FFT := 400
  const HOP := 160
  const PAD := 200

  /** Reflection of a sample index into [0, len), repeated until it lands inside. */
  function Reflect(idx: int, len: int): (r: int)
    requires 0 < len
    ensures 0 <= r < len
    decreases 2 * (if idx < 0 then -idx else idx) + (if idx < 0 then 1 else 0)
  {
    if len <= 1 then 0
    else if idx < 0 then Reflect(-idx, len)
    else if idx >= len then Reflect(2 * len - 2 - idx, len)
    else idx
  }

  /** The sample the i-th window position of frame f resolves to in a signal of n samples. */
  function SampleIndex(f: nat, i: int, n: int): (r: int)
    requires 0 < n
    ensures 0 <= r < n
  {
    Reflect(f * HOP + i - PAD, n)
  }

  /** The window of frame f over the whole signal. */
  function Window(audio: seq<real>, f: nat): (w: seq<real>)
    requires 0 < |audio|
    ensures |w| == N_FFT
  {
    seq(N_FFT, i requires 0 <= i < N_FFT => audio[SampleIndex(f, i, |audio|)])
  }

  function BatchFrame(k: Kernels, audio: seq<real>, f: nat): MelFrame
    requires 0 < |audio|
  {
    k.frame(Window(audio, f))
  }

  function BatchFrameCount(samples: int): nat {
    if samples <= 0 then 0 else samples / HOP
  }

  function Spectrogram(k: Kernels, audio: seq<real>): (s: seq<MelFrame>)
    ensures |s| == BatchFrameCount(|audio|)
  {
    if |audio| == 0 then [] else seq(|audio| / HOP, f requires 0 <= f => BatchFrame(k, audio, f))
  }

  /** Highest sample index the window of frame f touches; frame 0 reflects one sample past its direct end. */
  function FrameHi(f: nat): int {
    var directHi := f * HOP + (N_FFT - 1) - PAD;
    var lowest := f * HOP - PAD;
    var reflectHi := if lowest < 0 then -lowest else directHi;
    if directHi > reflectHi then directHi else reflectHi
  }

  /** Lowest sample index any frame from f on reads before the end of the signal is known. */
  function FrameLo(f: nat): nat {
    if f * HOP - PAD < 0 then 0 else f * HOP - PAD
  }

  /** Number of frames whose windows lie inside the first n samples. */
  function StableCount(n: nat): (c: nat)
    ensures c > 0 ==> FrameHi(c - 1) < n
    ensures FrameHi(c) >= n
    ensures c <= n / HOP <= c + 1
  {
    if n <= PAD then 0 else (n - 40) / HOP
  }

  lemma ReflectTwice(idx: int, len: int)
    requires 1 < len
    ensures 0 <= idx < len ==> Reflect(idx, len) == idx
    ensures -len < idx < 0 ==> Reflect(idx, len) == -idx
    ensures len <= idx <= 2 * len - 2 ==> Reflect(idx, len) == 2 * len - 2 - idx
  {
    if -len < idx < 0 {
      assert Reflect(-idx, len) == -idx;
    } else if len <= idx <= 2 * len - 2 {
      assert Reflect(2 * len - 2 - idx, len) == 2 * len - 2 - idx;
    }
  }

  /** Reflection only ever adds a multiple of the period 2 * len - 2 or negates: with its range, that determines it. */
  lemma {:induction false} ReflectPeriodic(idx: int, len: int)
    requires 1 < len
    ensures var r, t := Reflect(idx, len), 2 * len - 2;
            0 <= r < len && ((r - idx) % t == 0 || (r + idx) % t == 0)
    decreases 2 * (if idx < 0 then -idx else idx) + (if idx < 0 then 1 else 0)
  {
    var t := 2 * len - 2;
    if idx < 0 {
      ReflectPeriodic(-idx, len);
    } else if idx >= len {
      ReflectPeriodic(t - idx, len);
      var r := Reflect(idx, len);
      PeriodShift(r - (t - idx), t);
      PeriodShift(r - idx, t);
    } else {
      assert (idx - idx) % t == 0;
    }
  }

  lemma PeriodShift(x: int, t: int)
    requires 0 < t
    ensures x % t == 0 <==> (x + t) % t == 0
  {
    var d := (x + t) / t - x / t - 1;
    assert d * t == x % t - (x + t) % t;
    MultipleOutside(d, t);
  }

  lemma MultipleOutside(d: int, t: int)
    requires 0 < t
    ensures (d >= 1 ==> d * t >= t) && (d <= -1 ==> d * t <= -t)
  {
  }

  /** Frame f is computed from the 400 samples around sample 160f: 200 before it and 200 from it on, reflected at the start
      and at the end without repeating the edge sample. */
  lemma FrameReads(k: Kernels, audio: seq<real>, f: nat)
    requires 200 < |audio| && f < |audio| / 160
    ensures |Spectrogram(k, audio)| == |audio| / 160
    ensures Spectrogram(k, audio)[f] == k.frame(seq(400, i requires 0 <= i < 400 =>
              var p, n := 160 * f + i - 200, |audio|;
              audio[if p < 0 then -p else if p < n then p else 2 * n - 2 - p]))
  {
    var w := seq(400, i requires 0 <= i < 400 =>
      var p, n := 160 * f + i - 200, |audio|;
      audio[if p < 0 then -p else if p < n then p else 2 * n - 2 - p]);
    forall i | 0 <= i < 400
      ensures Window(audio, f)[i] == w[i]
    {
      ReflectTwice(160 * f + i - 200, |audio|);
    }
    assert Window(audio, f) == w;
  }

  /** A stable window reads the same samples whatever is appended later. */
  lemma StableWindow(a: seq<real>, b: seq<real>, f: nat)
    requires 0 < |a|
    requires FrameHi(f) < |a|
    ensures Window(a + b, f) == Window(a, f)
  {
    forall i {:trigger SampleIndex(f, i, |a|)} | 0 <= i < N_FFT
      ensures SampleIndex(f, i, |a + b|) == SampleIndex(f, i, |a|)
    {
      ReflectTwice(f * HOP + i - PAD, |a|);
      ReflectTwice(f * HOP + i - PAD, |a + b|);
    }
  }

  /** Every sample the window of frame f resolves to lies at or after lo. */
  ghost predicate ReadsFrom(f: nat, n: int, lo: int)
    requires 0 < n
  {
    forall i :: 0 <= i < N_FFT ==> SampleIndex(f, i, n) >= lo
  }

  lemma StableReadsInTail(f: nat, n: nat)
    requires FrameHi(f) < n
    ensures ReadsFrom(f, n, FrameLo(f))
  {
    forall i | 0 <= i < N_FFT
      ensures SampleIndex(f, i, n) >= FrameLo(f)
    {
      ReflectTwice(f * HOP + i - PAD, n);
    }
  }

  /** At most one frame is still missing at the end, and its reads stay inside the tail kept for it. */
  lemma FinishReadsInTail(n: nat, f: nat)
    requires StableCount(n) <= f < BatchFrameCount(n)
    ensures f == StableCount(n)
    ensures ReadsFrom(f, n, FrameLo(f))
    ensures n % HOP < 40 || n < 2 * PAD
  {
    forall i | 0 <= i < N_FFT
      ensures SampleIndex(f, i, n) >= FrameLo(f)
    {
      ReflectTwice(f * HOP + i - PAD, n);
    }
  }

  /** s is an initial part of the frames of the batch spectrogram of audio. */
  ghost predicate AreBatchFrames(k: Kernels, audio: seq<real>, s: seq<MelFrame>) {
    forall f :: 0 <= f < |s| ==> |audio| > 0 && s[f] == BatchFrame(k, audio, f)
  }

  lemma AllBatchFrames(k: Kernels, audio: seq<real>, s: seq<MelFrame>)
    requires AreBatchFrames(k, audio, s) && |s| == BatchFrameCount(|audio|)
    ensures s == Spectrogram(k, audio)
  {
  }

  lemma AppendFrame(k: Kernels, audio: seq<real>, s: seq<MelFrame>)
    requires AreBatchFrames(k, audio, s) && 0 < |audio|
    ensures AreBatchFrames(k, audio, s + [BatchFrame(k, audio, |s|)])
  {
    hide BatchFrame;
  }

  /** Frames already stable are batch frames of any longer signal. */
  lemma FramesGrow(k: Kernels, audio: seq<real>, more: seq<real>, s: seq<MelFrame>)
    requires AreBatchFrames(k, audio, s) && |s| <= StableCount(|audio|)
    ensures AreBatchFrames(k, audio + more, s)
  {
    hide StableCount, Window;
    forall f | 0 <= f < |s|
      ensures |audio| > 0 && s[f] == BatchFrame(k, audio + more, f)
    {
      StableIff(|audio|, f);
      StableWindow(audio, more, f);
    }
  }

  /** A frame is stable exactly when its window has been received. */
  lemma StableIff(n: nat, f: nat)
    ensures FrameHi(f) < n <==> f < StableCount(n)
    ensures f < StableCount(n) ==> f * HOP <= n && 0 < n
  {
  }

  /** Even-length trimming of a spectrogram: an odd one loses its first frame. */
  function EvenTrim(s: seq<MelFrame>): (r: seq<MelFrame>)
    ensures |r| == |s| - |s| % 2
  {
    if |s| % 2 != 0 then s[1..] else s
  }
}
