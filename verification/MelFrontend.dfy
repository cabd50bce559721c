/** The incremental log-Mel frontend: chunked PCM, a bounded rolling tail, frames emitted as soon as they
    can no longer change. */
module MelFrontend {
  import opened Kernels
  import opened MelSpec
  import opened RingMath

  newtype int32 = x: int | -0x8000_0000 <= x < 0x8000_0000

  const INT32_MAX := 0x7fff_ffff

  /** The frontend addresses samples, padding included, through 32-bit indices. */
  predicate Fits(total: nat) {
    total + 400 <= INT32_MAX
  }

  /** A 32-bit result, wrapped around. */
  function Wrap32(x: int): (r: int32)
    ensures -0x8000_0000 <= x <= INT32_MAX ==> r as int == x
  {
    ((x + 0x8000_0000) % 0x1_0000_0000 - 0x8000_0000) as int32
  }

  /** One reflection at the end: the wrapped arithmetic gives the true value, which always fits. */
  lemma ReflectWrapped(r: int, len: int)
    requires 1 < len <= r <= INT32_MAX
    ensures Wrap32(Wrap32(Wrap32(2 * len) as int - 2) as int - r) as int == 2 * len - 2 - r
  {
  }

  /** Reflect an index at both ends until it lies inside. Doubling the length leaves the 32-bit range exactly when an index
      `len` or more away from the start meets a length of 2^30 or more. */
  method ReflectIndex(idx: int32, len: int32) returns (r: int32, ghost overflow: bool)
    requires -INT32_MAX <= idx as int
    ensures r as int == if len <= 0 then 0 else Reflect(idx as int, len as int)
    ensures overflow <==> 2 * len as int > INT32_MAX && !(-(len as int) < idx as int < len as int)
  {
    overflow := false;
    if len <= 1 {
      return 0, false;
    }
    r := idx;
    while r < 0 || r >= len
      invariant Reflect(r as int, len as int) == Reflect(idx as int, len as int)
      invariant -INT32_MAX <= r as int
      invariant overflow <==> 2 * len as int > INT32_MAX && !(-(len as int) < idx as int < len as int) &&
                              -(len as int) < r as int < len as int
      decreases 2 * (if r < 0 then -(r as int) else r as int) + (if r < 0 then 1 else 0)
    {
      if r < 0 {
        r := -r;
      } else {
        ReflectWrapped(r as int, len as int);
        overflow := overflow || 2 * len as int > INT32_MAX;
        r := Wrap32(Wrap32(Wrap32(2 * len as int) as int - 2) as int - r as int);
      }
    }
  }

  /** The window of frame f reaches past the end of n samples, and the doubled length does not fit. */
  predicate DoublesLength(f: nat, n: int) {
    2 * n > INT32_MAX && f * HOP + (N_FFT - 1) - PAD >= n
  }

  /** Completing the last frame of a signal of `total` samples doubles a length that does not fit. */
  predicate FinishOverflows(total: nat) {
    2 * total > INT32_MAX && total % HOP < 40
  }

  /** No stable frame ever overflows, and some frame left to the end does so exactly under this condition. */
  lemma OverflowsExactly(total: nat)
    ensures forall f: nat :: f < StableCount(total) ==> !DoublesLength(f, total)
    ensures (exists f: nat :: StableCount(total) <= f < BatchFrameCount(total) && DoublesLength(f, total)) <==> FinishOverflows(total)
  {
    if FinishOverflows(total) {
      var f := total / HOP - 1;
      assert StableCount(total) <= f < BatchFrameCount(total) && DoublesLength(f, total);
    }
  }

  /** Batch spectrogram: reflect-pad the whole signal once, then read contiguous windows. Here every length from 2^30 on
      is doubled. */
  method ComputeBatch(k: Kernels, audio: array<real>) returns (mel: seq<MelFrame>, ghost overflow: bool)
    requires Fits(audio.Length)
    ensures mel == Spectrogram(k, audio[..])
    ensures overflow <==> 2 * audio.Length > INT32_MAX
  {
    mel, overflow := [], false;
    if audio.Length / HOP == 0 {
      return;
    }
    var centered := new real[audio.Length + 2 * PAD];
    for i := 0 to centered.Length
      invariant forall j :: 0 <= j < i ==> centered[j] == audio[Reflect(j - PAD, audio.Length)]
      invariant overflow <==> 2 * audio.Length > INT32_MAX && i > audio.Length + PAD
    {
      var src := i - PAD;
      var ridx: int32 := src as int32;
      if !(0 <= src < audio.Length) {
        ghost var doubled;
        ridx, doubled := ReflectIndex(src as int32, audio.Length as int32);
        overflow := overflow || doubled;
      }
      centered[i] := audio[ridx];
    }
    for f := 0 to audio.Length / HOP
      invariant |mel| == f
      invariant forall g :: 0 <= g < f ==> mel[g] == BatchFrame(k, audio[..], g)
    {
      var start := f * HOP;
      assert centered[start..start + N_FFT] == Window(audio[..], f);
      mel := mel + [k.frame(centered[start..start + N_FFT])];
    }
  }

  class MelFrontend {
    const k: Kernels
    const retainHistory: bool

    var pcm: seq<real>            // rolling tail: absolute samples [pcmBase, totalReceived)
    var pcmBase: nat
    var totalReceived: nat
    var nextFrame: nat
    var framesDuringFeed: nat
    var framesAtFinish: nat
    var melFrames: seq<MelFrame>  // retained frames [melBaseFrame, nextFrame)
    var melBaseFrame: nat
    var finalized: bool

    ghost var audio: seq<real>        // everything fed since creation or reset
    ghost var emitted: seq<MelFrame>  // every frame emitted
    ghost var overflow: bool          // some 32-bit computation left its range

    ghost predicate Valid()
      reads this
    {
      && totalReceived == |audio|
      && Fits(|audio|)
      && nextFrame == |emitted|
      && AreBatchFrames(k, audio, emitted)
      && melBaseFrame <= nextFrame
      && melFrames == emitted[melBaseFrame..]
      && framesDuringFeed + framesAtFinish == nextFrame
      && (retainHistory ==> melBaseFrame == 0)
      && (overflow <==> finalized && FinishOverflows(|audio|))
      && if finalized then
           nextFrame == BatchFrameCount(|audio|) && pcm == [] && pcmBase == totalReceived && framesAtFinish <= 1
         else
           nextFrame == StableCount(|audio|) && framesAtFinish == 0 && TailInv()
    }

    /** The tail starts at the first sample the next frame reads, and is shorter than one window. */
    ghost predicate TailInv()
      reads this
    {
      pcmBase == FrameLo(nextFrame) <= |audio| && pcm == audio[pcmBase..] && |pcm| < N_FFT
    }

    constructor (k: Kernels, retainHistory: bool)
      ensures Valid() && audio == [] && emitted == [] && !finalized
      ensures this.k == k && this.retainHistory == retainHistory
    {
      this.k, this.retainHistory := k, retainHistory;
      pcm, pcmBase, totalReceived := [], 0, 0;
      nextFrame, framesDuringFeed, framesAtFinish := 0, 0, 0;
      melFrames, melBaseFrame, finalized := [], 0, false;
      audio, emitted, overflow := [], [], false;
    }

    static lemma Nothing(k: Kernels)
      ensures Fits(0) && AreBatchFrames(k, [], []) && StableCount(0) == 0 == FrameLo(0) && !FinishOverflows(0)
    {
    }

    method Reset()
      modifies this
      ensures Valid() && audio == [] && emitted == [] && !finalized
    {
      hide AreBatchFrames, Fits, FinishOverflows;
      Nothing(k);
      pcm, pcmBase, totalReceived := [], 0, 0;
      nextFrame, framesDuringFeed, framesAtFinish := 0, 0, 0;
      melFrames, melBaseFrame, finalized := [], 0, false;
      audio, emitted, overflow := [], [], false;
    }

    /** Resolve the window of frame f against the samples received so far, from the rolling tail only. */
    method FillWindow(f: nat, n: int32) returns (window: array<real>, ghost doubled: bool)
      requires 0 < n as int == |audio| && Fits(|audio|)
      requires pcmBase <= |audio| && pcm == audio[pcmBase..]
      requires f * HOP <= n as int
      requires ReadsFrom(f, n as int, pcmBase)
      ensures fresh(window) && window[..] == Window(audio, f)
      ensures doubled <==> DoublesLength(f, n as int)
    {
      window, doubled := new real[N_FFT], false;
      var start: int32 := (f * HOP) as int32;
      for i := 0 to N_FFT
        invariant forall j :: 0 <= j < i ==> window[j] == audio[SampleIndex(f, j, n as int)]
        invariant doubled <==> 2 * n as int > INT32_MAX && f * HOP + i - 1 - PAD >= n as int
      {
        var src: int32 := start + i as int32 - PAD as int32;
        var ridx := src;
        if !(0 <= src < n) {
          ghost var overflow;
          ridx, overflow := ReflectIndex(src, n);
          doubled := doubled || overflow;
        }
        assert ridx as int == SampleIndex(f, i, n as int);
        window[i] := pcm[ridx as int - pcmBase];
      }
    }

    method ComputeAndStoreFrame(f: nat, n: int32)
      requires 0 < n as int == |audio| && Fits(|audio|)
      requires pcmBase <= |audio| && pcm == audio[pcmBase..]
      requires f * HOP <= n as int
      requires ReadsFrom(f, n as int, pcmBase)
      modifies this`melFrames, this`emitted, this`overflow
      ensures emitted == old(emitted) + [BatchFrame(k, audio, f)]
      ensures overflow == (old(overflow) || DoublesLength(f, n as int))
      ensures melFrames == old(melFrames) + [BatchFrame(k, audio, f)]
    {
      var window, doubled := FillWindow(f, n);
      overflow := overflow || doubled;
      melFrames := melFrames + [k.frame(window[..])];
      emitted := emitted + [k.frame(window[..])];
    }

    /** Emit every frame whose window is already complete. */
    method EmitStableFrames()
      requires !finalized && totalReceived == |audio| && Fits(|audio|)
      requires nextFrame == |emitted| && melBaseFrame <= nextFrame && melFrames == emitted[melBaseFrame..]
      requires nextFrame <= StableCount(|audio|)
      requires AreBatchFrames(k, audio, emitted)
      requires pcmBase <= FrameLo(nextFrame) && pcmBase <= |audio| && pcm == audio[pcmBase..]
      requires framesDuringFeed == nextFrame
      requires !overflow
      modifies this`melFrames, this`emitted, this`overflow, this`nextFrame, this`framesDuringFeed
      ensures !overflow
      ensures nextFrame == |emitted| == StableCount(|audio|) == framesDuringFeed && pcmBase <= FrameLo(nextFrame)
      ensures melBaseFrame <= nextFrame && melFrames == emitted[melBaseFrame..]
      ensures AreBatchFrames(k, audio, emitted)
      ensures old(emitted) <= emitted
    {
      hide FrameLo, FrameHi, StableCount, BatchFrame, AreBatchFrames, ReadsFrom, DoublesLength;
      while FrameHi(nextFrame) <= totalReceived - 1
        invariant nextFrame == |emitted| == framesDuringFeed <= StableCount(|audio|)
        invariant melBaseFrame <= nextFrame && melFrames == emitted[melBaseFrame..]
        invariant AreBatchFrames(k, audio, emitted)
        invariant pcmBase <= FrameLo(nextFrame)
        invariant old(emitted) <= emitted && !overflow
        decreases totalReceived - nextFrame
      {
        StableReady(totalReceived, nextFrame, pcmBase);
        AppendFrame(k, audio, emitted);
        ComputeAndStoreFrame(nextFrame, totalReceived as int32);
        nextFrame := nextFrame + 1;
        framesDuringFeed := framesDuringFeed + 1;
      }
      StableIff(totalReceived, nextFrame);
    }

    /** What computing a stable frame needs. */
    static lemma StableReady(n: nat, f: nat, lo: nat)
      requires FrameHi(f) < n && lo <= FrameLo(f)
      ensures 0 < n && f < StableCount(n) && f * HOP <= n && f < n
      ensures ReadsFrom(f, n, lo) && !DoublesLength(f, n) && FrameLo(f) <= FrameLo(f + 1)
    {
      hide SampleIndex;
      StableIff(n, f);
      StableReadsInTail(f, n);
    }

    /** Drop the samples no later frame reads. */
    method Compact()
      requires totalReceived == |audio| && nextFrame == StableCount(|audio|)
      requires pcmBase <= FrameLo(nextFrame) && pcmBase <= |audio| && pcm == audio[pcmBase..]
      modifies this`pcm, this`pcmBase
      ensures TailInv()
    {
      var keepFrom := FrameLo(nextFrame);
      if keepFrom > pcmBase {
        var drop := keepFrom - pcmBase;
        pcm := if drop >= |pcm| then [] else pcm[drop..];
        pcmBase := keepFrom;
      }
    }

    /** Append samples to the tail; what has been emitted stays right. */
    method Receive(samples: seq<real>)
      requires Valid() && !finalized && Fits(|audio| + |samples|)
      modifies this`pcm, this`audio, this`totalReceived
      ensures audio == old(audio) + samples && totalReceived == |audio|
      ensures pcmBase <= FrameLo(nextFrame) && pcmBase <= |audio| && pcm == audio[pcmBase..]
      ensures AreBatchFrames(k, audio, emitted) && nextFrame <= StableCount(|audio|)
    {
      hide StableCount, FrameLo, FrameHi, AreBatchFrames, FinishOverflows;
      FramesGrow(k, audio, samples, emitted);
      StableGrows(|audio|, |samples|);
      pcm := pcm + samples;
      audio := audio + samples;
      totalReceived := totalReceived + |samples|;
    }

    static lemma StableGrows(n: nat, m: nat)
      ensures StableCount(n) <= StableCount(n + m)
    {
    }

    /** Samples in, stable frames out, tail cut. */
    method Advance(samples: seq<real>)
      requires Valid() && !finalized && Fits(|audio| + |samples|)
      modifies this`pcm, this`pcmBase, this`audio, this`totalReceived
      modifies this`melFrames, this`emitted, this`overflow, this`nextFrame, this`framesDuringFeed
      ensures Valid() && audio == old(audio) + samples && old(emitted) <= emitted
    {
      hide StableCount, FrameLo, FrameHi, AreBatchFrames, FinishOverflows, TailInv;
      Receive(samples);
      EmitStableFrames();
      Compact();
    }

    lemma Heard()
      requires Valid()
      ensures !finalized ==> |emitted| == (if |audio| <= 200 then 0 else (|audio| - 40) / 160) && |pcm| < 400
    {
      hide AreBatchFrames;
    }

    /** Feeding any chunk emits exactly the frames it makes stable; frames already emitted are the batch
        frames of the longer signal too. */
    method Feed(samples: seq<real>) returns (ok: bool)
      requires Valid() && Fits(|audio| + |samples|)
      modifies this
      ensures Valid() && finalized == old(finalized)
      ensures ok == !old(finalized)
      ensures audio == if ok then old(audio) + samples else old(audio)
      ensures old(emitted) <= emitted && melBaseFrame == old(melBaseFrame)
      ensures ok ==> |emitted| == (if |audio| <= 200 then 0 else (|audio| - 40) / 160) && |pcm| < 400
    {
      hide Valid;
      if finalized {
        return false;
      }
      if |samples| == 0 {
        assert audio + samples == audio;
        Heard();
        return true;
      }
      Advance(samples);
      Heard();
      return true;
    }

    method FeedSilence(n: nat) returns (ok: bool)
      requires Valid() && Fits(|audio| + n)
      modifies this
      ensures Valid() && finalized == old(finalized)
      ensures ok == !old(finalized)
      ensures audio == if ok then old(audio) + seq(n, _ => 0.0) else old(audio)
      ensures old(emitted) <= emitted && melBaseFrame == old(melBaseFrame)
    {
      ok := Feed(seq(n, _ => 0.0));
    }

    /** Compute one frame the end of the signal completes. */
    method FlushFrame()
      requires totalReceived == |audio| && Fits(|audio|)
      requires StableCount(|audio|) <= nextFrame < BatchFrameCount(|audio|)
      requires nextFrame == |emitted| && AreBatchFrames(k, audio, emitted)
      requires melBaseFrame <= nextFrame && melFrames == emitted[melBaseFrame..]
      requires pcmBase == FrameLo(StableCount(|audio|)) <= |audio| && pcm == audio[pcmBase..]
      modifies this`melFrames, this`emitted, this`overflow, this`nextFrame, this`framesAtFinish
      ensures overflow == (old(overflow) || FinishOverflows(|audio|))
      ensures nextFrame == old(nextFrame) + 1 == |emitted| && framesAtFinish == old(framesAtFinish) + 1
      ensures AreBatchFrames(k, audio, emitted) && old(emitted) <= emitted
      ensures melFrames == emitted[melBaseFrame..]
    {
      hide AreBatchFrames, BatchFrame, ReadsFrom;
      FinishReadsInTail(totalReceived, nextFrame);
      AppendFrame(k, audio, emitted);
      ComputeAndStoreFrame(nextFrame, totalReceived as int32);
      nextFrame := nextFrame + 1;
      framesAtFinish := framesAtFinish + 1;
    }

    /** Finishing completes the batch spectrogram of everything fed; a length is doubled past 32 bits exactly for the totals
        of FinishOverflows. */
    method Finish()
      requires Valid()
      modifies this
      ensures Valid() && finalized
      ensures audio == old(audio) && emitted == Spectrogram(k, audio) && (overflow <==> FinishOverflows(|audio|))
      ensures old(emitted) <= emitted && melBaseFrame == old(melBaseFrame)
    {
      hide StableCount, FrameLo, FrameHi, AreBatchFrames, FinishOverflows, Spectrogram;
      OverflowsLate(|audio|);
      if finalized {
        AllBatchFrames(k, audio, emitted);
        return;
      }
      finalized := true;
      var total := totalReceived;
      while nextFrame < total / HOP
        invariant pcmBase <= |audio| && pcm == audio[pcmBase..]
        invariant nextFrame == |emitted| <= BatchFrameCount(|audio|)
        invariant melBaseFrame <= nextFrame && melFrames == emitted[melBaseFrame..]
        invariant AreBatchFrames(k, audio, emitted)
        invariant framesDuringFeed == StableCount(|audio|) && framesDuringFeed + framesAtFinish == nextFrame
        invariant framesAtFinish <= 1 && pcmBase == FrameLo(framesDuringFeed)
        invariant old(emitted) <= emitted
        invariant overflow == (framesAtFinish > 0 && FinishOverflows(|audio|))
        modifies this`melFrames, this`emitted, this`overflow, this`nextFrame, this`framesAtFinish
      {
        FlushFrame();
      }
      pcm := [];
      pcmBase := total;
      AllBatchFrames(k, audio, emitted);
    }

    /** A total that overflows leaves a frame to the end. */
    static lemma OverflowsLate(total: nat)
      ensures FinishOverflows(total) ==> StableCount(total) < BatchFrameCount(total)
      ensures BatchFrameCount(total) <= StableCount(total) + 1
    {
    }

    lemma CountIs()
      requires Valid()
      ensures nextFrame == |emitted| && melBaseFrame <= |emitted|
    {
      hide AreBatchFrames;
    }

    /** Frames [base, base+n), if retained. */
    method FrameData(base: nat, n: nat) returns (frames: seq<MelFrame>)
      requires Valid()
      requires melBaseFrame <= base && base + n <= |emitted|
      ensures frames == emitted[base..base + n]
    {
      var rel := base - melBaseFrame;
      frames := melFrames[rel..rel + n];
    }

    method DiscardBefore(frame: nat)
      requires Valid()
      modifies this`melFrames, this`melBaseFrame
      ensures Valid()
      ensures melBaseFrame == if retainHistory || frame <= old(melBaseFrame) then old(melBaseFrame)
                              else if frame <= |emitted| then frame else |emitted|
    {
      if retainHistory || frame <= melBaseFrame {
        return;
      }
      var available := |melFrames|;
      var target := if frame < melBaseFrame + available then frame else melBaseFrame + available;
      if target <= melBaseFrame {
        return;
      }
      melFrames := melFrames[target - melBaseFrame..];
      melBaseFrame := target;
    }
  }
}
