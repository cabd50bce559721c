/** The legacy bounded-window encoder: 3000-frame Mel chunks overlapping by half, run once over a whole recording or
    replayed while the Mel stream grows. */
module LegacyEncoder {
  import opened Kernels
  import opened RingMath
  import opened ConvStem
  import opened EncoderSpec
  import opened EncoderKv

  const CHUNK_MEL := 3000
  const OVERLAP := 750
  const MEL_STRIDE := 1500
  const EMIT_MEL := 256

  /** Convolution output rows of n Mel frames. */
  function ConvOut(n: int): (r: nat)
    ensures n >= 0 ==> r == (n + 1) / 2
  {
    if n <= 0 then 0
    else
      StemDims(n);
      CausalConvDims(CausalConvDims(n, 3, 1).outLen, 3, 2).outLen
  }

  lemma ConvOutIs(n: nat)
    ensures ConvOut(n) == (n + 1) / 2
  {
  }

  /** Rows cut off on the left so that whole adapter groups remain. */
  function Trunc(n: int): (t: nat)
    ensures t < DOWNSAMPLE && t <= ConvOut(n)
  {
    ConvOut(n) % DOWNSAMPLE
  }

  function EncTokens(n: int): nat { ConvOut(n) - Trunc(n) }

  /** Rows of a chunk that repeat the previous chunk. */
  function Skip(c: nat): nat { if c == 0 then 0 else OVERLAP }

  /** An emitted row: row `row` of a run of chunk `chunk` that cut its first `cut` convolution rows, at rotary offset
      `rope`. */
  datatype Emit = Emit(chunk: nat, cut: nat, row: nat, rope: nat)

  /** What one run of chunk c over `len` Mel frames contributes from local row `from` on. */
  function ChunkEmits(c: nat, len: nat, from: nat): (r: seq<Emit>)
    ensures |r| == Max(0, EncTokens(len) - from)
  {
    seq(Max(0, EncTokens(len) - from), i requires 0 <= i => Emit(c, Trunc(len), from + i, OVERLAP * c))
  }

  /** The batch schedule from chunk c on. */
  function BatchFrom(total: nat, c: nat): seq<Emit>
    decreases total - MEL_STRIDE * c
  {
    if MEL_STRIDE * c >= total then []
    else
      var len := Min(CHUNK_MEL, total - MEL_STRIDE * c);
      if EncTokens(len) <= Skip(c) then [] else ChunkEmits(c, len, Skip(c)) + BatchFrom(total, c + 1)
  }

  /** Contributions of the first c chunks when they are all complete. */
  function Complete(c: nat): seq<Emit> {
    if c == 0 then [] else Complete(c - 1) + ChunkEmits(c - 1, CHUNK_MEL, Skip(c - 1))
  }

  lemma {:induction false} CompleteLength(c: nat)
    ensures |Complete(c)| == if c == 0 then 0 else OVERLAP * (c + 1)
  {
    if c > 0 {
      CompleteLength(c - 1);
    }
  }

  /** Complete chunks can be split off the front of the batch schedule. */
  lemma {:induction false} BatchSplit(total: nat, c: nat)
    requires c > 0 ==> MEL_STRIDE * (c - 1) + CHUNK_MEL <= total
    ensures BatchFrom(total, 0) == Complete(c) + BatchFrom(total, c)
  {
    if c > 0 {
      BatchSplit(total, c - 1);
      assert BatchFrom(total, c - 1) == ChunkEmits(c - 1, CHUNK_MEL, Skip(c - 1)) + BatchFrom(total, c);
      assert Complete(c - 1) + (ChunkEmits(c - 1, CHUNK_MEL, Skip(c - 1)) + BatchFrom(total, c)) ==
             Complete(c) + BatchFrom(total, c);
    }
  }

  // ---- closed forms --------------------------------------------------------------------------------------

  /** The last chunk that contributes. */
  function LastChunk(total: nat): nat {
    if total <= CHUNK_MEL then 0 else (total + MEL_STRIDE - 1) / MEL_STRIDE - 2
  }

  /** Rows the left truncation of the last chunk loses: a last chunk with an odd index starts at a Mel frame that is
      4 modulo 8. */
  function Lost(total: nat): nat {
    if LastChunk(total) % 2 == 1 then 2 else 0
  }

  /** A chunk of whole-8 length, or 4 more, keeps all but the rows its truncation cuts. */
  lemma ChunkRows(len: nat, odd: bool)
    requires len % 8 == if odd then 4 else 0
    ensures Trunc(len) == (if odd then 2 else 0) && EncTokens(len) == len / 2 - Trunc(len)
  {
    hide ConvOut;
    ConvOutIs(len);
    var a := len / 8;
    assert len == 8 * a + if odd then 4 else 0;
    assert ConvOut(len) == 4 * a + if odd then 2 else 0;
  }

  lemma ChunkTooShort(len: nat, c: nat)
    requires 0 < c && len <= MEL_STRIDE
    ensures EncTokens(len) <= Skip(c)
  {
    hide ConvOut;
    ConvOutIs(len);
  }

  /** Nothing comes behind the last contributing chunk. */
  lemma LastIsLast(total: nat, c: nat)
    requires MEL_STRIDE * (c + 2) >= total
    ensures BatchFrom(total, c + 1) == []
  {
    hide EncTokens;
    if MEL_STRIDE * (c + 1) < total {
      ChunkTooShort(Min(CHUNK_MEL, total - MEL_STRIDE * (c + 1)), c + 1);
    }
  }

  /** Chunk c is complete, or the last one. */
  lemma ChunkShape(total: nat, c: nat)
    requires total % 8 == 0 && MEL_STRIDE * c + Skip(c) * 2 < total
    ensures var len := Min(CHUNK_MEL, total - MEL_STRIDE * c);
            && EncTokens(len) > Skip(c)
            && (MEL_STRIDE * (c + 2) < total ==> len == CHUNK_MEL && c < LastChunk(total) && Trunc(len) == 0)
            && (MEL_STRIDE * (c + 2) >= total ==>
                  c == LastChunk(total) && Trunc(len) == Lost(total) && EncTokens(len) == total / 2 - OVERLAP * c - Lost(total)
                  && BatchFrom(total, c + 1) == [])
  {
    hide ConvOut, EncTokens, Trunc, LastChunk, BatchFrom;
    LastChunkIs(total, c);
    RestMod8(total, c);
    if MEL_STRIDE * (c + 2) < total {
      ChunkRows(CHUNK_MEL, false);
    } else {
      ChunkRows(total - MEL_STRIDE * c, c % 2 == 1);
      LastIsLast(total, c);
    }
  }

  lemma FullChunk()
    ensures EncTokens(CHUNK_MEL) == MEL_STRIDE
  {
    hide ConvOut;
    ConvOutIs(CHUNK_MEL);
  }

  lemma LastChunkIs(total: nat, c: nat)
    requires MEL_STRIDE * c + Skip(c) * 2 < total
    ensures MEL_STRIDE * (c + 2) < total ==> c < LastChunk(total)
    ensures MEL_STRIDE * (c + 2) >= total ==> c == LastChunk(total)
  {
  }

  lemma RestMod8(total: nat, c: nat)
    requires total % 8 == 0 && MEL_STRIDE * c <= total
    ensures (total - MEL_STRIDE * c) % 8 == 4 * (c % 2)
  {
  }

  /** The schedule emits total/2 rows, less the two lost when the last chunk has an odd index. */
  lemma {:induction false} CountFrom(total: nat, c: nat)
    requires total % 8 == 0 && MEL_STRIDE * c + Skip(c) * 2 < total
    ensures |BatchFrom(total, c)| == total / 2 - OVERLAP * c - Skip(c) - Lost(total)
    decreases total - MEL_STRIDE * c
  {
    hide ConvOut, LastChunk;
    ChunkShape(total, c);
    if MEL_STRIDE * (c + 2) < total {
      CountFrom(total, c + 1);
    }
  }

  /** The batch total equals half the Mel frames exactly when the last contributing chunk has an even index. */
  lemma TotalTokens(total: nat)
    requires total % 8 == 0
    ensures |BatchFrom(total, 0)| == total / 2 - Lost(total) || total == 0
    ensures |BatchFrom(total, 0)| == total / 2 <==> LastChunk(total) % 2 == 0
  {
    if total > 0 {
      CountFrom(total, 0);
    }
  }

  /** 3008 Mel frames give 1502 rows, not 1504. */
  lemma TotalTokensShort()
    ensures |BatchFrom(3008, 0)| == 1502
  {
    TotalTokens(3008);
  }

  /** The rows come out in stream order: row g of the schedule sits at rotary position g and is convolution frame g of the
      stream, shifted by the lost rows from the last chunk on. */
  lemma {:induction false} EmitAt(total: nat, c: nat, g: nat)
    requires total % 8 == 0 && MEL_STRIDE * c + Skip(c) * 2 < total && g < |BatchFrom(total, c)|
    ensures var e := BatchFrom(total, c)[g];
            && c <= e.chunk <= LastChunk(total) && e.rope == OVERLAP * e.chunk
            && e.rope + e.row == OVERLAP * c + Skip(c) + g
            && e.cut == if e.chunk == LastChunk(total) then Lost(total) else 0
    decreases total - MEL_STRIDE * c
  {
    hide ConvOut, EncTokens, Trunc, LastChunk, Lost;
    ChunkShape(total, c);
    FullChunk();
    var len := Min(CHUNK_MEL, total - MEL_STRIDE * c);
    var head := ChunkEmits(c, len, Skip(c));
    assert BatchFrom(total, c) == head + BatchFrom(total, c + 1);
    if g < |head| {
      assert BatchFrom(total, c)[g] == head[g] == Emit(c, Trunc(len), Skip(c) + g, OVERLAP * c);
    } else {
      assert BatchFrom(total, c)[g] == BatchFrom(total, c + 1)[g - |head|];
      EmitAt(total, c + 1, g - |head|);
    }
  }

  // ---- rows ----------------------------------------------------------------------------------------------

  /** K/V of one layer over the rows of a run, positions counted from its rotary offset. */
  function RunKvs(k: Kernels, l: nat, rope: nat, x: seq<Hidden>): (r: seq<KV>)
    ensures |r| == |x|
  {
    seq(|x|, p requires 0 <= p < |x| => k.kv(l, rope + p, x[p]))
  }

  /** Row j of a layer: it attends over its causal window among the rows of the run. */
  function RunRow(k: Kernels, l: nat, rope: nat, x: seq<Hidden>, j: nat): Hidden
    requires j < |x|
  {
    k.block(l, rope + j, x[j], multiset(RunKvs(k, l, rope, x)[WindowStart(j)..j + 1]))
  }

  function RunLayer(k: Kernels, l: nat, rope: nat, x: seq<Hidden>): (r: seq<Hidden>)
    ensures |r| == |x|
  {
    seq(|x|, j requires 0 <= j < |x| => RunRow(k, l, rope, x, j))
  }

  function RunLayers(k: Kernels, rope: nat, x: seq<Hidden>, l: nat): (r: seq<Hidden>)
    ensures |r| == |x|
  {
    if l == 0 then x else RunLayer(k, l - 1, rope, RunLayers(k, rope, x, l - 1))
  }

  /** Output of one run over a Mel slice: the left truncation cuts the convolution rows in front of the layers. */
  function ChunkRun(k: Kernels, slice: seq<MelFrame>, rope: nat): (r: seq<Hidden>)
    ensures |r| == EncTokens(|slice|)
  {
    NormRows(k, RunLayers(k, rope, Stem(k, slice)[Trunc(|slice|)..], k.layers))
  }

  lemma RunLayerPrefix(k: Kernels, l: nat, rope: nat, x: seq<Hidden>, n: nat)
    requires n <= |x|
    ensures RunLayer(k, l, rope, x)[..n] == RunLayer(k, l, rope, x[..n])
  {
    var r := RunLayer(k, l, rope, x[..n]);
    forall j {:trigger r[j]} | 0 <= j < n
      ensures RunLayer(k, l, rope, x)[j] == r[j]
    {
      assert RunKvs(k, l, rope, x)[WindowStart(j)..j + 1] == RunKvs(k, l, rope, x[..n])[WindowStart(j)..j + 1];
    }
  }

  /** The rows of a run never depend on later rows. */
  lemma {:induction false} RunPrefix(k: Kernels, rope: nat, x: seq<Hidden>, l: nat, n: nat)
    requires n <= |x|
    ensures RunLayers(k, rope, x, l)[..n] == RunLayers(k, rope, x[..n], l)
  {
    hide RunLayer, RunLayers;
    RunStep(k, rope, x, l);
    RunStep(k, rope, x[..n], l);
    if l > 0 {
      RunPrefix(k, rope, x, l - 1, n);
      RunLayerPrefix(k, l - 1, rope, RunLayers(k, rope, x, l - 1), n);
    }
  }

  lemma RunStep(k: Kernels, rope: nat, x: seq<Hidden>, l: nat)
    ensures RunLayers(k, rope, x, l) == if l == 0 then x else RunLayer(k, l - 1, rope, RunLayers(k, rope, x, l - 1))
  {
  }

  /** Convolution rows of an even-length slice are those of any longer chunk. */
  lemma SliceRows(k: Kernels, slice: seq<MelFrame>, rest: seq<MelFrame>, cut: nat, n: nat)
    requires |slice| % 2 == 0 && cut + n <= |slice| / 2
    ensures Stem(k, slice)[cut..cut + n] == StemRows(k, slice + rest, cut, n)
  {
    hide Stem, StemAt;
    var r := StemRows(k, slice + rest, cut, n);
    forall i {:trigger r[i]} | 0 <= i < n
      ensures Stem(k, slice)[cut..cut + n][i] == r[i]
    {
      StemOfWholeStream(k, slice, cut + i);
      StemPrefix(k, slice, rest, cut + i);
    }
  }

  /** The row an emission stands for: the layers over the kept convolution rows of its chunk up to its own, whatever the
      length of the run. */
  function RowOf(k: Kernels, mel: seq<MelFrame>, e: Emit): Hidden {
    if MEL_STRIDE * e.chunk > |mel| then ZERO_HIDDEN
    else k.norm(RunLayers(k, e.rope, StemRows(k, mel[MEL_STRIDE * e.chunk..], e.cut, e.row + 1), k.layers)[e.row])
  }

  function RowsOf(k: Kernels, mel: seq<MelFrame>, s: seq<Emit>): (r: seq<Hidden>)
    ensures |r| == |s|
  {
    seq(|s|, i requires 0 <= i < |s| => RowOf(k, mel, s[i]))
  }

  lemma RowsOfConcat(k: Kernels, mel: seq<MelFrame>, a: seq<Emit>, b: seq<Emit>)
    ensures RowsOf(k, mel, a + b) == RowsOf(k, mel, a) + RowsOf(k, mel, b)
  {
  }

  /** A run over an even-length prefix of a chunk yields the rows its emissions stand for. */
  lemma ChunkRunRows(k: Kernels, mel: seq<MelFrame>, c: nat, len: nat, from: nat)
    requires MEL_STRIDE * c + len <= |mel| && len % 2 == 0 && from <= EncTokens(len)
    ensures ChunkRun(k, mel[MEL_STRIDE * c..MEL_STRIDE * c + len], OVERLAP * c)[from..] == RowsOf(k, mel, ChunkEmits(c, len, from))
  {
    hide RunLayers, StemRows, Stem, ConvOut;
    var at := MEL_STRIDE * c;
    var rows := RowsOf(k, mel, ChunkEmits(c, len, from));
    var run := ChunkRun(k, mel[at..at + len], OVERLAP * c);
    forall i {:trigger rows[i]} | 0 <= i < |rows|
      ensures run[from..][i] == rows[i]
    {
      ChunkRunRow(k, mel, c, len, from + i);
      assert ChunkEmits(c, len, from)[i] == Emit(c, Trunc(len), from + i, OVERLAP * c);
    }
  }

  lemma LastOfPrefix<T>(s: seq<T>, i: nat)
    requires i < |s|
    ensures s[..i + 1][i] == s[i]
  {
  }

  lemma ChunkRunAt(k: Kernels, slice: seq<MelFrame>, rope: nat, row: nat)
    requires row < EncTokens(|slice|)
    ensures Trunc(|slice|) + row < |Stem(k, slice)| == ConvOut(|slice|)
    ensures ChunkRun(k, slice, rope)[row] == k.norm(RunLayers(k, rope, Stem(k, slice)[Trunc(|slice|)..], k.layers)[row])
  {
    hide ConvOut, RunLayers, Stem;
    ConvOutIs(|slice|);
  }

  lemma ChunkRunRow(k: Kernels, mel: seq<MelFrame>, c: nat, len: nat, row: nat)
    requires MEL_STRIDE * c + len <= |mel| && len % 2 == 0 && row < EncTokens(len)
    ensures ChunkRun(k, mel[MEL_STRIDE * c..MEL_STRIDE * c + len], OVERLAP * c)[row] ==
            RowOf(k, mel, Emit(c, Trunc(len), row, OVERLAP * c))
  {
    hide RunLayers, StemRows, Stem, ChunkRun, EncTokens, Trunc, ConvOut;
    var at, cut, rope := MEL_STRIDE * c, Trunc(len), OVERLAP * c;
    var slice, rest := mel[at..at + len], mel[at + len..];
    assert mel[at..] == slice + rest;
    ChunkRunAt(k, slice, rope, row);
    ConvOutIs(len);
    var kept := Stem(k, slice)[cut..];
    SliceRows(k, slice, rest, cut, row + 1);
    assert kept[..row + 1] == Stem(k, slice)[cut..cut + (row + 1)];
    RunPrefix(k, rope, kept, k.layers, row + 1);
    LastOfPrefix(RunLayers(k, rope, kept, k.layers), row);
  }

  /** Every emission reads only Mel frames below n. */
  ghost predicate Within(n: nat, s: seq<Emit>) {
    forall i :: 0 <= i < |s| ==> MEL_STRIDE * s[i].chunk + 2 * (s[i].cut + s[i].row) + 1 < n
  }

  lemma StemRowsPrefix(k: Kernels, mel: seq<MelFrame>, more: seq<MelFrame>, q: nat, n: nat)
    requires 2 * (q + n) <= |mel|
    ensures StemRows(k, mel + more, q, n) == StemRows(k, mel, q, n)
  {
    var r := StemRows(k, mel, q, n);
    forall j {:trigger r[j]} | 0 <= j < n
      ensures StemRows(k, mel + more, q, n)[j] == r[j]
    {
      StemPrefix(k, mel, more, q + j);
    }
  }

  /** Rows already emitted do not change when the Mel stream grows. */
  lemma RowsGrow(k: Kernels, mel: seq<MelFrame>, more: seq<MelFrame>, s: seq<Emit>)
    requires Within(|mel|, s)
    ensures RowsOf(k, mel + more, s) == RowsOf(k, mel, s)
  {
    hide RunLayers, StemRows;
    var rows := RowsOf(k, mel, s);
    forall i {:trigger rows[i]} | 0 <= i < |s|
      ensures RowsOf(k, mel + more, s)[i] == rows[i]
    {
      var at := MEL_STRIDE * s[i].chunk;
      assert (mel + more)[at..] == mel[at..] + more;
      StemRowsPrefix(k, mel[at..], more, s[i].cut, s[i].row + 1);
    }
  }

  // ---- against the direct recursion ----------------------------------------------------------------------

  /** One layer over rows of the direct recursion is the next layer of the recursion. */
  lemma LayerIsDirect(k: Kernels, mel: seq<MelFrame>, n: nat, l: nat)
    ensures RunLayer(k, l, 0, HidRows(k, mel, l, 0, n)) == HidRows(k, mel, l + 1, 0, n)
  {
    var x, r := HidRows(k, mel, l, 0, n), HidRows(k, mel, l + 1, 0, n);
    forall j {:trigger r[j]} | 0 <= j < n
      ensures RunLayer(k, l, 0, x)[j] == r[j]
    {
      var w := EncoderSpec.Window(k, mel, l, j);
      forall i {:trigger w[i]} | 0 <= i < |w|
        ensures RunKvs(k, l, 0, x)[WindowStart(j)..j + 1][i] == w[i]
      {
        assert x[WindowStart(j) + i] == Hid(k, mel, l, WindowStart(j) + i);
        assert w[i] == KVAt(k, mel, l, WindowStart(j) + i);
      }
      assert RunKvs(k, l, 0, x)[WindowStart(j)..j + 1] == w;
    }
  }

  /** Without a cut, a run from the start of the stream is the direct recursion. */
  lemma {:induction false} RunIsDirect(k: Kernels, mel: seq<MelFrame>, n: nat, l: nat)
    ensures RunLayers(k, 0, StemRows(k, mel, 0, n), l) == HidRows(k, mel, l, 0, n)
  {
    hide RunLayer, RunLayers, HidRows, StemRows;
    RunStep(k, 0, StemRows(k, mel, 0, n), l);
    if l == 0 {
      LayerZeroRows(k, mel, 0, n);
    } else {
      RunIsDirect(k, mel, n, l - 1);
      LayerIsDirect(k, mel, n, l - 1);
    }
  }

  /** The rows of a run from the start of the stream are those of the direct recursion. */
  ghost predicate RunAgrees(k: Kernels, mel: seq<MelFrame>) {
    forall j :: 0 <= j < EncTokens(|mel|) ==> RowAgrees(k, mel, j)
  }

  ghost predicate RowAgrees(k: Kernels, mel: seq<MelFrame>, j: nat)
    requires j < EncTokens(|mel|)
  {
    ChunkRun(k, mel, 0)[j] == Enc(k, mel, Trunc(|mel|) + j)
  }

  lemma UncutRowAgrees(k: Kernels, mel: seq<MelFrame>, j: nat)
    requires |mel| % 2 == 0 && Trunc(|mel|) == 0 && j < EncTokens(|mel|)
    ensures RowAgrees(k, mel, j)
  {
    hide RunLayers, StemRows, HidRows, ConvOut, ChunkRun;
    assert mel[0..0 + |mel|] == mel && mel[0..] == mel;
    ChunkRunRow(k, mel, 0, |mel|, j);
    RunIsDirect(k, mel, j + 1, k.layers);
    DirectRow(k, mel, j);
  }

  /** One layer that counts the columns a row attends over. */
  function CountingKernels(): Kernels {
    Kernels(_ => ZERO_MEL, (_, _, _) => ZERO_HIDDEN, (_, _, _) => ZERO_HIDDEN, 1, (_, _, _) => ZERO_KV,
            (_, _, _, shown) => Hidden(seq(|shown|, _ => 0.0)), x => x, (_, _, _, _) => ZERO_EMB, _ => 0, _ => [])
  }

  /** The first kept row of a truncated run attends over itself alone; in the stream it has the cut rows behind it. */
  lemma CutRowDiffers(mel: seq<MelFrame>)
    requires 0 < Trunc(|mel|) && 0 < EncTokens(|mel|)
    ensures !RowAgrees(CountingKernels(), mel, 0)
  {
    var k, cut := CountingKernels(), Trunc(|mel|);
    var kept := Stem(k, mel)[cut..];
    assert RunLayers(k, 0, kept, 1)[0] == RunRow(k, 0, 0, kept, 0);
    assert |RunRow(k, 0, 0, kept, 0).row| == 1;
    assert Enc(k, mel, cut) == Hid(k, mel, 1, cut);
    assert |Hid(k, mel, 1, cut).row| == |EncoderSpec.Window(k, mel, 0, cut)| == cut + 1;
  }

  /** A run from the start is the direct recursion, for every kernel and stream, if and only if nothing is cut. */
  lemma RunAgreesExactly(n: nat)
    requires n % 2 == 0 && 0 < EncTokens(n)
    ensures (forall k: Kernels, mel: seq<MelFrame> | |mel| == n :: RunAgrees(k, mel)) <==> Trunc(n) == 0
  {
    hide EncTokens, Trunc, ChunkRun;
    if Trunc(n) == 0 {
      forall k: Kernels, mel: seq<MelFrame> | |mel| == n
        ensures RunAgrees(k, mel)
      {
        forall j | 0 <= j < EncTokens(n)
          ensures RowAgrees(k, mel, j)
        {
          UncutRowAgrees(k, mel, j);
        }
      }
    } else {
      var mel := seq(n, _ => ZERO_MEL);
      CutRowDiffers(mel);
      assert !RunAgrees(CountingKernels(), mel);
    }
  }

  lemma AgreesMeans(k: Kernels, mel: seq<MelFrame>, i: nat, n: nat)
    requires Trunc(|mel|) == 0 && i < EncTokens(|mel|) == n && RowAgrees(k, mel, i)
    ensures SameAt(ChunkRun(k, mel, 0), 0, Outputs(k, mel, 0, n), i)
  {
    hide ConvOut, Trunc, EncTokens, ChunkRun, Enc;
  }

  lemma UncutRows(k: Kernels, mel: seq<MelFrame>, n: nat)
    requires |mel| % 2 == 0 && Trunc(|mel|) == 0 && EncTokens(|mel|) == n
    ensures ChunkRun(k, mel, 0) == Outputs(k, mel, 0, n)
  {
    hide ConvOut, EncTokens, Trunc, ChunkRun, Outputs, RowAgrees, SameAt;
    var run, outs := ChunkRun(k, mel, 0), Outputs(k, mel, 0, n);
    forall i | 0 <= i < n
      ensures SameAt(run, 0, outs, i)
    {
      UncutRowAgrees(k, mel, i);
      AgreesMeans(k, mel, i, n);
    }
    SliceByIndex(run, 0, outs);
    assert run[0..n] == run;
  }

  lemma OneChunk(total: nat)
    requires total % 8 == 0 && 0 < total <= CHUNK_MEL
    ensures BatchFrom(total, 0) == ChunkEmits(0, total, 0)
  {
    hide ConvOut, EncTokens, Trunc, ChunkEmits;
    ChunkShape(total, 0);
    assert ChunkEmits(0, total, 0) + [] == ChunkEmits(0, total, 0);
  }

  /** Up to one chunk, the legacy encoder computes the direct recursion, and so the same rows as the cached one. */
  lemma OneChunkIsDirect(k: Kernels, mel: seq<MelFrame>)
    requires |mel| % 8 == 0 && 0 < |mel| <= CHUNK_MEL
    ensures RowsOf(k, mel, BatchFrom(|mel|, 0)) == Outputs(k, mel, 0, |mel| / 2)
  {
    hide ConvOut, EncTokens, Trunc, ChunkRun, Outputs, RowsOf, ChunkEmits, BatchFrom;
    OneChunk(|mel|);
    WholeEights(|mel|);
    UncutRows(k, mel, |mel| / 2);
    assert mel[0..0 + |mel|] == mel;
    ChunkRunRows(k, mel, 0, |mel|, 0);
    assert ChunkRun(k, mel, 0)[0..] == ChunkRun(k, mel, 0);
  }

  lemma WholeEights(n: nat)
    requires n % 8 == 0
    ensures Trunc(n) == 0 && EncTokens(n) == n / 2
  {
    ChunkRows(n, false);
  }

  lemma DirectRow(k: Kernels, mel: seq<MelFrame>, i: nat)
    ensures k.norm(HidRows(k, mel, k.layers, 0, i + 1)[i]) == Outputs(k, mel, 0, i + 1)[i] == Enc(k, mel, i)
  {
    hide Hid;
    assert HidRows(k, mel, k.layers, 0, i + 1)[i] == Hid(k, mel, k.layers, 0 + i);
    assert Outputs(k, mel, 0, i + 1)[i] == Enc(k, mel, 0 + i);
  }

  // ---- batch ---------------------------------------------------------------------------------------------

  lemma BatchLength(total: nat, c: nat)
    requires MEL_STRIDE * c < total
    ensures var stride := EncTokens(Min(CHUNK_MEL, total - MEL_STRIDE * c)) - Skip(c);
            |BatchFrom(total, c)| == if stride <= 0 then 0 else stride + |BatchFrom(total, c + 1)|
  {
    hide EncTokens;
  }

  /** Row count of the whole schedule, computed ahead for allocation. */
  method TotalEncTokens(total: nat) returns (n: nat)
    ensures n == |BatchFrom(total, 0)|
  {
    n := 0;
    var melOffset := 0;
    var c := 0;
    while melOffset < total
      invariant melOffset == MEL_STRIDE * c && n + |BatchFrom(total, c)| == |BatchFrom(total, 0)|
      decreases total - melOffset
    {
      hide ConvOut, EncTokens, BatchFrom, ChunkEmits;
      BatchLength(total, c);
      var chunkMel := Min(CHUNK_MEL, total - melOffset);
      var stride := EncTokens(chunkMel) - Skip(c);
      if stride <= 0 {
        break;
      }
      n := n + stride;
      melOffset := melOffset + MEL_STRIDE;
      c := c + 1;
    }
  }

  /** Row q of the sliding causal mask, local to the run. */
  function ChunkMask(n: nat, q: nat): (m: seq<bool>)
    ensures |m| == n && forall i :: 0 <= i < n ==> (m[i] <==> WindowStart(q) <= i < q + 1)
  {
    var minKv := Max(0, q - (ENC_WINDOW - 1));
    seq(n, kv requires 0 <= kv < n => kv <= q && kv >= minKv)
  }

  method MaskedLayer(k: Kernels, l: nat, rope: nat, x: seq<Hidden>) returns (y: seq<Hidden>)
    ensures y == RunLayer(k, l, rope, x)
  {
    hide Visible, RunKvs;
    var kvs := RunKvs(k, l, rope, x);
    y := [];
    for q := 0 to |x|
      invariant y == RunLayer(k, l, rope, x)[..q]
    {
      var mask := ChunkMask(|x|, q);
      VisibleInterval(kvs, mask, WindowStart(q), q + 1);
      y := y + [k.block(l, rope + q, x[q], multiset(Visible(kvs, mask)))];
    }
  }

  /** One graph execution over a Mel slice: convolution, left truncation, masked layers. */
  method RunEncoderChunk(k: Kernels, slice: seq<MelFrame>, rope: nat) returns (rows: seq<Hidden>)
    ensures rows == ChunkRun(k, slice, rope)
  {
    hide RunLayer, Stem;
    var conv := Stem(k, slice);
    var trunc := |conv| % DOWNSAMPLE;
    ConvOutIs(|slice|);
    var x := conv;
    if trunc > 0 {
      x := conv[trunc..];
    }
    ghost var kept := x;
    for l := 0 to k.layers
      invariant x == RunLayers(k, rope, kept, l)
    {
      x := MaskedLayer(k, l, rope, x);
    }
    rows := NormRows(k, x);
  }

  /** Where the batch loop stands before chunk c. */
  ghost predicate BeforeChunk(total: nat, c: nat, emits: seq<Emit>) {
    && emits + BatchFrom(total, c) == BatchFrom(total, 0)
    && (c == 0 ==> emits == [])
    && (c > 0 && MEL_STRIDE * (c + 1) < total ==> |emits| == OVERLAP * (c + 1))
  }

  lemma NextChunk(total: nat, c: nat, emits: seq<Emit>)
    requires total % 2 == 0 && BeforeChunk(total, c, emits) && MEL_STRIDE * c < total
    ensures var len := Min(CHUNK_MEL, total - MEL_STRIDE * c);
            if EncTokens(len) <= Skip(c) then emits == BatchFrom(total, 0)
            else
              && |emits| - Skip(c) == OVERLAP * c
              && |emits| + EncTokens(len) - Skip(c) <= |BatchFrom(total, 0)|
              && BeforeChunk(total, c + 1, emits + ChunkEmits(c, len, Skip(c)))
  {
    hide ConvOut;
    var len := Min(CHUNK_MEL, total - MEL_STRIDE * c);
    if EncTokens(len) <= Skip(c) {
      assert emits + [] == emits;
    } else {
      var next := ChunkEmits(c, len, Skip(c));
      EmitsStep(emits, next, BatchFrom(total, c + 1));
    }
  }

  /** Run one chunk: only its new rows are appended; the allocation is never exceeded and the rotary offset is that of
      the chunk index. */
  method RunChunkAt(k: Kernels, mel: seq<MelFrame>, c: nat, rows: seq<Hidden>, allocTotal: nat, ghost emits: seq<Emit>)
    returns (go: bool, out: seq<Hidden>, ghost after: seq<Emit>)
    requires |mel| % 2 == 0 && MEL_STRIDE * c < |mel| && BeforeChunk(|mel|, c, emits)
    requires rows == RowsOf(k, mel, emits) && allocTotal == |BatchFrom(|mel|, 0)|
    ensures out == RowsOf(k, mel, after)
    ensures if go then BeforeChunk(|mel|, c + 1, after) else after == BatchFrom(|mel|, 0)
  {
    hide ConvOut, EncTokens, Trunc, ChunkEmits, ChunkRun, RowsOf, BatchFrom, BeforeChunk;
    NextChunk(|mel|, c, emits);
    var melOffset := MEL_STRIDE * c;
    var len := Min(CHUNK_MEL, |mel| - melOffset);
    var skip := Skip(c);
    if EncTokens(len) - skip <= 0 {
      return false, rows, emits;
    }
    var ropeOffset := |rows| - skip;
    assert ropeOffset == OVERLAP * c;
    var run := RunEncoderChunk(k, mel[melOffset..melOffset + len], ropeOffset);
    var stride := |run| - skip;
    if |rows| + stride > allocTotal {
      stride := allocTotal - |rows|;
    }
    ChunkRunRows(k, mel, c, len, skip);
    after := emits + ChunkEmits(c, len, skip);
    RowsOfConcat(k, mel, emits, ChunkEmits(c, len, skip));
    out := rows + run[skip..skip + stride];
    go := true;
  }

  /** Run the chunks of a whole (even-length) Mel one after the other. */
  method RunEncoderChunked(k: Kernels, mel: seq<MelFrame>) returns (ok: bool, rows: seq<Hidden>, used: nat)
    requires |mel| % 2 == 0
    ensures ok <==> BatchFrom(|mel|, 0) != []
    ensures ok ==> rows == RowsOf(k, mel, BatchFrom(|mel|, 0)) && used == |rows| / DOWNSAMPLE * DOWNSAMPLE
  {
    hide BeforeChunk, RowsOf, BatchFrom;
    var allocTotal := TotalEncTokens(|mel|);
    rows, used := [], 0;
    if allocTotal <= 0 {
      return false, [], 0;
    }
    ghost var emits: seq<Emit> := [];
    BeforeAll(|mel|);
    NoRows(k, mel);
    var c := 0;
    var go := true;
    while go && MEL_STRIDE * c < |mel|
      invariant rows == RowsOf(k, mel, emits)
      invariant if go then BeforeChunk(|mel|, c, emits) else emits == BatchFrom(|mel|, 0)
      decreases |mel| - MEL_STRIDE * c, go
    {
      go, rows, emits := RunChunkAt(k, mel, c, rows, allocTotal, emits);
      if go {
        c := c + 1;
      }
    }
    if go {
      AfterAll(|mel|, c, emits);
    }
    used := |rows| / DOWNSAMPLE * DOWNSAMPLE;
    ok := true;
  }

  lemma BeforeAll(total: nat)
    ensures BeforeChunk(total, 0, [])
  {
    assert [] + BatchFrom(total, 0) == BatchFrom(total, 0);
  }

  lemma NoRows(k: Kernels, mel: seq<MelFrame>)
    ensures RowsOf(k, mel, []) == []
  {
  }

  lemma AfterAll(total: nat, c: nat, emits: seq<Emit>)
    requires BeforeChunk(total, c, emits) && MEL_STRIDE * c >= total
    ensures emits == BatchFrom(total, 0)
  {
    assert emits + [] == emits;
  }

  lemma EmitsStep(emits: seq<Emit>, next: seq<Emit>, rest: seq<Emit>)
    ensures emits + (next + rest) == (emits + next) + rest
  {
  }

  // ---- incremental ---------------------------------------------------------------------------------------

  /** Emissions of chunk 0 up to local row n. */
  function FirstRows(n: nat): (r: seq<Emit>)
    ensures |r| == n
  {
    seq(n, i requires 0 <= i => Emit(0, 0, i, 0))
  }

  /** A run of a whole-8 prefix of chunk 0 continues the rows emitted before it. */
  lemma FirstRowsGrow(len: nat, n: nat)
    requires len % 8 == 0 && n <= len / 2
    ensures EncTokens(len) == len / 2 && FirstRows(n) + ChunkEmits(0, len, n) == FirstRows(len / 2)
  {
    hide ConvOut, EncTokens, Trunc;
    ChunkRows(len, false);
  }

  lemma FirstChunkIsComplete()
    ensures FirstRows(MEL_STRIDE) == Complete(1)
  {
    hide ConvOut, EncTokens, Trunc;
    ChunkRows(CHUNK_MEL, false);
    assert Complete(0) == [];
    assert Complete(1) == ChunkEmits(0, CHUNK_MEL, 0);
  }

  lemma CompleteWithin(c: nat, n: nat)
    requires c > 0 ==> MEL_STRIDE * (c - 1) + CHUNK_MEL <= n
    ensures Within(n, Complete(c))
    decreases c
  {
    if c > 0 {
      CompleteWithin(c - 1, n);
    }
  }

  lemma ChunkWithin(n: nat, emits: seq<Emit>, c: nat, len: nat, from: nat)
    requires Within(n, emits) && MEL_STRIDE * c + len <= n && len % 2 == 0
    ensures Within(n, emits + ChunkEmits(c, len, from))
  {
  }

  class LegacyStream {
    const k: Kernels

    var melWindow: seq<MelFrame>   // Mel frames [windowBase, stableMel)
    var windowBase: nat
    var stableMel: nat
    var curChunk: nat
    var emitted: nat
    var lastRunMelEnd: nat
    var finalized: bool
    var accum: seq<Hidden>

    ghost var mel: seq<MelFrame>
    ghost var emits: seq<Emit>     // what `accum` consists of

    ghost predicate Windowed()
      reads this
    {
      && stableMel == |mel| && windowBase == MEL_STRIDE * curChunk <= |mel| && melWindow == mel[windowBase..]
      && (curChunk > 0 ==> windowBase + MEL_STRIDE <= |mel|)
      && accum == RowsOf(k, mel, emits) && Within(|mel|, emits)
    }

    /** During a feed: a prefix of chunk 0, or exactly the complete chunks. */
    ghost predicate Progress()
      reads this
    {
      if curChunk == 0 then
        && emits == FirstRows(emitted) && emitted % DOWNSAMPLE == 0 && emitted < MEL_STRIDE
        && lastRunMelEnd == 2 * emitted <= |mel|
      else emits == Complete(curChunk) && emitted == OVERLAP * (curChunk + 1)
    }

    /** At the end: the whole batch schedule has been emitted. */
    ghost predicate Flushed()
      reads this
    {
      && |mel| % 8 == 0 && |mel| < windowBase + CHUNK_MEL && emits == BatchFrom(|mel|, 0)
      && emitted >= OVERLAP * curChunk + Max(Skip(curChunk), EncTokens(|mel| - windowBase))
    }

    ghost predicate Valid()
      reads this
    {
      if finalized then emits == BatchFrom(|mel|, 0) && accum == RowsOf(k, mel, emits)
      else Windowed() && (Progress() || Flushed())
    }

    /** Nothing that a feed runs is waiting: fewer than 3000 frames of the current chunk, and in chunk 0 a whole-8 prefix
        that has grown by less than 256 frames and by less than half since it was last run. */
    ghost predicate CaughtUp()
      reads this`mel, this`curChunk, this`lastRunMelEnd
    {
      && |mel| < MEL_STRIDE * curChunk + 3000
      && (curChunk == 0 ==> |mel| / 8 * 8 - lastRunMelEnd < if lastRunMelEnd <= 512 then 256 else lastRunMelEnd / 2)
    }

    constructor (k: Kernels)
      ensures Valid() && Progress() && CaughtUp() && mel == [] && !finalized && this.k == k
    {
      this.k := k;
      melWindow, windowBase, stableMel, curChunk, emitted, lastRunMelEnd := [], 0, 0, 0, 0, 0;
      finalized, accum := false, [];
      mel, emits := [], [];
    }

    /** Run the current chunk over its first runLen Mel frames and append what is new. */
    method RunChunk(runLen: nat) returns (ok: bool)
      requires Windowed() && windowBase + runLen <= |mel| && runLen % 2 == 0
      requires OVERLAP * curChunk + Skip(curChunk) <= emitted
      modifies this`lastRunMelEnd, this`accum, this`emits, this`emitted
      ensures ok && Windowed() && lastRunMelEnd == windowBase + runLen
      ensures emits == old(emits) + ChunkEmits(curChunk, runLen, old(emitted) - OVERLAP * curChunk)
      ensures emitted == Max(old(emitted), OVERLAP * curChunk + EncTokens(runLen))
    {
      hide ConvOut, ChunkRun, ChunkEmits, Within, RowsOf, EncTokens, Trunc;
      var r0 := MEL_STRIDE * curChunk - windowBase;
      if r0 + runLen > |melWindow| {
        return false;
      }
      var slice := melWindow[r0..r0 + runLen];
      assert slice == mel[MEL_STRIDE * curChunk..MEL_STRIDE * curChunk + runLen];
      var rows := RunEncoderChunk(k, slice, OVERLAP * curChunk);
      lastRunMelEnd := MEL_STRIDE * curChunk + runLen;
      var srcLocalStart := emitted - OVERLAP * curChunk;
      if srcLocalStart < Skip(curChunk) {
        srcLocalStart := Skip(curChunk);
      }
      ghost var next := ChunkEmits(curChunk, runLen, srcLocalStart);
      if |rows| > srcLocalStart {
        ChunkRunRows(k, mel, curChunk, runLen, srcLocalStart);
        RowsOfConcat(k, mel, emits, next);
        ChunkWithin(|mel|, emits, curChunk, runLen, srcLocalStart);
        accum := accum + rows[srcLocalStart..];
        emits := emits + next;
        emitted := OVERLAP * curChunk + |rows|;
      } else {
        assert emits + next == emits;
      }
      ok := true;
    }

    /** A complete chunk: emit the rest of it and move the window on. */
    method RunComplete() returns (ok: bool)
      requires Windowed() && Progress() && windowBase + CHUNK_MEL <= |mel|
      modifies this`lastRunMelEnd, this`accum, this`emits, this`emitted, this`curChunk, this`melWindow, this`windowBase
      ensures ok && Windowed() && Progress() && curChunk == old(curChunk) + 1
    {
      hide ConvOut, RowsOf;
      FirstRowsGrow(CHUNK_MEL, if curChunk == 0 then emitted else 0);
      FirstChunkIsComplete();
      ok := RunChunk(CHUNK_MEL);
      if !ok {
        return;
      }
      curChunk := curChunk + 1;
      var newBase := MEL_STRIDE * curChunk;
      if newBase > windowBase {
        var drop := newBase - windowBase;
        melWindow := if drop >= |melWindow| then [] else melWindow[drop..];
        windowBase := newBase;
      }
    }

    lemma RestFacts()
      requires Windowed() && (Progress() || Flushed()) && |mel| % 8 == 0
      requires windowBase < |mel| < windowBase + CHUNK_MEL && EncTokens(|mel| - windowBase) > Skip(curChunk)
      ensures windowBase == MEL_STRIDE * curChunk && (|mel| - windowBase) % 2 == 0 && OVERLAP * curChunk + Skip(curChunk) <= emitted
      ensures MEL_STRIDE * curChunk < |mel| < MEL_STRIDE * curChunk + CHUNK_MEL
      ensures curChunk > 0 ==> MEL_STRIDE * curChunk + MEL_STRIDE <= |mel|
      ensures if Progress() then
                if curChunk == 0 then emits == FirstRows(emitted) && 2 * emitted <= |mel|
                else emits == Complete(curChunk) && emitted == OVERLAP * (curChunk + 1)
              else emits == BatchFrom(|mel|, 0) && emitted >= OVERLAP * curChunk + EncTokens(|mel| - MEL_STRIDE * curChunk)
    {
      hide ConvOut, EncTokens, Trunc, RowsOf, BatchFrom, ChunkEmits, FirstRows, Complete, Within;
    }

    /** What is still missing of the schedule is the rest of the current chunk. */
    lemma RestOfSchedule()
      requires Windowed() && (Progress() || Flushed()) && |mel| % 8 == 0
      requires windowBase < |mel| < windowBase + CHUNK_MEL && EncTokens(|mel| - windowBase) > Skip(curChunk)
      ensures OVERLAP * curChunk + Skip(curChunk) <= emitted && (|mel| - windowBase) % 2 == 0
      ensures emits + ChunkEmits(curChunk, |mel| - windowBase, emitted - OVERLAP * curChunk) == BatchFrom(|mel|, 0)
    {
      hide *;
      RestFacts();
      LastRun(|mel|, curChunk, emits, emitted, Progress());
    }

    lemma FlushedNow()
      requires |mel| % 8 == 0 && |mel| < windowBase + CHUNK_MEL && windowBase <= |mel| && emits == BatchFrom(|mel|, 0)
      requires emitted >= OVERLAP * curChunk + Skip(curChunk) && emitted >= OVERLAP * curChunk + EncTokens(|mel| - windowBase)
      ensures Flushed()
    {
      hide EncTokens, BatchFrom;
    }

    lemma WindowFacts()
      requires Windowed()
      ensures stableMel == |mel| && windowBase == MEL_STRIDE * curChunk <= |mel| && (curChunk > 0 ==> windowBase + MEL_STRIDE <= |mel|)
    {
    }

    /** The remainder at the end, exactly as the last batch iteration runs it. */
    method RunLast() returns (ok: bool)
      requires Windowed() && (Progress() || Flushed()) && |mel| % 8 == 0
      requires windowBase < |mel| < windowBase + CHUNK_MEL && EncTokens(|mel| - windowBase) > Skip(curChunk)
      modifies this`lastRunMelEnd, this`accum, this`emits, this`emitted
      ensures ok && Windowed() && Flushed()
    {
      hide EncTokens, BatchFrom, ChunkEmits, Windowed, Progress, Flushed, Skip;
      WindowFacts();
      RestOfSchedule();
      ok := RunChunk(stableMel - windowBase);
      FlushedNow();
    }

    /** Nothing is left to run. */
    lemma NothingLeft()
      requires Windowed() && (Progress() || Flushed()) && |mel| % 8 == 0 && |mel| < windowBase + CHUNK_MEL
      requires windowBase < |mel| ==> EncTokens(|mel| - windowBase) <= Skip(curChunk)
      ensures Flushed()
    {
      hide ConvOut, RowsOf;
      if Progress() {
        BatchSplit(|mel|, curChunk);
        assert emits + [] == emits;
      }
    }

    /** A whole-8 prefix of the unfinished first chunk, re-run only once it has grown enough. */
    method RunPrefix() returns (ok: bool)
      requires Windowed() && Progress() && curChunk == 0 && |mel| < CHUNK_MEL
      modifies this`lastRunMelEnd, this`accum, this`emits, this`emitted
      ensures ok && Windowed() && Progress() && CaughtUp()
    {
      hide ConvOut, RowsOf;
      var m8 := |melWindow| / 8 * 8;
      var need := Max(EMIT_MEL, lastRunMelEnd / 2);
      if m8 <= 0 || m8 - lastRunMelEnd < need || EncTokens(m8) <= 0 {
        return true;
      }
      FirstRowsGrow(m8, emitted);
      ok := RunChunk(m8);
    }

    lemma NoPrefix()
      requires Windowed() && |mel| < windowBase + CHUNK_MEL && (curChunk == 0 ==> |mel| == 0)
      ensures CaughtUp()
    {
      hide RowsOf, Within;
    }

    /** Advance through as many chunks as the stable Mel frames allow. */
    method Drive(final: bool) returns (ok: bool)
      requires Windowed() && if final then (Progress() || Flushed()) && |mel| % 8 == 0 else Progress()
      modifies this`lastRunMelEnd, this`accum, this`emits, this`emitted, this`curChunk, this`melWindow, this`windowBase
      ensures ok && Windowed() && if final then Flushed() else Progress() && CaughtUp()
    {
      hide ConvOut, RowsOf, BatchFrom, CaughtUp;
      while |melWindow| >= CHUNK_MEL
        invariant Windowed() && (Progress() || (final && Flushed()))
        decreases |melWindow|
      {
        ok := RunComplete();
        if !ok {
          return;
        }
      }
      ok := true;
      if |melWindow| > 0 {
        if final {
          if EncTokens(|melWindow|) - Skip(curChunk) > 0 {
            ok := RunLast();
            return;
          }
        } else if curChunk == 0 {
          ok := RunPrefix();
          return;
        }
      }
      if final {
        NothingLeft();
      } else {
        NoPrefix();
      }
    }

    method Append(frames: seq<MelFrame>)
      requires Windowed() && Progress()
      modifies this`melWindow, this`stableMel, this`mel
      ensures Windowed() && Progress() && mel == old(mel) + frames
    {
      RowsGrow(k, mel, frames, emits);
      mel := mel + frames;
      melWindow := melWindow + frames;
      stableMel := stableMel + |frames|;
    }

    /** Push stable frames during a feed. */
    method PushMel(frames: seq<MelFrame>, base: nat) returns (ok: bool)
      requires Valid() && (!finalized ==> Progress() && CaughtUp())
      modifies this
      ensures Valid() && finalized == old(finalized) && (!finalized ==> Progress() && CaughtUp())
      ensures ok == (!old(finalized) && (frames == [] || base == |old(mel)|))
      ensures mel == if ok then old(mel) + frames else old(mel)
    {
      if finalized {
        return false;
      }
      if |frames| == 0 {
        assert mel + frames == mel;
        return true;
      }
      if base != stableMel {
        return false;
      }
      Append(frames);
      ok := Drive(false);
    }

    /** Push the frames flushed at the end; the padded stream is a multiple of 8 Mel frames long. */
    method PushMelFinal(frames: seq<MelFrame>, base: nat) returns (ok: bool)
      requires Valid() && !finalized && Progress() && (|mel| + |frames|) % 8 == 0
      modifies this
      ensures Valid() && !finalized && ok == (frames == [] || base == |old(mel)|)
      ensures mel == if ok then old(mel) + frames else old(mel)
      ensures ok && frames != [] ==> emits == BatchFrom(|mel|, 0)
    {
      if |frames| == 0 {
        assert mel + frames == mel;
        return true;
      }
      if base != stableMel {
        return false;
      }
      Append(frames);
      ok := Drive(true);
    }

    /** Finish: for every way of pushing the frames, what has been emitted is the batch schedule, row by row. */
    method Finish() returns (ok: bool)
      requires Valid() && |mel| % 8 == 0
      modifies this
      ensures ok && Valid() && finalized && mel == old(mel)
      ensures emits == BatchFrom(|mel|, 0) && accum == RowsOf(k, mel, BatchFrom(|mel|, 0))
    {
      hide ConvOut, RowsOf, BatchFrom, Within, EncTokens, FirstRows, Complete;
      if finalized {
        return true;
      }
      ok := Drive(true);
      finalized := true;
      melWindow := [];
      windowBase := stableMel;
    }
  }

  /** Running the remainder completes the schedule, and running it again adds nothing. */
  lemma LastRun(total: nat, c: nat, emits: seq<Emit>, emitted: nat, progress: bool)
    requires total % 8 == 0 && MEL_STRIDE * c < total < MEL_STRIDE * c + CHUNK_MEL && (c > 0 ==> MEL_STRIDE * c + MEL_STRIDE <= total)
    requires EncTokens(total - MEL_STRIDE * c) > Skip(c) && OVERLAP * c + Skip(c) <= emitted
    requires if progress then
               if c == 0 then emits == FirstRows(emitted) && 2 * emitted <= total
               else emits == Complete(c) && emitted == OVERLAP * (c + 1)
             else emits == BatchFrom(total, 0) && emitted >= OVERLAP * c + EncTokens(total - MEL_STRIDE * c)
    ensures emits + ChunkEmits(c, total - MEL_STRIDE * c, emitted - OVERLAP * c) == BatchFrom(total, 0)
  {
    hide ConvOut;
    LastOfBatch(total, c);
    if !progress {
      assert emits + [] == emits;
    } else if c == 0 {
      FirstRowsGrow(total, emitted);
      FirstRowsGrow(total, 0);
      assert FirstRows(0) == Complete(0) == [];
    }
  }

  /** The last chunk of the batch schedule. */
  lemma LastOfBatch(total: nat, c: nat)
    requires total % 8 == 0 && MEL_STRIDE * c < total < MEL_STRIDE * c + CHUNK_MEL
    requires EncTokens(total - MEL_STRIDE * c) > Skip(c)
    ensures BatchFrom(total, 0) == Complete(c) + ChunkEmits(c, total - MEL_STRIDE * c, Skip(c))
  {
    hide ConvOut;
    BatchSplit(total, c);
    ChunkShape(total, c);
    var last := ChunkEmits(c, total - MEL_STRIDE * c, Skip(c));
    assert BatchFrom(total, c) == last + BatchFrom(total, c + 1);
    assert last + [] == last;
  }
}
