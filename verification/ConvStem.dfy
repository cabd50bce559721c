/** The two-layer causal convolution in front of the encoder: its padding arithmetic, the convolution of a
    finite Mel window, and the direct value of one encoder input row in terms of the whole stream. */
module ConvStem {
  import opened Kernels
  import RingMath

  datatype ConvDims = ConvDims(padLeft: int, padRight: int, paddedLen: int, outLen: int)

  /** Exact rational ceiling of a / b. */
  function CeilDiv(a: int, b: int): int
    requires 0 < b
  {
    (a + b - 1) / b
  }

  /** Integer division rounding toward zero. */
  function TruncDiv(a: int, b: int): int
    requires 0 < b
  {
    if a >= 0 then a / b else -((-a) / b)
  }

  function CausalConvDims(inLen: int, kernel: int, stride: int): ConvDims {
    if inLen <= 0 || kernel <= 0 || stride <= 0 then ConvDims(0, 0, 0, 0)
    else
      var padding := kernel - stride;
      var frames := CeilDiv(inLen - kernel + padding, stride) + 1;
      var target := (frames - 1) * stride + (kernel - padding);
      var padRight := if target - inLen > 0 then target - inLen else 0;
      var padded := inLen + padding + padRight;
      ConvDims(padding, padRight, padded, TruncDiv(padded - kernel, stride) + 1)
  }

  /** For a kernel at least as wide as the stride there is one output per started stride, and the right
      padding only completes the last one. */
  lemma ConvDimsClosedForm(inLen: nat, kernel: nat, stride: nat)
    requires 0 < inLen && 0 < stride <= kernel
    ensures var d := CausalConvDims(inLen, kernel, stride);
            && d.padLeft == kernel - stride
            && d.outLen == CeilDiv(inLen, stride)
            && d.padRight == d.outLen * stride - inLen
            && 0 <= d.padRight < stride
            && d.paddedLen == (d.outLen - 1) * stride + kernel
  {
    var c := CeilDiv(inLen, stride);
    assert inLen - kernel + (kernel - stride) == inLen - stride;
    assert CeilDiv(inLen - stride, stride) + 1 == c by {
      CeilStep(inLen, stride);
    }
    CeilBounds(inLen, stride);
    assert (c - 1) * stride + stride == c * stride;
    TruncExact(c - 1, stride);
  }

  lemma TruncExact(a: nat, b: nat)
    requires 0 < b
    ensures TruncDiv(a * b, b) == a
  {
    assert a * b >= 0;
    assert (a * b) / b == a;
  }

  lemma CeilStep(a: nat, b: nat)
    requires 0 < b && 0 < a
    ensures CeilDiv(a - b, b) + 1 == CeilDiv(a, b)
  {
    assert a - 1 == ((a - 1) / b) * b + (a - 1) % b;
    assert a + b - 1 == ((a - 1) / b + 1) * b + (a - 1) % b;
    RingMath.ModUnique(a + b - 1, (a - 1) / b + 1, (a - 1) % b, b);
  }

  lemma CeilBounds(a: nat, b: nat)
    requires 0 < b && 0 < a
    ensures 1 <= CeilDiv(a, b)
    ensures a <= CeilDiv(a, b) * b < a + b
  {
    var x := a + b - 1;
    assert x == (x / b) * b + x % b;
    CeilStep(a, b);
  }

  function MelAt(w: seq<MelFrame>, i: int): MelFrame {
    if 0 <= i < |w| then w[i] else ZERO_MEL
  }

  function RowAt(c: seq<Hidden>, i: int): Hidden {
    if 0 <= i < |c| then c[i] else ZERO_HIDDEN
  }

  /** Stride-1 convolution of a finite window with two zero frames in front. */
  function Conv0(k: Kernels, w: seq<MelFrame>): (c: seq<Hidden>)
    ensures |c| == |w|
  {
    seq(|w|, i => k.conv0(MelAt(w, i - 2), MelAt(w, i - 1), MelAt(w, i)))
  }

  /** Stride-2 convolution with one zero row in front and, for an odd length, one behind. */
  function Conv1(k: Kernels, c: seq<Hidden>): (r: seq<Hidden>)
    ensures |r| == (|c| + 1) / 2
  {
    seq((|c| + 1) / 2, e => k.conv1(RowAt(c, 2 * e - 1), RowAt(c, 2 * e), RowAt(c, 2 * e + 1)))
  }

  /** The two layers of the stem have exactly the padding and output lengths used above. */
  lemma StemDims(n: nat)
    requires 0 < n
    ensures CausalConvDims(n, 3, 1) == ConvDims(2, 0, n + 2, n)
    ensures CausalConvDims(n, 3, 2) == ConvDims(1, n % 2, n + 1 + n % 2, (n + 1) / 2)
  {
    ConvDimsClosedForm(n, 3, 1);
    ConvDimsClosedForm(n, 3, 2);
  }

  /** Row i of the first layer is the kernel over rows i, i+1, i+2 of the padded window: two zero frames in front. */
  lemma Conv0Taps(k: Kernels, w: seq<MelFrame>, i: nat)
    requires i < |w|
    ensures var d := CausalConvDims(|w|, 3, 1);
            && d.padLeft == 2 && d.padRight == 0 && |Conv0(k, w)| == d.outLen == |w|
            && var p := seq(d.padLeft, _ => ZERO_MEL) + w + seq(d.padRight, _ => ZERO_MEL);
               |p| == d.paddedLen && Conv0(k, w)[i] == k.conv0(p[i], p[i + 1], p[i + 2])
  {
    StemDims(|w|);
    var p := seq(2, _ => ZERO_MEL) + w + seq(0, _ => ZERO_MEL);
    assert Conv0(k, w)[i] == k.conv0(p[i], p[i + 1], p[i + 2]);
  }

  /** Row e of the second layer is the kernel over rows 2e, 2e+1, 2e+2 of the padded rows: one zero row in front and, for
      an odd length, one behind. */
  lemma Conv1Taps(k: Kernels, c: seq<Hidden>, e: nat)
    requires 2 * e < |c|
    ensures var d := CausalConvDims(|c|, 3, 2);
            && d.padLeft == 1 && d.padRight == |c| % 2 && |Conv1(k, c)| == d.outLen
            && var p := seq(d.padLeft, _ => ZERO_HIDDEN) + c + seq(d.padRight, _ => ZERO_HIDDEN);
               2 * e + 2 < |p| == d.paddedLen && Conv1(k, c)[e] == k.conv1(p[2 * e], p[2 * e + 1], p[2 * e + 2])
  {
    StemDims(|c|);
    var p := seq(1, _ => ZERO_HIDDEN) + c + seq(|c| % 2, _ => ZERO_HIDDEN);
    assert Conv1(k, c)[e] == k.conv1(p[2 * e], p[2 * e + 1], p[2 * e + 2]);
  }

  lemma Conv0Inside(k: Kernels, w: seq<MelFrame>, i: nat)
    requires 2 <= i < |w|
    ensures Conv0(k, w)[i] == k.conv0(w[i - 2], w[i - 1], w[i])
  {
  }

  lemma Conv1Inside(k: Kernels, c: seq<Hidden>, e: nat)
    requires 1 <= e && 2 * e + 1 < |c|
    ensures Conv1(k, c)[e] == k.conv1(c[2 * e - 1], c[2 * e], c[2 * e + 1])
  {
  }

  /** The conv stem over a finite Mel window. */
  function Stem(k: Kernels, w: seq<MelFrame>): (r: seq<Hidden>)
    ensures |r| == (|w| + 1) / 2
  {
    Conv1(k, Conv0(k, w))
  }

  lemma StemRow(k: Kernels, w: seq<MelFrame>, e: nat)
    requires 2 * e < |w|
    ensures Stem(k, w)[e] ==
            k.conv1(RowAt(Conv0(k, w), 2 * e - 1), RowAt(Conv0(k, w), 2 * e), RowAt(Conv0(k, w), 2 * e + 1))
  {
    hide Conv0, RowAt;
  }

  function Conv0At(k: Kernels, mel: seq<MelFrame>, i: int): Hidden {
    if i < 0 then ZERO_HIDDEN else k.conv0(MelAt(mel, i - 2), MelAt(mel, i - 1), MelAt(mel, i))
  }

  /** Input row of encoder frame e, directly from the whole stream: it depends on Mel[2e-3 .. 2e+1]. */
  function StemAt(k: Kernels, mel: seq<MelFrame>, e: nat): Hidden {
    k.conv1(Conv0At(k, mel, 2 * e - 1), Conv0At(k, mel, 2 * e), Conv0At(k, mel, 2 * e + 1))
  }

  lemma StemPrefix(k: Kernels, mel: seq<MelFrame>, more: seq<MelFrame>, e: nat)
    requires 2 * e + 1 < |mel|
    ensures StemAt(k, mel + more, e) == StemAt(k, mel, e)
  {
    forall i | i <= 2 * e + 1
      ensures MelAt(mel + more, i) == MelAt(mel, i)
    {
    }
  }

  function ConvMelStart(q: nat): nat {
    if q < 2 then 0 else 2 * (q - 2)
  }

  /** Rows of a window agree with the whole stream once their two left neighbours are inside the window, and
      from the first row when the window starts the stream. */
  lemma WindowRow(k: Kernels, mel: seq<MelFrame>, a: nat, b: nat, i: int)
    requires a <= b <= |mel| && i < b - a
    requires a == 0 || 2 <= i
    ensures RowAt(Conv0(k, mel[a..b]), i) == Conv0At(k, mel, a + i)
  {
    if i >= 0 {
      var w := mel[a..b];
      assert MelAt(w, i) == MelAt(mel, a + i);
      assert MelAt(w, i - 1) == MelAt(mel, a + i - 1);
      assert MelAt(w, i - 2) == MelAt(mel, a + i - 2);
    }
  }

  lemma StemOfWindow(k: Kernels, mel: seq<MelFrame>, a: nat, b: nat, e: nat)
    requires a % 2 == 0 && a + 2 * e + 1 < b <= |mel|
    requires a == 0 || 2 <= e
    ensures Stem(k, mel[a..b])[e] == StemAt(k, mel, a / 2 + e)
  {
    hide Stem, Conv0, Conv0At, RowAt;
    StemRow(k, mel[a..b], e);
    assert 2 * (a / 2 + e) == a + 2 * e;
    WindowRow(k, mel, a, b, 2 * e - 1);
    WindowRow(k, mel, a, b, 2 * e);
    WindowRow(k, mel, a, b, 2 * e + 1);
  }

  /** The direct row is the convolution of the whole stream. */
  lemma StemOfWholeStream(k: Kernels, mel: seq<MelFrame>, e: nat)
    requires 2 * e + 1 < |mel|
    ensures Stem(k, mel)[e] == StemAt(k, mel, e)
  {
    hide Stem, StemAt;
    assert mel[0..|mel|] == mel;
    StemOfWindow(k, mel, 0, |mel|, e);
  }

  /** Inside the stream, row e is the second kernel over three rows of the first, which read Mel[2e-3 .. 2e+1]. */
  lemma StemReads(k: Kernels, mel: seq<MelFrame>, e: nat)
    requires 2 <= e && 2 * e + 1 < |mel|
    ensures StemAt(k, mel, e) ==
            k.conv1(k.conv0(mel[2 * e - 3], mel[2 * e - 2], mel[2 * e - 1]),
                    k.conv0(mel[2 * e - 2], mel[2 * e - 1], mel[2 * e]),
                    k.conv0(mel[2 * e - 1], mel[2 * e], mel[2 * e + 1]))
  {
    hide Conv0, Conv1, StemAt, CausalConvDims;
    StemOfWholeStream(k, mel, e);
    var c := Conv0(k, mel);
    Conv1Inside(k, c, e);
    Conv0Inside(k, mel, 2 * e - 1);
    Conv0Inside(k, mel, 2 * e);
    Conv0Inside(k, mel, 2 * e + 1);
  }

  /** Running the stem on the planned window and slicing it gives the rows of the whole-stream convolution,
      for every start including the zero-padded first two frames. */
  lemma WindowedStem(k: Kernels, mel: seq<MelFrame>, q: nat, n: nat, j: nat)
    requires 2 * (q + n) <= |mel| && j < n
    ensures Stem(k, mel[ConvMelStart(q)..2 * (q + n)])[q - ConvMelStart(q) / 2 + j] == StemAt(k, mel, q + j)
  {
    hide Stem, StemAt;
    var a, b := ConvMelStart(q), 2 * (q + n);
    var e := q - a / 2 + j;
    assert a / 2 + e == q + j;
    assert a == 0 || 2 <= e;
    StemOfWindow(k, mel, a, b, e);
  }

  /** The fixed 12-frame window of the reusable 4-row graph: frames before the stream are zeros. */
  function SteadyWindow(mel: seq<MelFrame>, q: nat): (w: seq<MelFrame>)
    ensures |w| == 12
  {
    seq(12, i => MelAt(mel, 2 * (q - 2) + i))
  }

  lemma SteadyRow(k: Kernels, mel: seq<MelFrame>, q: nat, j: nat)
    requires 2 * (q + 4) <= |mel| && j < 4
    requires q + j >= 1
    ensures Stem(k, SteadyWindow(mel, q))[2 + j] == StemAt(k, mel, q + j)
  {
    hide Stem, Conv0, Conv0At, RowAt, SteadyWindow;
    var w := SteadyWindow(mel, q);
    SteadyConv0(k, mel, q, 3 + 2 * j);
    SteadyConv0(k, mel, q, 4 + 2 * j);
    SteadyConv0(k, mel, q, 5 + 2 * j);
    StemRow(k, w, 2 + j);
    assert 2 * (2 + j) - 1 == 3 + 2 * j && 2 * (2 + j) == 4 + 2 * j && 2 * (2 + j) + 1 == 5 + 2 * j;
    assert 2 * (q - 2) + (4 + 2 * j) == 2 * (q + j);
  }

  lemma SteadyConv0(k: Kernels, mel: seq<MelFrame>, q: nat, i: nat)
    requires 2 <= i < 12
    requires 2 * (q - 2) + i >= 0
    ensures RowAt(Conv0(k, SteadyWindow(mel, q)), i) == Conv0At(k, mel, 2 * (q - 2) + i)
  {
    var w := SteadyWindow(mel, q);
    assert MelAt(w, i) == w[i] && MelAt(w, i - 1) == w[i - 1] && MelAt(w, i - 2) == w[i - 2];
  }

  ghost predicate SteadyRowAgrees(k: Kernels, mel: seq<MelFrame>, q: nat, j: nat)
    requires j < 4
  {
    Stem(k, SteadyWindow(mel, q))[2 + j] == StemAt(k, mel, q + j)
  }

  ghost predicate SteadyStemAgrees(q: nat) {
    forall k: Kernels, mel: seq<MelFrame>, j: nat | 2 * (q + 4) <= |mel| && j < 4 :: SteadyRowAgrees(k, mel, q, j)
  }

  /** Kernels of a stem whose first convolution has a bias: a convolution of zero frames is not zero. */
  function BiasedStem(): Kernels {
    Kernels(_ => ZERO_MEL, (_, _, _) => Hidden([1.0]), (x, _, _) => x, 0, (_, _, _) => ZERO_KV,
            (_, _, x, _) => x, x => x, (_, _, _, _) => ZERO_EMB, _ => 0, _ => [])
  }

  lemma SteadyStemFailsAtZero(mel: seq<MelFrame>)
    requires 8 <= |mel|
    ensures !SteadyRowAgrees(BiasedStem(), mel, 0, 0)
  {
    var k := BiasedStem();
    var c := Conv0(k, SteadyWindow(mel, 0));
    assert RowAt(c, 3) == c[3] == Hidden([1.0]);
    assert Stem(k, SteadyWindow(mel, 0))[2] == Hidden([1.0]);
    assert StemAt(k, mel, 0) == ZERO_HIDDEN;
    assert |ZERO_HIDDEN.row| != |Hidden([1.0]).row|;
  }

  /** The zero-filled fixed window is exact from frame 1 on, but not at the very start of a stream: there
      the row before frame 0 is a convolution of zero frames (a bias survives it) instead of a zero row. */
  lemma SteadyStemExactCondition(q: nat)
    ensures SteadyStemAgrees(q) <==> q >= 1
  {
    if q >= 1 {
      forall k: Kernels, mel: seq<MelFrame>, j: nat | 2 * (q + 4) <= |mel| && j < 4
        ensures SteadyRowAgrees(k, mel, q, j)
      {
        SteadyRow(k, mel, q, j);
      }
    } else {
      SteadyStemFailsAtZero(seq(8, _ => ZERO_MEL));
    }
  }

  /** Input rows of frames [q, q+n). */
  function StemRows(k: Kernels, mel: seq<MelFrame>, q: nat, n: nat): (r: seq<Hidden>)
    ensures |r| == n
  {
    seq(n, j requires 0 <= j < n => StemAt(k, mel, q + j))
  }

  lemma StemRowsAt(k: Kernels, mel: seq<MelFrame>, q: nat, n: nat, j: nat)
    requires j < n
    ensures StemRows(k, mel, q, n)[j] == StemAt(k, mel, q + j)
  {
  }

  ghost predicate SameAt<T>(x: seq<T>, s: nat, r: seq<T>, j: nat)
    requires j < |r| && s + |r| <= |x|
  {
    x[s + j] == r[j]
  }

  lemma SliceByIndex<T>(x: seq<T>, s: nat, r: seq<T>)
    requires s + |r| <= |x|
    requires forall j :: 0 <= j < |r| ==> SameAt(x, s, r, j)
    ensures x[s..s + |r|] == r
  {
    forall j {:trigger r[j]} | 0 <= j < |r|
      ensures x[s..s + |r|][j] == r[j]
    {
      assert SameAt(x, s, r, j);
    }
  }

  lemma WindowedStemRows(k: Kernels, mel: seq<MelFrame>, q: nat, n: nat)
    requires 2 * (q + n) <= |mel|
    ensures var s := q - ConvMelStart(q) / 2;
            && s + n <= |Stem(k, mel[ConvMelStart(q)..2 * (q + n)])|
            && Stem(k, mel[ConvMelStart(q)..2 * (q + n)])[s..s + n] == StemRows(k, mel, q, n)
  {
    hide Stem, StemAt, StemRows;
    var s := q - ConvMelStart(q) / 2;
    var x := Stem(k, mel[ConvMelStart(q)..2 * (q + n)]);
    var r := StemRows(k, mel, q, n);
    forall j | 0 <= j < n
      ensures SameAt(x, s, r, j)
    {
      WindowedStem(k, mel, q, n, j);
      StemRowsAt(k, mel, q, n, j);
    }
    SliceByIndex(x, s, r);
  }

  lemma SteadyStemRows(k: Kernels, mel: seq<MelFrame>, q: nat)
    requires 1 <= q && 2 * (q + 4) <= |mel|
    ensures Stem(k, SteadyWindow(mel, q))[2..6] == StemRows(k, mel, q, 4)
  {
    hide Stem, StemAt, StemRows, SteadyWindow;
    var x, r := Stem(k, SteadyWindow(mel, q)), StemRows(k, mel, q, 4);
    forall j | 0 <= j < 4
      ensures SameAt(x, 2, r, j)
    {
      SteadyRow(k, mel, q, j);
      StemRowsAt(k, mel, q, 4, j);
    }
    SliceByIndex(x, 2, r);
  }
}
