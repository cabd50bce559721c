/** Which K/V columns one execution shows to attention. The block graph lays out prefix, old ring rows, new rows
    and future columns and masks by absolute position; the reusable 4-row graph masks physical ring slots.
    Both show a real query exactly the K/V of its causal window. */
module BlockAttention {
  import opened Kernels
  import opened RingMath
  import opened EncoderSpec
  import opened EncoderPlan

  /** Column layout of the physical block of `rows` rows that holds the batch [q, q+n) from row qOffset on. */
  datatype Layout = Layout(qOffset: nat, blockStart: nat, keyStart: nat, keyEnd: nat, validOldStart: nat,
                           prefixLen: nat, oldLen: nat, futureLen: nat)

  function LayoutOf(q: nat, n: nat, rows: nat, qOffset: nat): (g: Layout)
    requires 0 < n && qOffset + n <= rows && qOffset <= q
    ensures g.keyStart + g.prefixLen + g.oldLen + n + g.futureLen == g.keyEnd
    ensures g.prefixLen <= g.qOffset && g.qOffset + n + g.futureLen == rows
    ensures g.validOldStart == WindowStart(q) && g.oldLen < ENC_WINDOW
    ensures g.qOffset == qOffset && g.blockStart + g.qOffset == q && g.keyStart + g.prefixLen == g.validOldStart
  {
    var blockStart := q - qOffset;
    var keyStart := Max(0, blockStart - (ENC_WINDOW - 1));
    var keyEnd := blockStart + rows;
    var validOldStart := Max(keyStart, Max(0, q - (ENC_WINDOW - 1)));
    Layout(qOffset, blockStart, keyStart, keyEnd, validOldStart,
           validOldStart - keyStart, q - validOldStart, keyEnd - (q + n))
  }

  /** The columns in logical order. Masked padding is zero in the fused F32 family, dummy rows otherwise. */
  function Columns(g: Layout, n: nat, zeroPad: bool, kvs: seq<KV>, oldRows: seq<KV>): (cols: seq<KV>)
    requires |kvs| == g.qOffset + n + g.futureLen && g.prefixLen <= g.qOffset && |oldRows| == g.oldLen
    ensures |cols| == g.prefixLen + g.oldLen + n + g.futureLen
  {
    (if zeroPad then seq(g.prefixLen, _ => ZERO_KV) else kvs[..g.prefixLen]) +
    oldRows +
    kvs[g.qOffset..g.qOffset + n] +
    (if zeroPad then seq(g.futureLen, _ => ZERO_KV) else kvs[g.qOffset + n..])
  }

  /** Mask row of block row r: the causal window for a real query; a dummy query of the segmented family sees
      one column so that its softmax is defined. */
  function MaskRow(g: Layout, n: nat, segmented: bool, r: nat): (m: seq<bool>)
    requires g.keyStart <= g.keyEnd
    ensures |m| == g.keyEnd - g.keyStart
  {
    var isReal := g.qOffset <= r < g.qOffset + n;
    seq(g.keyEnd - g.keyStart, kl =>
      if isReal then MaskAllows(g.keyStart + kl, g.blockStart + r, ENC_WINDOW) else segmented && kl == 0)
  }

  /** A dummy query of the segmented family sees the first column and nothing else, one of the fused family nothing. */
  lemma DummySees(g: Layout, n: nat, segmented: bool, cols: seq<KV>, r: nat)
    requires g.keyStart < g.keyEnd && |cols| == g.keyEnd - g.keyStart && !(g.qOffset <= r < g.qOffset + n)
    ensures Visible(cols, MaskRow(g, n, segmented, r)) == if segmented then [cols[0]] else []
  {
    hide Visible;
    VisibleInterval(cols, MaskRow(g, n, segmented, r), 0, if segmented then 1 else 0);
    assert cols[0..1] == [cols[0]];
  }

  lemma InnerColumns<T>(x: seq<T>, y: seq<T>, z: seq<T>, a: nat, b: nat)
    requires |x| <= a <= b <= |x| + |y|
    ensures (x + y + z)[a..b] == y[a - |x|..b - |x|]
  {
  }

  lemma ColumnsSplit(g: Layout, n: nat, zeroPad: bool, kvs: seq<KV>, oldRows: seq<KV>)
    returns (prefix: seq<KV>, future: seq<KV>)
    requires |kvs| == g.qOffset + n + g.futureLen && g.prefixLen <= g.qOffset && |oldRows| == g.oldLen
    ensures |prefix| == g.prefixLen && |future| == g.futureLen
    ensures Columns(g, n, zeroPad, kvs, oldRows) == prefix + (oldRows + kvs[g.qOffset..g.qOffset + n]) + future
  {
    prefix := if zeroPad then seq(g.prefixLen, _ => ZERO_KV) else kvs[..g.prefixLen];
    future := if zeroPad then seq(g.futureLen, _ => ZERO_KV) else kvs[g.qOffset + n..];
  }

  lemma MaskIsInterval(g: Layout, n: nat, segmented: bool, j: nat, i: nat)
    requires j < n && g.keyStart + i < g.keyEnd
    ensures var q := g.blockStart + g.qOffset + j;
            MaskRow(g, n, segmented, g.qOffset + j)[i] <==> WindowStart(q) - g.keyStart <= i < q + 1 - g.keyStart
  {
    var q := g.blockStart + g.qOffset + j;
    assert MaskRow(g, n, segmented, g.qOffset + j)[i] == MaskAllows(g.keyStart + i, q, ENC_WINDOW);
  }

  /** The columns of a contiguous stretch h of positions from g.validOldStart on, under the mask of one real row. */
  lemma VisibleColumns(g: Layout, n: nat, segmented: bool, zeroPad: bool, kvs: seq<KV>, oldRows: seq<KV>,
                       h: seq<KV>, j: nat)
    requires j < n && g.qOffset + n <= |kvs|
    requires g == LayoutOf(g.blockStart + g.qOffset, n, |kvs|, g.qOffset)
    requires |oldRows| == g.oldLen && h == oldRows + kvs[g.qOffset..g.qOffset + n]
    ensures var q := g.blockStart + g.qOffset + j;
            Visible(Columns(g, n, zeroPad, kvs, oldRows), MaskRow(g, n, segmented, g.qOffset + j)) ==
            h[WindowStart(q) - g.validOldStart..q + 1 - g.validOldStart]
  {
    hide Visible, Columns, MaskRow;
    var q := g.blockStart + g.qOffset + j;
    var prefix, future := ColumnsSplit(g, n, zeroPad, kvs, oldRows);
    var cols := Columns(g, n, zeroPad, kvs, oldRows);
    var mask := MaskRow(g, n, segmented, g.qOffset + j);
    var a, b := WindowStart(q) - g.keyStart, q + 1 - g.keyStart;
    forall i | 0 <= i < |mask|
      ensures mask[i] <==> a <= i < b
    {
      MaskIsInterval(g, n, segmented, j, i);
    }
    VisibleInterval(cols, mask, a, b);
    InnerColumns(prefix, h, future, a, b);
  }

  lemma SliceOfTail<T>(all: seq<T>, w: nat, q: nat, lo: nat, hi: nat)
    requires w <= q <= |all| && w <= lo <= hi <= |all|
    ensures all[w..] == all[w..q] + all[q..]
    ensures all[w..][lo - w..hi - w] == all[lo..hi]
  {
  }

  /** The same for the whole history `all` of a layer up to the end of the batch. */
  lemma BlockShowsSpan(all: seq<KV>, q: nat, n: nat, qOffset: nat, segmented: bool, zeroPad: bool,
                       kvs: seq<KV>, oldRows: seq<KV>, j: nat)
    requires j < n && qOffset + n <= |kvs| && qOffset <= q && |all| == q + n
    requires oldRows == all[WindowStart(q)..q] && kvs[qOffset..qOffset + n] == all[q..]
    ensures var g := LayoutOf(q, n, |kvs|, qOffset);
            Visible(Columns(g, n, zeroPad, kvs, oldRows), MaskRow(g, n, segmented, qOffset + j)) ==
            all[WindowStart(q + j)..q + j + 1]
  {
    hide Visible, MaskRow, Columns;
    var g := LayoutOf(q, n, |kvs|, qOffset);
    var w := WindowStart(q);
    SliceOfTail(all, w, q, WindowStart(q + j), q + j + 1);
    VisibleColumns(g, n, segmented, zeroPad, kvs, oldRows, all[w..], j);
  }

  /** Mask row of the reusable graph: the physical slots of the positions in the window of query `qAbs`. */
  method SlotMask(qAbs: nat) returns (mask: seq<bool>)
    ensures |mask| == ENC_KV_CAP
    ensures OpensSpan(mask, WindowStart(qAbs), qAbs + 1 - WindowStart(qAbs))
  {
    var a := new bool[ENC_KV_CAP](_ => false);
    var first := Max(0, qAbs - (ENC_WINDOW - 1));
    var key := first;
    while key <= qAbs
      invariant first <= key <= qAbs + 1
      invariant forall s :: 0 <= s < ENC_KV_CAP ==>
        (a[s] <==> exists p :: first <= p < key && InSlot(p, s, ENC_KV_CAP))
    {
      assert InSlot(key, key % ENC_KV_CAP, ENC_KV_CAP);
      a[key % ENC_KV_CAP] := true;
      key := key + 1;
    }
    mask := a[..];
    MaskOpensSpan(mask, first, qAbs + 1 - first);
  }

  lemma RingShowsSpan(ring: seq<KV>, mask: seq<bool>, all: seq<KV>, q: nat)
    requires |ring| == |mask| == ENC_KV_CAP
    requires q < |all| <= q + ENC_KV_MAX_NEW
    requires Resident(ring, all, Max(0, |all| - ENC_KV_CAP))
    requires OpensSpan(mask, WindowStart(q), q + 1 - WindowStart(q))
    ensures multiset(Visible(ring, mask)) == multiset(all[WindowStart(q)..q + 1])
  {
    hide Visible, OpensSpan, Resident;
    ResidentLater(ring, all, Max(0, |all| - ENC_KV_CAP), WindowStart(q));
    PhysicalMaskIsWindow(ring, mask, all, WindowStart(q), q + 1 - WindowStart(q));
  }

  /** Attention over the whole physical ring of one layer, under the slot mask of query q, sees exactly the
      window of q: later rows already written are masked, and no window row has been overwritten. */
  lemma RingShowsWindow(k: Kernels, mel: seq<MelFrame>, l: nat, ring: seq<KV>, mask: seq<bool>, q: nat, end: nat)
    requires |ring| == |mask| == ENC_KV_CAP
    requires q < end <= q + ENC_KV_MAX_NEW
    requires Resident(ring, History(k, mel, l, end), Max(0, end - ENC_KV_CAP))
    requires OpensSpan(mask, WindowStart(q), q + 1 - WindowStart(q))
    ensures multiset(Visible(ring, mask)) == multiset(Window(k, mel, l, q))
  {
    WindowOfHistory(k, mel, l, q, end);
    RingShowsSpan(ring, mask, History(k, mel, l, end), q);
  }

  lemma ResidentLater<T>(ring: seq<T>, all: seq<T>, lo: nat, lo': nat)
    requires 0 < |ring| && lo <= lo'
    requires Resident(ring, all, lo)
    ensures Resident(ring, all, lo')
  {
  }
}
