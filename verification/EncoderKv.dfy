/** The per-layer KV encoder: a persistent K/V ring, a bounded Mel tail and the microbatch driver. Whatever the
    batching, every output row equals the direct recursion of EncoderSpec over the whole Mel stream. */
module EncoderKv {
  import opened Common
  import opened Kernels
  import opened RingMath
  import opened DeviceRing
  import opened ConvStem
  import opened EncoderSpec
  import opened EncoderPlan
  import opened BlockAttention

  /** Encoder outputs of frames [lo, hi). */
  function Outputs(k: Kernels, mel: seq<MelFrame>, lo: nat, hi: nat): (r: seq<Hidden>)
    requires lo <= hi
    ensures |r| == hi - lo
  {
    seq(hi - lo, i requires 0 <= i < hi - lo => Enc(k, mel, lo + i))
  }

  /** Rows of frames [q, q+n) after l layers. */
  function HidRows(k: Kernels, mel: seq<MelFrame>, l: nat, q: nat, n: nat): (r: seq<Hidden>)
    ensures |r| == n
  {
    seq(n, j requires 0 <= j < n => Hid(k, mel, l, q + j))
  }

  /** Causal windows of frames [q, q+n) in layer l. */
  function WindowRows(k: Kernels, mel: seq<MelFrame>, l: nat, q: nat, n: nat): (r: seq<multiset<KV>>)
    ensures |r| == n
  {
    seq(n, j requires 0 <= j < n => multiset(Window(k, mel, l, q + j)))
  }

  /** Ring of layer l inside the flat device buffer [layers x capacity]. */
  ghost predicate LayerHolds(k: Kernels, mel: seq<MelFrame>, buffer: seq<KV>, l: nat, n: nat) {
    && (l + 1) * ENC_KV_CAP <= |buffer|
    && Resident(Layer(buffer, l * ENC_KV_CAP, ENC_KV_CAP), History(k, mel, l, n), Max(0, n - ENC_KV_CAP))
  }

  /** Rows [q, q+n) after l layers sit at block rows [qOffset, qOffset+n). */
  ghost predicate RowsAre(k: Kernels, mel: seq<MelFrame>, rows: seq<Hidden>, l: nat, q: nat, n: nat, qOffset: nat) {
    qOffset + n <= |rows| && rows[qOffset..qOffset + n] == HidRows(k, mel, l, q, n)
  }

  lemma LayerBounds(l: nat, layers: nat)
    requires l < layers
    ensures (l + 1) * ENC_KV_CAP <= layers * ENC_KV_CAP
  {
    MulMonotone(l + 1, layers, ENC_KV_CAP);
  }

  /** K/V rows computed from correct hidden rows are the K/V of their positions. */
  lemma NewRowsAreHistory(k: Kernels, mel: seq<MelFrame>, rows: seq<Hidden>, kvs: seq<KV>, l: nat, q: nat, n: nat, qOffset: nat)
    requires RowsAre(k, mel, rows, l, q, n, qOffset) && qOffset <= q
    requires |kvs| == |rows| && forall r :: 0 <= r < |kvs| ==> kvs[r] == k.kv(l, q - qOffset + r, rows[r])
    ensures kvs[qOffset..qOffset + n] == History(k, mel, l, q + n)[q..]
    ensures History(k, mel, l, q + n) == History(k, mel, l, q) + kvs[qOffset..qOffset + n]
  {
    var h := History(k, mel, l, q + n);
    forall i {:trigger h[q..][i]} | 0 <= i < n
      ensures kvs[qOffset..qOffset + n][i] == h[q..][i]
    {
      assert rows[qOffset + i] == rows[qOffset..qOffset + n][i] == Hid(k, mel, l, q + i);
      assert h[q..][i] == KVAt(k, mel, l, q + i);
    }
    assert History(k, mel, l, q) == h[..q];
  }

  /** Writing them keeps the layer's ring exact. */
  lemma WriteKeepsLayer(k: Kernels, mel: seq<MelFrame>, before: seq<KV>, after: seq<KV>, l: nat, q: nat, data: seq<KV>)
    requires |before| == |after| && (l + 1) * ENC_KV_CAP <= |before|
    requires LayerHolds(k, mel, before, l, q)
    requires |data| <= ENC_KV_MAX_NEW
    requires History(k, mel, l, q + |data|) == History(k, mel, l, q) + data
    requires Layer(after, l * ENC_KV_CAP, ENC_KV_CAP) == Written(Layer(before, l * ENC_KV_CAP, ENC_KV_CAP), q, data)
    ensures LayerHolds(k, mel, after, l, q + |data|)
  {
    WrittenResident(Layer(before, l * ENC_KV_CAP, ENC_KV_CAP), History(k, mel, l, q), data,
                    Max(0, q - ENC_KV_CAP), Max(0, q + |data| - ENC_KV_CAP));
  }

  /** A write into one layer leaves every other layer alone. */
  lemma OtherLayers(before: seq<KV>, after: seq<KV>, l: nat, l': nat)
    requires |before| == |after| && (l + 1) * ENC_KV_CAP <= |before| && (l' + 1) * ENC_KV_CAP <= |before|
    requires after[..l * ENC_KV_CAP] == before[..l * ENC_KV_CAP]
    requires after[(l + 1) * ENC_KV_CAP..] == before[(l + 1) * ENC_KV_CAP..]
    requires l != l'
    ensures Layer(after, l' * ENC_KV_CAP, ENC_KV_CAP) == Layer(before, l' * ENC_KV_CAP, ENC_KV_CAP)
  {
    var b, b' := l * ENC_KV_CAP, l' * ENC_KV_CAP;
    if l' < l {
      assert Layer(after, b', ENC_KV_CAP) == after[..b][b'..b' + ENC_KV_CAP];
      assert Layer(before, b', ENC_KV_CAP) == before[..b][b'..b' + ENC_KV_CAP];
    } else {
      var e := b + ENC_KV_CAP;
      assert Layer(after, b', ENC_KV_CAP) == after[e..][b' - e..b' - e + ENC_KV_CAP];
      assert Layer(before, b', ENC_KV_CAP) == before[e..][b' - e..b' - e + ENC_KV_CAP];
    }
  }

  /** Layers below l have been advanced to frame `done`, the others still stand at frame q. */
  ghost predicate RingState(k: Kernels, mel: seq<MelFrame>, buffer: seq<KV>, l: nat, q: nat, done: nat) {
    && |buffer| == k.layers * ENC_KV_CAP
    && forall i :: 0 <= i < k.layers ==> LayerAt(k, mel, buffer, i, l, q, done)
  }

  ghost predicate LayerAt(k: Kernels, mel: seq<MelFrame>, buffer: seq<KV>, i: nat, l: nat, q: nat, done: nat) {
    LayerHolds(k, mel, buffer, i, if i < l then done else q)
  }

  lemma RingLength(k: Kernels, mel: seq<MelFrame>, buffer: seq<KV>, l: nat, q: nat, done: nat)
    requires RingState(k, mel, buffer, l, q, done)
    ensures |buffer| == k.layers * ENC_KV_CAP
  {
  }

  /** Advancing layer l of the ring. */
  lemma AdvanceLayer(k: Kernels, mel: seq<MelFrame>, before: seq<KV>, after: seq<KV>, l: nat, q: nat, data: seq<KV>)
    requires l < k.layers && |before| == |after| && |data| <= ENC_KV_MAX_NEW
    requires (l + 1) * ENC_KV_CAP <= |before|
    requires RingState(k, mel, before, l, q, q + |data|)
    requires History(k, mel, l, q + |data|) == History(k, mel, l, q) + data
    requires Layer(after, l * ENC_KV_CAP, ENC_KV_CAP) == Written(Layer(before, l * ENC_KV_CAP, ENC_KV_CAP), q, data)
    requires after[..l * ENC_KV_CAP] == before[..l * ENC_KV_CAP]
    requires after[(l + 1) * ENC_KV_CAP..] == before[(l + 1) * ENC_KV_CAP..]
    ensures RingState(k, mel, after, l + 1, q, q + |data|)
  {
    var l', done := l + 1, q + |data|;
    forall i | 0 <= i < k.layers
      ensures LayerAt(k, mel, after, i, l', q, done)
    {
      assert LayerAt(k, mel, before, i, l, q, q + |data|);
      if i == l {
        WriteKeepsLayer(k, mel, before, after, l, q, data);
      } else {
        OtherLayers(before, after, l, i);
      }
    }
  }

  /** A ring standing at frame q before a batch, and one standing at its end afterwards. */
  lemma Restage(k: Kernels, mel: seq<MelFrame>, buffer: seq<KV>, q: nat, done: nat)
    ensures RingState(k, mel, buffer, k.layers, q, q) ==> RingState(k, mel, buffer, 0, q, done)
    ensures RingState(k, mel, buffer, k.layers, q, done) ==> RingState(k, mel, buffer, k.layers, done, done)
  {
    var layers := k.layers;
    if RingState(k, mel, buffer, layers, q, q) {
      forall i | 0 <= i < layers
        ensures LayerAt(k, mel, buffer, i, 0, q, done)
      {
        assert LayerAt(k, mel, buffer, i, layers, q, q);
      }
    }
    if RingState(k, mel, buffer, layers, q, done) {
      forall i | 0 <= i < layers
        ensures LayerAt(k, mel, buffer, i, layers, done, done)
      {
        assert LayerAt(k, mel, buffer, i, layers, q, done);
      }
    }
  }

  /** The ring of a layer that has been advanced to frame `done`. */
  lemma AdvancedLayer(k: Kernels, mel: seq<MelFrame>, buffer: seq<KV>, l: nat, q: nat, done: nat)
    requires l < k.layers && RingState(k, mel, buffer, l + 1, q, done)
    ensures (l + 1) * ENC_KV_CAP <= |buffer|
    ensures Resident(buffer[l * ENC_KV_CAP..l * ENC_KV_CAP + ENC_KV_CAP], History(k, mel, l, done), Max(0, done - ENC_KV_CAP))
  {
    hide Resident, History;
    assert LayerAt(k, mel, buffer, l, l + 1, q, done);
  }

  /** Real rows at their offset in the block, zero rows around them. */
  function PadRows(x: seq<Hidden>, qOffset: nat, rows: nat): (r: seq<Hidden>)
    requires qOffset + |x| <= rows
    ensures |r| == rows && r[qOffset..qOffset + |x|] == x
  {
    seq(qOffset, _ => ZERO_HIDDEN) + x + seq(rows - qOffset - |x|, _ => ZERO_HIDDEN)
  }

  /** Finished rows are the outputs. */
  function NormRows(k: Kernels, rows: seq<Hidden>): (r: seq<Hidden>)
    ensures |r| == |rows|
  {
    seq(|rows|, i requires 0 <= i < |rows| => k.norm(rows[i]))
  }

  lemma NormRowsAreOutputs(k: Kernels, mel: seq<MelFrame>, rows: seq<Hidden>, q: nat, n: nat, qOffset: nat)
    requires RowsAre(k, mel, rows, k.layers, q, n, qOffset)
    ensures NormRows(k, rows[qOffset..qOffset + n]) == Outputs(k, mel, q, q + n)
  {
    var cut := rows[qOffset..qOffset + n];
    forall j {:trigger cut[j]} | 0 <= j < n
      ensures NormRows(k, cut)[j] == Outputs(k, mel, q, q + n)[j]
    {
      assert cut[j] == HidRows(k, mel, k.layers, q, n)[j] == Hid(k, mel, k.layers, q + j);
      assert NormRows(k, cut)[j] == k.norm(cut[j]) && Outputs(k, mel, q, q + n)[j] == Enc(k, mel, q + j);
    }
  }

  /** One layer applied to every row of a block. */
  function BlockRows(k: Kernels, l: nat, blockStart: nat, rows: seq<Hidden>, shown: seq<multiset<KV>>): (r: seq<Hidden>)
    requires |shown| == |rows|
    ensures |r| == |rows|
  {
    seq(|rows|, i requires 0 <= i < |rows| => k.block(l, blockStart + i, rows[i], shown[i]))
  }

  lemma GatherLength<T>(ring: seq<T>, start: nat, len: nat)
    requires 0 < |ring| && len <= |ring|
    ensures |Gather(ring, Segments(start, len, |ring|))| == len
  {
    if len > 0 {
      var slot, first := SegmentsOf(start, len, |ring|);
      GatherTwo(ring, Seg(slot, first), Seg(0, len - first));
    }
  }

  /** What each row of a block sees of the laid-out columns. */
  function ShownByBlock(g: Layout, n: nat, segmented: bool, cols: seq<KV>, rows: nat): (shown: seq<multiset<KV>>)
    requires g.keyStart <= g.keyEnd && |cols| == g.keyEnd - g.keyStart
    ensures |shown| == rows
  {
    seq(rows, r requires 0 <= r < rows => multiset(Visible(cols, MaskRow(g, n, segmented, r))))
  }

  lemma ShownAt(g: Layout, n: nat, segmented: bool, cols: seq<KV>, rows: nat, r: nat)
    requires g.keyStart <= g.keyEnd && |cols| == g.keyEnd - g.keyStart && r < rows
    ensures ShownByBlock(g, n, segmented, cols, rows)[r] == multiset(Visible(cols, MaskRow(g, n, segmented, r)))
  {
  }

  ghost predicate RowShowsSpan(shown: seq<multiset<KV>>, qOffset: nat, all: seq<KV>, q: nat, j: nat)
    requires qOffset + j < |shown| && q + j < |all|
  {
    shown[qOffset + j] == multiset(all[WindowStart(q + j)..q + j + 1])
  }

  lemma ShownRowsAreSpans(shown: seq<multiset<KV>>, qOffset: nat, n: nat, all: seq<KV>, q: nat)
    requires |all| == q + n && qOffset + n <= |shown|
    requires forall j :: 0 <= j < n ==> RowShowsSpan(shown, qOffset, all, q, j)
    ensures shown[qOffset..qOffset + n] == SpanRows(all, q, n)
  {
    var spans := SpanRows(all, q, n);
    forall j {:trigger spans[j]} | 0 <= j < n
      ensures shown[qOffset..qOffset + n][j] == spans[j]
    {
      assert RowShowsSpan(shown, qOffset, all, q, j);
    }
  }

  lemma BlockShowsSpans(all: seq<KV>, q: nat, n: nat, qOffset: nat, segmented: bool, zeroPad: bool, kvs: seq<KV>,
                        oldRows: seq<KV>)
    requires 0 < n && qOffset <= q && qOffset + n <= |kvs| && |all| == q + n
    requires oldRows == all[WindowStart(q)..q] && kvs[qOffset..qOffset + n] == all[q..]
    ensures var g := LayoutOf(q, n, |kvs|, qOffset);
            ShownByBlock(g, n, segmented, Columns(g, n, zeroPad, kvs, oldRows), |kvs|)[qOffset..qOffset + n] ==
            SpanRows(all, q, n)
  {
    var g := LayoutOf(q, n, |kvs|, qOffset);
    var cols := Columns(g, n, zeroPad, kvs, oldRows);
    var shown := ShownByBlock(g, n, segmented, cols, |kvs|);
    forall j | 0 <= j < n
      ensures RowShowsSpan(shown, qOffset, all, q, j)
    {
      BlockShowsSpan(all, q, n, qOffset, segmented, zeroPad, kvs, oldRows, j);
      ShownAt(g, n, segmented, cols, |kvs|, qOffset + j);
    }
    ShownRowsAreSpans(shown, qOffset, n, all, q);
  }

  /** The windows of frames [q, q+n), cut out of a history. */
  function SpanRows(all: seq<KV>, q: nat, n: nat): (r: seq<multiset<KV>>)
    requires |all| >= q + n
    ensures |r| == n
  {
    seq(n, j requires 0 <= j < n => multiset(all[WindowStart(q + j)..q + j + 1]))
  }

  lemma SpanRowsAreWindows(k: Kernels, mel: seq<MelFrame>, l: nat, q: nat, n: nat)
    ensures SpanRows(History(k, mel, l, q + n), q, n) == WindowRows(k, mel, l, q, n)
  {
    hide History, Window;
    var all, rows := History(k, mel, l, q + n), WindowRows(k, mel, l, q, n);
    forall j {:trigger rows[j]} | 0 <= j < n
      ensures SpanRows(all, q, n)[j] == rows[j]
    {
      WindowOfHistory(k, mel, l, q + j, q + n);
    }
  }

  /** Every real row of a block sees exactly its causal window, whatever the block and the batch inside it. */
  lemma BlockShowsWindows(k: Kernels, mel: seq<MelFrame>, l: nat, layer: seq<KV>, q: nat, n: nat, qOffset: nat,
                          segmented: bool, zeroPad: bool, kvs: seq<KV>)
    requires 0 < n <= ENC_KV_MAX_NEW && qOffset <= q && qOffset + n <= |kvs|
    requires |layer| == ENC_KV_CAP
    requires Resident(layer, History(k, mel, l, q + n), Max(0, q + n - ENC_KV_CAP))
    requires kvs[qOffset..qOffset + n] == History(k, mel, l, q + n)[q..]
    ensures var g := LayoutOf(q, n, |kvs|, qOffset);
            var oldRows := Gather(layer, Segments(g.validOldStart, g.oldLen, ENC_KV_CAP));
            && |oldRows| == g.oldLen
            && ShownByBlock(g, n, segmented, Columns(g, n, zeroPad, kvs, oldRows), |kvs|)[qOffset..qOffset + n] ==
               WindowRows(k, mel, l, q, n)
  {
    hide Resident, Gather, Segments, Columns, ShownByBlock, SpanRows, WindowRows, History;
    var all := History(k, mel, l, q + n);
    GatherIsSpan(layer, all, Max(0, q + n - ENC_KV_CAP), WindowStart(q), q - WindowStart(q));
    BlockShowsSpans(all, q, n, qOffset, segmented, zeroPad, kvs, Gather(layer, Segments(WindowStart(q), q - WindowStart(q), ENC_KV_CAP)));
    SpanRowsAreWindows(k, mel, l, q, n);
  }

  /** The columns the reusable graph shows: the whole physical ring under one slot mask per row. */
  function ShownByRing(layer: seq<KV>, masks: seq<seq<bool>>): (shown: seq<multiset<KV>>)
    requires forall r :: 0 <= r < |masks| ==> |masks[r]| == |layer|
    ensures |shown| == |masks|
  {
    seq(|masks|, r requires 0 <= r < |masks| => multiset(Visible(layer, masks[r])))
  }

  /** Slot masks for the queries q, q+1, ... */
  ghost predicate SlotMasks(masks: seq<seq<bool>>, q: nat) {
    forall j :: 0 <= j < |masks| ==>
      |masks[j]| == ENC_KV_CAP && OpensSpan(masks[j], WindowStart(q + j), q + j + 1 - WindowStart(q + j))
  }

  lemma MaskWidths(masks: seq<seq<bool>>, q: nat)
    requires SlotMasks(masks, q)
    ensures forall r :: 0 <= r < |masks| ==> |masks[r]| == ENC_KV_CAP
  {
  }

  lemma RingShowsWindows(k: Kernels, mel: seq<MelFrame>, l: nat, layer: seq<KV>, masks: seq<seq<bool>>, q: nat)
    requires |layer| == ENC_KV_CAP && |masks| == 4 && SlotMasks(masks, q)
    requires Resident(layer, History(k, mel, l, q + 4), Max(0, q + 4 - ENC_KV_CAP))
    ensures ShownByRing(layer, masks) == WindowRows(k, mel, l, q, 4)
  {
    hide Resident, OpensSpan, Visible, History;
    var shown, rows := ShownByRing(layer, masks), WindowRows(k, mel, l, q, 4);
    forall j {:trigger rows[j]} | 0 <= j < 4
      ensures shown[j] == rows[j]
    {
      RingShowsWindow(k, mel, l, layer, masks[j], q + j, q + 4);
    }
  }

  lemma BlockRowsAre(k: Kernels, mel: seq<MelFrame>, l: nat, rows: seq<Hidden>, shown: seq<multiset<KV>>, q: nat, n: nat, qOffset: nat)
    requires RowsAre(k, mel, rows, l, q, n, qOffset) && qOffset <= q && |shown| == |rows|
    requires shown[qOffset..qOffset + n] == WindowRows(k, mel, l, q, n)
    ensures RowsAre(k, mel, BlockRows(k, l, q - qOffset, rows, shown), l + 1, q, n, qOffset)
  {
    var r := BlockRows(k, l, q - qOffset, rows, shown)[qOffset..qOffset + n];
    var cut, windows := rows[qOffset..qOffset + n], shown[qOffset..qOffset + n];
    var next := HidRows(k, mel, l + 1, q, n);
    forall j {:trigger r[j]} | 0 <= j < n
      ensures r[j] == next[j]
    {
      assert cut[j] == HidRows(k, mel, l, q, n)[j] == Hid(k, mel, l, q + j);
      assert windows[j] == WindowRows(k, mel, l, q, n)[j] == multiset(Window(k, mel, l, q + j));
      assert r[j] == k.block(l, q + j, cut[j], windows[j]);
      NextLayer(k, mel, l, q + j);
      assert next[j] == Hid(k, mel, l + 1, q + j);
    }
  }

  lemma NextLayer(k: Kernels, mel: seq<MelFrame>, l: nat, e: nat)
    ensures Hid(k, mel, l + 1, e) == k.block(l, e, Hid(k, mel, l, e), multiset(Window(k, mel, l, e)))
  {
  }

  class EncoderKv {
    const k: Kernels
    const schedule: Schedule
    const finishPhysical: nat     // rows per block of the terminal flush
    const toRing: bool            // mirror outputs into the device ring (streams) or accumulate them (batch)
    const manual: bool            // segmented attention requested for every block size
    const f16: bool               // ring storage type
    const ring: array<KV>         // [layers x capacity], persistent
    const outRing: array<Hidden>  // encoder-output ring the adapter reads

    var emitted: nat
    var stableMel: nat
    var melTail: seq<MelFrame>    // Mel frames [tailBase, stableMel)
    var tailBase: nat
    var accum: seq<Hidden>
    var finalized: bool

    ghost var mel: seq<MelFrame>  // everything pushed since creation or reset
    ghost var log: seq<Batch>     // executed batches

    ghost predicate Config() {
      && Normal(schedule) && finishPhysical in {4, 8, 16, 32, 128}
      && ring.Length == k.layers * ENC_KV_CAP && outRing.Length == ENC_OUT_RING_CAP
    }

    /** The tail covers the convolution window of the next batch and no more than that to the left. */
    ghost predicate TailInv()
      reads this`emitted, this`stableMel, this`melTail, this`tailBase, this`mel
    {
      && stableMel == |mel| && tailBase == ConvMelStart(emitted) && tailBase <= |mel|
      && melTail == mel[tailBase..]
    }

    /** Every row produced so far is the direct recursion's row. */
    ghost predicate OutputInv()
      reads this`emitted, this`accum, this`mel, outRing
    {
      && 2 * emitted <= |mel|
      && if toRing then
           outRing.Length > 0 && Resident(outRing[..], Outputs(k, mel, 0, emitted), Max(0, emitted - ENC_OUT_RING_CAP))
         else accum == Outputs(k, mel, 0, emitted)
    }

    ghost predicate Valid()
      reads this, ring, outRing
    {
      && Config() && OutputInv() && Tiles(log, emitted)
      && RingState(k, mel, ring[..], k.layers, emitted, emitted)
      && (if finalized then emitted == |mel| / 2 else TailInv())
    }

    /** Before finish, what has run is a function of the number of Mel frames alone. */
    ghost predicate Feeding()
      reads this`emitted, this`finalized, this`mel, this`log
    {
      !finalized && Normal(schedule) && log == FeedBatches(schedule, |mel|) && emitted == FeedEmitted(schedule, |mel|)
    }

    lemma Facts()
      requires Valid()
      ensures Config() && OutputInv() && 2 * emitted <= |mel|
      ensures Feeding() ==> !finalized && emitted == FeedEmitted(schedule, |mel|)
    {
      hide RingState, Tiles, Resident, Outputs, FeedEmitted, FeedBatches;
    }

    constructor (k: Kernels, schedule: Schedule, finishPhysical: nat, toRing: bool, manual: bool, f16: bool)
      requires Normal(schedule) && finishPhysical in {4, 8, 16, 32, 128}
      ensures Valid() && Feeding() && fresh(ring) && fresh(outRing)
      ensures mel == [] && this.k == k && this.schedule == schedule && this.finishPhysical == finishPhysical
      ensures this.toRing == toRing && outRing.Length == ENC_OUT_RING_CAP
    {
      this.k, this.schedule, this.finishPhysical := k, schedule, finishPhysical;
      this.toRing, this.manual, this.f16 := toRing, manual, f16;
      ring := new KV[k.layers * ENC_KV_CAP](_ => ZERO_KV);
      outRing := new Hidden[ENC_OUT_RING_CAP](_ => ZERO_HIDDEN);
      emitted, stableMel, melTail, tailBase, accum, finalized := 0, 0, [], 0, [], false;
      mel, log := [], [];
      new;
      EmptyRing(k, ring[..]);
    }

    /** Reset clears the counters only: stale ring rows are never read again. */
    method Reset()
      requires Config()
      modifies this
      ensures Valid() && Feeding() && mel == []
    {
      emitted, stableMel, melTail, tailBase, accum, finalized := 0, 0, [], 0, [], false;
      mel, log := [], [];
      EmptyRing(k, ring[..]);
    }

    // ---- one graph execution ---------------------------------------------------------------------------

    /** Write the real rows of one layer through the plan's write segments. */
    method WriteLayer(l: nat, plan: Plan, data: seq<KV>)
      requires l < k.layers && 0 < |data| <= ENC_KV_MAX_NEW && |data| == plan.nNew
      requires EncKvPlan(plan.qStart, plan.nNew, ENC_KV_CAP, ENC_WINDOW) == Some(plan)
      requires RingState(k, mel, ring[..], l, plan.qStart, plan.qStart + |data|)
      requires History(k, mel, l, plan.qStart + |data|) == History(k, mel, l, plan.qStart) + data
      modifies ring
      ensures RingState(k, mel, ring[..], l + 1, plan.qStart, plan.qStart + |data|)
    {
      hide RingState, History, Written, Stored, Segments, Places;
      LayerBounds(l, k.layers);
      RingLength(k, mel, ring[..], l, plan.qStart, plan.qStart + |data|);
      PlanStores(plan.qStart, plan.nNew, ENC_KV_CAP, ENC_WINDOW, Layer(ring[..], l * ENC_KV_CAP, ENC_KV_CAP), data);
      CopySegments(ring, l * ENC_KV_CAP, ENC_KV_CAP, data, plan.writeSegs);
      AdvanceLayer(k, mel, old(ring[..]), ring[..], l, plan.qStart, data);
    }

    /** Store the rows of one layer slot by slot. */
    method ScatterLayer(l: nat, q: nat, data: seq<KV>)
      requires l < k.layers && 0 < |data| <= ENC_KV_MAX_NEW
      requires RingState(k, mel, ring[..], l, q, q + |data|)
      requires History(k, mel, l, q + |data|) == History(k, mel, l, q) + data
      modifies ring
      ensures RingState(k, mel, ring[..], l + 1, q, q + |data|)
    {
      LayerBounds(l, k.layers);
      ScatterRows(ring, l * ENC_KV_CAP, ENC_KV_CAP, q, data);
      AdvanceLayer(k, mel, old(ring[..]), ring[..], l, q, data);
    }

    /** One transformer layer of the block graph: write the new K/V, then attend over the masked columns. */
    method BlockLayer(l: nat, rows: seq<Hidden>, plan: Plan, qOffset: nat) returns (next: seq<Hidden>)
      requires l < k.layers && 0 < plan.nNew <= ENC_KV_MAX_NEW && qOffset <= plan.qStart
      requires EncKvPlan(plan.qStart, plan.nNew, ENC_KV_CAP, ENC_WINDOW) == Some(plan)
      requires RowsAre(k, mel, rows, l, plan.qStart, plan.nNew, qOffset)
      requires RingState(k, mel, ring[..], l, plan.qStart, plan.qStart + plan.nNew)
      modifies ring
      ensures |next| == |rows| && RowsAre(k, mel, next, l + 1, plan.qStart, plan.nNew, qOffset)
      ensures RingState(k, mel, ring[..], l + 1, plan.qStart, plan.qStart + plan.nNew)
    {
      hide RingState, Resident, History, HidRows, WindowRows, Gather, Segments, Columns, ShownByBlock, BlockRows, EncKvPlan;
      var q, n := plan.qStart, plan.nNew;
      var segmented := |rows| < 32 || manual;
      var kvs := seq(|rows|, r requires 0 <= r < |rows| => k.kv(l, q - qOffset + r, rows[r]));
      NewRowsAreHistory(k, mel, rows, kvs, l, q, n, qOffset);
      WriteLayer(l, plan, kvs[qOffset..qOffset + n]);
      AdvancedLayer(k, mel, ring[..], l, q, q + n);
      var layer := ring[l * ENC_KV_CAP..l * ENC_KV_CAP + ENC_KV_CAP];
      var g := LayoutOf(q, n, |rows|, qOffset);
      var oldRows := Gather(layer, Segments(g.validOldStart, g.oldLen, ENC_KV_CAP));
      GatherLength(layer, g.validOldStart, g.oldLen);
      var cols := Columns(g, n, !segmented && !f16, kvs, oldRows);
      var shown := ShownByBlock(g, n, segmented, cols, |rows|);
      BlockShowsWindows(k, mel, l, layer, q, n, qOffset, segmented, !segmented && !f16, kvs);
      next := BlockRows(k, l, q - qOffset, rows, shown);
      BlockRowsAre(k, mel, l, rows, shown, q, n, qOffset);
    }

    /** One layer of the reusable 4-row graph: scatter the new K/V, then attend over the whole physical ring. */
    method SteadyLayer(l: nat, rows: seq<Hidden>, q: nat, masks: seq<seq<bool>>) returns (next: seq<Hidden>)
      requires l < k.layers && |rows| == 4
      requires |masks| == 4 && SlotMasks(masks, q)
      requires RowsAre(k, mel, rows, l, q, 4, 0)
      requires RingState(k, mel, ring[..], l, q, q + 4)
      modifies ring
      ensures |next| == 4 && RowsAre(k, mel, next, l + 1, q, 4, 0)
      ensures RingState(k, mel, ring[..], l + 1, q, q + 4)
    {
      hide RingState, Resident, History, HidRows, WindowRows, SlotMasks, BlockRows;
      var kvs := seq(4, r requires 0 <= r < 4 => k.kv(l, q + r, rows[r]));
      NewRowsAreHistory(k, mel, rows, kvs, l, q, 4, 0);
      assert kvs[0..4] == kvs;
      ScatterLayer(l, q, kvs);
      AdvancedLayer(k, mel, ring[..], l, q, q + 4);
      MaskWidths(masks, q);
      var layer := ring[l * ENC_KV_CAP..l * ENC_KV_CAP + ENC_KV_CAP];
      var shown := ShownByRing(layer, masks);
      RingShowsWindows(k, mel, l, layer, masks, q);
      assert shown[0..4] == shown;
      next := BlockRows(k, l, q, rows, shown);
      BlockRowsAre(k, mel, l, rows, shown, q, 4, 0);
    }

    /** All layers of the block graph. */
    method RunBlockLayers(x: seq<Hidden>, plan: Plan, qOffset: nat) returns (rows: seq<Hidden>)
      requires 0 < plan.nNew <= ENC_KV_MAX_NEW && qOffset <= plan.qStart
      requires EncKvPlan(plan.qStart, plan.nNew, ENC_KV_CAP, ENC_WINDOW) == Some(plan)
      requires RowsAre(k, mel, x, 0, plan.qStart, plan.nNew, qOffset)
      requires RingState(k, mel, ring[..], 0, plan.qStart, plan.qStart + plan.nNew)
      modifies ring
      ensures |rows| == |x| && RowsAre(k, mel, rows, k.layers, plan.qStart, plan.nNew, qOffset)
      ensures RingState(k, mel, ring[..], k.layers, plan.qStart, plan.qStart + plan.nNew)
    {
      hide RowsAre, RingState, EncKvPlan;
      rows := x;
      for l := 0 to k.layers
        invariant |rows| == |x| && RowsAre(k, mel, rows, l, plan.qStart, plan.nNew, qOffset)
        invariant RingState(k, mel, ring[..], l, plan.qStart, plan.qStart + plan.nNew)
      {
        rows := BlockLayer(l, rows, plan, qOffset);
      }
    }

    /** All layers of the reusable 4-row graph. */
    method RunSteadyLayers(x: seq<Hidden>, q: nat) returns (rows: seq<Hidden>)
      requires |x| == 4 && RowsAre(k, mel, x, 0, q, 4, 0)
      requires RingState(k, mel, ring[..], 0, q, q + 4)
      modifies ring
      ensures |rows| == 4 && RowsAre(k, mel, rows, k.layers, q, 4, 0)
      ensures RingState(k, mel, ring[..], k.layers, q, q + 4)
    {
      var masks: seq<seq<bool>> := [];
      for j := 0 to 4
        invariant |masks| == j && SlotMasks(masks, q)
        invariant ring[..] == old(ring[..])
      {
        var mask := SlotMask(q + j);
        masks := masks + [mask];
      }
      rows := x;
      for l := 0 to k.layers
        invariant |rows| == 4 && RowsAre(k, mel, rows, l, q, 4, 0)
        invariant RingState(k, mel, ring[..], l, q, q + 4)
      {
        rows := SteadyLayer(l, rows, q, masks);
      }
    }

    /** Append finished rows to the output ring (one row per slot, or run by run) or to the host buffer. */
    method Emit(outs: seq<Hidden>, scatter: bool)
      requires outRing.Length == ENC_OUT_RING_CAP && OutputInv() && |outs| <= ENC_KV_MAX_NEW
      requires outs == Outputs(k, mel, emitted, emitted + |outs|)
      requires 2 * (emitted + |outs|) <= |mel|
      modifies this`emitted, this`accum, outRing
      ensures emitted == old(emitted) + |outs| && OutputInv()
    {
      assert Outputs(k, mel, 0, emitted + |outs|) == Outputs(k, mel, 0, emitted) + outs;
      if toRing {
        WriteOutputs(outs, scatter);
      } else {
        accum := accum + outs;
      }
      emitted := emitted + |outs|;
    }

    method WriteOutputs(outs: seq<Hidden>, scatter: bool)
      requires outRing.Length == ENC_OUT_RING_CAP && |outs| <= ENC_KV_MAX_NEW
      requires Resident(outRing[..], Outputs(k, mel, 0, emitted), Max(0, emitted - ENC_OUT_RING_CAP))
      modifies outRing
      ensures Resident(outRing[..], Outputs(k, mel, 0, emitted) + outs, Max(0, emitted + |outs| - ENC_OUT_RING_CAP))
    {
      assert outRing[0..ENC_OUT_RING_CAP] == outRing[..];
      if scatter {
        ScatterRows(outRing, 0, ENC_OUT_RING_CAP, emitted, outs);
      } else {
        CopyChunk(outRing, 0, ENC_OUT_RING_CAP, emitted, outs);
      }
      assert outRing[0..ENC_OUT_RING_CAP] == outRing[..];
      WrittenResident(old(outRing[..]), Outputs(k, mel, 0, emitted), outs,
                      Max(0, emitted - ENC_OUT_RING_CAP), Max(0, emitted + |outs| - ENC_OUT_RING_CAP));
    }

    /** Rows of the conv stem for the planned batch, cut from the Mel tail; false if the tail misses the window. */
    method PlannedStem(plan: Plan) returns (ok: bool, x: seq<Hidden>)
      requires TailInv() && plan.qStart == emitted && 0 < plan.nNew && plan.convMelEnd <= |mel|
      requires EncKvPlan(plan.qStart, plan.nNew, ENC_KV_CAP, ENC_WINDOW) == Some(plan)
      ensures ok && x == HidRows(k, mel, 0, plan.qStart, plan.nNew)
    {
      hide Stem, HidRows, StemRows;
      var tailFrames := |melTail|;
      if plan.convMelStart < tailBase || plan.convMelEnd > tailBase + tailFrames {
        return false, [];
      }
      var window := melTail[plan.convMelStart - tailBase..plan.convMelEnd - tailBase];
      assert window == mel[plan.convMelStart..plan.convMelEnd];
      WindowedStemRows(k, mel, plan.qStart, plan.nNew);
      LayerZeroRows(k, mel, plan.qStart, plan.nNew);
      x := Stem(k, window)[plan.convSliceStart..plan.convSliceStart + plan.nNew];
      ok := true;
    }

    /** The fixed 12-frame window of the reusable graph, zeros before the stream. */
    method SteadyStem(q: nat) returns (ok: bool, x: seq<Hidden>)
      requires TailInv() && 1 <= q == emitted && 2 * (q + 4) <= |mel|
      ensures ok && x == HidRows(k, mel, 0, q, 4)
    {
      var window := new MelFrame[12](_ => ZERO_MEL);
      var firstMel := 2 * (q - 2);
      var tailFrames := |melTail|;
      for i := 0 to 12
        invariant forall j :: 0 <= j < i ==> window[j] == MelAt(mel, firstMel + j)
        invariant forall j :: i <= j < 12 ==> window[j] == ZERO_MEL
      {
        var absolute := firstMel + i;
        if absolute >= 0 {
          var rel := absolute - tailBase;
          if rel < 0 || rel >= tailFrames {
            return false, [];
          }
          window[i] := melTail[rel];
        }
      }
      assert window[..] == SteadyWindow(mel, q);
      ConvStem.SteadyStemRows(k, mel, q);
      LayerZeroRows(k, mel, q, 4);
      x := Stem(k, window[..])[2..6];
      ok := true;
    }

    ghost predicate Active()
      reads this, ring, outRing
    {
      Valid() && !finalized
    }

    /** Everything up to the emission of one batch on the general block graph. */
    method ComputeBlock(plan: Plan, rows: nat, qOffset: nat) returns (ok: bool, outs: seq<Hidden>)
      requires TailInv() && plan.qStart == emitted && 0 < plan.nNew <= ENC_KV_MAX_NEW && plan.convMelEnd <= |mel|
      requires EncKvPlan(plan.qStart, plan.nNew, ENC_KV_CAP, ENC_WINDOW) == Some(plan)
      requires qOffset + plan.nNew <= rows && qOffset <= emitted
      requires RingState(k, mel, ring[..], k.layers, emitted, emitted)
      modifies ring
      ensures ok && outs == Outputs(k, mel, emitted, emitted + plan.nNew)
      ensures RingState(k, mel, ring[..], k.layers, emitted + plan.nNew, emitted + plan.nNew)
    {
      hide RingState, History, Outputs;
      var q, n := plan.qStart, plan.nNew;
      var x: seq<Hidden>;
      ok, x := PlannedStem(plan);
      if !ok {
        return false, [];
      }
      var padded := PadRows(x, qOffset, rows);
      Restage(k, mel, ring[..], q, q + n);
      var last := RunBlockLayers(padded, plan, qOffset);
      Restage(k, mel, ring[..], q, q + n);
      NormRowsAreOutputs(k, mel, last, q, n, qOffset);
      outs := NormRows(k, last[qOffset..qOffset + n]);
    }

    /** The same on the reusable 4-row graph. */
    method ComputeSteady() returns (ok: bool, outs: seq<Hidden>)
      requires TailInv() && 1 <= emitted && 2 * (emitted + 4) <= |mel|
      requires RingState(k, mel, ring[..], k.layers, emitted, emitted)
      modifies ring
      ensures ok && outs == Outputs(k, mel, emitted, emitted + 4)
      ensures RingState(k, mel, ring[..], k.layers, emitted + 4, emitted + 4)
    {
      hide RingState, History, Outputs;
      var q := emitted;
      var x: seq<Hidden>;
      ok, x := SteadyStem(q);
      if !ok {
        return false, [];
      }
      assert x[0..4] == x;
      Restage(k, mel, ring[..], q, q + 4);
      var last := RunSteadyLayers(x, q);
      Restage(k, mel, ring[..], q, q + 4);
      NormRowsAreOutputs(k, mel, last, q, 4, 0);
      assert last[0..4] == last;
      outs := NormRows(k, last);
    }

    /** Keep only the left context of the next convolution window. */
    method TrimTail()
      requires stableMel == |mel| && tailBase <= ConvMelStart(emitted) <= |mel| && melTail == mel[tailBase..]
      modifies this`melTail, this`tailBase
      ensures TailInv()
    {
      var keepFrom := Max(0, 2 * (emitted - 2));
      if keepFrom > tailBase {
        var drop := keepFrom - tailBase;
        melTail := if drop >= |melTail| then [] else melTail[drop..];
        tailBase := keepFrom;
      }
    }

    lemma StableIs()
      requires TailInv()
      ensures stableMel == |mel|
    {
    }

    /** Run frames [emitted, emitted+n) through one graph, append their outputs and trim the tail. Its guards
        never fire. */
    method Run(n: nat, rows: nat) returns (ok: bool)
      requires Active() && 0 < n <= ENC_KV_MAX_NEW && 2 * (emitted + n) <= |mel|
      requires 0 < rows && emitted % rows + n <= rows
      requires toRing && n == 4 && rows == 4 ==> 1 <= emitted
      modifies this`emitted, this`melTail, this`tailBase, this`accum, this`log, ring, outRing
      ensures ok && Active() && emitted == old(emitted) + n
      ensures log == old(log) + [Batch(old(emitted), n, rows)]
    {
      hide RingState, Tiles, OutputInv, TailInv;
      StableIs();
      var plan := EncKvPlan(emitted, n, ENC_KV_CAP, ENC_WINDOW);
      if plan == None || plan.value.convMelEnd > stableMel {
        return false;
      }
      ModBelow(emitted, rows);
      TilesAppend(log, emitted, Batch(emitted, n, rows));
      ok := RunPlanned(plan.value, rows, emitted % rows);
      log := log + [Batch(plan.value.qStart, n, rows)];
    }

    method RunPlanned(plan: Plan, rows: nat, qOffset: nat) returns (ok: bool)
      requires Config() && OutputInv() && TailInv() && RingState(k, mel, ring[..], k.layers, emitted, emitted)
      requires plan.qStart == emitted && 0 < plan.nNew <= ENC_KV_MAX_NEW && plan.convMelEnd <= |mel|
      requires EncKvPlan(plan.qStart, plan.nNew, ENC_KV_CAP, ENC_WINDOW) == Some(plan)
      requires qOffset + plan.nNew <= rows && qOffset <= emitted
      requires toRing && plan.nNew == 4 && rows == 4 ==> 1 <= emitted
      modifies this`emitted, this`melTail, this`tailBase, this`accum, ring, outRing
      ensures ok && emitted == old(emitted) + plan.nNew
      ensures OutputInv() && TailInv() && RingState(k, mel, ring[..], k.layers, emitted, emitted)
    {
      hide RingState, Resident, Outputs;
      var outs: seq<Hidden>;
      ok, outs := Compute(plan, rows, qOffset);
      if !ok {
        return false;
      }
      Emit(outs, toRing && plan.nNew == 4 && rows == 4);
      TrimTail();
    }

    /** Pick the graph: the reusable one exactly for full 4-row blocks of a stream. */
    method Compute(plan: Plan, rows: nat, qOffset: nat) returns (ok: bool, outs: seq<Hidden>)
      requires TailInv() && plan.qStart == emitted && 0 < plan.nNew <= ENC_KV_MAX_NEW && plan.convMelEnd <= |mel|
      requires EncKvPlan(plan.qStart, plan.nNew, ENC_KV_CAP, ENC_WINDOW) == Some(plan)
      requires qOffset + plan.nNew <= rows && qOffset <= emitted
      requires toRing && plan.nNew == 4 && rows == 4 ==> 1 <= emitted
      requires RingState(k, mel, ring[..], k.layers, emitted, emitted)
      modifies ring
      ensures ok && outs == Outputs(k, mel, emitted, emitted + plan.nNew)
      ensures RingState(k, mel, ring[..], k.layers, emitted + plan.nNew, emitted + plan.nNew)
    {
      if toRing && plan.nNew == 4 && rows == 4 {
        ok, outs := ComputeSteady();
      } else {
        ok, outs := ComputeBlock(plan, rows, qOffset);
      }
    }

    /** During a feed the Mel tail is bounded, whatever the length of the stream. */
    lemma TailBounded()
      requires Valid() && Feeding()
      ensures |melTail| <= if emitted == 0 then 2 * ENC_KV_MAX_NEW - 1 else 2 * schedule.logical + 3
    {
      if emitted > 0 {
        FeedLag(schedule, |mel|);
      }
    }

    /** State of the driver between batches of a feed: nothing yet, or the startup block and i batches. */
    ghost predicate FedBatches(i: nat)
      reads this
    {
      || (i == 0 && emitted == 0 && log == [])
      || (emitted == ENC_KV_MAX_NEW + i * schedule.logical && log == StartedLog(schedule, i))
    }

    /** Size and shape of the next batch after the startup block. */
    method RunNext(final: bool, rem: nat, ghost i: nat) returns (ok: bool)
      requires Active() && 0 < rem && 2 * (emitted + rem) <= |mel|
      requires final && toRing ==> emitted > 0
      requires !final ==> emitted > 0 && FedBatches(i) && schedule.logical <= rem
      modifies this`emitted, this`melTail, this`tailBase, this`accum, this`log, ring, outRing
      ensures ok && Active() && old(emitted) < emitted <= old(emitted) + rem
      ensures !final ==> FedBatches(i + 1)
      ensures var physical := if final && toRing then finishPhysical else schedule.physical;
              var logical := if final && toRing then finishPhysical else schedule.logical;
              log == old(log) + [Batch(old(emitted), emitted - old(emitted), physical)] &&
              0 < logical && 0 < physical && emitted - old(emitted) == BatchSize(old(emitted), physical, logical, rem)
    {
      hide RingState, Resident, Outputs, Tiles, StartedLog, SteadyBatches;
      var terminal := final && toRing;
      var physical := if terminal then finishPhysical else schedule.physical;
      var logical := if terminal then finishPhysical else schedule.logical;
      LogicalFits(schedule);
      var n := BatchSize(emitted, physical, logical, rem);
      if !final {
        RoomForBatch(schedule, i);
        StartedLogStep(schedule, i);
      }
      if n <= 0 {
        return false;
      }
      ok := Run(n, physical);
    }

    /** The 128-frame startup block, at its own shape. */
    method RunStartup() returns (ok: bool)
      requires Active() && emitted == 0 && 2 * ENC_KV_MAX_NEW <= |mel|
      modifies this`emitted, this`melTail, this`tailBase, this`accum, this`log, ring, outRing
      ensures ok && Active() && emitted == ENC_KV_MAX_NEW
      ensures old(log) == [] ==> FedBatches(0)
    {
      ok := Run(ENC_KV_MAX_NEW, ENC_KV_MAX_NEW);
    }

    /** When the driver stops during a feed, it has run exactly the batches the Mel count allows. */
    lemma FeedDone(i: nat)
      requires !finalized && Normal(schedule) && FedBatches(i) && emitted <= Realizable(|mel|)
      requires if emitted == 0 then Realizable(|mel|) < ENC_KV_MAX_NEW
               else Realizable(|mel|) - emitted < schedule.logical
      ensures Feeding()
    {
      if emitted > 0 {
        SteadyCountIs(schedule, |mel|, i);
      }
    }

    /** Emit every batch that is ready; at the end also the remainder, in blocks of the terminal shape. */
    method Drive(final: bool, ghost start: nat) returns (ok: bool)
      requires Active()
      requires !final ==> FedBatches(start)
      requires final && toRing ==> emitted > 0 || 2 * ENC_KV_MAX_NEW <= |mel|
      modifies this`emitted, this`melTail, this`tailBase, this`accum, this`log, ring, outRing
      ensures ok && Active() && old(emitted) <= emitted
      ensures if final then emitted == |mel| / 2 else Feeding()
    {
      var target := Realizable(stableMel);
      ghost var i := start;
      ok := true;
      while emitted < target
        invariant ok && Active() && old(emitted) <= emitted <= target
        invariant !final ==> FedBatches(i)
        invariant final && toRing ==> emitted > 0 || ENC_KV_MAX_NEW <= target
        decreases target - emitted
      {
        var rem := target - emitted;
        if emitted == 0 && !final && target < ENC_KV_MAX_NEW {
          break;
        }
        if emitted == 0 && target >= ENC_KV_MAX_NEW {
          i := 0;
          ok := RunStartup();
        } else if !final && rem < schedule.logical {
          break;
        } else {
          ok := RunNext(final, rem, i);
          i := i + 1;
        }
        if !ok {
          return;
        }
      }
      if !final {
        FeedDone(i);
      }
    }

    /** Accept the next stable Mel frames; they must continue the stream. */
    method Append(frames: seq<MelFrame>)
      requires Active()
      modifies this`melTail, this`stableMel, this`mel
      ensures Active() && mel == old(mel) + frames
    {
      GrowOutputs(k, mel, frames, emitted);
      GrowRing(k, mel, frames, ring[..], emitted);
      mel := mel + frames;
      melTail := melTail + frames;
      stableMel := stableMel + |frames|;
    }

    /** Push stable frames [base, base+|frames|) during a feed. However the stream is cut into pushes, the batches
        executed depend on the number of frames alone. */
    method PushMel(frames: seq<MelFrame>, base: nat) returns (ok: bool)
      requires Valid() && (!finalized ==> Feeding())
      modifies this, ring, outRing
      ensures ok == (!old(finalized) && (frames == [] || base == |old(mel)|))
      ensures Valid() && finalized == old(finalized) && mel == if ok then old(mel) + frames else old(mel)
      ensures old(emitted) <= emitted
      ensures !finalized ==> Feeding()
    {
      if finalized {
        return false;
      }
      if |frames| == 0 {
        assert mel + frames == mel;
        return true;
      }
      if base != stableMel {
        return false;
      }
      ghost var i := SteadyCount(schedule, |mel|);
      Append(frames);
      ok := Drive(false, i);
    }

    /** Push the frames the frontend flushed at the end; everything realizable is emitted. A stream has at least
        its padding by then, so the startup block is available. */
    method PushMelFinal(frames: seq<MelFrame>, base: nat) returns (ok: bool)
      requires Valid() && (!finalized ==> Feeding())
      requires toRing ==> 2 * ENC_KV_MAX_NEW <= |mel| + |frames|
      modifies this, ring, outRing
      ensures ok == (!old(finalized) && (frames == [] || base == |old(mel)|))
      ensures Valid() && finalized == old(finalized) && mel == if ok then old(mel) + frames else old(mel)
      ensures old(emitted) <= emitted
      ensures ok && frames != [] ==> emitted == |mel| / 2
    {
      if finalized {
        return false;
      }
      if |frames| == 0 {
        assert mel + frames == mel;
        return true;
      }
      if base != stableMel {
        return false;
      }
      Append(frames);
      ok := Drive(true, 0);
    }

    /** Finalize: every realizable frame has been emitted exactly once, and equals the direct recursion. */
    method Finish() returns (ok: bool)
      requires Valid()
      requires toRing ==> emitted > 0 || 2 * ENC_KV_MAX_NEW <= |mel|
      modifies this, ring, outRing
      ensures ok && finalized && Valid() && mel == old(mel) && old(emitted) <= emitted == |mel| / 2
    {
      if finalized {
        return true;
      }
      ok := Drive(true, 0);
      finalized := true;
      melTail := [];
      tailBase := stableMel;
    }
  }

  method EncodeAll(k: Kernels, schedule: Schedule, mel: seq<MelFrame>) returns (ok: bool, accum: seq<Hidden>)
    requires Normal(schedule)
    ensures ok && accum == Outputs(k, mel, 0, |mel| / 2)
  {
    var kv := new EncoderKv(k, schedule, 8, false, false, false);
    kv.Append(mel);
    assert kv.mel == mel;
    ok := kv.Drive(true, 0);
    accum := kv.accum;
  }

  /** The batch encoder: the same driver over the whole Mel in one final pass, cut to whole adapter groups. */
  method EncodeWhole(k: Kernels, schedule: Schedule, mel: seq<MelFrame>) returns (out: Option<seq<Hidden>>)
    requires Normal(schedule)
    ensures out.Some? <==> |mel| >= 8
    ensures out.Some? ==> out.value == Outputs(k, mel, 0, |mel| / 8 * 4)
    ensures out.Some? ==> forall e :: 0 <= e < |out.value| ==> out.value[e] == k.norm(Hid(k, mel, k.layers, e))
  {
    if |mel| == 0 {
      return None;
    }
    var ok, accum := EncodeAll(k, schedule, mel);
    var used := |accum| / DOWNSAMPLE * DOWNSAMPLE;
    if !ok || used <= 0 {
      return None;
    }
    OutputsPrefix(k, mel, |accum|, used);
    out := Some(accum[..used]);
  }

  lemma OutputsPrefix(k: Kernels, mel: seq<MelFrame>, n: nat, m: nat)
    requires m <= n
    ensures Outputs(k, mel, 0, n)[..m] == Outputs(k, mel, 0, m)
  {
  }

  lemma GrowHistory(k: Kernels, mel: seq<MelFrame>, more: seq<MelFrame>, l: nat, n: nat)
    requires 2 * n <= |mel|
    ensures History(k, mel + more, l, n) == History(k, mel, l, n)
  {
    forall p {:trigger History(k, mel, l, n)[p]} | 0 <= p < n
      ensures History(k, mel + more, l, n)[p] == History(k, mel, l, n)[p]
    {
      HidPrefix(k, mel, more, l, p);
    }
  }

  lemma GrowRing(k: Kernels, mel: seq<MelFrame>, more: seq<MelFrame>, buffer: seq<KV>, n: nat)
    requires 2 * n <= |mel|
    requires RingState(k, mel, buffer, k.layers, n, n)
    ensures RingState(k, mel + more, buffer, k.layers, n, n)
  {
    var layers, mel' := k.layers, mel + more;
    forall i | 0 <= i < layers
      ensures LayerAt(k, mel', buffer, i, layers, n, n)
    {
      assert LayerAt(k, mel, buffer, i, layers, n, n);
      GrowHistory(k, mel, more, i, n);
    }
  }

  lemma GrowOutputs(k: Kernels, mel: seq<MelFrame>, more: seq<MelFrame>, n: nat)
    requires 2 * n <= |mel|
    ensures Outputs(k, mel + more, 0, n) == Outputs(k, mel, 0, n)
  {
    forall e {:trigger Outputs(k, mel, 0, n)[e]} | 0 <= e < n
      ensures Outputs(k, mel + more, 0, n)[e] == Outputs(k, mel, 0, n)[e]
    {
      EncPrefix(k, mel, more, e);
    }
  }

  /** A batch never crosses the physical block it starts in. */
  function BatchSize(q: nat, physical: nat, logical: nat, rem: nat): (n: nat)
    requires 0 < physical && 0 < logical && 0 < rem
    ensures 0 < n <= rem && n <= logical && q % physical + n <= physical
  {
    Min(Min(logical, physical - q % physical), rem)
  }

  /** A batch is cut short only by the end of what is realizable or of its block. */
  lemma BatchEnds(q: nat, physical: nat, logical: nat, rem: nat)
    requires 0 < physical && 0 < logical && 0 < rem
    ensures var n := BatchSize(q, physical, logical, rem); n == rem || n == logical || (q + n) % physical == 0
  {
    var a, m := q / physical, q % physical;
    assert q == a * physical + m;
    if BatchSize(q, physical, logical, rem) == physical - m {
      assert (a + 1) * physical == a * physical + physical;
      ModUnique(q + (physical - m), a + 1, 0, physical);
    }
  }

  lemma ModBelow(x: nat, m: nat)
    requires 0 < m
    ensures x % m <= x
  {
  }

  lemma LayerZeroRows(k: Kernels, mel: seq<MelFrame>, q: nat, n: nat)
    ensures HidRows(k, mel, 0, q, n) == StemRows(k, mel, q, n)
  {
    forall j {:trigger StemRows(k, mel, q, n)[j]} | 0 <= j < n
      ensures HidRows(k, mel, 0, q, n)[j] == StemRows(k, mel, q, n)[j]
    {
      assert Hid(k, mel, 0, q + j) == StemAt(k, mel, q + j);
    }
  }

  lemma EmptyRing(k: Kernels, buffer: seq<KV>)
    requires |buffer| == k.layers * ENC_KV_CAP
    ensures RingState(k, [], buffer, k.layers, 0, 0)
  {
    var layers := k.layers;
    forall i | 0 <= i < layers
      ensures LayerAt(k, [], buffer, i, layers, 0, 0)
    {
      LayerBounds(i, layers);
    }
  }
}
