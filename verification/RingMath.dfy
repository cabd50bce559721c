/** Arithmetic shared by the encoder and decoder rings: the entry of absolute position p lives in slot
    p % capacity, spans are read and written as at most two physical segments, and attention sees whichever
    columns its mask leaves visible. */
module RingMath {
  datatype Seg = Seg(slot: nat, len: nat)

  function Min(a: int, b: int): int {
    if a <= b then a else b
  }

  function Max(a: int, b: int): int {
    if a >= b then a else b
  }

  /** Split the span [start, start+len) into physical segments in ascending-position order. */
  function Segments(start: nat, len: nat, cap: nat): (segs: seq<Seg>)
    requires 0 < cap
    requires len <= cap
    ensures |segs| <= 2
    ensures forall i :: 0 <= i < |segs| ==> 0 < segs[i].len && segs[i].slot + segs[i].len <= cap
  {
    if len == 0 then []
    else
      var slot := start % cap;
      var first := Min(len, cap - slot);
      if first == len then [Seg(slot, first)] else [Seg(slot, first), Seg(0, len - first)]
  }

  /** The contents of at most two segments, one behind the other. */
  function Gather<T>(ring: seq<T>, segs: seq<Seg>): seq<T>
    requires |segs| <= 2 && forall i :: 0 <= i < |segs| ==> segs[i].slot + segs[i].len <= |ring|
  {
    if |segs| == 0 then []
    else if |segs| == 1 then ring[segs[0].slot..segs[0].slot + segs[0].len]
    else ring[segs[0].slot..segs[0].slot + segs[0].len] + ring[segs[1].slot..segs[1].slot + segs[1].len]
  }

  /** Positions [lo, |all|) of the logical history `all` are resident in the ring. */
  ghost predicate Resident<T>(ring: seq<T>, all: seq<T>, lo: nat)
    requires 0 < |ring|
  {
    forall p {:trigger all[p]} :: lo <= p < |all| ==> ring[p % |ring|] == all[p]
  }

  lemma ModInRange(p: nat, q: nat, cap: nat)
    requires 0 < cap
    requires p <= q < p + cap
    ensures q % cap == if p % cap + (q - p) < cap then p % cap + (q - p) else p % cap + (q - p) - cap
  {
    var a := p / cap;
    var r := p % cap;
    assert p == a * cap + r;
    if r + (q - p) < cap {
      ModUnique(q, a, r + (q - p), cap);
    } else {
      assert q == (a + 1) * cap + (r + (q - p) - cap);
      ModUnique(q, a + 1, r + (q - p) - cap, cap);
    }
  }

  lemma ModUnique(x: nat, a: nat, r: nat, cap: nat)
    requires 0 < cap
    requires r < cap
    requires x == a * cap + r
    ensures x % cap == r && x / cap == a
  {
    var b, s := x / cap, x % cap;
    assert x == b * cap + s;
    if a < b {
      MulMonotone(a + 1, b, cap);
    } else if b < a {
      MulMonotone(b + 1, a, cap);
    }
  }

  lemma MulMonotone(a: int, b: int, c: nat)
    requires a <= b
    ensures a * c <= b * c
  {
  }

  /** A stretch of positions that does not cross the wrap is one physical run. */
  lemma ResidentRun<T>(ring: seq<T>, all: seq<T>, lo: nat, start: nat, len: nat)
    requires 0 < |ring|
    requires Resident(ring, all, lo)
    requires lo <= start && start + len <= |all|
    requires start % |ring| + len <= |ring|
    ensures ring[start % |ring|..start % |ring| + len] == all[start..start + len]
  {
    var slot := start % |ring|;
    forall i {:trigger all[start..start + len][i]} | 0 <= i < len
      ensures ring[slot..slot + len][i] == all[start..start + len][i]
    {
      ModInRange(start, start + i, |ring|);
      assert ring[(start + i) % |ring|] == all[start + i];
    }
  }

  lemma GatherTwo<T>(ring: seq<T>, s0: Seg, s1: Seg)
    requires s0.slot + s0.len <= |ring| && s1.slot + s1.len <= |ring|
    ensures Gather(ring, [s0]) == ring[s0.slot..s0.slot + s0.len]
    ensures Gather(ring, [s0, s1]) == ring[s0.slot..s0.slot + s0.len] + ring[s1.slot..s1.slot + s1.len]
  {
  }

  /** The two physical runs of a span: up to the end of the ring, then from slot zero. */
  lemma SpanRuns<T>(ring: seq<T>, all: seq<T>, lo: nat, start: nat, len: nat, slot: nat, first: nat)
    requires 0 < |ring|
    requires Resident(ring, all, lo)
    requires lo <= start && start + len <= |all|
    requires slot == start % |ring|
    requires first <= len && slot + first <= |ring|
    requires len <= |ring| && (first < len ==> slot + first == |ring|)
    ensures all[start..start + len] == ring[slot..slot + first] + ring[0..len - first]
  {
    ResidentRun(ring, all, lo, start, first);
    if first < len {
      ModInRange(start, start + first, |ring|);
      ResidentRun(ring, all, lo, start + first, len - first);
    }
    assert all[start..start + len] == all[start..start + first] + all[start + first..start + len];
  }

  lemma SegmentsOf(start: nat, len: nat, cap: nat) returns (slot: nat, first: nat)
    requires 0 < len <= cap
    ensures slot == start % cap && slot + first <= cap && first <= len
    ensures first < len ==> slot + first == cap
    ensures Segments(start, len, cap) ==
            if first == len then [Seg(slot, first)] else [Seg(slot, first), Seg(0, len - first)]
  {
    slot := start % cap;
    first := Min(len, cap - slot);
  }

  lemma GatherRuns<T>(ring: seq<T>, segs: seq<Seg>, slot: nat, first: nat, len: nat)
    requires first <= len <= |ring| && slot + first <= |ring|
    requires segs == if first == len then [Seg(slot, first)] else [Seg(slot, first), Seg(0, len - first)]
    ensures Gather(ring, segs) == ring[slot..slot + first] + ring[0..len - first]
  {
    GatherTwo(ring, Seg(slot, first), Seg(0, len - first));
  }

  /** Reading the planned segments yields the logical span, oldest to newest. */
  lemma GatherIsSpan<T>(ring: seq<T>, all: seq<T>, lo: nat, start: nat, len: nat)
    requires 0 < |ring|
    requires Resident(ring, all, lo)
    requires lo <= start && start + len <= |all|
    requires len <= |ring|
    ensures Gather(ring, Segments(start, len, |ring|)) == all[start..start + len]
  {
    if len > 0 {
      var slot, first := SegmentsOf(start, len, |ring|);
      GatherRuns(ring, Segments(start, len, |ring|), slot, first, len);
      SpanRuns(ring, all, lo, start, len, slot, first);
    }
  }

  /** The columns a mask leaves visible, in column order. */
  function Visible<T>(cols: seq<T>, mask: seq<bool>): seq<T>
    requires |cols| == |mask|
  {
    if cols == [] then []
    else (if mask[0] then [cols[0]] else []) + Visible(cols[1..], mask[1..])
  }

  lemma {:induction false} VisibleSplit<T>(cols: seq<T>, mask: seq<bool>, k: nat)
    requires |cols| == |mask|
    requires k <= |cols|
    ensures Visible(cols, mask) == Visible(cols[..k], mask[..k]) + Visible(cols[k..], mask[k..])
  {
    if k == 0 {
      assert cols[0..] == cols && mask[0..] == mask;
    } else {
      VisibleSplit(cols[1..], mask[1..], k - 1);
      assert cols[1..][..k - 1] == cols[..k][1..] && mask[1..][..k - 1] == mask[..k][1..];
      assert cols[1..][k - 1..] == cols[k..] && mask[1..][k - 1..] == mask[k..];
    }
  }

  lemma {:induction false} VisibleAll<T>(cols: seq<T>, mask: seq<bool>)
    requires |cols| == |mask|
    requires forall i :: 0 <= i < |mask| ==> mask[i]
    ensures Visible(cols, mask) == cols
  {
    if cols != [] {
      VisibleAll(cols[1..], mask[1..]);
    }
  }

  lemma {:induction false} VisibleNone<T>(cols: seq<T>, mask: seq<bool>)
    requires |cols| == |mask|
    requires forall i :: 0 <= i < |mask| ==> !mask[i]
    ensures Visible(cols, mask) == []
  {
    if cols != [] {
      VisibleNone(cols[1..], mask[1..]);
    }
  }

  /** A mask that opens exactly the columns [a, b) shows exactly that slice. */
  lemma VisibleInterval<T>(cols: seq<T>, mask: seq<bool>, a: nat, b: nat)
    requires |cols| == |mask|
    requires a <= b <= |cols|
    requires forall i :: 0 <= i < |mask| ==> (mask[i] <==> a <= i < b)
    ensures Visible(cols, mask) == cols[a..b]
  {
    hide Visible;
    VisibleSplit(cols, mask, b);
    VisibleSplit(cols[..b], mask[..b], a);
    VisibleNone(cols[b..], mask[b..]);
    VisibleNone(cols[..b][..a], mask[..b][..a]);
    VisibleAll(cols[..b][a..], mask[..b][a..]);
    assert cols[..b][a..] == cols[a..b];
  }

  ghost predicate InSlot(p: nat, s: int, cap: nat)
    requires 0 < cap
  {
    p % cap == s
  }

  /** The slots of a span: one run starting at its first slot and, past the wrap, one starting at zero. */
  lemma MaskedSlots(lo: nat, n: nat, cap: nat, s: nat)
    requires 0 < cap
    requires n <= cap && s < cap
    ensures var slot := lo % cap; var first := Min(n, cap - slot);
            (exists p :: lo <= p < lo + n && InSlot(p, s, cap)) <==> slot <= s < slot + first || s < n - first
  {
    var slot := lo % cap;
    var first := Min(n, cap - slot);
    if slot <= s < slot + first {
      ModInRange(lo, lo + (s - slot), cap);
      assert InSlot(lo + (s - slot), s, cap);
    } else if s < n - first {
      ModInRange(lo, lo + first + s, cap);
      assert InSlot(lo + first + s, s, cap);
    } else if p :| lo <= p < lo + n && InSlot(p, s, cap) {
      ModInRange(lo, p, cap);
    }
  }

  /** A mask over physical slots opens exactly the slots of positions [lo, lo+n). */
  ghost predicate OpensSpan(mask: seq<bool>, lo: nat, n: nat)
    requires 0 < |mask|
  {
    var slot := lo % |mask|;
    var first := Min(n, |mask| - slot);
    forall s :: 0 <= s < |mask| ==> (mask[s] <==> slot <= s < slot + first || s < n - first)
  }

  lemma MaskOpensSpan(mask: seq<bool>, lo: nat, n: nat)
    requires 0 < |mask| && n <= |mask|
    requires forall s :: 0 <= s < |mask| ==> (mask[s] <==> exists p :: lo <= p < lo + n && InSlot(p, s, |mask|))
    ensures OpensSpan(mask, lo, n)
  {
    forall s | 0 <= s < |mask|
      ensures mask[s] <==> lo % |mask| <= s < lo % |mask| + Min(n, |mask| - lo % |mask|) ||
                           s < n - Min(n, |mask| - lo % |mask|)
    {
      MaskedSlots(lo, n, |mask|, s);
    }
  }

  /** Attention over the whole physical ring under such a mask sees, as a multiset, exactly the logical
      entries [lo, lo+n): the wrap only rotates them. */
  lemma PhysicalMaskIsWindow<T>(ring: seq<T>, mask: seq<bool>, all: seq<T>, lo: nat, n: nat)
    requires 0 < |ring| == |mask|
    requires lo + n <= |all| && n <= |ring|
    requires Resident(ring, all, lo)
    requires OpensSpan(mask, lo, n)
    ensures multiset(Visible(ring, mask)) == multiset(all[lo..lo + n])
  {
    var slot := lo % |ring|;
    var first := Min(n, |ring| - slot);
    RotatedMask(ring, mask, slot, slot + first, n - first);
    assert all[lo..lo + n] == ring[slot..slot + first] + ring[0..n - first] by {
      SpanRuns(ring, all, lo, lo, n, slot, first);
    }
  }

  lemma MaskHead(mask: seq<bool>, w: nat)
    requires w <= |mask| && forall s :: 0 <= s < w ==> mask[s]
    ensures forall i :: 0 <= i < |mask[..w]| ==> mask[..w][i]
  {
  }

  lemma TailSlice<T>(ring: seq<T>, w: nat, a: nat, b: nat)
    requires w <= a <= b <= |ring|
    ensures ring[w..][a - w..b - w] == ring[a..b] && ring[0..w] == ring[..w]
  {
  }

  lemma MaskTail(mask: seq<bool>, w: nat, a: nat, b: nat)
    requires w <= a <= b <= |mask|
    requires forall s :: 0 <= s < |mask| ==> (mask[s] <==> a <= s < b || s < w)
    ensures forall i :: 0 <= i < |mask[w..]| ==> (mask[w..][i] <==> a - w <= i < b - w)
  {
  }

  lemma RotatedMask<T>(ring: seq<T>, mask: seq<bool>, a: nat, b: nat, w: nat)
    requires |ring| == |mask|
    requires a <= b <= |ring|
    requires w > 0 ==> w <= a && b == |ring|
    requires forall s :: 0 <= s < |mask| ==> (mask[s] <==> a <= s < b || s < w)
    ensures multiset(Visible(ring, mask)) == multiset(ring[a..b] + ring[0..w])
  {
    hide Visible;
    if w == 0 {
      VisibleInterval(ring, mask, a, b);
      assert ring[a..b] + ring[0..w] == ring[a..b];
    } else {
      VisibleSplit(ring, mask, w);
      MaskHead(mask, w);
      VisibleAll(ring[..w], mask[..w]);
      MaskTail(mask, w, a, b);
      VisibleInterval(ring[w..], mask[w..], a - w, b - w);
      TailSlice(ring, w, a, b);
      SwapMultiset(ring[..w], ring[a..b]);
    }
  }

  lemma SwapMultiset<T>(x: seq<T>, y: seq<T>)
    ensures multiset(x + y) == multiset(y + x)
  {
  }

  /** Index into the data written at `start` that lands in slot s, counted around the ring. */
  function Lands(start: nat, s: nat, cap: nat): (i: nat)
    requires s < cap
    ensures i < cap
  {
    if s >= start % cap then s - start % cap else s - start % cap + cap
  }

  /** The ring after data has been written at absolute positions start, start+1, ... */
  function Written<T>(ring: seq<T>, start: nat, data: seq<T>): (r: seq<T>)
    requires 0 < |ring|
    ensures |r| == |ring|
  {
    seq(|ring|, s requires 0 <= s < |ring| =>
      if Lands(start, s, |ring|) < |data| then data[Lands(start, s, |ring|)] else ring[s])
  }

  /** Slot and landing index are inverse to each other. */
  lemma LandsAt(start: nat, i: nat, cap: nat)
    requires i < cap
    ensures (start + i) % cap < cap && Lands(start, (start + i) % cap, cap) == i
  {
    ModInRange(start, start + i, cap);
  }

  /** Slots of older positions are where the write ends up only after a full turn. */
  lemma LandsBefore(start: nat, p: nat, cap: nat)
    requires p < start <= p + cap
    ensures Lands(start, p % cap, cap) == cap - (start - p)
  {
    if start < p + cap {
      ModInRange(p, start, cap);
    } else {
      assert start == p + cap;
      ModUnique(start, p / cap + 1, p % cap, cap);
    }
  }

  /** Appending to the history keeps its newest `cap` entries resident, and clobbers nothing newer. */
  lemma WrittenResident<T>(ring: seq<T>, all: seq<T>, data: seq<T>, lo: nat, lo': nat)
    requires 0 < |ring| && |data| <= |ring|
    requires Resident(ring, all, lo)
    requires lo <= lo' && |all| + |data| <= lo' + |ring|
    ensures Resident(Written(ring, |all|, data), all + data, lo')
  {
    var w := Written(ring, |all|, data);
    forall p {:trigger (all + data)[p]} | lo' <= p < |all + data|
      ensures w[p % |w|] == (all + data)[p]
    {
      if p < |all| {
        LandsBefore(|all|, p, |ring|);
        assert ring[p % |ring|] == all[p];
      } else {
        LandsAt(|all|, p - |all|, |ring|);
      }
    }
  }
}
