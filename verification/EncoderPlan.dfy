/** Index plans of the per-layer KV encoder: the window and ring segments of one execution, the normalised
    schedule, and the list of executions as a function of the number of stable Mel frames alone. */
module EncoderPlan {
  import opened Common
  import opened Kernels
  import opened RingMath
  import opened DeviceRing
  import opened EncoderSpec
  import ConvStem

  datatype Plan = Plan(
    qStart: nat, nNew: nat, winStart: nat, winEnd: nat, readSegs: seq<Seg>, writeSegs: seq<Seg>,
    convMelStart: nat, convMelEnd: nat, convSliceStart: nat, evicted: int)

  /** The plan for frames [qStart, qStart+nNew), or nothing when the ring could not hold their window. */
  function EncKvPlan(qStart: int, nNew: int, capacity: int, window: int): (p: Option<Plan>)
    ensures p.Some? <==> 0 < nNew <= capacity - window && 0 < window && 0 <= qStart
  {
    if nNew <= 0 || capacity <= 0 || window <= 0 || nNew > capacity - window || qStart < 0 then None
    else
      var winStart := Max(0, qStart - (window - 1));
      var winEnd := qStart + nNew;
      var convMelStart := Max(0, 2 * (qStart - 2));
      Some(Plan(qStart, nNew, winStart, winEnd,
                Segments(winStart, winEnd - winStart, capacity), Segments(qStart, nNew, capacity),
                convMelStart, 2 * (qStart + nNew), qStart - convMelStart / 2,
                Max(0, winEnd - window) - Max(0, qStart - window)))
  }

  /** Writing the new rows through the plan's write segments puts each in the slot of its own position. */
  lemma PlanStores<T>(qStart: nat, nNew: nat, capacity: nat, window: nat, ring: seq<T>, data: seq<T>)
    requires EncKvPlan(qStart, nNew, capacity, window).Some?
    requires |ring| == capacity && |data| == nNew
    ensures var segs := EncKvPlan(qStart, nNew, capacity, window).value.writeSegs;
            && Places(segs, capacity, nNew) && Stored(ring, segs, data) == Written(ring, qStart, data)
            && forall i :: 0 <= i < nNew ==> Stored(ring, segs, data)[(qStart + i) % capacity] == data[i]
  {
    hide Written, Stored, Segments, Places;
    StoredIsWritten(ring, qStart, data);
    forall i | 0 <= i < nNew
      ensures Written(ring, qStart, data)[(qStart + i) % capacity] == data[i]
    {
      WrittenAt(ring, qStart, data, i);
    }
  }

  /** Writing the new rows through the write segments and reading back through the read segments yields the
      whole causal window of the batch, oldest to newest: no live row is clobbered. */
  lemma PlanReadsWindow<T>(qStart: nat, nNew: nat, capacity: nat, window: nat, ring: seq<T>, all: seq<T>, data: seq<T>)
    requires EncKvPlan(qStart, nNew, capacity, window).Some?
    requires |ring| == capacity && |all| == qStart && |data| == nNew
    requires Resident(ring, all, Max(0, qStart - capacity))
    ensures var p := EncKvPlan(qStart, nNew, capacity, window).value;
            && Places(p.writeSegs, capacity, nNew)
            && (all + data)[if qStart < window then 0 else qStart + 1 - window..] == Gather(Stored(ring, p.writeSegs, data), p.readSegs)
            && Gather(Stored(ring, p.writeSegs, data), p.writeSegs) == data
  {
    hide Resident, Gather, Segments, Stored, Places;
    var lo := Max(0, qStart - capacity);
    StoredShows(ring, all, data, lo, Max(0, qStart - (window - 1)));
    StoredShows(ring, all, data, lo, qStart);
    assert (all + data)[qStart..] == data;
  }

  /** The ring is as small as it can be: 878 slots are what a 128-frame batch and a 750-frame window need. */
  lemma CapacityIsLeast(capacity: nat)
    ensures (forall q: nat :: EncKvPlan(q, 128, capacity, 750).Some?) <==> capacity >= ENC_KV_CAP
  {
    if forall q: nat :: EncKvPlan(q, 128, capacity, 750).Some? {
      assert EncKvPlan(0, 128, capacity, 750).Some?;
    }
  }

  /** The frames a batch evicts are the growth of max(0, head - window). */
  lemma PlanEvicts(qStart: nat, nNew: nat, capacity: nat, window: nat)
    requires EncKvPlan(qStart, nNew, capacity, window).Some?
    ensures var evicted, before := EncKvPlan(qStart, nNew, capacity, window).value.evicted, if qStart <= window then 0 else qStart - window;
            && 0 <= evicted <= nNew
            && before + evicted == if qStart + nNew <= window then 0 else qStart + nNew - window
  {
  }

  predicate MaskAllows(kvAbs: int, qAbs: int, window: int) {
    kvAbs <= qAbs && kvAbs >= qAbs - (window - 1)
  }

  // ---- schedule ------------------------------------------------------------------------------------------

  datatype Schedule = Schedule(logical: nat, physical: nat)

  const THROUGHPUT := Schedule(128, 128)

  function NormalizePhysicalRows(rows: int): (r: nat)
    ensures r in {4, 8, 16, 32, 64, 128} && (rows > 128 ==> r == 128) && (rows <= 128 ==> rows <= r)
    ensures r > 4 ==> r / 2 < rows
  {
    if rows <= 4 then 4 else if rows <= 8 then 8 else if rows <= 16 then 16
    else if rows <= 32 then 32 else if rows <= 64 then 64 else 128
  }

  /** A normalised schedule: logical batches tile physical blocks, and blocks tile the 128-frame startup. */
  predicate Normal(s: Schedule) {
    1 <= s.logical && s.physical in {4, 8, 16, 32, 64, 128} && s.physical % s.logical == 0
  }

  /** The schedule selected by the environment knobs (absent, or a positive 32-bit value). */
  method ScheduleFromEnv(throughput: bool, grid: Option<nat>, logicalKnob: Option<nat>, physicalKnob: Option<nat>)
    returns (s: Schedule)
    requires forall k :: k in {grid, logicalKnob, physicalKnob} && k.Some? ==> k.value > 0
    ensures Normal(s)
    ensures throughput ==> s == THROUGHPUT
    ensures !throughput && grid == logicalKnob == physicalKnob == None ==> s == Schedule(4, 4)
    ensures !throughput ==> s.physical == NormalizePhysicalRows(
      if physicalKnob.Some? then physicalKnob.value else if grid.Some? && grid.value >= 32 then grid.value else 4)
    ensures !throughput ==>
      var wanted := if logicalKnob.Some? then logicalKnob.value else if grid.Some? then grid.value else 4;
      && s.logical <= wanted && s.logical <= 128
      && forall l :: s.logical < l <= wanted && l <= 128 ==> l > s.physical || s.physical % l != 0
  {
    if throughput {
      return THROUGHPUT;
    }
    var logical, physical := 4, 4;
    if grid.Some? {
      logical := Min(grid.value, ENC_KV_MAX_NEW);
      if grid.value >= 32 {
        physical := NormalizePhysicalRows(grid.value);
      }
    }
    logical := Min(if logicalKnob.Some? then logicalKnob.value else logical, ENC_KV_MAX_NEW);
    physical := NormalizePhysicalRows(if physicalKnob.Some? then physicalKnob.value else physical);
    logical := Max(1, logical);
    if logical > physical || physical % logical != 0 {
      ghost var wanted := logical;
      logical := Min(logical, physical);
      while logical > 1 && physical % logical != 0
        invariant 1 <= logical <= physical && logical <= wanted
        invariant forall l :: logical < l <= wanted ==> l > physical || physical % l != 0
      {
        logical := logical - 1;
      }
    }
    s := Schedule(logical, physical);
  }

  // ---- executed batches ----------------------------------------------------------------------------------

  datatype Batch = Batch(start: nat, count: nat, rows: nat)

  /** Encoder frames computable from the stable Mel frames without right padding. */
  function Realizable(mel: int): (e: nat)
    ensures mel >= 0 ==> e == mel / 2
  {
    if mel < 2 then 0 else (mel - 2) / 2 + 1
  }

  function SteadyBatches(s: Schedule, n: nat): (b: seq<Batch>)
    ensures |b| == n
  {
    seq(n, i requires 0 <= i => Batch(ENC_KV_MAX_NEW + i * s.logical, s.logical, s.physical))
  }

  /** Number of full logical batches after the startup block. */
  function SteadyCount(s: Schedule, mel: nat): nat
    requires 0 < s.logical
  {
    if Realizable(mel) < ENC_KV_MAX_NEW then 0 else (Realizable(mel) - ENC_KV_MAX_NEW) / s.logical
  }

  /** The log once the startup block and i logical batches have run. */
  function StartedLog(s: Schedule, i: nat): seq<Batch> {
    [Batch(0, ENC_KV_MAX_NEW, ENC_KV_MAX_NEW)] + SteadyBatches(s, i)
  }

  lemma StartedLogStep(s: Schedule, i: nat)
    ensures StartedLog(s, i + 1) == StartedLog(s, i) + [Batch(ENC_KV_MAX_NEW + i * s.logical, s.logical, s.physical)]
  {
  }

  /** The driver stops exactly at the last full logical batch. */
  lemma SteadyCountIs(s: Schedule, mel: nat, i: nat)
    requires 0 < s.logical
    requires ENC_KV_MAX_NEW + i * s.logical <= Realizable(mel) < ENC_KV_MAX_NEW + i * s.logical + s.logical
    ensures SteadyCount(s, mel) == i
  {
    ModUnique(Realizable(mel) - ENC_KV_MAX_NEW, i, Realizable(mel) - ENC_KV_MAX_NEW - i * s.logical, s.logical);
  }

  lemma LogicalFits(s: Schedule)
    requires Normal(s)
    ensures s.logical <= s.physical <= ENC_KV_MAX_NEW
  {
    if s.logical > s.physical {
      ModUnique(s.physical, 0, s.physical, s.logical);
    }
  }

  /** Everything executed before finish, as a function of the number of stable Mel frames. */
  function FeedBatches(s: Schedule, mel: nat): seq<Batch>
    requires 0 < s.logical
  {
    if Realizable(mel) < ENC_KV_MAX_NEW then []
    else StartedLog(s, SteadyCount(s, mel))
  }

  function FeedEmitted(s: Schedule, mel: nat): nat
    requires 0 < s.logical
  {
    if Realizable(mel) < ENC_KV_MAX_NEW then 0 else ENC_KV_MAX_NEW + SteadyCount(s, mel) * s.logical
  }

  /** The batches of a feed: nothing before 128 frames are realizable, then the startup block and full logical batches, each
      where the last one ended. */
  lemma FeedBatchesAre(s: Schedule, mel: nat, i: nat)
    requires 0 < s.logical
    ensures mel < 256 ==> FeedBatches(s, mel) == [] && FeedEmitted(s, mel) == 0
    ensures mel >= 256 ==>
      var n := (mel / 2 - 128) / s.logical;
      && |FeedBatches(s, mel)| == n + 1 && FeedBatches(s, mel)[0] == Batch(0, 128, 128) && FeedEmitted(s, mel) == 128 + n * s.logical
      && (i < n ==> FeedBatches(s, mel)[i + 1] == Batch(128 + i * s.logical, s.logical, s.physical))
  {
    assert Realizable(mel) == mel / 2;
  }

  /** Once started, the encoder lags the realizable frames by less than one logical batch. */
  lemma FeedLag(s: Schedule, mel: nat)
    requires 0 < s.logical && ENC_KV_MAX_NEW <= Realizable(mel)
    ensures FeedEmitted(s, mel) <= Realizable(mel) < FeedEmitted(s, mel) + s.logical
  {
    var d := Realizable(mel) - ENC_KV_MAX_NEW;
    assert d == (d / s.logical) * s.logical + d % s.logical;
  }

  /** Batches follow each other without gap or overlap from frame 0 to frame `end`, each inside one block. */
  ghost predicate Tiles(log: seq<Batch>, end: nat) {
    && (forall i :: 0 <= i < |log| ==>
          && 0 < log[i].count && 0 < log[i].rows
          && log[i].start == (if i == 0 then 0 else log[i - 1].start + log[i - 1].count)
          && log[i].start % log[i].rows + log[i].count <= log[i].rows)
    && end == if log == [] then 0 else log[|log| - 1].start + log[|log| - 1].count
  }

  /** A tiling executes every frame below its end exactly once. */
  lemma {:induction false} TilesOnce(log: seq<Batch>, end: nat, e: nat) returns (i: nat)
    requires Tiles(log, end) && e < end
    ensures i < |log| && log[i].start <= e < log[i].start + log[i].count
    ensures forall j :: 0 <= j < |log| && log[j].start <= e < log[j].start + log[j].count ==> j == i
  {
    var last := |log| - 1;
    var init := log[..last];
    var initEnd := log[last].start;
    assert Tiles(init, initEnd);
    if e >= initEnd {
      i := last;
      forall j | 0 <= j < last
        ensures log[j].start + log[j].count <= initEnd
      {
        TilesMonotone(log, end, j, last);
      }
    } else {
      i := TilesOnce(init, initEnd, e);
      assert forall j :: 0 <= j < last ==> init[j] == log[j];
    }
  }

  lemma {:induction false} TilesMonotone(log: seq<Batch>, end: nat, i: nat, j: nat)
    requires Tiles(log, end) && i < j < |log|
    ensures log[i].start + log[i].count <= log[j].start
    decreases j
  {
    if i + 1 < j {
      TilesMonotone(log, end, i, j - 1);
    }
  }

  lemma TilesAppend(log: seq<Batch>, end: nat, b: Batch)
    requires Tiles(log, end)
    requires b.start == end && 0 < b.count && 0 < b.rows && b.start % b.rows + b.count <= b.rows
    ensures Tiles(log + [b], end + b.count)
  {
  }

  /** A block is a whole number of logical batches, and the startup block a whole number of blocks. */
  lemma NormalParts(s: Schedule)
    requires Normal(s)
    ensures s.physical == s.physical / s.logical * s.logical && 0 < s.physical / s.logical
    ensures ENC_KV_MAX_NEW == ENC_KV_MAX_NEW / s.physical * s.physical
  {
    StartupTiles(s.physical);
    Divides(s.physical, s.logical);
  }

  lemma Divides(a: nat, b: nat)
    requires 0 < b && 0 < a && a % b == 0
    ensures a == a / b * b && 0 < a / b
  {
  }

  /** A logical batch never crosses its physical block: before finish the head is a multiple of `logical`. */
  lemma RoomForBatch(s: Schedule, i: nat)
    requires Normal(s)
    ensures (ENC_KV_MAX_NEW + i * s.logical) % s.physical + s.logical <= s.physical
  {
    NormalParts(s);
    var m := s.physical / s.logical;
    RoomInBlock(s.logical, m, ENC_KV_MAX_NEW / s.physical, i);
  }

  lemma StartupTiles(p: nat)
    requires p in {4, 8, 16, 32, 64, 128}
    ensures ENC_KV_MAX_NEW == (ENC_KV_MAX_NEW / p) * p
  {
  }

  lemma RoomInBlock(l: nat, m: nat, c: nat, i: nat)
    requires 0 < l && 0 < m * l
    ensures (c * (m * l) + i * l) % (m * l) + l <= m * l
  {
    MulAssoc(c, m, l);
    var t := c * m + i;
    Distribute(c * m, i, l);
    MultipleMod(t, l, m);
    MulMonotone(t % m + 1, m, l);
    Distribute(t % m, 1, l);
  }

  lemma MultipleMod(t: nat, l: nat, m: nat)
    requires 0 < l && 0 < m
    ensures 0 < m * l && (t * l) % (m * l) == (t % m) * l
  {
    var a, r := t / m, t % m;
    assert t == a * m + r;
    Distribute(a * m, r, l);
    MulAssoc(a, m, l);
    MulBelow(r, m, l);
    ModUnique(t * l, a, r * l, m * l);
  }

  lemma Distribute(a: nat, b: nat, c: nat)
    ensures (a + b) * c == a * c + b * c
  {
  }

  lemma MulBelow(r: nat, m: nat, l: nat)
    requires r < m && 0 < l
    ensures r * l < m * l && 0 < m * l
  {
    MulMonotone(r + 1, m, l);
    Distribute(r, 1, l);
  }

  lemma MulAssoc(a: nat, b: nat, c: nat)
    ensures (a * b) * c == a * (b * c)
  {
  }
}
