/** The decoder K/V ring: append-only absolute positions over a fixed number of slots. Whatever the sequence of
    appends, reads see exactly the newest entries. */
module DecoderRing {
  import opened Common
  import opened Kernels
  import opened RingMath
  import opened DeviceRing
  import opened EncoderPlan

  /** Ring counters as the graphs see them. */
  datatype Ring = Ring(capacity: int, used: int, oldest: int, next: int)

  datatype RingPlan = RingPlan(writeSegs: seq<Seg>, readSegs: seq<Seg>, nextAfter: nat, usedAfter: nat, oldestAfter: nat,
                               evicted: nat, wrapped: bool)

  predicate Coherent(r: Ring) {
    0 < r.capacity && 0 <= r.used <= r.capacity && 0 <= r.oldest && 0 <= r.next && r.oldest + r.used == r.next
  }

  /** Plan for appending positions [start, start+n); nothing when the request does not continue the ring. */
  function DecoderKvPlan(r: Ring, start: int, n: int): (p: Option<RingPlan>)
    ensures p.Some? <==> Coherent(r) && start == r.next && 0 < n <= r.capacity
  {
    if !Coherent(r) || start != r.next || n <= 0 || n > r.capacity then None
    else
      var nextAfter := start + n;
      var usedAfter := Min(r.capacity, r.used + n);
      var oldestAfter := nextAfter - usedAfter;
      var previousCycle := if start == 0 then 0 else (start - 1) / r.capacity;
      var newestCycle := (nextAfter - 1) / r.capacity;
      Some(RingPlan(Segments(start, n, r.capacity), Segments(oldestAfter, usedAfter, r.capacity), nextAfter, usedAfter,
                    oldestAfter, Max(0, r.used + n - r.capacity), newestCycle > previousCycle))
  }

  /** A coherent ring that has been appended to until `next` and lost only what did not fit. */
  predicate Counted(r: Ring) {
    0 < r.capacity && 0 <= r.next && r.used == Min(r.capacity, r.next) && r.oldest == r.next - r.used
  }

  /** Writing the new rows through the plan's write segments puts each in the slot of its position, and its read segments
      then show the newest min(capacity, next) entries, oldest first. */
  lemma PlanKeepsNewest<T>(r: Ring, rows: seq<T>, ring: seq<T>, history: seq<T>)
    requires Counted(r) && r.next == |history| && |ring| == r.capacity && 0 < |rows| <= r.capacity
    requires Resident(ring, history, r.oldest)
    ensures DecoderKvPlan(r, r.next, |rows|).Some?
    ensures var p, n := DecoderKvPlan(r, r.next, |rows|).value, |history| + |rows|;
            && Places(p.writeSegs, |ring|, |rows|)
            && (forall i :: 0 <= i < |rows| ==> Stored(ring, p.writeSegs, rows)[(|history| + i) % |ring|] == rows[i])
            && Gather(Stored(ring, p.writeSegs, rows), p.readSegs) == (history + rows)[if n <= |ring| then 0 else n - |ring|..]
            && Resident(Stored(ring, p.writeSegs, rows), history + rows, if n <= |ring| then 0 else n - |ring|)
  {
    hide Resident, Gather, Segments, Stored, Places;
    StoredShows(ring, history, rows, r.oldest, Max(0, |history| + |rows| - |ring|));
  }

  /** The counters of the plan: what is dropped is the growth of max(0, next - capacity), and a wrap is reported exactly
      when the append completes another turn. */
  lemma PlanCounts(r: Ring, n: nat)
    requires Counted(r) && 0 < n <= r.capacity
    ensures DecoderKvPlan(r, r.next, n).Some?
    ensures var p, next, cap := DecoderKvPlan(r, r.next, n).value, r.next + n, r.capacity;
            && p.nextAfter == next && p.usedAfter == (if next <= cap then next else cap) && p.oldestAfter == next - p.usedAfter
            && (if r.next <= cap then 0 else r.next - cap) + p.evicted == (if next <= cap then 0 else next - cap)
            && (p.wrapped <==> exists t {:trigger t * cap} :: 0 < t && r.next <= t * cap < next)
  {
    var next, cap := r.next + n, r.capacity;
    var a, b := Turns(next, cap), Turns(r.next, cap);
    TurnsAre(next, cap);
    TurnsAre(r.next, cap);
    if b < a {
      MulMonotone(b + 1, a, cap);
      assert 0 < a && r.next <= a * cap < next;
    }
    forall t {:trigger t * cap} | 0 < t && r.next <= t * cap < next
      ensures b < a
    {
      if a < t {
        MulMonotone(a + 1, t, cap);
      }
      if a <= b {
        MulMonotone(t, b, cap);
      }
    }
  }

  /** Turns are counted from the first rewritten slot on. */
  lemma TurnsAre(next: nat, cap: nat)
    requires 0 < cap
    ensures if next == 0 then Turns(next, cap) == 0 else Turns(next, cap) * cap < next <= (Turns(next, cap) + 1) * cap
  {
    if next > 0 {
      var t := (next - 1) / cap;
      assert next - 1 == t * cap + (next - 1) % cap;
      assert (t + 1) * cap == t * cap + cap;
    }
  }

  /** Completed turns of the ring after `next` positions. */
  function Turns(next: nat, capacity: nat): nat
    requires 0 < capacity
  {
    if next == 0 then 0 else (next - 1) / capacity
  }

  /** One append completes at most one turn. */
  lemma TurnsStep(start: nat, n: nat, capacity: nat)
    requires 0 < n <= capacity
    ensures Turns(start, capacity) <= Turns(start + n, capacity) <= Turns(start, capacity) + 1
  {
    var c := capacity;
    if start == 0 {
      ModUnique(n - 1, 0, n - 1, c);
    } else {
      var a, r := (start - 1) / c, (start - 1) % c;
      assert start - 1 == a * c + r;
      if r + n < c {
        ModUnique(start + n - 1, a, r + n, c);
      } else {
        assert (a + 1) * c == a * c + c;
        ModUnique(start + n - 1, a + 1, r + n - c, c);
      }
    }
  }

  lemma PlanTurns(r: Ring, n: nat)
    requires Counted(r) && 0 < n <= r.capacity
    ensures DecoderKvPlan(r, r.next, n).Some?
    ensures Turns(r.next + n, r.capacity) ==
            Turns(r.next, r.capacity) + if DecoderKvPlan(r, r.next, n).value.wrapped then 1 else 0
  {
    TurnsStep(r.next, n, r.capacity);
  }

  lemma PlanFits(r: Ring, start: int, n: int)
    requires DecoderKvPlan(r, start, n).Some?
    ensures var segs := DecoderKvPlan(r, start, n).value.readSegs;
            |segs| <= 2 && forall i :: 0 <= i < |segs| ==> segs[i].slot + segs[i].len <= r.capacity
  {
  }

  /** The newest entries, oldest first. */
  function Newest<T>(history: seq<T>, n: nat): seq<T>
    requires n <= |history|
  {
    history[|history| - n..]
  }

  class DecoderKv {
    const capacity: nat
    const slots: array<KV>

    var used: nat
    var oldest: nat
    var next: nat
    var evictions: nat
    var wraps: nat

    ghost var history: seq<KV>    // everything appended since creation or clear

    /** The counters have closed forms, and the ring holds the newest `used` entries. */
    ghost predicate Valid()
      reads this, slots
    {
      && 0 < capacity == slots.Length
      && next == |history| && used == Min(capacity, next)
      && oldest == evictions == next - used && wraps == Turns(next, capacity)
      && Resident(slots[..], history, oldest)
    }

    constructor (capacity: nat)
      requires 0 < capacity
      ensures Valid() && history == [] && this.capacity == capacity && fresh(slots)
    {
      this.capacity := capacity;
      slots := new KV[capacity](_ => ZERO_KV);
      used, oldest, next, evictions, wraps := 0, 0, 0, 0, 0;
      history := [];
    }

    /** Logical invalidation only: stale slots are never read again. */
    method Clear()
      requires 0 < capacity == slots.Length
      modifies this
      ensures Valid() && history == []
    {
      used, oldest, next, evictions, wraps := 0, 0, 0, 0, 0;
      history := [];
    }

    /** One execution that appends rows at `start`: refused unless it continues the ring and fits it. The new rows go
        through the plan's write segments, attention reads its read segments. */
    method Append(start: int, rows: seq<KV>) returns (ok: bool, window: seq<KV>)
      requires Valid()
      modifies this, slots
      ensures Valid() && ok == (start == |old(history)| && 0 < |rows| <= capacity)
      ensures history == if ok then old(history) + rows else old(history)
      ensures ok ==> window == history[if |history| <= capacity then 0 else |history| - capacity..]
      ensures used + evictions == next == |history| && used == (if |history| <= capacity then |history| else capacity)
      ensures if next == 0 then wraps == 0 else wraps * capacity < next <= (wraps + 1) * capacity
    {
      hide Resident, Gather, Stored, Places, Segments, Turns, Written, DecoderKvPlan;
      var plan := DecoderKvPlan(Ring(capacity, used, oldest, next), start, |rows|);
      TurnsAre(next, capacity);
      if plan.None? {
        return false, [];
      }
      ghost var r := Ring(capacity, used, oldest, next);
      PlanKeepsNewest(r, rows, slots[..], history);
      PlanCounts(r, |rows|);
      PlanTurns(r, |rows|);
      PlanFits(r, start, |rows|);
      window := Execute(plan.value, rows);
      Commit(plan.value);
      history := history + rows;
      TurnsAre(next, capacity);
      ok := true;
    }

    /** Write the new rows, then read the window, both at the planned slots. */
    method Execute(plan: RingPlan, rows: seq<KV>) returns (window: seq<KV>)
      requires capacity == slots.Length && Places(plan.writeSegs, capacity, |rows|)
      requires |plan.readSegs| <= 2 && forall i :: 0 <= i < |plan.readSegs| ==> plan.readSegs[i].slot + plan.readSegs[i].len <= capacity
      modifies slots
      ensures slots[..] == Stored(old(slots[..]), plan.writeSegs, rows) && window == Gather(slots[..], plan.readSegs)
    {
      hide Stored, Gather, Places;
      assert slots[..] == slots[0..capacity];
      CopySegments(slots, 0, capacity, rows, plan.writeSegs);
      assert slots[..] == slots[0..capacity];
      window := Concatenated(plan.readSegs);
    }

    method Commit(plan: RingPlan)
      modifies this`used, this`oldest, this`next, this`evictions, this`wraps
      ensures used == plan.usedAfter && oldest == plan.oldestAfter && next == plan.nextAfter
      ensures evictions == old(evictions) + plan.evicted && wraps == old(wraps) + if plan.wrapped then 1 else 0
    {
      used := plan.usedAfter;
      oldest := plan.oldestAfter;
      next := plan.nextAfter;
      evictions := evictions + plan.evicted;
      if plan.wrapped {
        wraps := wraps + 1;
      }
    }

    /** The planned segments, at most two, one behind the other. */
    method Concatenated(segs: seq<Seg>) returns (rows: seq<KV>)
      requires |segs| <= 2 && forall i :: 0 <= i < |segs| ==> segs[i].slot + segs[i].len <= slots.Length
      ensures rows == Gather(slots[..], segs)
    {
      rows := [];
      for i := 0 to |segs|
        invariant rows == if i == 0 then [] else if i == 1 then Run(segs[0]) else Run(segs[0]) + Run(segs[1])
      {
        rows := rows + slots[segs[i].slot..segs[i].slot + segs[i].len];
      }
    }

    ghost function Run(s: Seg): seq<KV>
      requires s.slot + s.len <= slots.Length
      reads slots
    {
      slots[..][s.slot..s.slot + s.len]
    }

    /** What one decoder step attends to: behind a prefix mask while the ring fills, the whole physical ring once full. */
    method StepView() returns (seen: seq<KV>)
      requires Valid()
      ensures multiset(seen) == multiset(history[if |history| <= capacity then 0 else |history| - capacity..])
      ensures |history| <= capacity ==> seen == history
    {
      hide Visible, Resident, Turns;
      if used == capacity {
        seen := slots[..];
        FullSees(slots[..], history);
      } else {
        seen := Visible(slots[..], PrefixMask(capacity, used));
        FillingSees(slots[..], history);
      }
    }
  }

  /** Mask opening the first n of `capacity` slots. */
  function PrefixMask(capacity: nat, n: nat): (m: seq<bool>)
    ensures |m| == capacity
  {
    seq(capacity, s requires 0 <= s < capacity => s < n)
  }

  /** While the ring fills, the open prefix is the history itself. */
  lemma FillingSees(ring: seq<KV>, history: seq<KV>)
    requires |history| <= |ring| && 0 < |ring| && Resident(ring, history, 0)
    ensures Visible(ring, PrefixMask(|ring|, |history|)) == history == Newest(history, |history|)
  {
    hide Resident, Visible;
    ModUnique(0, 0, 0, |ring|);
    ResidentRun(ring, history, 0, 0, |history|);
    VisibleInterval(ring, PrefixMask(|ring|, |history|), 0, |history|);
  }

  lemma AllOpen(capacity: nat, lo: nat)
    requires 0 < capacity
    ensures OpensSpan(PrefixMask(capacity, capacity), lo, capacity)
  {
  }

  /** Once full, the physical ring is the window up to rotation; exactly full, it is the history in order. */
  lemma FullSees(ring: seq<KV>, history: seq<KV>)
    requires |ring| <= |history| && 0 < |ring| && Resident(ring, history, |history| - |ring|)
    ensures multiset(ring) == multiset(Newest(history, |ring|))
    ensures |history| == |ring| ==> ring == history
  {
    hide OpensSpan, Resident, Visible;
    var cap, lo := |ring|, |history| - |ring|;
    var all := PrefixMask(cap, cap);
    VisibleAll(ring, all);
    AllOpen(cap, lo);
    PhysicalMaskIsWindow(ring, all, history, lo, cap);
    assert history[lo..lo + cap] == Newest(history, cap);
    if lo == 0 {
      FillingSees(ring, history);
    }
  }
}
