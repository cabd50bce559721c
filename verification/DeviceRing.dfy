/** Writes into the persistent device rings. The graphs use three different ways of placing new rows (two
    planned segments, a run-by-run copy, one row per slot); all three produce the same ring. */
module DeviceRing {
  import opened RingMath

  /** The `cap` slots of the ring that starts at `base` inside a larger buffer. */
  function Layer<T>(buffer: seq<T>, base: nat, cap: nat): (r: seq<T>)
    requires base + cap <= |buffer|
    ensures |r| == cap
  {
    buffer[base..base + cap]
  }

  /** Only the slots [base, base+cap) changed, and they now hold `ring`. */
  twostate predicate Replaced<T>(a: array<T>, base: nat, cap: nat, ring: seq<T>)
    reads a
  {
    && base + cap <= a.Length
    && a[base..base + cap] == ring
    && a[..base] == old(a[..base])
    && a[base + cap..] == old(a[base + cap..])
  }

  lemma CopiedPrefix<T>(ring: seq<T>, start: nat, data: seq<T>, done: nat, run: nat)
    requires 0 < |ring| && |data| <= |ring| && done + run <= |data|
    requires (start + done) % |ring| + run <= |ring|
    ensures var slot := (start + done) % |ring|;
            Written(ring, start, data[..done + run]) ==
            Written(ring, start, data[..done])[..slot] + data[done..done + run] +
            Written(ring, start, data[..done])[slot + run..]
  {
    var cap := |ring|;
    var slot := (start + done) % cap;
    var w0, w1 := Written(ring, start, data[..done]), Written(ring, start, data[..done + run]);
    var r := w0[..slot] + data[done..done + run] + w0[slot + run..];
    forall s | 0 <= s < cap
      ensures w1[s] == r[s]
    {
      if run > 0 {
        LandsInRun(start, done, run, s, cap);
      } else {
        assert data[done..done + run] == [];
      }
    }
  }

  /** A slot lies in the run being copied exactly when it receives one of the run's rows. */
  lemma LandsInRun(start: nat, done: nat, run: nat, s: nat, cap: nat)
    requires 0 < run && done + run <= cap && s < cap
    requires (start + done) % cap + run <= cap
    ensures var slot := (start + done) % cap;
            && (slot <= s < slot + run <==> done <= Lands(start, s, cap) < done + run)
            && (slot <= s < slot + run ==> Lands(start, s, cap) == done + (s - slot))
  {
    ModInRange(start, start + done, cap);
  }

  /** Copy the next run of rows behind those already placed. */
  method CopyNext<T>(a: array<T>, base: nat, cap: nat, start: nat, data: seq<T>, done: nat, slot: nat, run: nat,
                     ghost ring: seq<T>)
    requires 0 < cap == |ring| && base + cap <= a.Length && |data| <= cap
    requires done + run <= |data| && slot == (start + done) % cap && slot + run <= cap
    requires Layer(a[..], base, cap) == Written(ring, start, data[..done])
    modifies a
    ensures Replaced(a, base, cap, Written(ring, start, data[..done + run]))
  {
    CopiedPrefix(ring, start, data, done, run);
    CopyRun(a, base, cap, slot, data[done..done + run]);
  }

  /** Copy rows run by run, each run ending at the end of the ring at the latest. */
  method CopyChunk<T>(a: array<T>, base: nat, cap: nat, start: nat, data: seq<T>)
    requires 0 < cap && base + cap <= a.Length && |data| <= cap
    modifies a
    ensures Replaced(a, base, cap, Written(old(Layer(a[..], base, cap)), start, data))
  {
    ghost var ring := Layer(a[..], base, cap);
    var done := 0;
    assert Written(ring, start, data[..0]) == ring;
    while done < |data|
      invariant done <= |data|
      invariant Replaced(a, base, cap, Written(ring, start, data[..done]))
    {
      var slot := (start + done) % cap;
      var run := Min(|data| - done, cap - slot);
      CopyNext(a, base, cap, start, data, done, slot, run, ring);
      done := done + run;
    }
    assert data[..done] == data;
  }

  // ---- planned segments ----------------------------------------------------------------------------------

  function Total(segs: seq<Seg>): nat {
    if segs == [] then 0 else segs[0].len + Total(segs[1..])
  }

  /** Segments of a ring of `cap` slots that take n rows. */
  predicate Places(segs: seq<Seg>, cap: nat, n: nat) {
    (forall i :: 0 <= i < |segs| ==> segs[i].slot + segs[i].len <= cap) && Total(segs) == n
  }

  /** The ring after the rows have been written segment by segment, each segment taking the next rows. */
  function Stored<T>(ring: seq<T>, segs: seq<Seg>, data: seq<T>): (r: seq<T>)
    requires Places(segs, |ring|, |data|)
    ensures |r| == |ring|
    decreases |segs|
  {
    if segs == [] then ring
    else
      var s := segs[0];
      Stored(ring[..s.slot] + data[..s.len] + ring[s.slot + s.len..], segs[1..], data[s.len..])
  }

  lemma StoredNone<T>(ring: seq<T>)
    ensures Places([], |ring|, 0) && Stored(ring, [], []) == ring
  {
  }

  lemma StoredFirst<T>(ring: seq<T>, s: Seg, rest: seq<Seg>, data: seq<T>)
    requires s.len <= |data| && s.slot + s.len <= |ring| && Places(rest, |ring|, |data| - s.len)
    ensures Places([s] + rest, |ring|, |data|)
    ensures Stored(ring, [s] + rest, data) ==
            Stored(ring[..s.slot] + data[..s.len] + ring[s.slot + s.len..], rest, data[s.len..])
  {
    assert ([s] + rest)[1..] == rest;
  }

  lemma StoredOne<T>(ring: seq<T>, s: Seg, data: seq<T>)
    requires s.len == |data| && s.slot + s.len <= |ring|
    ensures Places([s], |ring|, |data|)
    ensures Stored(ring, [s], data) == ring[..s.slot] + data + ring[s.slot + s.len..]
  {
    hide Stored;
    assert [s] + [] == [s] && data[s.len..] == [] && data[..s.len] == data;
    StoredNone(ring[..s.slot] + data + ring[s.slot + s.len..]);
    StoredFirst(ring, s, [], data);
  }

  lemma StoredTwo<T>(ring: seq<T>, s: Seg, t: Seg, data: seq<T>)
    requires s.len + t.len == |data| && s.slot + s.len <= |ring| && t.slot + t.len <= |ring|
    ensures Places([s, t], |ring|, |data|)
    ensures var next := ring[..s.slot] + data[..s.len] + ring[s.slot + s.len..];
            Stored(ring, [s, t], data) == next[..t.slot] + data[s.len..] + next[t.slot + t.len..]
  {
    hide Stored;
    var next := ring[..s.slot] + data[..s.len] + ring[s.slot + s.len..];
    StoredOne(next, t, data[s.len..]);
    StoredFirst(ring, s, [t], data);
    assert [s] + [t] == [s, t];
  }

  lemma RunWritten<T>(ring: seq<T>, start: nat, data: seq<T>, first: nat)
    requires 0 < |ring| && first <= |data| <= |ring| && start % |ring| + first <= |ring|
    ensures var slot := start % |ring|;
            Written(ring, start, data[..first]) == ring[..slot] + data[..first] + ring[slot + first..]
  {
    hide Written;
    WrittenNone(ring, start, data);
    CopiedPrefix(ring, start, data, 0, first);
    assert data[0..first] == data[..first];
  }

  lemma WrapWritten<T>(ring: seq<T>, start: nat, data: seq<T>, first: nat)
    requires 0 < |ring| && 0 < first < |data| <= |ring| && start % |ring| + first == |ring|
    ensures var next := Written(ring, start, data[..first]);
            Written(ring, start, data) == next[..0] + data[first..] + next[|data| - first..]
  {
    hide Written;
    ModInRange(start, start + first, |ring|);
    CopiedPrefix(ring, start, data, first, |data| - first);
    assert data[first..|data|] == data[first..] && data[..|data|] == data;
  }

  /** Writing segment by segment through the segments of a span puts every row at its absolute position. */
  lemma StoredIsWritten<T>(ring: seq<T>, start: nat, data: seq<T>)
    requires 0 < |ring| && |data| <= |ring|
    ensures var segs := Segments(start, |data|, |ring|);
            Places(segs, |ring|, |data|) && Stored(ring, segs, data) == Written(ring, start, data)
  {
    hide Written, Stored, Segments, Places;
    if |data| == 0 {
      NoSegments(start, |ring|);
      StoredNone(ring);
      WrittenNone(ring, start, data);
      assert data[..0] == data == [];
    } else {
      var slot, first := SegmentsOf(start, |data|, |ring|);
      RunWritten(ring, start, data, first);
      if first == |data| {
        assert data[..first] == data;
        StoredOne(ring, Seg(slot, first), data);
      } else {
        WrapWritten(ring, start, data, first);
        StoredTwo(ring, Seg(slot, first), Seg(0, |data| - first), data);
      }
    }
  }

  /** Appending through the segments of a span: each row lies in the slot of its position, and reading the span from lo'
      on shows everything from there, oldest first. */
  lemma StoredShows<T>(ring: seq<T>, all: seq<T>, data: seq<T>, lo: nat, lo': nat)
    requires 0 < |ring| && |data| <= |ring| && Resident(ring, all, lo)
    requires lo <= lo' <= |all| + |data| <= lo' + |ring|
    ensures var segs := Segments(|all|, |data|, |ring|);
            && Places(segs, |ring|, |data|)
            && (forall i :: 0 <= i < |data| ==> Stored(ring, segs, data)[(|all| + i) % |ring|] == data[i])
            && Resident(Stored(ring, segs, data), all + data, lo')
            && Gather(Stored(ring, segs, data), Segments(lo', |all| + |data| - lo', |ring|)) == (all + data)[lo'..]
  {
    hide *;
    StoredIsWritten(ring, |all|, data);
    WrittenShows(ring, all, data, lo, lo');
  }

  lemma WrittenShows<T>(ring: seq<T>, all: seq<T>, data: seq<T>, lo: nat, lo': nat)
    requires 0 < |ring| && |data| <= |ring| && Resident(ring, all, lo)
    requires lo <= lo' <= |all| + |data| <= lo' + |ring|
    ensures var w := Written(ring, |all|, data);
            && (forall i :: 0 <= i < |data| ==> w[(|all| + i) % |ring|] == data[i])
            && Resident(w, all + data, lo')
            && Gather(w, Segments(lo', |all| + |data| - lo', |ring|)) == (all + data)[lo'..]
  {
    hide *;
    var w, n := Written(ring, |all|, data), |all| + |data|;
    forall i | 0 <= i < |data|
      ensures w[(|all| + i) % |ring|] == data[i]
    {
      WrittenAt(ring, |all|, data, i);
    }
    WrittenResident(ring, all, data, lo, lo');
    GatherIsSpan(w, all + data, lo', lo', n - lo');
    assert (all + data)[lo'..n] == (all + data)[lo'..];
  }

  lemma NoSegments(start: nat, cap: nat)
    requires 0 < cap
    ensures Segments(start, 0, cap) == []
  {
  }

  lemma WrittenNone<T>(ring: seq<T>, start: nat, data: seq<T>)
    requires 0 < |ring|
    ensures Written(ring, start, data[..0]) == ring
  {
  }

  /** The row of each position lies in its own slot. */
  lemma WrittenAt<T>(ring: seq<T>, start: nat, data: seq<T>, i: nat)
    requires 0 < |ring| && |data| <= |ring| && i < |data|
    ensures Written(ring, start, data)[(start + i) % |ring|] == data[i]
  {
    LandsAt(start, i, |ring|);
  }

  /** Copy rows into the planned segments, in their order. */
  method CopySegments<T>(a: array<T>, base: nat, cap: nat, data: seq<T>, segs: seq<Seg>)
    requires base + cap <= a.Length && Places(segs, cap, |data|)
    modifies a
    ensures Replaced(a, base, cap, Stored(old(Layer(a[..], base, cap)), segs, data))
  {
    hide Stored;
    ghost var ring := Layer(a[..], base, cap);
    var done := 0;
    assert segs[0..] == segs && data[0..] == data;
    for i := 0 to |segs|
      invariant 0 <= done <= |data| && Places(segs[i..], cap, |data[done..]|)
      invariant Stored(a[base..base + cap], segs[i..], data[done..]) == Stored(ring, segs, data)
      invariant a[..base] == old(a[..base]) && a[base + cap..] == old(a[base + cap..])
    {
      var s := segs[i];
      assert [s] + segs[i + 1..] == segs[i..] && segs[i..][1..] == segs[i + 1..];
      assert data[done..][..s.len] == data[done..done + s.len] && data[done..][s.len..] == data[done + s.len..];
      StoredFirst(a[base..base + cap], s, segs[i + 1..], data[done..]);
      CopyRun(a, base, cap, s.slot, data[done..done + s.len]);
      done := done + s.len;
    }
    assert segs[|segs|..] == [] && data[done..] == [];
    StoredNone(a[base..base + cap]);
  }

  /** Store each row in the slot of its own position. */
  method ScatterRows<T>(a: array<T>, base: nat, cap: nat, start: nat, data: seq<T>)
    requires 0 < cap && base + cap <= a.Length && |data| <= cap
    modifies a
    ensures Replaced(a, base, cap, Written(old(Layer(a[..], base, cap)), start, data))
  {
    ghost var ring := Layer(a[..], base, cap);
    assert Written(ring, start, data[..0]) == ring;
    for i := 0 to |data|
      invariant Replaced(a, base, cap, Written(ring, start, data[..i]))
    {
      CopyNext(a, base, cap, start, data, i, (start + i) % cap, 1, ring);
    }
    assert data[..|data|] == data;
  }

  lemma SpliceNext<T>(s: seq<T>, at: nat, rows: seq<T>, i: nat)
    requires i < |rows| && at + |rows| <= |s|
    ensures (s[..at] + rows[..i] + s[at + i..])[at + i := rows[i]] == s[..at] + rows[..i + 1] + s[at + i + 1..]
  {
  }

  /** A cut inside a stretch of s. */
  lemma CutInside<T>(s: seq<T>, i: nat, j: nat, k: nat)
    requires i <= j <= |s| && k <= j - i
    ensures s[..i + k] == s[..i] + s[i..j][..k]
    ensures s[i + k..] == s[i..j][k..] + s[j..]
  {
  }

  lemma Regroup<T>(x: seq<T>, a: seq<T>, rows: seq<T>, b: seq<T>, z: seq<T>)
    ensures var r := (x + a) + rows + (b + z);
            && r[..|x|] == x && r[|x|..|x| + |a| + |rows| + |b|] == a + rows + b && r[|x| + |a| + |rows| + |b|..] == z
  {
  }

  lemma SpliceInLayer<T>(s: seq<T>, base: nat, cap: nat, slot: nat, rows: seq<T>)
    requires base + cap <= |s| && slot + |rows| <= cap
    ensures var r := s[..base + slot] + rows + s[base + slot + |rows|..];
            && r[..base] == s[..base] && r[base + cap..] == s[base + cap..]
            && r[base..base + cap] == s[base..base + cap][..slot] + rows + s[base..base + cap][slot + |rows|..]
  {
    var x, y, z := s[..base], s[base..base + cap], s[base + cap..];
    CutInside(s, base, base + cap, slot);
    CutInside(s, base, base + cap, slot + |rows|);
    Regroup(x, y[..slot], rows, y[slot + |rows|..], z);
  }

  lemma ArraySlices<T>(a: array<T>, i: nat, j: nat)
    requires i <= j <= a.Length
    ensures a[i..j] == a[..][i..j] && a[..i] == a[..][..i] && a[j..] == a[..][j..]
  {
  }

  /** Copy one contiguous run of rows. */
  method CopyRun<T>(a: array<T>, base: nat, cap: nat, slot: nat, rows: seq<T>)
    requires base + cap <= a.Length && slot + |rows| <= cap
    modifies a
    ensures var ring := old(a[base..base + cap]);
            Replaced(a, base, cap, ring[..slot] + rows + ring[slot + |rows|..])
  {
    ghost var s, at := a[..], base + slot;
    ArraySlices(a, base, base + cap);
    SpliceNone(s, at);
    for i := 0 to |rows|
      invariant a[..] == s[..at] + rows[..i] + s[at + i..]
    {
      SpliceNext(s, at, rows, i);
      a[base + slot + i] := rows[i];
    }
    assert rows[..|rows|] == rows;
    SpliceInLayer(s, base, cap, slot, rows);
    ArraySlices(a, base, base + cap);
  }

  lemma SpliceNone<T>(s: seq<T>, at: nat)
    requires at <= |s|
    ensures s == s[..at] + [] + s[at..]
  {
  }
}
