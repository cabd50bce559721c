/** The bounded event queue: mandatory events are refused, never dropped; PARTIAL_TEXT snapshots are replaceable. */
module Events {
  import opened Common
  import opened Kernels
  import opened Reference
  import Utf8

  const MAX_EVENTS := 4096
  const TERMINAL_HEADROOM := 64

  datatype Status = Ok | InvalidArgument | InvalidState | LimitExceeded | BackendError

  datatype Event =
    | Token(token: int, text: seq<bv8>, special: bool, sequence: nat, position: nat, audioEndSample: nat)
    | PartialText(text: seq<bv8>, revision: nat, stablePrefixBytes: nat, audioEndSample: nat)
    | FinalText(text: seq<bv8>)
    | Error(status: Status)
    | Completed
    | Cancelled

  datatype Class = TokenClass | SnapshotClass | TerminalClass

  function ClassOf(e: Event): Class {
    match e
    case Token(_, _, _, _, _, _) => TokenClass
    case PartialText(_, _, _, _) => SnapshotClass
    case _ => TerminalClass
  }

  /** Real-audio end sample of a decoder position; positions inside the left pad report 0. */
  function AudioEndSample(position: nat): (s: nat) {
    if (position + 1) * SAMPLES_PER_TOKEN > STREAM_LEFT_PAD then (position + 1) * SAMPLES_PER_TOKEN - STREAM_LEFT_PAD else 0
  }

  // ---- what a trace shows --------------------------------------------------------------------------------

  /** The events of one class, in order. */
  function Only(c: Class, s: seq<Event>): seq<Event> {
    if s == [] then [] else (if ClassOf(s[0]) == c then [s[0]] else []) + Only(c, s[1..])
  }

  function Tokens(s: seq<Event>): seq<Event> { Only(TokenClass, s) }

  function Snapshots(s: seq<Event>): seq<Event> { Only(SnapshotClass, s) }

  function Terminals(s: seq<Event>): seq<Event> { Only(TerminalClass, s) }

  lemma OnlyStep(c: Class, s: seq<Event>)
    ensures Only(c, s) == if s == [] then [] else (if ClassOf(s[0]) == c then [s[0]] else []) + Only(c, s[1..])
  {
  }

  lemma {:induction false} OnlyConcat(c: Class, a: seq<Event>, b: seq<Event>)
    ensures Only(c, a + b) == Only(c, a) + Only(c, b)
  {
    hide Only, ClassOf;
    OnlyStep(c, a);
    OnlyStep(c, a + b);
    if a == [] {
      assert a + b == b;
    } else {
      assert (a + b)[1..] == a[1..] + b;
      OnlyConcat(c, a[1..], b);
    }
  }

  lemma OnlyOne(c: Class, e: Event)
    ensures Only(c, [e]) == if ClassOf(e) == c then [e] else []
  {
    hide Only, ClassOf;
    OnlyStep(c, [e]);
    OnlyStep(c, []);
    assert [e][1..] == [];
  }

  /** The event at i splits the trace of its class and is invisible in the others. */
  lemma OnlySplit(c: Class, q: seq<Event>, i: nat)
    requires i < |q|
    ensures Only(c, q) == Only(c, q[..i]) + (if ClassOf(q[i]) == c then [q[i]] else []) + Only(c, q[i + 1..])
  {
    hide Only, ClassOf;
    assert q == q[..i] + [q[i]] + q[i + 1..];
    OnlyConcat(c, q[..i] + [q[i]], q[i + 1..]);
    OnlyConcat(c, q[..i], [q[i]]);
    OnlyOne(c, q[i]);
  }

  // ---- queue operations as functions ---------------------------------------------------------------------

  /** Index of the first PARTIAL_TEXT, or |q|. */
  function FirstPartial(q: seq<Event>): (i: nat)
    ensures i <= |q|
    ensures forall j :: 0 <= j < i ==> !q[j].PartialText?
    ensures i < |q| ==> q[i].PartialText?
  {
    if q == [] || q[0].PartialText? then 0 else 1 + FirstPartial(q[1..])
  }

  predicate IsPartial(e: Event) { e.PartialText? }

  /** The queue after a PARTIAL_TEXT push: moved behind the queue in one large feed, appended while there is room,
      else it replaces the newest snapshot, else it is dropped. */
  function PartialPushed(q: seq<Event>, bound: nat, aggressive: bool, e: Event): (r: seq<Event>)
    ensures |r| <= |q| + 1 && (|r| > |q| ==> |q| < bound)
  {
    var first := FirstPartial(q);
    if aggressive && first < |q| then q[..first] + q[first + 1..] + [e]
    else if |q| < bound then q + [e]
    else
      var last := BehindLast(q, IsPartial);
      if last > 0 then q[last - 1 := e] else q
  }

  /** Some snapshot is waiting. */
  predicate HasPartial(q: seq<Event>) {
    exists i :: 0 <= i < |q| && q[i].PartialText?
  }

  /** q without its first snapshot, and e behind everything. */
  ghost predicate MovedBehind(q: seq<Event>, r: seq<Event>, e: Event) {
    exists i {:trigger q[i]} :: 0 <= i < |q| && q[i].PartialText? && (forall j :: 0 <= j < i ==> !q[j].PartialText?) &&
      r == q[..i] + q[i + 1..] + [e]
  }

  /** q with e in the place of its newest snapshot. */
  ghost predicate ReplacedNewest(q: seq<Event>, r: seq<Event>, e: Event) {
    exists i {:trigger q[i]} :: 0 <= i < |q| && q[i].PartialText? && (forall j :: i < j < |q| ==> !q[j].PartialText?) && r == q[i := e]
  }

  /** What a snapshot push does to the queue, case by case. */
  lemma PartialPushedCases(q: seq<Event>, bound: nat, aggressive: bool, e: Event)
    ensures var r := PartialPushed(q, bound, aggressive, e);
            && (aggressive && HasPartial(q) ==> MovedBehind(q, r, e))
            && (!(aggressive && HasPartial(q)) && |q| < bound ==> r == q + [e])
            && (!aggressive && |q| >= bound && HasPartial(q) ==> ReplacedNewest(q, r, e))
            && (|q| >= bound && !HasPartial(q) ==> r == q)
  {
    hide FirstPartial, BehindLast;
    var first, last := FirstPartial(q), BehindLast(q, IsPartial);
    assert first < |q| ==> q[first].PartialText?;
    assert last > 0 ==> q[last - 1].PartialText?;
    assert last == 0 ==> forall j :: 0 <= j < |q| ==> !IsPartial(q[j]);
  }

  /** Snapshot pushes never touch tokens or terminal events. */
  lemma PartialPushedKeeps(c: Class, q: seq<Event>, bound: nat, aggressive: bool, e: Event)
    requires e.PartialText? && c != SnapshotClass
    ensures Only(c, PartialPushed(q, bound, aggressive, e)) == Only(c, q)
  {
    hide Only, FirstPartial, BehindLast;
    OnlyOne(c, e);
    var first, last := FirstPartial(q), BehindLast(q, IsPartial);
    if aggressive && first < |q| {
      OnlyConcat(c, q[..first] + q[first + 1..], [e]);
      OnlyConcat(c, q[..first], q[first + 1..]);
      OnlySplit(c, q, first);
    } else if |q| < bound {
      OnlyConcat(c, q, [e]);
    } else if last > 0 {
      var i := last - 1;
      OnlySplit(c, q, i);
      OnlySplit(c, q[i := e], i);
      assert q[i := e][..i] == q[..i] && q[i := e][i + 1..] == q[i + 1..];
    }
  }

  // ---- revisions -----------------------------------------------------------------------------------------

  /** Snapshot r shows the text of the first r tokens, its stable prefix, and the real audio up to the r-th token. */
  ghost predicate SnapshotOf(k: Kernels, tokens: seq<int>, e: Event) {
    && e.PartialText? && 0 < e.revision <= |tokens|
    && e.text == Text(k, tokens[..e.revision])
    && e.stablePrefixBytes == Utf8.StableLen(e.text) && e.audioEndSample == 1280 * (e.revision + 6)
  }

  /** Strictly increasing revisions, each the text of that many tokens. */
  ghost predicate InOrder(k: Kernels, tokens: seq<int>, r: seq<Event>) {
    && (forall i :: 0 <= i < |r| ==> SnapshotOf(k, tokens, r[i]))
    && forall i, j :: 0 <= i < j < |r| ==> r[i].PartialText? && r[j].PartialText? && r[i].revision < r[j].revision
  }

  lemma InOrderGrows(k: Kernels, tokens: seq<int>, tok: int, r: seq<Event>)
    requires InOrder(k, tokens, r)
    ensures InOrder(k, tokens + [tok], r)
    ensures forall i :: 0 <= i < |r| ==> r[i].PartialText? && r[i].revision < |tokens + [tok]|
  {
    forall i | 0 <= i < |r|
      ensures SnapshotOf(k, tokens + [tok], r[i])
    {
      assert (tokens + [tok])[..r[i].revision] == tokens[..r[i].revision];
    }
  }

  /** Any two snapshots of a trace extend each other. */
  lemma SnapshotsExtend(k: Kernels, tokens: seq<int>, r: seq<Event>, i: nat, j: nat)
    requires InOrder(k, tokens, r) && i < j < |r|
    ensures r[i].revision < r[j].revision
    ensures r[i].text <= r[j].text
  {
    var t := tokens[..r[j].revision];
    assert t[..r[i].revision] == tokens[..r[i].revision];
    TextPrefix(k, t, r[i].revision);
  }

  /** The snapshots of a queue after a push: some of the old ones, in order, and at most the new one behind. */
  lemma PartialPushedSnapshots(q: seq<Event>, bound: nat, aggressive: bool, e: Event)
    returns (a: seq<Event>, x: seq<Event>, b: seq<Event>, y: seq<Event>)
    requires e.PartialText?
    ensures Snapshots(q) == a + x + b
    ensures Snapshots(PartialPushed(q, bound, aggressive, e)) == a + b + y
    ensures y == [e] || (y == [] && x == [])
  {
    hide Only, FirstPartial, BehindLast;
    var c := SnapshotClass;
    OnlyOne(c, e);
    var first, last := FirstPartial(q), BehindLast(q, IsPartial);
    if aggressive && first < |q| {
      a, x, b, y := Only(c, q[..first]), [q[first]], Only(c, q[first + 1..]), [e];
      OnlyConcat(c, q[..first] + q[first + 1..], [e]);
      OnlyConcat(c, q[..first], q[first + 1..]);
      OnlySplit(c, q, first);
    } else if |q| < bound {
      a, x, b, y := Only(c, q), [], [], [e];
      OnlyConcat(c, q, [e]);
    } else if last > 0 {
      var i := last - 1;
      a, x, b, y := Only(c, q[..i]), [q[i]], [], [e];
      OnlySplit(c, q, i);
      OnlySplit(c, q[i := e], i);
      assert q[i := e][..i] == q[..i] && q[i := e][i + 1..] == q[i + 1..];
      NoSnapshots(q[i + 1..]);
    } else {
      a, x, b, y := Only(c, q), [], [], [];
    }
  }

  lemma {:induction false} NoSnapshots(q: seq<Event>)
    requires forall j :: 0 <= j < |q| ==> !q[j].PartialText?
    ensures Snapshots(q) == []
  {
    if q != [] {
      NoSnapshots(q[1..]);
    }
  }

  /** Dropping snapshots and appending the newest keeps them in order. */
  lemma InOrderEdited(k: Kernels, tokens: seq<int>, a: seq<Event>, x: seq<Event>, b: seq<Event>, y: seq<Event>, e: Event)
    requires InOrder(k, tokens, a + x + b)
    requires forall i :: 0 <= i < |a + x + b| ==> (a + x + b)[i].PartialText? && (a + x + b)[i].revision < |tokens|
    requires SnapshotOf(k, tokens, e) && e.revision == |tokens|
    requires y == [e] || y == []
    ensures InOrder(k, tokens, a + b + y)
  {
    var all, r := a + x + b, a + b + y;
    forall i | 0 <= i < |a + b|
      ensures r[i] == all[if i < |a| then i else i + |x|]
    {
    }
  }

  /** Pushing the snapshot of the newest token keeps the snapshots of polled ++ queued in order. */
  lemma PartialPushedInOrder(k: Kernels, tokens: seq<int>, polled: seq<Event>, q: seq<Event>, bound: nat,
                             aggressive: bool, e: Event)
    requires InOrder(k, tokens, Snapshots(polled) + Snapshots(q))
    requires forall i :: 0 <= i < |Snapshots(polled) + Snapshots(q)| ==>
      var s := (Snapshots(polled) + Snapshots(q))[i]; s.PartialText? && s.revision < |tokens|
    requires SnapshotOf(k, tokens, e) && e.revision == |tokens|
    ensures InOrder(k, tokens, Snapshots(polled) + Snapshots(PartialPushed(q, bound, aggressive, e)))
  {
    var a, x, b, y := PartialPushedSnapshots(q, bound, aggressive, e);
    var p := Snapshots(polled);
    assert p + (a + x + b) == (p + a) + x + b;
    assert p + (a + b + y) == (p + a) + b + y;
    InOrderEdited(k, tokens, p + a, x, b, y, e);
  }

  lemma PartialsAre(q: seq<Event>)
    ensures HasPartial(q) <==> FirstPartial(q) < |q|
    ensures HasPartial(q) <==> BehindLast(q, IsPartial) > 0
  {
    assert FirstPartial(q) < |q| ==> q[FirstPartial(q)].PartialText?;
    assert BehindLast(q, IsPartial) == 0 ==> forall j :: 0 <= j < |q| ==> !IsPartial(q[j]);
  }

  class EventQueue {
    var queue: seq<Event>
    var maxEvents: nat
    var overflowed: bool          // a mandatory push hit the bound
    var backpressured: bool       // the decoder holds a token that did not fit
    var finalizingFlush: bool     // finish, cancel or failure: the terminal reserve is open
    var aggressive: bool          // one large accepted feed: keep a single snapshot

    ghost var polled: seq<Event>  // everything delivered since creation or reset

    ghost predicate Valid()
      reads this`queue, this`maxEvents, this`finalizingFlush
    {
      && 1 <= maxEvents <= MAX_EVENTS
      && |queue| <= Bound()
    }

    function Bound(): nat
      reads this`maxEvents, this`finalizingFlush
    {
      maxEvents + if finalizingFlush then TERMINAL_HEADROOM else 0
    }

    constructor (maxEvents: nat)
      requires 1 <= maxEvents <= MAX_EVENTS
      ensures Valid() && queue == [] && polled == [] && this.maxEvents == maxEvents
      ensures !finalizingFlush && !backpressured && !aggressive
    {
      this.maxEvents := maxEvents;
      queue, polled := [], [];
      overflowed, backpressured, finalizingFlush, aggressive := false, false, false, false;
    }

    /** Bounded push of a mandatory event: refused, never dropped, at the bound. */
    method PushEvent(e: Event) returns (ok: bool)
      requires Valid()
      modifies this`queue, this`overflowed
      ensures Valid() && ok == (old(|queue|) < Bound())
      ensures queue == if ok then old(queue) + [e] else old(queue)
      ensures ok == (old(|queue|) < maxEvents + if finalizingFlush then 64 else 0)
      ensures overflowed == (old(overflowed) || !ok)
    {
      if |queue| >= Bound() {
        overflowed := true;
        return false;
      }
      queue := queue + [e];
      ok := true;
    }

    /** Push with snapshot coalescing; mandatory events fall through to the bounded push. */
    method PushEventCoalesced(e: Event) returns (ok: bool)
      requires Valid()
      modifies this`queue, this`overflowed
      ensures Valid()
      ensures e.PartialText? ==> queue == PartialPushed(old(queue), Bound(), aggressive, e)
      ensures e.PartialText? && aggressive && old(HasPartial(queue)) ==> ok && MovedBehind(old(queue), queue, e)
      ensures e.PartialText? && !(aggressive && old(HasPartial(queue))) && old(|queue|) < Bound() ==> ok && queue == old(queue) + [e]
      ensures e.PartialText? && !aggressive && old(|queue|) >= Bound() && old(HasPartial(queue)) ==>
        ok && ReplacedNewest(old(queue), queue, e)
      ensures e.PartialText? && old(|queue|) >= Bound() && !old(HasPartial(queue)) ==> !ok && queue == old(queue)
      ensures !e.PartialText? ==> ok == (old(|queue|) < Bound()) && queue == if ok then old(queue) + [e] else old(queue)
      ensures overflowed == (old(overflowed) || (!ok && !e.PartialText?))
    {
      hide HasPartial, MovedBehind, ReplacedNewest, FirstPartial, BehindLast;
      PartialPushedCases(queue, Bound(), aggressive, e);
      PartialsAre(queue);
      if e.PartialText? && aggressive {
        ok := MoveBehind(e);
        if ok {
          return;
        }
      }
      if |queue| < Bound() {
        queue := queue + [e];
        return true;
      }
      if e.PartialText? {
        ok := ReplaceNewest(e);
        return;
      }
      ok := PushEvent(e);
    }

    /** Remove the first snapshot, if there is one, and put the new one behind everything. */
    method MoveBehind(e: Event) returns (moved: bool)
      modifies this`queue
      ensures moved == (FirstPartial(old(queue)) < old(|queue|))
      ensures var q, i := old(queue), FirstPartial(old(queue)); queue == if moved then q[..i] + q[i + 1..] + [e] else q
    {
      var i := 0;
      while i < |queue|
        invariant i <= FirstPartial(queue) && queue == old(queue)
      {
        if queue[i].PartialText? {
          queue := queue[..i] + queue[i + 1..] + [e];
          return true;
        }
        i := i + 1;
      }
      moved := false;
    }

    /** Replace the newest snapshot, if there is one. */
    method ReplaceNewest(e: Event) returns (replaced: bool)
      modifies this`queue
      ensures replaced == (BehindLast(old(queue), IsPartial) > 0)
      ensures queue == if replaced then old(queue)[BehindLast(old(queue), IsPartial) - 1 := e] else old(queue)
    {
      var i := |queue|;
      while i > 0
        invariant BehindLast(queue, IsPartial) <= i <= |queue| && queue == old(queue)
      {
        if queue[i - 1].PartialText? {
          queue := queue[i - 1 := e];
          return true;
        }
        i := i - 1;
      }
      replaced := false;
    }

    /** Deliver the oldest event. */
    method Poll() returns (e: seq<Event>)
      requires Valid()
      modifies this`queue, this`polled
      ensures Valid() && polled == old(polled) + e && old(queue) == e + queue
      ensures e == [] <==> old(queue) == []
      ensures |e| <= 1
    {
      if |queue| == 0 {
        return [];
      }
      e := [queue[0]];
      queue := queue[1..];
      polled := polled + e;
    }

    method Reset()
      requires 1 <= maxEvents <= MAX_EVENTS
      modifies this
      ensures Valid() && queue == [] && polled == [] && maxEvents == old(maxEvents)
      ensures !finalizingFlush && !backpressured && !aggressive
    {
      queue, polled := [], [];
      overflowed, backpressured, finalizingFlush, aggressive := false, false, false, false;
    }
  }
}
