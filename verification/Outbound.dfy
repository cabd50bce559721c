/** The server's outbound message queue, shared by the worker and the socket thread: bounded in messages and bytes,
    with replaceable PARTIAL messages and everything else written exactly once in the order it was accepted. */
module Outbound {
  const MAX_OUTBOUND_MESSAGES := 256
  const MAX_OUTBOUND_BYTES := 0x40_0000

  datatype Kind = Token | Partial | Mandatory
  datatype Message = Message(payload: string, kind: Kind)
  datatype Active = Idle | Writing(payload: string)
  datatype Attempt = Accepted | Refused | MustWait

  function Bytes(q: seq<Message>): nat {
    if q == [] then 0 else |q[0].payload| + Bytes(q[1..])
  }

  /** Payloads that must not be lost, in order. */
  function Kept(q: seq<Message>): seq<string> {
    if q == [] then [] else (if q[0].kind == Partial then [] else [q[0].payload]) + Kept(q[1..])
  }

  lemma {:induction false} Concat(a: seq<Message>, b: seq<Message>)
    ensures Bytes(a + b) == Bytes(a) + Bytes(b) && Kept(a + b) == Kept(a) + Kept(b)
  {
    if a == [] {
      assert a + b == b;
    } else {
      assert (a + b)[1..] == a[1..] + b;
      Concat(a[1..], b);
    }
  }

  lemma One(m: Message)
    ensures Bytes([m]) == |m.payload| && Kept([m]) == if m.kind == Partial then [] else [m.payload]
  {
    assert [m][1..] == [];
  }

  lemma Push(q: seq<Message>, m: Message)
    ensures Bytes(q + [m]) == Bytes(q) + |m.payload|
    ensures Kept(q + [m]) == Kept(q) + if m.kind == Partial then [] else [m.payload]
  {
    hide Bytes, Kept;
    Concat(q, [m]);
    One(m);
  }

  /** Replacing or erasing a PARTIAL message touches nothing that must be kept. */
  lemma EditPartial(q: seq<Message>, i: nat, m: Message)
    requires i < |q| && q[i].kind == Partial && m.kind == Partial
    ensures Bytes(q) >= |q[i].payload|
    ensures Bytes(q[i := m]) == Bytes(q) - |q[i].payload| + |m.payload| && Kept(q[i := m]) == Kept(q)
    ensures Bytes(q[..i] + q[i + 1..]) == Bytes(q) - |q[i].payload| && Kept(q[..i] + q[i + 1..]) == Kept(q)
  {
    hide Bytes, Kept;
    var a, b := q[..i], q[i + 1..];
    assert q == a + ([q[i]] + b) && q[i := m] == a + ([m] + b);
    Concat(a, [q[i]] + b);
    Concat(a, [m] + b);
    Concat([q[i]], b);
    Concat([m], b);
    Concat(a, b);
    One(q[i]);
    One(m);
    assert Kept(a) + ([] + Kept(b)) == Kept(a) + Kept(b);
  }

  /** i is the newest PARTIAL. */
  predicate NewestPartial(q: seq<Message>, i: nat) {
    i < |q| && q[i].kind == Partial && forall j :: i < j < |q| ==> q[j].kind != Partial
  }

  predicate NoPartial(q: seq<Message>) {
    forall j :: 0 <= j < |q| ==> q[j].kind != Partial
  }

  /** r is q with m in the place of its newest PARTIAL. */
  ghost predicate Replaced(q: seq<Message>, r: seq<Message>, m: Message) {
    exists i: nat :: NewestPartial(q, i) && r == q[i := m]
  }

  /** Replacing the newest PARTIAL by m would exceed the byte limit, of which `bytes` are in use. */
  ghost predicate TooLarge(q: seq<Message>, bytes: nat, m: Message) {
    exists i: nat :: NewestPartial(q, i) && bytes - |q[i].payload| + |m.payload| > 4194304
  }

  function WithoutPartials(q: seq<Message>): (r: seq<Message>)
    ensures NoPartial(r)
  {
    if q == [] then [] else (if q[0].kind == Partial then [] else [q[0]]) + WithoutPartials(q[1..])
  }

  lemma {:induction false} NothingRemoved(q: seq<Message>)
    requires NoPartial(q)
    ensures WithoutPartials(q) == q
  {
    if q != [] {
      NothingRemoved(q[1..]);
    }
  }

  lemma {:induction false} WithoutConcat(a: seq<Message>, b: seq<Message>)
    ensures WithoutPartials(a + b) == WithoutPartials(a) + WithoutPartials(b)
  {
    if a == [] {
      assert a + b == b;
    } else {
      assert (a + b)[1..] == a[1..] + b;
      WithoutConcat(a[1..], b);
    }
  }

  /** The queue once the PARTIALs from index i on have been evicted. */
  function Evicted(q: seq<Message>, i: nat): seq<Message>
    requires i <= |q|
  {
    q[..i] + WithoutPartials(q[i..])
  }

  /** Evicting the newest PARTIAL of what is left. */
  lemma EvictNext(q: seq<Message>, i: nat, p: nat)
    requires i <= |q| && NewestPartial(Evicted(q, i), p)
    ensures p < i && q[p].kind == Partial
    ensures Evicted(q, p) == Evicted(q, i)[..p] + Evicted(q, i)[p + 1..]
    ensures Evicted(q, p + 1) == Evicted(q, i)
  {
    hide WithoutPartials;
    var r, rest := Evicted(q, i), WithoutPartials(q[i..]);
    assert forall j :: i <= j < |r| ==> r[j] == rest[j - i];
    var mid := q[p + 1..i];
    forall j | 0 <= j < |mid|
      ensures mid[j].kind != Partial
    {
      assert mid[j] == r[p + 1 + j];
    }
    NothingRemoved(mid);
    assert q[p + 1..] == mid + q[i..];
    WithoutConcat(mid, q[i..]);
    assert q[p..] == [q[p]] + q[p + 1..];
    WithoutConcat([q[p]], q[p + 1..]);
    WithoutOne(q[p]);
    assert r[p + 1..] == mid + rest && r[..p] == q[..p];
    assert q[..i] == q[..p + 1] + mid;
  }

  lemma EvictNone(q: seq<Message>)
    ensures Evicted(q, |q|) == q
  {
    assert q[|q|..] == [] && WithoutPartials([]) == [];
  }

  lemma EvictAll(q: seq<Message>, i: nat)
    requires i <= |q| && NoPartial(Evicted(q, i))
    ensures Evicted(q, i) == WithoutPartials(q)
  {
    forall j | 0 <= j < i
      ensures q[..i][j].kind != Partial
    {
      assert q[..i][j] == Evicted(q, i)[j];
    }
    NothingRemoved(q[..i]);
    WithoutConcat(q[..i], q[i..]);
    assert q == q[..i] + q[i..];
  }

  lemma WithoutOne(m: Message)
    ensures WithoutPartials([m]) == if m.kind == Partial then [] else [m]
  {
    assert [m][1..] == [];
  }

  class OutboundQueue {
    var queue: seq<Message>
    var bytes: nat                 // queued plus in-flight payload bytes
    var writeInProgress: bool
    var active: Active             // payload handed to the socket
    var outboundClosed: bool
    var closed: bool

    ghost var accepted: seq<string>  // TOKEN and mandatory payloads accepted, in order
    ghost var written: seq<string>   // those handed to the socket, in order

    ghost predicate Valid()
      reads this
    {
      && bytes == Bytes(queue) + (if active.Writing? then |active.payload| else 0) <= MAX_OUTBOUND_BYTES
      && |queue| + (if writeInProgress then 1 else 0) <= MAX_OUTBOUND_MESSAGES
      && (writeInProgress <==> active.Writing?)
      && (outboundClosed ==> queue == []) && (closed ==> outboundClosed)
      && (if outboundClosed then written <= accepted else accepted == written + Kept(queue))
    }

    constructor ()
      ensures Valid() && queue == [] && accepted == [] && written == [] && !outboundClosed && !closed
    {
      queue, bytes, writeInProgress, active := [], 0, false, Idle;
      outboundClosed, closed := false, false;
      accepted, written := [], [];
    }

    /** Room for a message of n bytes. */
    predicate HasCapacity(n: nat)
      reads this
    {
      && n <= MAX_OUTBOUND_BYTES
      && |queue| + (if writeInProgress then 1 else 0) < MAX_OUTBOUND_MESSAGES
      && bytes <= MAX_OUTBOUND_BYTES - n
    }

    /** At most 256 messages, the one in flight included, and 4 MiB. */
    lemma CapacityIs(n: nat)
      ensures HasCapacity(n) <==> |queue| + (if writeInProgress then 1 else 0) < 256 && bytes + n <= 4194304
    {
    }

    /** Replace the newest queued PARTIAL by a newer one, in place, when the bytes allow it. */
    method CoalescePartial(m: Message) returns (done: bool)
      requires Valid() && !outboundClosed
      modifies this`queue, this`bytes
      ensures Valid() && (done ==> m.kind == Partial && Replaced(old(queue), queue, m) && |m.payload| <= 4194304)
      ensures !done ==> queue == old(queue) && bytes == old(bytes)
      ensures !done && m.kind == Partial ==> NoPartial(queue) || TooLarge(queue, bytes, m)
    {
      if m.kind != Partial {
        return false;
      }
      var i := |queue|;
      while i > 0
        invariant 0 <= i <= |queue| && forall j :: i <= j < |queue| ==> queue[j].kind != Partial
      {
        if queue[i - 1].kind == Partial {
          EditPartial(queue, i - 1, m);
          assert NewestPartial(queue, i - 1);
          var withoutExisting := bytes - |queue[i - 1].payload|;
          if |m.payload| <= MAX_OUTBOUND_BYTES - withoutExisting {
            bytes := withoutExisting + |m.payload|;
            queue := queue[i - 1 := m];
            return true;
          }
          return false;
        }
        i := i - 1;
      }
      done := false;
    }

    /** Payload bytes handed to the socket and not yet written. */
    function InFlight(): nat
      reads this`active
    {
      if active.Writing? then |active.payload| else 0
    }

    lemma Load()
      requires Valid()
      ensures bytes == Bytes(queue) + InFlight()
    {
    }

    /** With the PARTIAL at i still queued, m would not have fitted: no more was evicted than had to be. */
    ghost predicate NoRoomFor(q: seq<Message>, i: nat, m: Message)
      requires i <= |q|
      reads this`active, this`writeInProgress
    {
      i < |q| ==>
        && q[i].kind == Partial
        && (|Evicted(q, i + 1)| + (if writeInProgress then 1 else 0) >= 256
            || Bytes(Evicted(q, i + 1)) + InFlight() + |m.payload| > 4194304)
    }

    method Append(m: Message)
      requires Valid() && !outboundClosed && HasCapacity(|m.payload|)
      modifies this`queue, this`bytes, this`accepted
      ensures Valid() && queue == old(queue) + [m]
      ensures accepted == old(accepted) + if m.kind == Partial then [] else [m.payload]
    {
      Push(queue, m);
      bytes := bytes + |m.payload|;
      queue := queue + [m];
      if m.kind != Partial {
        accepted := accepted + [m.payload];
      }
    }

    /** One pass of the worker's enqueue loop; it waits only for a message that can fit later. */
    method TryEnqueueFromWorker(m: Message, cancelled: bool) returns (r: Attempt)
      requires Valid()
      modifies this`queue, this`bytes, this`accepted
      ensures Valid()
      ensures accepted == old(accepted) + if r.Accepted? && m.kind != Partial then [m.payload] else []
      ensures r.Refused? <==> outboundClosed || cancelled || |m.payload| > 4194304
      ensures r.Accepted? ==> queue == old(queue) + [m] || (m.kind == Partial && Replaced(old(queue), queue, m))
      ensures !r.Accepted? ==> queue == old(queue)
      ensures r.MustWait? ==> |queue| + (if writeInProgress then 1 else 0) >= 256 || bytes + |m.payload| > 4194304
      ensures r.MustWait? && m.kind == Partial ==> NoPartial(queue) || TooLarge(queue, bytes, m)
      ensures r.Accepted? && m.kind == Partial && !NoPartial(old(queue)) && !TooLarge(old(queue), old(bytes), m) ==>
        Replaced(old(queue), queue, m)
    {
      hide Replaced, TooLarge, NoPartial, HasCapacity;
      CapacityIs(|m.payload|);
      if outboundClosed || cancelled {
        return Refused;
      }
      var done := CoalescePartial(m);
      if done {
        return Accepted;
      }
      if HasCapacity(|m.payload|) {
        Append(m);
        return Accepted;
      }
      r := if |m.payload| > MAX_OUTBOUND_BYTES then Refused else MustWait;
    }

    /** Erase the newest PARTIAL. */
    method RemoveOptionalPartial() returns (removed: bool)
      requires Valid() && !outboundClosed
      modifies this`queue, this`bytes
      ensures Valid() && removed == !NoPartial(old(queue))
      ensures removed ==> exists i: nat :: NewestPartial(old(queue), i) && queue == old(queue)[..i] + old(queue)[i + 1..]
      ensures !removed ==> queue == old(queue) && bytes == old(bytes)
    {
      var i := |queue|;
      while i > 0
        invariant 0 <= i <= |queue| && forall j :: i <= j < |queue| ==> queue[j].kind != Partial
      {
        if queue[i - 1].kind == Partial {
          EditPartial(queue, i - 1, queue[i - 1]);
          assert NewestPartial(queue, i - 1);
          bytes := bytes - |queue[i - 1].payload|;
          queue := queue[..i - 1] + queue[i..];
          return true;
        }
        i := i - 1;
      }
      removed := false;
    }

    /** The socket thread never waits: it evicts PARTIAL messages, the newest first and no more than it must, and gives up
        only when none is left. */
    method EnqueueFromIo(m: Message) returns (ok: bool)
      requires Valid()
      modifies this`queue, this`bytes, this`accepted
      ensures Valid()
      ensures accepted == old(accepted) + if ok && m.kind != Partial then [m.payload] else []
      ensures outboundClosed ==> !ok && queue == old(queue)
      ensures ok ==>
        || (m.kind == Partial && Replaced(old(queue), queue, m))
        || exists i: nat :: i <= |old(queue)| && queue == Evicted(old(queue), i) + [m] && NoRoomFor(old(queue), i, m)
      ensures !outboundClosed && m.kind == Partial && !NoPartial(old(queue)) && !TooLarge(old(queue), old(bytes), m) ==>
        ok && Replaced(old(queue), queue, m)
      ensures !ok && !outboundClosed ==>
        && queue == WithoutPartials(old(queue))
        && (|queue| + (if writeInProgress then 1 else 0) >= 256 || bytes + |m.payload| > 4194304)
    {
      hide Replaced, TooLarge, HasCapacity, Bytes, Kept, Evicted, WithoutPartials;
      if outboundClosed {
        return false;
      }
      ok := CoalescePartial(m);
      if ok {
        return;
      }
      ghost var q: seq<Message>, i: nat := queue, |queue|;
      EvictNone(q);
      var more := true;
      while more && !HasCapacity(|m.payload|)
        invariant Valid() && !outboundClosed && accepted == old(accepted)
        invariant i <= |q| && queue == Evicted(q, i) && NoRoomFor(q, i, m)
        invariant !more ==> NoPartial(queue)
        decreases |queue|, more
      {
        CapacityIs(|m.payload|);
        ghost var before := queue;
        Load();
        more := RemoveOptionalPartial();
        if more {
          ghost var p: nat :| NewestPartial(before, p) && queue == before[..p] + before[p + 1..];
          EvictNext(q, i, p);
          i := p;
        }
      }
      CapacityIs(|m.payload|);
      if !HasCapacity(|m.payload|) {
        EvictAll(q, i);
        return false;
      }
      Append(m);
      ok := true;
    }

    /** Hand the oldest message to the socket. */
    method MaybeWrite()
      requires Valid()
      modifies this`queue, this`writeInProgress, this`active, this`written
      ensures Valid() && accepted == old(accepted)
      ensures old(closed || writeInProgress || queue == []) ==> queue == old(queue) && active == old(active) && written == old(written)
      ensures !old(closed || writeInProgress || queue == []) ==>
        && active == Writing(old(queue)[0].payload) && queue == old(queue)[1..]
        && written == old(written) + if old(queue)[0].kind == Partial then [] else [old(queue)[0].payload]
    {
      if closed || writeInProgress || |queue| == 0 {
        return;
      }
      writeInProgress := true;
      active := Writing(queue[0].payload);
      if queue[0].kind != Partial {
        written := written + [queue[0].payload];
      }
      queue := queue[1..];
    }

    /** The socket has taken the payload. */
    method OnWrite()
      requires Valid()
      modifies this`bytes, this`active, this`writeInProgress
      ensures Valid() && !writeInProgress && bytes == Bytes(queue)
    {
      if active.Writing? {
        bytes := bytes - |active.payload|;
        active := Idle;
      }
      writeInProgress := false;
    }

    /** Closing releases the queued bytes; a payload in flight releases its own when its write completes. */
    method FinishSession()
      requires Valid()
      modifies this`queue, this`bytes, this`outboundClosed, this`closed
      ensures Valid() && closed
      ensures outboundClosed && queue == []
    {
      if closed {
        return;
      }
      assert written <= accepted;
      var i := 0;
      while i < |queue|
        invariant i <= |queue| && bytes == Bytes(queue[i..]) + (if active.Writing? then |active.payload| else 0) <= MAX_OUTBOUND_BYTES
        modifies this`bytes
      {
        bytes := bytes - |queue[i].payload|;
        assert queue[i..][1..] == queue[i + 1..];
        i := i + 1;
      }
      queue := [];
      closed := true;
      outboundClosed := true;
    }
  }
}
