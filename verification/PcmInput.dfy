/** The server's audio input: the bounded PCM queue between the socket thread and the inference worker, and the pump
    that moves one received frame into it. Each method of `RealtimeInput` is one atomic step of either thread. */
module PcmInput {
  import opened Bytes
  import opened RingMath

  const WORKER_CHUNK_SAMPLES := 1280
  const MAX_BINARY_FRAME_BYTES := 65536

  function Flatten(q: seq<seq<int>>): seq<int> {
    if q == [] then [] else q[0] + Flatten(q[1..])
  }

  lemma {:induction false} FlattenConcat(a: seq<seq<int>>, b: seq<seq<int>>)
    ensures Flatten(a + b) == Flatten(a) + Flatten(b)
  {
    if a == [] {
      assert a + b == b;
    } else {
      assert (a + b)[1..] == a[1..] + b;
      FlattenConcat(a[1..], b);
      assert a[0] + (Flatten(a[1..]) + Flatten(b)) == (a[0] + Flatten(a[1..])) + Flatten(b);
    }
  }

  lemma FlattenPush(q: seq<seq<int>>, c: seq<int>)
    ensures Flatten(q + [c]) == Flatten(q) + c
  {
    FlattenConcat(q, [c]);
    assert [c][1..] == [];
  }

  /** Moving samples from the pending audio to the queue keeps what is under way in order. */
  lemma Moved(delivered: seq<int>, queued: seq<int>, pending: seq<int>, offset: nat, accepted: nat)
    requires offset + accepted <= |pending|
    ensures delivered + queued + pending[offset..] ==
            delivered + (queued + pending[offset..][..accepted]) + pending[offset + accepted..]
  {
    assert pending[offset..] == pending[offset..][..accepted] + pending[offset + accepted..];
    Rejoin(delivered, queued, pending[offset..][..accepted], pending[offset + accepted..]);
    Associate(delivered + queued, pending[offset..][..accepted], pending[offset + accepted..]);
  }

  lemma Associate(a: seq<int>, b: seq<int>, c: seq<int>)
    ensures a + (b + c) == (a + b) + c
  {
  }

  lemma Rejoin(a: seq<int>, b: seq<int>, c: seq<int>, d: seq<int>)
    ensures a + (b + c) + d == (a + b) + c + d
  {
    Associate(a, b, c);
  }

  datatype PopResult = Audio | Finish | Cancel

  class PcmQueue {
    const capacity: nat
    var queue: seq<seq<int>>
    var queuedSamples: nat
    var finishing: bool
    var cancelled: bool

    ghost predicate Valid()
      reads this
    {
      && queuedSamples == |Flatten(queue)| <= capacity
      && (forall i :: 0 <= i < |queue| ==> 0 < |queue[i]| <= WORKER_CHUNK_SAMPLES)
      && (cancelled ==> queue == [])
    }

    constructor (capacity: nat)
      ensures Valid() && queue == [] && !finishing && !cancelled && this.capacity == capacity
    {
      this.capacity := capacity;
      queue, queuedSamples, finishing, cancelled := [], 0, false, false;
    }

    /** Accept as many samples as fit, cut into worker chunks. */
    method PushSome(samples: seq<int>) returns (accepted: nat)
      requires Valid()
      modifies this`queue, this`queuedSamples
      ensures Valid()
      ensures accepted == if cancelled || finishing then 0 else Min(capacity - |Flatten(old(queue))|, |samples|)
      ensures Flatten(queue) == Flatten(old(queue)) + samples[..accepted]
      ensures |old(queue)| <= |queue| && queue[..|old(queue)|] == old(queue)
      ensures forall i :: |old(queue)| <= i < |queue| - 1 ==> |queue[i]| == 1280
    {
      hide Flatten;
      accepted := 0;
      if cancelled || finishing || |samples| == 0 {
        assert Flatten(queue) == Flatten(queue) + samples[..0];
        return;
      }
      var available := if capacity > queuedSamples then capacity - queuedSamples else 0;
      accepted := Min(available, |samples|);
      if accepted == 0 {
        assert Flatten(queue) == Flatten(queue) + samples[..0];
        return;
      }
      var offset := 0;
      while offset < accepted
        invariant offset <= accepted && Flatten(queue) == Flatten(old(queue)) + samples[..offset]
        invariant forall i :: 0 <= i < |queue| ==> 0 < |queue[i]| <= WORKER_CHUNK_SAMPLES
        invariant queuedSamples == old(queuedSamples)
        invariant |old(queue)| <= |queue| && queue[..|old(queue)|] == old(queue)
        invariant forall i :: |old(queue)| <= i < |queue| - 1 ==> |queue[i]| == 1280
        invariant offset < accepted && |old(queue)| < |queue| ==> |queue[|queue| - 1]| == 1280
      {
        var count := Min(WORKER_CHUNK_SAMPLES, accepted - offset);
        FlattenPush(queue, samples[offset..offset + count]);
        assert samples[..offset] + samples[offset..offset + count] == samples[..offset + count];
        queue := queue + [samples[offset..offset + count]];
        offset := offset + count;
      }
      queuedSamples := queuedSamples + accepted;
    }

    /** A pop that does not block: the worker wakes only when one of these conditions holds. */
    predicate Ready()
      reads this
    {
      cancelled || queue != [] || finishing
    }

    /** The oldest chunk; Finish is reported only once everything pushed has been taken. */
    method Pop() returns (result: PopResult, output: seq<int>)
      requires Valid() && Ready()
      modifies this`queue, this`queuedSamples
      ensures Valid() && Flatten(old(queue)) == output + Flatten(queue)
      ensures result == if cancelled then Cancel else if old(queue) != [] then Audio else Finish
      ensures result == Audio ==> output == old(queue)[0] && output != [] && queue == old(queue)[1..]
      ensures result == Finish ==> Flatten(queue) == []
      ensures result != Audio ==> output == [] && queue == old(queue)
    {
      if cancelled {
        return Cancel, [];
      }
      if |queue| > 0 {
        output := queue[0];
        queue := queue[1..];
        queuedSamples := queuedSamples - |output|;
        return Audio, output;
      }
      return Finish, [];
    }

    method FinishInput()
      requires Valid()
      modifies this`finishing
      ensures Valid() && finishing
    {
      finishing := true;
    }

    method CancelInput()
      requires Valid()
      modifies this`cancelled, this`queue, this`queuedSamples
      ensures Valid() && cancelled && queue == []
    {
      cancelled := true;
      queue := [];
      queuedSamples := 0;
    }
  }

  class RealtimeInput {
    const input: PcmQueue

    var pendingAudio: seq<int>
    var pendingOffset: nat
    var readInProgress: bool
    var inputEnded: bool
    var closed: bool
    var pumpsPosted: nat           // pumps posted to the socket thread and not yet run
    var notifyOwed: bool           // the worker has popped and not yet posted its pump

    ghost var received: seq<int>   // every sample of every accepted frame
    ghost var delivered: seq<int>  // every sample the worker has taken
    ghost var endedAt: nat         // samples received when the client ended its input

    ghost predicate Valid()
      reads this, input
    {
      && input.Valid() && pendingOffset <= |pendingAudio| && (pendingAudio != [] ==> pendingOffset < |pendingAudio|)
      && (input.finishing ==> inputEnded)
      && (closed ==> input.cancelled)
      && (!input.cancelled ==>
            && received == delivered + Flatten(input.queue) + pendingAudio[pendingOffset..]
            && (pendingAudio != [] ==> !inputEnded && !readInProgress && PumpDue())
            && (pendingAudio == [] && !inputEnded ==> readInProgress)
            && (inputEnded ==> input.finishing && endedAt == |received|))
    }

    /** Waiting audio has a reason to wait, or a pump on its way. */
    ghost predicate PumpDue()
      reads this, input
    {
      input.queuedSamples == input.capacity || pumpsPosted > 0 || notifyOwed
    }

    constructor (capacity: nat)
      ensures Valid() && fresh(input) && received == [] && delivered == [] && !input.cancelled
    {
      input := new PcmQueue(capacity);
      pendingAudio, pendingOffset := [], 0;
      readInProgress, inputEnded, closed := true, false, false;
      pumpsPosted, notifyOwed := 0, false;
      received, delivered, endedAt := [], [], 0;
    }

    method ReadNext()
      modifies this`readInProgress
      ensures readInProgress == (old(readInProgress) || (!closed && !inputEnded && pendingAudio == []))
    {
      if closed || inputEnded || readInProgress || |pendingAudio| > 0 {
        return;
      }
      readInProgress := true;
    }

    /** Move pending audio into the queue until it is full; when all of it has moved, listen again. */
    method PumpPendingAudio()
      requires input.Valid() && pendingOffset <= |pendingAudio| && !input.cancelled && !input.finishing && !inputEnded && !closed
      requires received == delivered + Flatten(input.queue) + pendingAudio[pendingOffset..]
      requires pendingAudio != [] ==> !readInProgress
      modifies this`pendingAudio, this`pendingOffset, this`readInProgress, input`queue, input`queuedSamples
      ensures input.Valid() && pendingOffset <= |pendingAudio| && (pendingAudio != [] ==> pendingOffset < |pendingAudio|)
      ensures received == delivered + Flatten(input.queue) + pendingAudio[pendingOffset..]
      ensures pendingAudio != [] ==> !readInProgress && input.queuedSamples == input.capacity
      ensures pendingAudio == [] ==> readInProgress
    {
      hide Flatten;
      if |pendingAudio| == 0 {
        ReadNext();
        return;
      }
      while pendingOffset < |pendingAudio|
        invariant input.Valid() && pendingOffset <= |pendingAudio| && pendingAudio != [] && !readInProgress
        invariant received == delivered + Flatten(input.queue) + pendingAudio[pendingOffset..]
        decreases |pendingAudio| - pendingOffset
      {
        var rest := pendingAudio[pendingOffset..];
        ghost var queued := Flatten(input.queue);
        var accepted := input.PushSome(rest);
        Moved(delivered, queued, pendingAudio, pendingOffset, accepted);
        if accepted == 0 {
          return;
        }
        pendingOffset := pendingOffset + accepted;
      }
      assert pendingAudio[pendingOffset..] == [];
      pendingAudio := [];
      pendingOffset := 0;
      ReadNext();
    }

    // ---- socket thread ---------------------------------------------------------------------------------

    /** Drop the session: a protocol failure, a disconnect or a cancellation by the client. */
    method Abort()
      requires Valid()
      modifies this`inputEnded, this`closed, this`readInProgress, input`cancelled, input`queue, input`queuedSamples
      ensures Valid() && input.cancelled && inputEnded
    {
      inputEnded := true;
      readInProgress := false;
      input.CancelInput();
    }

    method Close()
      requires Valid()
      modifies this`inputEnded, this`closed, this`readInProgress, input`cancelled, input`queue, input`queuedSamples
      ensures Valid() && closed
    {
      Abort();
      closed := true;
    }

    /** A binary frame arrives. A frame of bad size ends the session; any other is accepted whole. */
    method HandleBinary(bytes: seq<Byte>)
      requires Valid() && readInProgress && !inputEnded && !closed && !input.cancelled
      modifies this, input
      ensures Valid() && delivered == old(delivered)
      ensures if |bytes| <= 65536 && |bytes| % 2 == 0 then
                && !input.cancelled && received == old(received) + Samples(bytes)
                && (if pendingAudio == [] then readInProgress else !readInProgress && input.queuedSamples == input.capacity)
              else input.cancelled && inputEnded && received == old(received)
    {
      if |bytes| > MAX_BINARY_FRAME_BYTES || |bytes| % 2 != 0 {
        Abort();
        return;
      }
      readInProgress := false;
      assert pendingAudio == [] && pendingAudio[pendingOffset..] == [];
      if |bytes| == 0 {
        assert received + Samples(bytes) == received;
        ReadNext();
        return;
      }
      assert received == delivered + Flatten(input.queue);
      var samples: seq<int> := [];
      for i := 0 to |bytes| / 2
        invariant samples == Samples(bytes)[..i]
      {
        samples := samples + [Sample(bytes[2 * i], bytes[2 * i + 1])];
      }
      assert Samples(bytes)[..|bytes| / 2] == Samples(bytes);
      pendingAudio := samples;
      pendingOffset := 0;
      received := received + pendingAudio;
      assert pendingAudio[0..] == pendingAudio;
      PumpPendingAudio();
    }

    /** The client ends its input: nothing is pending then, because no frame is read while audio waits. */
    method HandleFinish()
      requires Valid() && readInProgress && !inputEnded && !closed && !input.cancelled
      modifies this`inputEnded, this`readInProgress, this`endedAt, input`finishing
      ensures Valid() && inputEnded && !input.cancelled && endedAt == |received|
    {
      readInProgress := false;
      inputEnded := true;
      endedAt := |received|;
      input.FinishInput();
    }

    /** A pump posted by the worker runs. */
    method RunPostedPump()
      requires Valid() && pumpsPosted > 0
      modifies this`pumpsPosted, this`pendingAudio, this`pendingOffset, this`readInProgress, input`queue, input`queuedSamples
      ensures Valid() && pumpsPosted == old(pumpsPosted) - 1
      ensures !closed && !input.cancelled && !inputEnded ==>
        if pendingAudio == [] then readInProgress else !readInProgress && input.queuedSamples == input.capacity
      ensures closed || input.cancelled || inputEnded ==>
        pendingAudio == old(pendingAudio) && readInProgress == old(readInProgress) && input.queue == old(input.queue)
    {
      pumpsPosted := pumpsPosted - 1;
      if closed || input.cancelled {
        return;
      }
      if inputEnded {
        ReadNext();
        return;
      }
      PumpPendingAudio();
    }

    // ---- worker thread ---------------------------------------------------------------------------------

    /** The worker takes the next chunk. It sees Finish only after every received sample has been delivered. */
    method WorkerPop() returns (result: PopResult, output: seq<int>)
      requires Valid() && input.Ready() && !notifyOwed
      modifies this`delivered, this`notifyOwed, input`queue, input`queuedSamples
      ensures Valid() && delivered == old(delivered) + output
      ensures result == Finish ==> delivered == received && endedAt == |received|
      ensures result == Audio ==> output != [] && notifyOwed
      ensures result == Cancel <==> input.cancelled
    {
      hide Flatten;
      result, output := input.Pop();
      Rejoin(delivered, output, Flatten(input.queue), pendingAudio[pendingOffset..]);
      delivered := delivered + output;
      if result == Audio {
        notifyOwed := true;
      }
    }

    method NotifyInputSpace()
      requires Valid() && notifyOwed
      modifies this`notifyOwed, this`pumpsPosted
      ensures Valid() && pumpsPosted == old(pumpsPosted) + 1
    {
      notifyOwed := false;
      pumpsPosted := pumpsPosted + 1;
    }

    /** What the worker has taken so far is the beginning of what was received, in order, each sample once. */
    lemma DeliveredInOrder()
      requires Valid() && !input.cancelled
      ensures delivered <= received
      ensures |received| - |delivered| <= input.capacity + |pendingAudio|
    {
      assert received == delivered + (Flatten(input.queue) + pendingAudio[pendingOffset..]);
    }
  }
}
