/** The incremental scheduler: one pass commits every ready adapter group and runs every ready decoder step,
    stopping without losing anything when a mandatory event does not fit the bounded queue. */
module Scheduler {
  import opened Kernels
  import opened RingMath
  import opened DeviceRing
  import opened EncoderSpec
  import opened EncoderKv
  import opened Reference
  import opened Events
  import opened SchedulerSpec
  import Utf8

  class Scheduler {
    const k: Kernels
    const maxTokens: int
    const enc: EncoderKv
    const eq: EventQueue
    const aemb: array<AudioEmb>   // device ring: embedding of group g in slot g % 256

    var d: Decoder

    ghost var outs: seq<int>      // every decoder output since creation or reset
    ghost var intact: bool        // no device failure, and the encoder ring never lapped the adapter
    ghost var faulted: bool       // an adapter or decoder call has failed

    ghost predicate Config() {
      enc.k == k && enc.toRing && aemb.Length == AEMB_RING_CAP && enc.outRing.Length == ENC_OUT_RING_CAP
    }

    ghost predicate Exact()
      reads this`d, this`outs, aemb, enc`mel
    {
      Faithful(k, enc.mel, d, aemb[..], outs)
    }

    /** Everything but the event trace. */
    ghost predicate Core()
      reads this`d, this`outs, this`intact, aemb, enc`mel, enc`emitted
    {
      Config() && Books(k, maxTokens, d, outs) && Throttled(d, enc.emitted) && (intact ==> Exact())
    }

    ghost predicate Traced()
      reads this`d, this`outs, eq`queue, eq`polled, eq`maxEvents, eq`finalizingFlush
    {
      eq.Valid() && Shows(k, Committed(d, outs), d.tokens, eq.polled + eq.queue)
    }

    ghost predicate Sound()
      reads this`d, this`outs, this`intact, aemb, enc`mel, enc`emitted
      reads eq`queue, eq`polled, eq`maxEvents, eq`finalizingFlush
    {
      Core() && Traced()
    }

    ghost predicate Valid()
      reads this`d, this`outs, this`intact, aemb, enc`mel, enc`emitted
      reads eq`queue, eq`polled, eq`maxEvents, eq`finalizingFlush, eq`backpressured
    {
      Sound() && (eq.backpressured ==> d.pending.Stashed?)
    }

    /** The encoder has not lapped an unread frame: its ring still holds everything from the next group on,
        unless the throttle stops the adapter from reading any further. */
    ghost predicate RingSafe()
      reads this`d, enc`emitted
    {
      enc.emitted <= 4 * d.groups + ENC_OUT_RING_CAP || d.groups == Floor(d) + AEMB_RING_CAP
    }

    ghost function Standing(): Mark
      reads this`d, this`outs, eq`queue
    {
      MarkOf(Committed(d, outs), d.eos, eq.queue)
    }

    lemma Bounds()
      requires Sound()
      ensures if d.prefilled then PREFILL_LEN <= d.groups && d.position <= d.groups else d.pending.NoToken?
    {
    }

    lemma BooksOf()
      requires Sound()
      ensures Config() && Books(k, maxTokens, d, outs) && Throttled(d, enc.emitted) && eq.Valid()
    {
      hide Books, Throttled, Faithful, Shows;
    }

    constructor (k: Kernels, maxTokens: int, enc: EncoderKv, eq: EventQueue)
      requires enc.k == k && enc.toRing && enc.outRing.Length == ENC_OUT_RING_CAP
      requires eq.Valid() && eq.queue == [] && eq.polled == [] && !eq.backpressured
      ensures Valid() && d == START && outs == [] && intact && !faulted && fresh(aemb)
      ensures this.k == k && this.maxTokens == maxTokens && this.enc == enc && this.eq == eq
    {
      this.k, this.maxTokens, this.enc, this.eq := k, maxTokens, enc, eq;
      aemb := new AudioEmb[AEMB_RING_CAP](_ => ZERO_EMB);
      d, outs, intact, faulted := START, [], true, false;
      new;
      StartIsFaithful(k, maxTokens, enc.mel, aemb[..]);
    }

    /** Counters are cleared; stale ring rows are never read again. */
    method Reset()
      requires Config() && eq.Valid() && eq.queue == [] && eq.polled == [] && !eq.backpressured
      modifies this
      ensures Valid() && d == START && outs == [] && intact && !faulted
    {
      d, outs, intact, faulted := START, [], true, false;
      StartIsFaithful(k, maxTokens, enc.mel, aemb[..]);
    }

    /** From here on the rings may have been lapped: nothing more is claimed about their contents. */
    ghost method GiveUp()
      requires Sound()
      modifies this`intact
      ensures Sound() && !intact
    {
      intact := false;
    }

    /** More Mel frames and encoder frames leave everything committed so far as it is. */
    twostate lemma EncoderGrows(more: seq<MelFrame>)
      requires old(Sound()) && 2 * old(enc.emitted) <= |old(enc.mel)|
      requires enc.mel == old(enc.mel) + more && old(enc.emitted) <= enc.emitted
      requires unchanged(this) && unchanged(aemb) && unchanged(eq)
      ensures Sound()
    {
      hide Shows, Faithful, TokenHistory;
      assert aemb[..] == old(aemb[..]);
      if intact {
        FaithfulGrows(k, old(enc.mel), more, d, aemb[..], outs);
      }
    }

    // ---- adapter ---------------------------------------------------------------------------------------

    /** Run the adapter graph over `run` groups: gather their encoder rows, scatter the embeddings. */
    method AdapterRun(start: nat, run: nat)
      requires Config() && run <= 32
      modifies aemb
      ensures aemb[..] == Written(old(aemb[..]), start, Adapted(k, enc.outRing[..], start, start + run))
      ensures forall g :: start <= g < start + run ==>
        aemb[g % 256] == k.adapter(enc.outRing[4 * g % 256], enc.outRing[(4 * g + 1) % 256],
                                   enc.outRing[(4 * g + 2) % 256], enc.outRing[(4 * g + 3) % 256])
    {
      hide Written;
      var rows: seq<AudioEmb> := [];
      for i := 0 to run
        invariant rows == Adapted(k, enc.outRing[..], start, start + i)
      {
        var g := start + i;
        var slots := seq(DOWNSAMPLE, j requires 0 <= j < DOWNSAMPLE => (DOWNSAMPLE * g + j) % ENC_OUT_RING_CAP);
        var row := k.adapter(enc.outRing[slots[0]], enc.outRing[slots[1]], enc.outRing[slots[2]], enc.outRing[slots[3]]);
        assert row == AdaptedRow(k, enc.outRing[..], g);
        rows := rows + [row];
      }
      assert Layer(aemb[..], 0, AEMB_RING_CAP) == aemb[..];
      ScatterRows(aemb, 0, AEMB_RING_CAP, start, rows);
      assert aemb[..] == aemb[0..AEMB_RING_CAP];
      forall g | start <= g < start + run
        ensures aemb[..][g % 256] == k.adapter(enc.outRing[4 * g % 256], enc.outRing[(4 * g + 1) % 256],
                                               enc.outRing[(4 * g + 2) % 256], enc.outRing[(4 * g + 3) % 256])
      {
        AdaptedLands(k, enc.outRing[..], old(aemb[..]), start, run, g);
      }
    }

    /** Commit n groups in runs of 32, then one by one. */
    method AdapterCommit(start: nat, n: nat) returns (ok: bool)
      requires Config() && n <= AEMB_RING_CAP
      modifies aemb, this`faulted
      ensures faulted == (old(faulted) || !ok)
      ensures ok ==> aemb[..] == Written(old(aemb[..]), start, Adapted(k, enc.outRing[..], start, start + n))
    {
      hide Written, Adapted, AdaptedRow;
      ghost var ring, rows := aemb[..], Adapted(k, enc.outRing[..], start, start + n);
      var done := 0;
      NothingWritten(ring, start, rows);
      while done < n
        invariant done <= n && faulted == old(faulted)
        invariant aemb[..] == Written(ring, start, rows[..done])
      {
        var run := if n - done >= 32 then 32 else 1;
        var status: bool := *;
        if !status {
          faulted := true;
          return false;
        }
        AdapterRun(start + done, run);
        AdaptedSlice(k, enc.outRing[..], start, start + done, start + done + run, start + n);
        WrittenTwice(ring, start, rows[..done], rows[done..done + run]);
        assert rows[..done] + rows[done..done + run] == rows[..done + run];
        done := done + run;
      }
      assert rows[..done] == rows;
      ok := true;
    }

    /** Commit every complete group the embedding ring has room for. */
    method CommitGroups() returns (ok: bool)
      requires Sound() && enc.OutputInv() && (intact ==> RingSafe())
      modifies this`d, this`intact, this`faulted, aemb
      ensures Sound() && d == old(d).(groups := d.groups) && faulted == (old(faulted) || !ok)
      ensures old(d).groups <= d.groups
      ensures if ok then d.groups == Min(enc.emitted / DOWNSAMPLE, Floor(d) + AEMB_RING_CAP) && intact == old(intact)
              else d == old(d) && !intact
    {
      var committable := Min(enc.emitted / DOWNSAMPLE, Floor(d) + AEMB_RING_CAP);
      ok := true;
      if committable > d.groups {
        ok := CommitUpTo(committable);
      }
    }

    /** While the ring has not been lapped, the adapter reads the true frames. */
    lemma TrueEmbeddings(lo: nat, hi: nat)
      requires Config() && enc.OutputInv() && lo <= hi && 4 * hi <= enc.emitted <= 4 * lo + ENC_OUT_RING_CAP
      ensures Adapted(k, enc.outRing[..], lo, hi) == Embs(k, enc.mel, lo, hi)
    {
      hide Resident, Outputs;
      AdaptedIsEmbs(k, enc.mel, enc.outRing[..], enc.emitted, lo, hi);
    }

    method CommitUpTo(groups: nat) returns (ok: bool)
      requires Core() && enc.OutputInv() && (intact ==> enc.emitted <= 4 * d.groups + ENC_OUT_RING_CAP)
      requires d.groups <= groups <= Floor(d) + AEMB_RING_CAP && 4 * groups <= enc.emitted
      modifies this`d, this`intact, this`faulted, aemb
      ensures Core() && faulted == (old(faulted) || !ok)
      ensures if ok then d == old(d).(groups := groups) && intact == old(intact) else d == old(d) && !intact
    {
      hide Books, Throttled, Faithful, EncoderKv.OutputInv, Written, Adapted, Embs;
      ghost var ring, before := aemb[..], d.groups;
      CommitKeeps(k, maxTokens, d, groups, outs, enc.emitted);
      ok := AdapterCommit(d.groups, groups - d.groups);
      if !ok {
        intact := false;
        return;
      }
      if intact {
        TrueEmbeddings(before, groups);
        FaithfulCommits(k, enc.mel, d, groups, ring, outs);
      }
      d := d.(groups := groups);
    }

    // ---- decoder ---------------------------------------------------------------------------------------

    method PromptInputs() returns (kv: seq<DecInput>)
      requires aemb.Length == AEMB_RING_CAP
      ensures |kv| == PREFILL_LEN && forall j :: 0 <= j < PREFILL_LEN ==> kv[j] == DecInput(PromptToken(j), aemb[..PREFILL_LEN][j])
    {
      kv := [];
      for i := 0 to PREFILL_LEN
        invariant |kv| == i && forall j :: 0 <= j < i ==> kv[j] == DecInput(PromptToken(j), aemb[..PREFILL_LEN][j])
      {
        kv := kv + [DecInput(PromptToken(i), aemb[i % AEMB_RING_CAP])];
      }
    }

    /** Decoder prefill over all but the last prompt token. */
    method Prefill() returns (ok: bool)
      requires Sound() && !d.prefilled && d.groups >= PREFILL_LEN
      modifies this`d, this`intact, this`faulted
      ensures Sound() && faulted == (old(faulted) || !ok)
      ensures if ok then d == Prefilled(old(d), aemb[..PREFILL_LEN]) && intact == old(intact) else d == old(d) && !intact
      ensures ok ==> d.prefilled && d.position == |d.kv| == 38 && d.prevToken == 32 && d.kv[0] == DecInput(1, aemb[0])
      ensures ok ==> forall i :: 1 <= i < 38 ==> d.kv[i] == DecInput(32, aemb[i])
    {
      ok := *;
      if !ok {
        intact, faulted := false, true;
        return;
      }
      ghost var was, audio := d, aemb[..PREFILL_LEN];
      var kv := PromptInputs();
      d := d.(kv := kv, prefilled := true, position := PREFILL_LEN, prevToken := PromptToken(PREFILL_LEN));
      assert d.kv == Prefilled(was, audio).kv;
      assert Core() by {
        PrefillKeeps(k, maxTokens, was, outs, audio);
        if intact {
          assert aemb[..][..PREFILL_LEN] == audio;
          PrefillIsFaithful(k, enc.mel, was, aemb[..], outs);
        }
      }
    }

    /** Run the decoder at its next position; the output is stashed until its event is delivered. */
    method Step() returns (ok: bool)
      requires Sound() && d.prefilled && d.pending.NoToken? && !Halted(d, maxTokens) && d.position < d.groups
      modifies this`d, this`intact, this`faulted, this`outs
      ensures faulted == (old(faulted) || !ok)
      ensures Sound() && Committed(d, outs) == old(Committed(d, outs)) && Standing() == old(Standing())
      ensures if ok then d == Stepped(k, old(d), aemb[old(d).position % AEMB_RING_CAP]) && intact == old(intact)
              else d == old(d) && !intact && outs == old(outs)
      ensures ok ==>
        && d.kv == old(d).kv + [DecInput(old(d).prevToken, aemb[old(d).position % 256])]
        && d.position == old(d).position && d.tokens == old(d).tokens
        && d.pending.Stashed? && d.pending.position == old(d).position && d.pending.token == k.decode(d.kv)
        && (d.pending.special <==> d.pending.token in {1, 2, 32}) && outs == old(outs) + [k.decode(d.kv)]
    {
      ok := *;
      if !ok {
        intact, faulted := false, true;
        return;
      }
      StepKeeps(k, maxTokens, d, outs, aemb[d.position % AEMB_RING_CAP]);
      if intact {
        StepIsFaithful(k, maxTokens, enc.mel, d, aemb[..], outs);
      }
      d := d.(kv := d.kv + [DecInput(d.prevToken, aemb[d.position % AEMB_RING_CAP])]);
      var token := k.decode(d.kv);
      d := d.(steps := d.steps + 1, pending := Stashed(token, d.position, Special(token)));
      outs := outs + [token];
    }

    // ---- events ----------------------------------------------------------------------------------------

    /** Enqueue the TOKEN event of the stashed output; its id is taken only when it fits. */
    method EmitTokenEvent(token: int, position: nat, special: bool) returns (ok: bool)
      requires eq.Valid()
      modifies this`d, eq`queue, eq`overflowed
      ensures eq.Valid() && ok == (old(|eq.queue|) < eq.Bound())
      ensures d == if ok then old(d).(sequence := old(d).sequence + 1) else old(d)
      ensures eq.queue == if !ok then old(eq.queue) else
                old(eq.queue) + [Token(token, k.piece(token), special, old(d).sequence + 1, position, AudioEndSample(position))]
    {
      ok := eq.PushEventCoalesced(Token(token, k.piece(token), special, d.sequence + 1, position, AudioEndSample(position)));
      if ok {
        d := d.(sequence := d.sequence + 1);
      }
    }

    /** Append the bytes of a token to the transcript and refresh its stable prefix. */
    method AppendTokenToPartial(token: int)
      modifies this`d
      ensures d == old(d).(partialText := d.partialText, stableBytes := d.stableBytes)
      ensures d.partialText == old(d).partialText + k.piece(token) && d.stableBytes == Utf8.StableLen(d.partialText)
    {
      d := d.(partialText := d.partialText + k.piece(token));
      var stable := Utf8.StablePrefix(d.partialText);
      d := d.(stableBytes := stable);
    }

    /** Enqueue a replaceable snapshot of the transcript. */
    method EmitPartialTextEvent(position: nat)
      requires eq.Valid()
      modifies this`d, eq`queue, eq`overflowed
      ensures eq.Valid() && d == old(d).(revision := old(d).revision + 1)
      ensures eq.queue == PartialPushed(old(eq.queue), eq.Bound(), eq.aggressive,
                PartialText(d.partialText, d.revision, d.stableBytes, AudioEndSample(position)))
    {
      d := d.(revision := d.revision + 1);
      var _ := eq.PushEventCoalesced(PartialText(d.partialText, d.revision, d.stableBytes, AudioEndSample(position)));
    }

    /** Deliver the stashed output; when its mandatory event does not fit, nothing changes. */
    method Deliver() returns (ok: bool)
      requires eq.Valid() && d.pending.Stashed?
      modifies this`d, eq`queue, eq`overflowed
      ensures eq.Valid() && ok == (old(|eq.queue|) < eq.Bound())
      ensures d == if ok then Delivered(k, old(d)) else old(d)
      ensures eq.queue == if ok then QueueAfter(k, old(d), old(eq.queue), eq.Bound(), eq.aggressive) else old(eq.queue)
    {
      hide PartialPushed, Utf8.StableLen;
      var token, position := d.pending.token, d.pending.position;
      ok := EmitTokenEvent(token, position, d.pending.special);
      if !ok {
        return;
      }
      d := d.(pending := NoToken);
      if token == TOKEN_EOS {
        d := d.(eos := true);
      } else {
        JoinTranscript(token, position);
      }
    }

    /** A delivered token other than EOS: history, transcript, snapshot, next position. */
    method JoinTranscript(token: int, position: nat)
      requires eq.Valid()
      modifies this`d, eq`queue, eq`overflowed
      ensures eq.Valid() && d == Joined(k, old(d), token)
      ensures eq.queue == PartialPushed(old(eq.queue), eq.Bound(), eq.aggressive, SnapshotEvent(d, position))
    {
      d := d.(tokens := d.tokens + [token]);
      AppendTokenToPartial(token);
      EmitPartialTextEvent(position);
      d := d.(tokensEmitted := d.tokensEmitted + 1);
      d := d.(prevToken := token);
      d := d.(position := d.position + 1);
    }

    /** Deliver a stashed output if there is one; otherwise raise backpressure and never re-run its step. */
    method CommitPending() returns (ok: bool)
      requires Sound() && d.prefilled
      modifies this`d, eq`queue, eq`overflowed, eq`backpressured
      ensures Sound()
      ensures ok == (old(d).pending.NoToken? || old(|eq.queue|) < eq.Bound())
      ensures d == if ok && old(d).pending.Stashed? then Delivered(k, old(d)) else old(d)
      ensures Terminals(eq.polled + eq.queue) == old(Terminals(eq.polled + eq.queue))
      ensures Growth(old(Standing()), Standing(), eq.Bound(), eq.aggressive)
      ensures !ok ==> eq.backpressured && eq.queue == old(eq.queue)
      ensures ok ==> eq.backpressured == old(eq.backpressured)
      ensures ok && old(d).pending.Stashed? ==> |Standing().committed| > |old(Standing()).committed|
    {
      hide Shows, Faithful, Books, Throttled, Terminals, QueueAfter, Growth, Delivered;
      GrowthNone(Standing(), eq.Bound(), eq.aggressive);
      if d.pending.NoToken? {
        return true;
      }
      ghost var was, queued := d, eq.queue;
      ok := Deliver();
      if !ok {
        eq.backpressured := true;
        return;
      }
      DeliveryDone(k, maxTokens, enc.mel, was, aemb[..], outs, enc.emitted, eq.polled, queued, eq.Bound(), eq.aggressive);
    }

    // ---- one pass --------------------------------------------------------------------------------------

    /** Outputs are only ever added to what has been shown, at the pace of the queue. */
    twostate predicate Advanced()
      reads this`d, this`outs, eq`queue, eq`polled, eq`maxEvents, eq`finalizingFlush, eq`aggressive
    {
      && Growth(old(Standing()), Standing(), eq.Bound(), eq.aggressive)
      && Terminals(eq.polled + eq.queue) == old(Terminals(eq.polled + eq.queue))
    }

    /** The decoder holds a token the queue has no room for. */
    ghost predicate Stalled()
      reads this`d, eq`queue, eq`maxEvents, eq`finalizingFlush, eq`backpressured
    {
      d.pending.Stashed? && eq.backpressured && |eq.queue| >= eq.Bound()
    }

    /** Step and deliver while audio positions are available. */
    method RunSteps() returns (r: Status)
      requires Sound() && d.prefilled && d.pending.NoToken? && !eq.backpressured
      modifies this`d, this`intact, this`faulted, this`outs, eq`queue, eq`overflowed, eq`backpressured
      ensures faulted == (old(faulted) || r == BackendError)
      ensures Sound() && Advanced() && d.prefilled && d.groups == old(d).groups
      ensures match r
        case Ok => d.pending.NoToken? && !eq.backpressured && (Halted(d, maxTokens) || d.position == d.groups) && intact == old(intact)
        case LimitExceeded => Stalled() && intact == old(intact)
        case BackendError => !intact && !eq.backpressured
        case _ => false
    {
      hide Sound, Terminals, Growth, Standing;
      ghost var start := Standing();
      GrowthNone(start, eq.Bound(), eq.aggressive);
      Bounds();
      while d.position < d.groups && !Halted(d, maxTokens)
        invariant Sound() && d.prefilled && d.pending.NoToken? && !eq.backpressured
        invariant Advanced() && d.groups == old(d).groups && intact == old(intact)
        invariant d.position <= d.groups && faulted == old(faulted)
        decreases d.groups - d.position, !d.eos
      {
        ghost var mid := Standing();
        var ok := Step();
        if !ok {
          return BackendError;
        }
        ok := CommitPending();
        GrowthOn(start, mid, Standing(), eq.Bound(), eq.aggressive);
        if !ok {
          return LimitExceeded;
        }
        Bounds();
      }
      r := Ok;
    }

    method ClearBackpressure()
      requires Sound()
      modifies eq`backpressured
      ensures Sound() && !eq.backpressured && Standing() == old(Standing())
    {
      eq.backpressured := false;
    }

    /** Flush a stashed token before any new work, then step. */
    method DecodeReady() returns (r: Status)
      requires Sound() && d.prefilled
      modifies this`d, this`intact, this`faulted, this`outs, eq`queue, eq`overflowed, eq`backpressured
      ensures faulted == (old(faulted) || r == BackendError)
      ensures Sound() && Advanced() && d.prefilled && d.groups == old(d).groups
      ensures match r
        case Ok => d.pending.NoToken? && !eq.backpressured && (Halted(d, maxTokens) || d.position == d.groups) && intact == old(intact)
        case LimitExceeded => Stalled() && intact == old(intact)
        case BackendError => !intact && !eq.backpressured
        case _ => false
      ensures r != BackendError && old(d).pending.Stashed? && old(|eq.queue|) < eq.Bound() ==>
        |Standing().committed| > |old(Standing()).committed|
    {
      hide Sound, Terminals, Growth, HasPartial;
      var ok := CommitPending();
      if !ok {
        return LimitExceeded;
      }
      ClearBackpressure();
      r := Ok;
      if !d.eos {
        ghost var mid := Standing();
        r := RunSteps();
        GrowthOn(old(Standing()), mid, Standing(), eq.Bound(), eq.aggressive);
        GrowthOnly(mid, Standing(), eq.Bound(), eq.aggressive);
      }
    }

    /** Commit what the rings have room for, and prefill the decoder once its prompt is covered. */
    method Prepare() returns (ok: bool)
      requires Sound() && enc.OutputInv() && (intact ==> RingSafe())
      modifies this`d, this`intact, this`faulted, aemb
      ensures Sound() && Standing() == old(Standing()) && faulted == (old(faulted) || !ok) && old(d).groups <= d.groups
      ensures d.pending == old(d).pending && (old(d).prefilled ==> d.prefilled && d.position == old(d).position)
      ensures if ok then
                && d.groups == Min(enc.emitted / DOWNSAMPLE, Floor(old(d)) + AEMB_RING_CAP) && intact == old(intact)
                && (d.prefilled <==> old(d).prefilled || d.groups >= 38)
              else !intact
    {
      hide Sound, Terminals, HasPartial;
      ok := CommitGroups();
      if ok && !d.prefilled && d.groups >= PROMPT_LEN - 1 {
        ok := Prefill();
      }
    }

    /** One scheduler pass. It ends settled, or stalled on a full queue with the undelivered token stashed, or
        with a device failure; a stalled pass that finds room always delivers at least the stashed token. */
    method Pump() returns (r: Status)
      requires Valid() && enc.OutputInv() && (intact ==> RingSafe())
      modifies this`d, this`intact, this`faulted, this`outs, aemb, eq`queue, eq`overflowed, eq`backpressured
      ensures faulted == (old(faulted) || r == BackendError)
      ensures Valid() && Advanced() && old(d).groups <= d.groups
      ensures r != BackendError ==>
        && intact == old(intact)
        && d.groups == Min(enc.emitted / 4, (if old(d).prefilled then old(d).position else 0) + 256)
      ensures match r
        case Ok => Settled(d, maxTokens) && !eq.backpressured
        case LimitExceeded => Stalled()
        case BackendError => !intact
        case _ => false
      ensures r != BackendError && old(d).pending.Stashed? && old(|eq.queue|) < eq.Bound() ==>
        |Standing().committed| > |old(Standing()).committed|
    {
      hide Sound, Terminals, Growth, Standing;
      GrowthNone(Standing(), eq.Bound(), eq.aggressive);
      var ok := Prepare();
      if !ok {
        return BackendError;
      }
      Bounds();
      r := Ok;
      if d.prefilled {
        r := DecodeReady();
      }
    }
  }

  lemma NothingWritten<T>(ring: seq<T>, start: nat, data: seq<T>)
    requires 0 < |ring|
    ensures Written(ring, start, data[..0]) == ring
  {
  }

  /** Two writes in a row are one write. */
  lemma WrittenTwice<T>(ring: seq<T>, start: nat, a: seq<T>, b: seq<T>)
    requires 0 < |ring| && |a| + |b| <= |ring|
    ensures Written(Written(ring, start, a), start + |a|, b) == Written(ring, start, a + b)
  {
    var cap := |ring|;
    var first := Written(ring, start, a);
    var w, once := Written(first, start + |a|, b), Written(ring, start, a + b);
    forall s {:trigger w[s]} | 0 <= s < cap
      ensures w[s] == once[s]
    {
      LandsLater(start, |a|, s, cap);
      var i, j := Lands(start, s, cap), Lands(start + |a|, s, cap);
      assert w[s] == if j < |b| then b[j] else first[s];
      assert first[s] == if i < |a| then a[i] else ring[s];
    }
  }

  lemma LandsLater(start: nat, n: nat, s: nat, cap: nat)
    requires n <= cap && s < cap
    ensures Lands(start, s, cap) == (if Lands(start + n, s, cap) < cap - n then Lands(start + n, s, cap) + n
                                     else Lands(start + n, s, cap) + n - cap)
  {
    if n < cap {
      ModInRange(start, start + n, cap);
    } else {
      ModUnique(start + n, start / cap + 1, start % cap, cap);
    }
  }
}
