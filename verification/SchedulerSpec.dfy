/** What the incremental adapter and decoder must have produced, as predicates over plain values. */
module SchedulerSpec {
  import opened Kernels
  import opened RingMath
  import opened DeviceRing
  import opened EncoderSpec
  import opened EncoderKv
  import opened Reference
  import opened Events
  import Utf8

  // ---- audio embeddings ----------------------------------------------------------------------------------

  /** Audio embeddings of groups [lo, hi). */
  function Embs(k: Kernels, mel: seq<MelFrame>, lo: nat, hi: nat): (r: seq<AudioEmb>)
    requires lo <= hi
    ensures |r| == hi - lo
  {
    seq(hi - lo, i requires 0 <= i < hi - lo => Emb(k, mel, lo + i))
  }

  lemma EmbsSplit(k: Kernels, mel: seq<MelFrame>, g: nat, h: nat)
    requires g <= h
    ensures Embs(k, mel, 0, h) == Embs(k, mel, 0, g) + Embs(k, mel, g, h)
  {
  }

  /** The embedding of group g is the adapter over the normalised last-layer rows of frames 4g, 4g+1, 4g+2, 4g+3. */
  lemma EmbsRead(k: Kernels, mel: seq<MelFrame>, g: nat, groups: nat)
    requires g < groups
    ensures Embs(k, mel, 0, groups)[g] ==
            k.adapter(k.norm(Hid(k, mel, k.layers, 4 * g)), k.norm(Hid(k, mel, k.layers, 4 * g + 1)),
                      k.norm(Hid(k, mel, k.layers, 4 * g + 2)), k.norm(Hid(k, mel, k.layers, 4 * g + 3)))
  {
    assert Embs(k, mel, 0, groups)[g] == Emb(k, mel, g);
  }

  /** Embeddings of committed groups do not change when more Mel frames arrive. */
  lemma EmbsGrow(k: Kernels, mel: seq<MelFrame>, more: seq<MelFrame>, g: nat)
    requires 8 * g <= |mel|
    ensures Embs(k, mel + more, 0, g) == Embs(k, mel, 0, g)
  {
    forall i {:trigger Embs(k, mel, 0, g)[i]} | 0 <= i < g
      ensures Embs(k, mel + more, 0, g)[i] == Embs(k, mel, 0, g)[i]
    {
      EmbPrefix(k, mel, more, i);
    }
  }

  // ---- adapter -------------------------------------------------------------------------------------------

  /** Embedding of a group from whatever the encoder ring holds at the slots of its four frames. */
  function AdaptedRow(k: Kernels, ring: seq<Hidden>, g: nat): AudioEmb
    requires |ring| == ENC_OUT_RING_CAP
  {
    k.adapter(ring[4 * g % ENC_OUT_RING_CAP], ring[(4 * g + 1) % ENC_OUT_RING_CAP],
              ring[(4 * g + 2) % ENC_OUT_RING_CAP], ring[(4 * g + 3) % ENC_OUT_RING_CAP])
  }

  function Adapted(k: Kernels, ring: seq<Hidden>, lo: nat, hi: nat): (r: seq<AudioEmb>)
    requires |ring| == ENC_OUT_RING_CAP && lo <= hi
    ensures |r| == hi - lo
  {
    seq(hi - lo, i requires 0 <= i < hi - lo => AdaptedRow(k, ring, lo + i))
  }

  lemma AdaptedSlice(k: Kernels, ring: seq<Hidden>, lo: nat, a: nat, b: nat, hi: nat)
    requires |ring| == ENC_OUT_RING_CAP && lo <= a <= b <= hi
    ensures Adapted(k, ring, a, b) == Adapted(k, ring, lo, hi)[a - lo..b - lo]
  {
  }

  /** The embedding of group g lands in slot g % 256, from the four slots of its frames. */
  lemma AdaptedLands(k: Kernels, ring: seq<Hidden>, aemb: seq<AudioEmb>, start: nat, run: nat, g: nat)
    requires |ring| == 256 && |aemb| == 256 && run <= 256 && start <= g < start + run
    ensures Written(aemb, start, Adapted(k, ring, start, start + run))[g % 256] ==
            k.adapter(ring[4 * g % 256], ring[(4 * g + 1) % 256], ring[(4 * g + 2) % 256], ring[(4 * g + 3) % 256])
  {
    hide Written;
    WrittenAt(aemb, start, Adapted(k, ring, start, start + run), g - start);
  }

  /** While the encoder is at most a ring ahead of the first group, the adapter reads the true frames. */
  lemma AdaptedIsEmbs(k: Kernels, mel: seq<MelFrame>, ring: seq<Hidden>, emitted: nat, lo: nat, hi: nat)
    requires |ring| == ENC_OUT_RING_CAP && lo <= hi && 4 * hi <= emitted <= 4 * lo + ENC_OUT_RING_CAP
    requires Resident(ring, Outputs(k, mel, 0, emitted), Max(0, emitted - ENC_OUT_RING_CAP))
    ensures Adapted(k, ring, lo, hi) == Embs(k, mel, lo, hi)
  {
    forall g | lo <= g < hi
      ensures AdaptedRow(k, ring, g) == Emb(k, mel, g)
    {
      var all := Outputs(k, mel, 0, emitted);
      assert all[4 * g] == Enc(k, mel, 4 * g) && all[4 * g + 1] == Enc(k, mel, 4 * g + 1);
      assert all[4 * g + 2] == Enc(k, mel, 4 * g + 2) && all[4 * g + 3] == Enc(k, mel, 4 * g + 3);
    }
  }

  // ---- decoder state -------------------------------------------------------------------------------------

  datatype Pending = NoToken | Stashed(token: int, position: nat, special: bool)

  /** The adapter and decoder part of the stream state. */
  datatype Decoder = Decoder(
    groups: nat,               // adapter groups committed
    prefilled: bool,
    prevToken: int,
    position: nat,             // next decoder position
    steps: nat,
    tokensEmitted: nat,
    eos: bool,
    sequence: nat,             // last TOKEN sequence id
    revision: nat,             // last PARTIAL_TEXT revision
    partialText: seq<bv8>,
    stableBytes: nat,
    pending: Pending,          // a step that ran but whose TOKEN did not fit
    tokens: seq<int>,
    kv: seq<DecInput>)         // decoder history

  const START := Decoder(0, false, 0, 0, 0, 0, false, 0, 0, [], 0, NoToken, [], [])

  /** Outputs whose TOKEN event has been accepted. */
  function Committed(d: Decoder, outs: seq<int>): seq<int> {
    if d.pending.Stashed? && outs != [] then outs[..|outs| - 1] else outs
  }

  predicate Halted(d: Decoder, maxTokens: int) {
    d.eos || (maxTokens > 0 && |d.tokens| >= maxTokens)
  }

  function Floor(d: Decoder): nat {
    if d.prefilled then d.position else 0
  }

  /** Tokens of the committed outputs: everything but a final EOS. */
  ghost predicate TokenHistory(tokens: seq<int>, eos: bool, committed: seq<int>) {
    && TOKEN_EOS !in tokens
    && committed == if eos then tokens + [TOKEN_EOS] else tokens
  }

  /** Counters, token history and transcript all describe the committed outputs; the stashed token is the newest
      output, at the position that has not advanced past it. */
  ghost predicate Books(k: Kernels, maxTokens: int, d: Decoder, outs: seq<int>) {
    && TokenHistory(d.tokens, d.eos, Committed(d, outs))
    && d.tokensEmitted == d.revision == |d.tokens| && d.sequence == |Committed(d, outs)| && d.steps == |outs|
    && d.partialText == Text(k, d.tokens) && d.stableBytes == Utf8.StableLen(d.partialText)
    && (maxTokens > 0 ==> |outs| <= maxTokens)
    && (d.pending.Stashed? ==>
          && outs != [] && !d.eos
          && d.pending == Stashed(outs[|outs| - 1], PREFILL_LEN + |d.tokens|, Special(outs[|outs| - 1])))
    && if d.prefilled then
         && d.position == PREFILL_LEN + |d.tokens| && PREFILL_LEN + |outs| <= d.groups
         && d.prevToken == InputToken(d.tokens, d.position)
       else
         d.position == 0 && outs == []
  }

  /** Groups are complete when committed, and the throttle keeps unread embeddings in their ring. */
  predicate Throttled(d: Decoder, emitted: nat) {
    4 * d.groups <= emitted && d.groups <= Floor(d) + AEMB_RING_CAP
  }

  /** Nothing is left to do for the audio encoded so far. */
  predicate Settled(d: Decoder, maxTokens: int) {
    && d.pending.NoToken?
    && (d.prefilled <==> d.groups >= PREFILL_LEN)
    && (d.prefilled ==> Halted(d, maxTokens) || d.position == d.groups)
  }

  /** The embedding ring, the outputs and the decoder history are those of the uninterrupted decode. */
  ghost predicate Faithful(k: Kernels, mel: seq<MelFrame>, d: Decoder, ring: seq<AudioEmb>, outs: seq<int>) {
    var embs := Embs(k, mel, 0, d.groups);
    && |ring| == AEMB_RING_CAP && Resident(ring, embs, Max(0, d.groups - AEMB_RING_CAP))
    && (if d.prefilled then PREFILL_LEN + |outs| <= d.groups else outs == [])
    && outs == Outs(k, embs, |outs|)
    && (d.prefilled ==> d.kv == Inputs(embs, outs, PREFILL_LEN + |outs|))
  }

  lemma StartIsFaithful(k: Kernels, maxTokens: int, mel: seq<MelFrame>, ring: seq<AudioEmb>)
    requires |ring| == AEMB_RING_CAP
    ensures Faithful(k, mel, START, ring, []) && Books(k, maxTokens, START, [])
    ensures Settled(START, maxTokens) && Throttled(START, 0)
  {
  }

  /** A growing Mel stream leaves it as it is. */
  lemma FaithfulGrows(k: Kernels, mel: seq<MelFrame>, more: seq<MelFrame>, d: Decoder, ring: seq<AudioEmb>, outs: seq<int>)
    requires Faithful(k, mel, d, ring, outs) && 8 * d.groups <= |mel|
    ensures Faithful(k, mel + more, d, ring, outs)
  {
    EmbsGrow(k, mel, more, d.groups);
  }

  /** Committing more groups: the ring holds the newest, the decoder state is that of the longer sequence. */
  lemma FaithfulCommits(k: Kernels, mel: seq<MelFrame>, d: Decoder, groups: nat, ring: seq<AudioEmb>, outs: seq<int>)
    requires Faithful(k, mel, d, ring, outs) && d.groups <= groups <= d.groups + AEMB_RING_CAP
    ensures Faithful(k, mel, d.(groups := groups), Written(ring, d.groups, Embs(k, mel, d.groups, groups)), outs)
  {
    var embs, more := Embs(k, mel, 0, d.groups), Embs(k, mel, d.groups, groups);
    EmbsSplit(k, mel, d.groups, groups);
    WrittenResident(ring, embs, more, Max(0, d.groups - AEMB_RING_CAP), Max(0, groups - AEMB_RING_CAP));
    OutsPrefix(k, embs, more, |outs|);
    if d.prefilled {
      assert Inputs(embs, outs, PREFILL_LEN + |outs|) == Inputs(embs + more, outs, PREFILL_LEN + |outs|);
    }
  }

  lemma CommitKeeps(k: Kernels, maxTokens: int, d: Decoder, groups: nat, outs: seq<int>, emitted: nat)
    requires Books(k, maxTokens, d, outs) && d.groups <= groups <= Floor(d) + AEMB_RING_CAP && 4 * groups <= emitted
    ensures Books(k, maxTokens, d.(groups := groups), outs) && Throttled(d.(groups := groups), emitted)
    ensures groups <= d.groups + AEMB_RING_CAP
  {
  }

  /** The embedding of an unread position is still in its slot. */
  lemma UnreadEmbedding(k: Kernels, mel: seq<MelFrame>, d: Decoder, ring: seq<AudioEmb>, outs: seq<int>, p: nat)
    requires Faithful(k, mel, d, ring, outs) && Floor(d) <= p < d.groups <= Floor(d) + AEMB_RING_CAP
    ensures ring[p % AEMB_RING_CAP] == Emb(k, mel, p)
  {
    assert Embs(k, mel, 0, d.groups)[p] == Emb(k, mel, p);
  }

  // ---- one decoder step ----------------------------------------------------------------------------------

  /** The decoder after it has run at its next position with the embedding `audio`. */
  function Stepped(k: Kernels, d: Decoder, audio: AudioEmb): Decoder {
    var kv := d.kv + [DecInput(d.prevToken, audio)];
    var token := k.decode(kv);
    d.(kv := kv, steps := d.steps + 1, pending := Stashed(token, d.position, Special(token)))
  }

  lemma StepKeeps(k: Kernels, maxTokens: int, d: Decoder, outs: seq<int>, audio: AudioEmb)
    requires Books(k, maxTokens, d, outs) && d.prefilled && d.pending.NoToken? && !Halted(d, maxTokens)
    requires d.position < d.groups
    ensures var d' := Stepped(k, d, audio);
            && Books(k, maxTokens, d', outs + [d'.pending.token])
            && Committed(d', outs + [d'.pending.token]) == Committed(d, outs)
  {
    var d' := Stepped(k, d, audio);
    assert (outs + [d'.pending.token])[..|outs|] == outs;
  }

  /** A step fed the last output and the true embedding of its position is a step of the uninterrupted decode. */
  lemma StepIsFaithful(k: Kernels, maxTokens: int, mel: seq<MelFrame>, d: Decoder, ring: seq<AudioEmb>, outs: seq<int>)
    requires Faithful(k, mel, d, ring, outs) && Books(k, maxTokens, d, outs)
    requires d.prefilled && d.pending.NoToken? && !d.eos && d.position < d.groups <= d.position + AEMB_RING_CAP
    ensures var d' := Stepped(k, d, ring[d.position % AEMB_RING_CAP]);
            Faithful(k, mel, d', ring, outs + [d'.pending.token])
  {
    var n := PREFILL_LEN + |outs|;
    UnreadEmbedding(k, mel, d, ring, outs, n);
    var embs := Embs(k, mel, 0, d.groups);
    var d' := Stepped(k, d, ring[n % AEMB_RING_CAP]);
    var next := outs + [d'.pending.token];
    InputsStep(embs, outs, d'.pending.token);
    assert Outs(k, embs, |outs| + 1) == next;
  }

  // ---- prefill -------------------------------------------------------------------------------------------

  /** The decoder after its prompt: the first 38 tokens, each with the embedding of its position. */
  function Prefilled(d: Decoder, audio: seq<AudioEmb>): Decoder
    requires |audio| == PREFILL_LEN
  {
    d.(kv := seq(PREFILL_LEN, i requires 0 <= i < PREFILL_LEN => DecInput(PromptToken(i), audio[i])),
       prefilled := true, position := PREFILL_LEN, prevToken := PromptToken(PREFILL_LEN))
  }

  lemma PrefillKeeps(k: Kernels, maxTokens: int, d: Decoder, outs: seq<int>, audio: seq<AudioEmb>)
    requires Books(k, maxTokens, d, outs) && !d.prefilled && PREFILL_LEN <= d.groups && |audio| == PREFILL_LEN
    ensures Books(k, maxTokens, Prefilled(d, audio), outs)
  {
  }

  lemma PrefillIsFaithful(k: Kernels, mel: seq<MelFrame>, d: Decoder, ring: seq<AudioEmb>, outs: seq<int>)
    requires Faithful(k, mel, d, ring, outs) && !d.prefilled && PREFILL_LEN <= d.groups <= AEMB_RING_CAP
    ensures Faithful(k, mel, Prefilled(d, ring[..PREFILL_LEN]), ring, outs)
  {
    forall i | 0 <= i < PREFILL_LEN
      ensures ring[i] == Emb(k, mel, i)
    {
      UnreadEmbedding(k, mel, d, ring, outs, i);
    }
    assert Prefilled(d, ring[..PREFILL_LEN]).kv == Inputs(Embs(k, mel, 0, d.groups), [], PREFILL_LEN);
  }

  // ---- delivering a stashed token ------------------------------------------------------------------------

  /** The transcript joined by one more token. */
  function Joined(k: Kernels, d: Decoder, token: int): Decoder {
    var text := d.partialText + k.piece(token);
    d.(tokens := d.tokens + [token], partialText := text, stableBytes := Utf8.StableLen(text),
       revision := d.revision + 1, tokensEmitted := d.tokensEmitted + 1, prevToken := token, position := d.position + 1)
  }

  /** Bookkeeping of a delivered output: EOS ends the decode, anything else joins the transcript. */
  function Delivered(k: Kernels, d: Decoder): Decoder
    requires d.pending.Stashed?
  {
    var next := d.(pending := NoToken, sequence := d.sequence + 1);
    if d.pending.token == TOKEN_EOS then next.(eos := true) else Joined(k, next, d.pending.token)
  }

  /** The stashed token is the only output not committed yet. */
  lemma StashedLast(k: Kernels, maxTokens: int, d: Decoder, outs: seq<int>)
    requires Books(k, maxTokens, d, outs) && d.prefilled && d.pending.Stashed?
    ensures outs == Committed(d, outs) + [d.pending.token] && d.tokens == Committed(d, outs)
  {
    hide Text, InputToken, Utf8.StableLen;
  }

  lemma EosKeeps(k: Kernels, maxTokens: int, d: Decoder, outs: seq<int>)
    requires Books(k, maxTokens, d, outs) && d.prefilled && d.pending.Stashed? && d.pending.token == TOKEN_EOS
    ensures Books(k, maxTokens, Delivered(k, d), outs) && Committed(Delivered(k, d), outs) == outs
  {
    hide Text, InputToken, Utf8.StableLen;
    StashedLast(k, maxTokens, d, outs);
  }

  lemma TextJoins(k: Kernels, tokens: seq<int>, token: int)
    ensures Text(k, tokens + [token]) == Text(k, tokens) + k.piece(token)
  {
    assert (tokens + [token])[..|tokens|] == tokens;
  }

  lemma JoinKeeps(k: Kernels, maxTokens: int, d: Decoder, outs: seq<int>)
    requires Books(k, maxTokens, d, outs) && d.prefilled && d.pending.Stashed? && d.pending.token != TOKEN_EOS
    ensures Books(k, maxTokens, Delivered(k, d), outs) && Committed(Delivered(k, d), outs) == outs
  {
    hide Text, Utf8.StableLen;
    StashedLast(k, maxTokens, d, outs);
    TextJoins(k, d.tokens, d.pending.token);
  }

  lemma DeliveryKeeps(k: Kernels, maxTokens: int, d: Decoder, outs: seq<int>)
    requires Books(k, maxTokens, d, outs) && d.prefilled && d.pending.Stashed?
    ensures Books(k, maxTokens, Delivered(k, d), outs)
    ensures Committed(Delivered(k, d), outs) == Committed(d, outs) + [d.pending.token] == outs
  {
    hide Books, Delivered, Committed;
    StashedLast(k, maxTokens, d, outs);
    if d.pending.token == TOKEN_EOS {
      EosKeeps(k, maxTokens, d, outs);
    } else {
      JoinKeeps(k, maxTokens, d, outs);
    }
  }

  lemma DeliveryIsFaithful(k: Kernels, maxTokens: int, mel: seq<MelFrame>, d: Decoder, ring: seq<AudioEmb>, outs: seq<int>,
                           emitted: nat)
    requires Books(k, maxTokens, d, outs) && d.prefilled && d.pending.Stashed? && Throttled(d, emitted)
    ensures Throttled(Delivered(k, d), emitted)
    ensures Faithful(k, mel, d, ring, outs) ==> Faithful(k, mel, Delivered(k, d), ring, outs)
  {
  }

  // ---- keeping up ----------------------------------------------------------------------------------------

  /** Every complete group has been committed, unless decoding is over and the throttle holds. */
  predicate Current(d: Decoder, maxTokens: int, emitted: nat) {
    d.groups == emitted / DOWNSAMPLE || (Halted(d, maxTokens) && d.groups == Floor(d) + AEMB_RING_CAP)
  }

  /** Once decoding is over, later passes commit no output. */
  lemma HaltedStays(k: Kernels, maxTokens: int, d: Decoder, outs: seq<int>, d': Decoder, outs': seq<int>)
    requires Books(k, maxTokens, d, outs) && Books(k, maxTokens, d', outs') && d.pending.NoToken?
    requires Halted(d, maxTokens) && Committed(d, outs) <= Committed(d', outs')
    ensures d.prefilled && d'.prefilled && d'.tokens == d.tokens && Floor(d') == Floor(d) && Halted(d', maxTokens)
    ensures Committed(d', outs') == Committed(d, outs)
  {
    EosIsLast(d.tokens, d.eos, Committed(d, outs), d'.tokens, d'.eos, Committed(d', outs'));
    assert d.eos || |Committed(d', outs')| <= maxTokens <= |Committed(d, outs)|;
  }

  /** Nothing is committed behind an EOS. */
  lemma EosIsLast(t: seq<int>, eos: bool, c: seq<int>, t': seq<int>, eos': bool, c': seq<int>)
    requires TokenHistory(t, eos, c) && TokenHistory(t', eos', c') && c <= c'
    ensures eos || |c'| == |c| ==> c' == c && t' == t && eos' == eos
  {
    assert t == c[..|t|] && t' == c'[..|t'|];
    if c != [] {
      EosAt(t, eos, c, |c| - 1);
      EosAt(t', eos', c', |c| - 1);
    }
  }

  lemma EosAt(t: seq<int>, eos: bool, c: seq<int>, i: nat)
    requires TokenHistory(t, eos, c) && i < |c|
    ensures c[i] == TOKEN_EOS <==> eos && i == |c| - 1
  {
    if i < |t| {
      assert c[i] == t[i] && t[i] in t;
    }
  }

  /** After one slice the adapter still finds every unread frame in the encoder ring. */
  lemma SliceIsSafe(d: Decoder, maxTokens: int, emitted: nat, emitted': nat)
    requires Throttled(d, emitted) && Current(d, maxTokens, emitted) && emitted' <= emitted + 200
    ensures emitted' <= 4 * d.groups + ENC_OUT_RING_CAP || d.groups == Floor(d) + AEMB_RING_CAP
  {
  }

  /** A pass after one slice catches up again. */
  lemma PassIsCurrent(k: Kernels, maxTokens: int, d: Decoder, outs: seq<int>, d': Decoder, outs': seq<int>,
                      emitted: nat, emitted': nat)
    requires Books(k, maxTokens, d, outs) && Books(k, maxTokens, d', outs')
    requires Throttled(d, emitted) && Throttled(d', emitted') && Current(d, maxTokens, emitted)
    requires Committed(d, outs) <= Committed(d', outs') && emitted <= emitted' <= emitted + 200
    requires Settled(d, maxTokens) || (d.pending.Stashed? && emitted' == emitted)
    requires d'.groups == Min(emitted' / DOWNSAMPLE, Floor(d) + AEMB_RING_CAP)
    ensures Current(d', maxTokens, emitted')
  {
    if d.pending.NoToken? && Halted(d, maxTokens) {
      HaltedStays(k, maxTokens, d, outs, d', outs');
    }
  }

  /** Outputs delivered by one pass from a settled state: at most one per position not stepped before. */
  lemma PassGrowth(k: Kernels, maxTokens: int, d: Decoder, outs: seq<int>, d': Decoder, outs': seq<int>)
    requires Books(k, maxTokens, d, outs) && Books(k, maxTokens, d', outs') && Settled(d, maxTokens)
    requires Committed(d, outs) <= Committed(d', outs') && d.groups <= d'.groups
    ensures |Committed(d', outs')| - |Committed(d, outs)| <= Max(0, d'.groups - Max(PREFILL_LEN, d.groups))
    ensures Halted(d, maxTokens) ==> Committed(d', outs') == Committed(d, outs)
  {
    if Halted(d, maxTokens) {
      HaltedStays(k, maxTokens, d, outs, d', outs');
    }
  }

  /** A settled decoder that has kept up delivers no more outputs in a last pass than positions it was behind. */
  lemma TailGrowth(k: Kernels, maxTokens: int, d: Decoder, outs: seq<int>, d': Decoder, outs': seq<int>, e: nat, total: nat)
    requires Books(k, maxTokens, d, outs) && Books(k, maxTokens, d', outs') && Settled(d, maxTokens)
    requires Committed(d, outs) <= Committed(d', outs') && d.groups <= d'.groups
    requires Current(d, maxTokens, e) && Throttled(d', DOWNSAMPLE * total)
    ensures |Committed(d', outs')| - |Committed(d, outs)| <= Max(0, total - Max(PREFILL_LEN, e / DOWNSAMPLE))
  {
    PassGrowth(k, maxTokens, d, outs, d', outs');
  }

  /** A faithful run that can go no further has produced the tokens of the uninterrupted decode. */
  lemma HaltedIsDecoded(k: Kernels, maxTokens: int, mel: seq<MelFrame>, d: Decoder, ring: seq<AudioEmb>, outs: seq<int>,
                        total: nat)
    requires Faithful(k, mel, d, ring, outs) && Books(k, maxTokens, d, outs) && d.groups <= total
    requires d.prefilled && d.pending.NoToken? && PROMPT_LEN <= total
    requires Halted(d, maxTokens) || d.position == total
    ensures d.tokens == Decoded(k, Embs(k, mel, 0, total), maxTokens)
    ensures |outs| == Steps(k, Embs(k, mel, 0, total), maxTokens, 0)
  {
    hide Steps, Outs, Embs, Resident, Decoded;
    var embs := Embs(k, mel, 0, total);
    LongerAudio(k, mel, d, ring, outs, total);
    EosOnlyLast(k, maxTokens, d, outs);
    RunsOn(k, maxTokens, embs, outs);
    HaltsAtEnd(k, maxTokens, embs, d, outs);
    StepsUnique(k, embs, maxTokens, 0, |outs|);
    DecodedIs(k, maxTokens, embs, d, outs);
  }

  /** The outputs of a faithful run are those of the whole audio. */
  lemma LongerAudio(k: Kernels, mel: seq<MelFrame>, d: Decoder, ring: seq<AudioEmb>, outs: seq<int>, total: nat)
    requires Faithful(k, mel, d, ring, outs) && d.groups <= total && d.prefilled
    ensures PREFILL_LEN + |outs| <= total && outs == Outs(k, Embs(k, mel, 0, total), |outs|)
  {
    EmbsSplit(k, mel, d.groups, total);
    OutsPrefix(k, Embs(k, mel, 0, d.groups), Embs(k, mel, d.groups, total), |outs|);
  }

  /** No earlier output halted the decode. */
  lemma RunsOn(k: Kernels, maxTokens: int, embs: seq<AudioEmb>, outs: seq<int>)
    requires forall i :: 0 <= i < |outs| - 1 ==> outs[i] != TOKEN_EOS
    requires maxTokens > 0 ==> |outs| <= maxTokens
    requires PREFILL_LEN + |outs| <= |embs| && outs == Outs(k, embs, |outs|)
    ensures forall i :: 0 <= i < |outs| ==> !Halts(Outs(k, embs, i), |embs|, maxTokens)
  {
    hide Outs;
    forall i | 0 <= i < |outs|
      ensures !Halts(Outs(k, embs, i), |embs|, maxTokens)
    {
      OutsTake(k, embs, |outs|, i);
      assert Outs(k, embs, i) == outs[..i];
    }
  }

  /** Only the newest output can be an EOS. */
  lemma EosOnlyLast(k: Kernels, maxTokens: int, d: Decoder, outs: seq<int>)
    requires Books(k, maxTokens, d, outs)
    ensures forall i :: 0 <= i < |outs| - 1 ==> outs[i] != TOKEN_EOS
    ensures d.pending.NoToken? && outs != [] ==> (outs[|outs| - 1] == TOKEN_EOS <==> d.eos)
  {
    var c := Committed(d, outs);
    forall i | 0 <= i < |c|
      ensures outs[i] == c[i] && (c[i] == TOKEN_EOS <==> d.eos && i == |c| - 1)
    {
      EosAt(d.tokens, d.eos, c, i);
    }
  }

  /** A settled decoder that is caught up or halted stands where the decode ends. */
  lemma HaltsAtEnd(k: Kernels, maxTokens: int, embs: seq<AudioEmb>, d: Decoder, outs: seq<int>)
    requires Books(k, maxTokens, d, outs) && d.prefilled && d.pending.NoToken?
    requires Halted(d, maxTokens) || d.position == |embs|
    ensures Halts(outs, |embs|, maxTokens)
  {
  }

  lemma DecodedIs(k: Kernels, maxTokens: int, embs: seq<AudioEmb>, d: Decoder, outs: seq<int>)
    requires Books(k, maxTokens, d, outs) && d.pending.NoToken? && PROMPT_LEN <= |embs|
    requires PREFILL_LEN + |outs| <= |embs| && outs == Outs(k, embs, |outs|) && |outs| == Steps(k, embs, maxTokens, 0)
    ensures d.tokens == Decoded(k, embs, maxTokens)
  {
    hide Steps, Outs;
    EosOnlyLast(k, maxTokens, d, outs);
  }

  /** A decoder that never says EOS has not halted on one. */
  lemma NeverEnds(k: Kernels, maxTokens: int, mel: seq<MelFrame>, d: Decoder, ring: seq<AudioEmb>, outs: seq<int>)
    requires Faithful(k, mel, d, ring, outs) && Books(k, maxTokens, d, outs) && NeverEos(k)
    ensures !d.eos
  {
    hide Outs, Embs;
    if outs != [] {
      NoEosOutput(k, Embs(k, mel, 0, d.groups), |outs|);
    }
    EosOnlyLast(k, maxTokens, d, outs);
  }

  /** At most one output per group behind the prompt; exactly one when the decoder has kept up without halting. */
  lemma OutputsSoFar(k: Kernels, maxTokens: int, d: Decoder, outs: seq<int>, emitted: nat)
    requires Books(k, maxTokens, d, outs) && Throttled(d, emitted)
    ensures |outs| <= Max(0, emitted / DOWNSAMPLE - PREFILL_LEN)
    ensures Settled(d, maxTokens) && Current(d, maxTokens, emitted) && !Halted(d, maxTokens) ==>
      |Committed(d, outs)| == Max(0, emitted / DOWNSAMPLE - PREFILL_LEN)
    ensures d.pending.Stashed? ==> |Committed(d, outs)| == |outs| - 1
  {
  }

  /** A decoder that has halted holds no undelivered token. */
  lemma HaltedNotStashed(k: Kernels, maxTokens: int, d: Decoder, outs: seq<int>)
    requires Books(k, maxTokens, d, outs) && Halted(d, maxTokens)
    ensures d.pending.NoToken?
  {
  }

  /** A stashed token is an output of the uninterrupted decode that has not been delivered. */
  lemma StashedIsDue(k: Kernels, maxTokens: int, mel: seq<MelFrame>, d: Decoder, ring: seq<AudioEmb>, outs: seq<int>, total: nat)
    requires Faithful(k, mel, d, ring, outs) && Books(k, maxTokens, d, outs) && d.groups <= total
    requires d.prefilled && d.pending.Stashed?
    ensures |Committed(d, outs)| < Steps(k, Embs(k, mel, 0, total), maxTokens, 0)
  {
    hide Steps, Outs, Embs, Resident;
    var embs := Embs(k, mel, 0, total);
    LongerAudio(k, mel, d, ring, outs, total);
    EosOnlyLast(k, maxTokens, d, outs);
    RunsOn(k, maxTokens, embs, outs);
    StepsAtLeast(k, embs, maxTokens, 0, |outs|);
  }

  // ---- event trace ---------------------------------------------------------------------------------------

  /** The mandatory event of output i. */
  function TokenEvent(k: Kernels, outs: seq<int>, i: nat): Event
    requires i < |outs|
  {
    Token(outs[i], k.piece(outs[i]), Special(outs[i]), i + 1, PREFILL_LEN + i, AudioEndSample(PREFILL_LEN + i))
  }

  /** The mandatory events of the outputs, in order, with consecutive ids. */
  function TokenTrace(k: Kernels, outs: seq<int>): (r: seq<Event>)
    ensures |r| == |outs|
  {
    seq(|outs|, i requires 0 <= i < |outs| => TokenEvent(k, outs, i))
  }

  /** What has been shown so far (polled, then queued): one TOKEN per committed output, snapshots in order. */
  ghost predicate Shows(k: Kernels, committed: seq<int>, tokens: seq<int>, shown: seq<Event>) {
    Tokens(shown) == TokenTrace(k, committed) && InOrder(k, tokens, Snapshots(shown))
  }

  lemma ShowsToken(k: Kernels, committed: seq<int>, tokens: seq<int>, shown: seq<Event>, tok: int)
    requires Shows(k, committed, tokens, shown)
    ensures Shows(k, committed + [tok], tokens, shown + [TokenEvent(k, committed + [tok], |committed|)])
    ensures Terminals(shown + [TokenEvent(k, committed + [tok], |committed|)]) == Terminals(shown)
  {
    var e := TokenEvent(k, committed + [tok], |committed|);
    forall c: Class
      ensures Only(c, shown + [e]) == Only(c, shown) + if ClassOf(e) == c then [e] else []
    {
      OnlyConcat(c, shown, [e]);
      OnlyOne(c, e);
    }
    assert TokenTrace(k, committed + [tok]) == TokenTrace(k, committed) + [e];
    assert Snapshots(shown + [e]) == Snapshots(shown);
    assert Terminals(shown + [e]) == Terminals(shown);
  }

  lemma ShowsSnapshot(k: Kernels, committed: seq<int>, tokens: seq<int>, tok: int, polled: seq<Event>, q: seq<Event>,
                      bound: nat, aggressive: bool, e: Event)
    requires Shows(k, committed, tokens, polled + q)
    requires e.PartialText? && e.revision == |tokens| + 1 && e.text == Text(k, tokens + [tok])
    requires e.stablePrefixBytes == Utf8.StableLen(e.text) && e.audioEndSample == AudioEndSample(PREFILL_LEN + |tokens|)
    ensures Shows(k, committed, tokens + [tok], polled + PartialPushed(q, bound, aggressive, e))
    ensures Terminals(polled + PartialPushed(q, bound, aggressive, e)) == Terminals(polled + q)
  {
    var r := PartialPushed(q, bound, aggressive, e);
    forall c: Class
      ensures Only(c, polled + q) == Only(c, polled) + Only(c, q)
      ensures Only(c, polled + r) == Only(c, polled) + Only(c, r)
    {
      OnlyConcat(c, polled, q);
      OnlyConcat(c, polled, r);
    }
    PartialPushedKeeps(TokenClass, q, bound, aggressive, e);
    PartialPushedKeeps(TerminalClass, q, bound, aggressive, e);
    var next := tokens + [tok];
    assert next[..|next|] == next;
    InOrderGrows(k, tokens, tok, Snapshots(polled + q));
    assert Snapshots(polled + q) == Snapshots(polled) + Snapshots(q);
    PartialPushedInOrder(k, next, polled, q, bound, aggressive, e);
    assert Snapshots(polled + r) == Snapshots(polled) + Snapshots(r);
    assert Tokens(polled + r) == Tokens(polled + q);
    assert Terminals(polled + r) == Terminals(polled + q);
  }

  lemma ShowsTerminal(k: Kernels, committed: seq<int>, tokens: seq<int>, shown: seq<Event>, e: Event)
    requires Shows(k, committed, tokens, shown) && ClassOf(e) == TerminalClass
    ensures Shows(k, committed, tokens, shown + [e]) && Terminals(shown + [e]) == Terminals(shown) + [e]
  {
    forall c: Class
      ensures Only(c, shown + [e]) == Only(c, shown) + if ClassOf(e) == c then [e] else []
    {
      OnlyConcat(c, shown, [e]);
      OnlyOne(c, e);
    }
    assert Tokens(shown + [e]) == Tokens(shown);
    assert Snapshots(shown + [e]) == Snapshots(shown);
  }

  /** TOKEN event of the stashed output. */
  function StashedEvent(k: Kernels, d: Decoder): Event
    requires d.pending.Stashed?
  {
    var p := d.pending;
    Token(p.token, k.piece(p.token), p.special, d.sequence + 1, p.position, AudioEndSample(p.position))
  }

  /** Snapshot of the transcript after the token at `position`. */
  function SnapshotEvent(d: Decoder, position: nat): Event {
    PartialText(d.partialText, d.revision, d.stableBytes, AudioEndSample(position))
  }

  /** The queue once the stashed output has been delivered. */
  function QueueAfter(k: Kernels, d: Decoder, q: seq<Event>, bound: nat, aggressive: bool): (r: seq<Event>)
    requires d.pending.Stashed?
    ensures |r| <= |q| + 2
  {
    var q := q + [StashedEvent(k, d)];
    if d.pending.token == TOKEN_EOS then q
    else PartialPushed(q, bound, aggressive, SnapshotEvent(Delivered(k, d), d.pending.position))
  }

  /** Delivery with room to spare: the TOKEN event, then the snapshot that includes it; behind EOS no snapshot and no
      further token. */
  lemma DeliveryAppends(k: Kernels, d: Decoder, q: seq<Event>, bound: nat, aggressive: bool)
    requires d.pending.Stashed?
    ensures var t, p, text := d.pending.token, d.pending.position, d.partialText + k.piece(d.pending.token);
            var s := if p <= 31 then 0 else 1280 * (p - 31);
            var e := Token(t, k.piece(t), d.pending.special, d.sequence + 1, p, s);
            var d', r := Delivered(k, d), QueueAfter(k, d, q, bound, aggressive);
            && d'.pending.NoToken? && d'.sequence == d.sequence + 1 && d'.kv == d.kv && d'.groups == d.groups
            && (t == 2 ==>
                  && r == q + [e] && d'.eos
                  && d'.tokens == d.tokens && d'.position == d.position && d'.partialText == d.partialText)
            && (t != 2 ==>
                  && d'.tokens == d.tokens + [t] && d'.partialText == text && d'.eos == d.eos
                  && d'.position == d.position + 1 && d'.prevToken == t)
            && (t != 2 && !aggressive && |q| + 2 <= bound ==>
                  r == q + [e, PartialText(text, d.revision + 1, Utf8.StableLen(text), s)])
  {
    hide FirstPartial, Utf8.StableLen;
  }

  /** Where delivery stands: committed outputs, whether decoding has ended, events waiting, a snapshot among them. */
  datatype Mark = Mark(committed: seq<int>, eos: bool, queued: nat, partial: bool)

  /** Under the single-snapshot policy m outputs cost a TOKEN each, and one snapshot more when none was waiting. */
  ghost predicate SingleSnapshot(a: Mark, b: Mark, m: int, bound: nat) {
    && b.queued <= a.queued + m + (if a.partial then 0 else 1) && (a.partial ==> b.partial)
    && (m > 0 ==> b.partial || b.eos || b.queued >= bound)
  }

  /** Progress from one mark to a later one: outputs are only added, none behind an EOS. Each costs at most a TOKEN and a
      snapshot, and without the single-snapshot policy exactly those while there is room. */
  ghost predicate Growth(a: Mark, b: Mark, bound: nat, aggressive: bool) {
    var m := |b.committed| - |a.committed|;
    && a.committed <= b.committed && (a.eos ==> b.eos && m == 0)
    && b.queued <= a.queued + 2 * m
    && (if m > 0 then a.queued < bound else b.queued == a.queued && b.partial == a.partial) && (aggressive ==> SingleSnapshot(a, b, m, bound))
    && (!aggressive && m > 0 ==> a.queued + 2 * (m - 1) < bound)
    && (!aggressive && !b.eos ==> b.queued >= Min(bound, a.queued + 2 * m))
  }

  lemma GrowthNone(a: Mark, bound: nat, aggressive: bool)
    ensures Growth(a, a, bound, aggressive)
  {
  }

  lemma GrowthOn(a: Mark, b: Mark, c: Mark, bound: nat, aggressive: bool)
    requires Growth(a, b, bound, aggressive) && Growth(b, c, bound, aggressive)
    ensures Growth(a, c, bound, aggressive)
  {
  }

  lemma GrowthOnly(a: Mark, b: Mark, bound: nat, aggressive: bool)
    requires Growth(a, b, bound, aggressive)
    ensures a.committed <= b.committed && |a.committed| <= |b.committed|
    ensures b.queued <= a.queued + 2 * (|b.committed| - |a.committed|)
  {
  }

  /** Where delivery stands with these outputs committed and this queue. */
  function MarkOf(committed: seq<int>, eos: bool, q: seq<Event>): Mark {
    Mark(committed, eos, |q|, HasPartial(q))
  }

  lemma AppendedPartial(q: seq<Event>, e: Event)
    ensures HasPartial(q + [e]) <==> HasPartial(q) || e.PartialText?
  {
    if HasPartial(q) {
      var i :| 0 <= i < |q| && q[i].PartialText?;
      assert (q + [e])[i].PartialText?;
    }
    if e.PartialText? {
      assert (q + [e])[|q|].PartialText?;
    }
  }

  /** Size of the queue after a delivery under the single-snapshot policy. */
  lemma SingleQueue(k: Kernels, d: Decoder, q: seq<Event>, bound: nat)
    requires d.pending.Stashed? && |q| < bound
    ensures var r := QueueAfter(k, d, q, bound, true);
            && |r| <= |q| + 1 + (if HasPartial(q) then 0 else 1) && (HasPartial(q) ==> HasPartial(r))
            && (HasPartial(r) || d.pending.token == TOKEN_EOS || |r| >= bound)
  {
    hide HasPartial, PartialPushed;
    var t := q + [StashedEvent(k, d)];
    AppendedPartial(q, StashedEvent(k, d));
    if d.pending.token != TOKEN_EOS {
      var e := SnapshotEvent(Delivered(k, d), d.pending.position);
      var r := PartialPushed(t, bound, true, e);
      PartialPushedCases(t, bound, true, e);
      AppendedPartial(t, e);
      if HasPartial(t) {
        var i :| 0 <= i < |t| && r == t[..i] + t[i + 1..] + [e];
        AppendedPartial(t[..i] + t[i + 1..], e);
      }
    }
  }

  /** Delivering one output. */
  lemma DeliveryGrows(k: Kernels, maxTokens: int, d: Decoder, outs: seq<int>, q: seq<Event>, bound: nat, aggressive: bool)
    requires Books(k, maxTokens, d, outs) && d.prefilled && d.pending.Stashed? && |q| < bound
    ensures Growth(MarkOf(Committed(d, outs), d.eos, q),
                   MarkOf(outs, Delivered(k, d).eos, QueueAfter(k, d, q, bound, aggressive)), bound, aggressive)
  {
    hide HasPartial;
    DeliveryKeeps(k, maxTokens, d, outs);
    if aggressive {
      SingleQueue(k, d, q, bound);
    }
  }

  /** Delivery shows exactly one more output, and an ordered snapshot behind it. */
  lemma DeliveryShows(k: Kernels, maxTokens: int, d: Decoder, outs: seq<int>, polled: seq<Event>, q: seq<Event>,
                      bound: nat, aggressive: bool)
    requires Books(k, maxTokens, d, outs) && d.prefilled && d.pending.Stashed?
    requires Shows(k, Committed(d, outs), d.tokens, polled + q)
    ensures var r := QueueAfter(k, d, q, bound, aggressive);
            Shows(k, outs, Delivered(k, d).tokens, polled + r) && Terminals(polled + r) == Terminals(polled + q)
  {
    DeliveryKeeps(k, maxTokens, d, outs);
    var done, token := Committed(d, outs), d.pending.token;
    ShowsToken(k, done, d.tokens, polled + q, token);
    var e := StashedEvent(k, d);
    assert e == TokenEvent(k, outs, |done|);
    assert polled + q + [e] == polled + (q + [e]);
    if token != TOKEN_EOS {
      assert (d.tokens + [token])[..|d.tokens|] == d.tokens;
      ShowsSnapshot(k, outs, d.tokens, token, polled, q + [e], bound, aggressive,
                    SnapshotEvent(Delivered(k, d), d.pending.position));
    }
  }

  /** Progress under either policy. */
  ghost predicate Grows(a: Mark, b: Mark) {
    && a.committed <= b.committed && (a.eos ==> b.eos && b.committed == a.committed)
    && b.queued <= a.queued + 2 * (|b.committed| - |a.committed|)
  }

  lemma GrowthGrows(a: Mark, b: Mark, bound: nat, aggressive: bool)
    requires Growth(a, b, bound, aggressive)
    ensures Grows(a, b)
  {
  }

  lemma GrowsOn(a: Mark, b: Mark, c: Mark)
    requires Grows(a, b) && Grows(b, c)
    ensures Grows(a, c)
  {
  }

  /** Everything a delivery keeps and adds. */
  lemma DeliveryDone(k: Kernels, maxTokens: int, mel: seq<MelFrame>, d: Decoder, ring: seq<AudioEmb>, outs: seq<int>,
                     emitted: nat, polled: seq<Event>, q: seq<Event>, bound: nat, aggressive: bool)
    requires Books(k, maxTokens, d, outs) && d.prefilled && d.pending.Stashed? && Throttled(d, emitted) && |q| < bound
    requires Shows(k, Committed(d, outs), d.tokens, polled + q)
    ensures var d', r := Delivered(k, d), QueueAfter(k, d, q, bound, aggressive);
            && Books(k, maxTokens, d', outs) && Throttled(d', emitted)
            && (Faithful(k, mel, d, ring, outs) ==> Faithful(k, mel, d', ring, outs))
            && Committed(d', outs) == outs && |outs| == |Committed(d, outs)| + 1
            && Shows(k, outs, d'.tokens, polled + r) && Terminals(polled + r) == Terminals(polled + q)
            && Growth(MarkOf(Committed(d, outs), d.eos, q), MarkOf(outs, d'.eos, r), bound, aggressive)
  {
    hide Books, Throttled, Shows, Faithful, Terminals, QueueAfter, Growth, Delivered;
    DeliveryKeeps(k, maxTokens, d, outs);
    DeliveryIsFaithful(k, maxTokens, mel, d, ring, outs, emitted);
    DeliveryShows(k, maxTokens, d, outs, polled, q, bound, aggressive);
    DeliveryGrows(k, maxTokens, d, outs, q, bound, aggressive);
  }
}
