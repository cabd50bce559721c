/** The uninterrupted realtime decode over all audio embeddings: the result every streaming run must reproduce. */
module Reference {
  import opened Kernels

  const PROMPT_LEN := 39   // BOS, then one STREAMING_PAD per left-pad and delay token
  const PREFILL_LEN := 38

  function PromptToken(i: nat): int {
    if i == 0 then TOKEN_BOS else TOKEN_STREAMING_PAD
  }

  predicate Special(tok: int) {
    tok == TOKEN_EOS || tok == TOKEN_BOS || tok == TOKEN_STREAMING_PAD
  }

  /** Token fed at position i when the decoder has produced `outs`: the prompt, then its own outputs. */
  function InputToken(outs: seq<int>, i: nat): int
    requires i < PROMPT_LEN + |outs|
  {
    if i < PROMPT_LEN then PromptToken(i) else outs[i - PROMPT_LEN]
  }

  /** The first m decoder inputs. */
  function Inputs(embs: seq<AudioEmb>, outs: seq<int>, m: nat): (r: seq<DecInput>)
    requires m <= |embs| && m <= PROMPT_LEN + |outs|
    ensures |r| == m
  {
    seq(m, i requires 0 <= i < m => DecInput(InputToken(outs, i), embs[i]))
  }

  /** Outputs of the first n decoder steps, at positions 38, 39, ... */
  function Outs(k: Kernels, embs: seq<AudioEmb>, n: nat): (r: seq<int>)
    requires n > 0 ==> PREFILL_LEN + n <= |embs|
    ensures |r| == n
  {
    if n == 0 then []
    else
      var before := Outs(k, embs, n - 1);
      before + [k.decode(Inputs(embs, before, PREFILL_LEN + n))]
  }

  /** The inputs of one more position, before or after its own output is known. */
  lemma InputsStep(embs: seq<AudioEmb>, outs: seq<int>, token: int)
    requires PREFILL_LEN + |outs| < |embs|
    ensures var n := PREFILL_LEN + |outs|;
            && Inputs(embs, outs, n) + [DecInput(InputToken(outs, n), embs[n])] == Inputs(embs, outs, n + 1)
            && Inputs(embs, outs + [token], n + 1) == Inputs(embs, outs, n + 1)
  {
  }

  /** Decoding stops at the end of the audio, at the token limit, or behind an EOS. */
  predicate Halts(outs: seq<int>, positions: nat, maxTokens: int) {
    || PREFILL_LEN + |outs| >= positions
    || (maxTokens > 0 && |outs| >= maxTokens)
    || (outs != [] && outs[|outs| - 1] == TOKEN_EOS)
  }

  /** Number of steps of the uninterrupted decode, given that the first n do not halt it. */
  function Steps(k: Kernels, embs: seq<AudioEmb>, maxTokens: int, n: nat): (r: nat)
    requires PREFILL_LEN + n <= |embs|
    ensures n <= r && PREFILL_LEN + r <= |embs|
    decreases |embs| - n
  {
    if Halts(Outs(k, embs, n), |embs|, maxTokens) then n else Steps(k, embs, maxTokens, n + 1)
  }

  function DropEos(outs: seq<int>): seq<int> {
    if outs != [] && outs[|outs| - 1] == TOKEN_EOS then outs[..|outs| - 1] else outs
  }

  /** Tokens of the uninterrupted decode. */
  function Decoded(k: Kernels, embs: seq<AudioEmb>, maxTokens: int): seq<int>
    requires PROMPT_LEN <= |embs|
  {
    DropEos(Outs(k, embs, Steps(k, embs, maxTokens, 0)))
  }

  /** Everything the decoder has been fed before its j-th transcript token: BOS (1), 38 STREAMING_PADs (32), then the
      tokens before it, each added to the audio embedding of its position. */
  function Fed(embs: seq<AudioEmb>, tokens: seq<int>, j: nat): (r: seq<DecInput>)
    requires 39 + j <= |embs| && j <= |tokens|
    ensures |r| == 39 + j
  {
    seq(39 + j, i requires 0 <= i < 39 + j => DecInput(if i == 0 then 1 else if i < 39 then 32 else tokens[i - 39], embs[i]))
  }

  /** A transcript, without reference to any run: each token is the decoder's answer to what precedes it, none is EOS (2),
      and it ends at the end of the audio, at the token limit, or where the decoder says EOS. */
  ghost predicate IsTranscript(k: Kernels, embs: seq<AudioEmb>, maxTokens: int, tokens: seq<int>) {
    var n := |tokens|;
    && 38 + n <= |embs| && (maxTokens > 0 ==> n <= maxTokens)
    && (forall j :: 0 <= j < n ==> tokens[j] != 2 && tokens[j] == k.decode(Fed(embs, tokens, j)))
    && (38 + n == |embs| || (maxTokens > 0 && n == maxTokens) || k.decode(Fed(embs, tokens, n)) == 2)
  }

  /** There is only one transcript. */
  lemma TranscriptUnique(k: Kernels, embs: seq<AudioEmb>, maxTokens: int, a: seq<int>, b: seq<int>)
    requires IsTranscript(k, embs, maxTokens, a) && IsTranscript(k, embs, maxTokens, b)
    ensures a == b
  {
    var n := if |a| <= |b| then |a| else |b|;
    SameSoFar(k, embs, maxTokens, a, b, n);
    FedPrefix(embs, a, b, n);
    assert a == a[..|a|] && b == b[..|b|];
  }

  lemma FedPrefix(embs: seq<AudioEmb>, a: seq<int>, b: seq<int>, j: nat)
    requires j <= |a| && j <= |b| && a[..j] == b[..j]
    ensures 39 + j <= |embs| ==> Fed(embs, a, j) == Fed(embs, b, j)
  {
    assert forall i :: 0 <= i < j ==> a[i] == a[..j][i] && b[i] == b[..j][i];
  }

  lemma {:induction false} SameSoFar(k: Kernels, embs: seq<AudioEmb>, maxTokens: int, a: seq<int>, b: seq<int>, n: nat)
    requires IsTranscript(k, embs, maxTokens, a) && IsTranscript(k, embs, maxTokens, b) && n <= |a| && n <= |b|
    ensures a[..n] == b[..n]
  {
    if n > 0 {
      SameSoFar(k, embs, maxTokens, a, b, n - 1);
      FedPrefix(embs, a, b, n - 1);
      assert a[n - 1] == k.decode(Fed(embs, a, n - 1)) && b[n - 1] == k.decode(Fed(embs, b, n - 1));
      assert a[..n] == a[..n - 1] + [a[n - 1]] && b[..n] == b[..n - 1] + [b[n - 1]];
    }
  }

  /** Behind its prompt the decoder is fed its own earlier outputs. */
  lemma FedIsInputs(embs: seq<AudioEmb>, outs: seq<int>, tokens: seq<int>, j: nat)
    requires 39 + j <= |embs| && j <= |tokens| && j <= |outs| && outs[..j] == tokens[..j]
    ensures Fed(embs, tokens, j) == Inputs(embs, outs[..j], 39 + j)
  {
    assert forall i :: 0 <= i < j ==> tokens[i] == tokens[..j][i];
  }

  lemma OutsAt(k: Kernels, embs: seq<AudioEmb>, n: nat, j: nat)
    requires j < n && PREFILL_LEN + n <= |embs|
    ensures Outs(k, embs, n)[j] == k.decode(Inputs(embs, Outs(k, embs, n)[..j], PREFILL_LEN + j + 1))
  {
    OutsTake(k, embs, n, j);
    OutsTake(k, embs, n, j + 1);
    var outs, more := Outs(k, embs, n), Outs(k, embs, j + 1);
    assert outs[j] == outs[..j + 1][j] == more[j];
  }

  /** The reference run stops where it halts and nowhere earlier. */
  lemma {:induction false} StepsStop(k: Kernels, embs: seq<AudioEmb>, maxTokens: int, n: nat)
    requires PREFILL_LEN + n <= |embs|
    ensures var m := Steps(k, embs, maxTokens, n);
            && Halts(Outs(k, embs, m), |embs|, maxTokens)
            && forall i :: n <= i < m ==> !Halts(Outs(k, embs, i), |embs|, maxTokens)
    decreases |embs| - n
  {
    hide Outs;
    if !Halts(Outs(k, embs, n), |embs|, maxTokens) {
      StepsStop(k, embs, maxTokens, n + 1);
    }
  }

  /** An EOS ends the run that contains it. */
  lemma EosEnds(k: Kernels, embs: seq<AudioEmb>, maxTokens: int, m: nat, i: nat)
    requires PREFILL_LEN + m <= |embs| && i < m - 1
    requires forall i :: 0 <= i < m ==> !Halts(Outs(k, embs, i), |embs|, maxTokens)
    ensures Outs(k, embs, m)[i] != TOKEN_EOS
  {
    OutsTake(k, embs, m, i + 1);
    var outs, part := Outs(k, embs, m), Outs(k, embs, i + 1);
    assert outs[i] == outs[..i + 1][i] == part[i];
  }

  lemma LastBelowLimit(k: Kernels, embs: seq<AudioEmb>, maxTokens: int, m: nat)
    requires PREFILL_LEN + m <= |embs|
    requires forall i :: 0 <= i < m ==> !Halts(Outs(k, embs, i), |embs|, maxTokens)
    ensures maxTokens > 0 ==> m <= maxTokens
  {
    if m > 0 {
      assert !Halts(Outs(k, embs, m - 1), |embs|, maxTokens);
    }
  }

  /** The reference decode is that transcript. */
  lemma DecodedIsTranscript(k: Kernels, embs: seq<AudioEmb>, maxTokens: int)
    requires PROMPT_LEN <= |embs|
    ensures IsTranscript(k, embs, maxTokens, Decoded(k, embs, maxTokens))
  {
    hide Outs, Steps, Inputs, Fed;
    var m := Steps(k, embs, maxTokens, 0);
    var outs, tokens := Outs(k, embs, m), Decoded(k, embs, maxTokens);
    StepsStop(k, embs, maxTokens, 0);
    LastBelowLimit(k, embs, maxTokens, m);
    assert tokens == outs[..|tokens|];
    forall j | 0 <= j < |tokens|
      ensures tokens[j] != 2 && tokens[j] == k.decode(Fed(embs, tokens, j))
    {
      OutsAt(k, embs, m, j);
      assert outs[..j] == tokens[..j];
      FedIsInputs(embs, outs, tokens, j);
      if j < m - 1 {
        EosEnds(k, embs, maxTokens, m, j);
      }
    }
    if |tokens| < m {
      OutsAt(k, embs, m, |tokens|);
      FedIsInputs(embs, outs, tokens, |tokens|);
    }
  }

  /** A token sequence is the reference decode if and only if it is the transcript. */
  lemma DecodedIff(k: Kernels, embs: seq<AudioEmb>, maxTokens: int, tokens: seq<int>)
    requires PROMPT_LEN <= |embs|
    ensures tokens == Decoded(k, embs, maxTokens) <==> IsTranscript(k, embs, maxTokens, tokens)
  {
    hide Decoded, IsTranscript;
    DecodedIsTranscript(k, embs, maxTokens);
    if IsTranscript(k, embs, maxTokens, tokens) {
      TranscriptUnique(k, embs, maxTokens, tokens, Decoded(k, embs, maxTokens));
    }
  }

  /** The first token answers the prompt: BOS and 38 STREAMING_PADs over the first 39 embeddings. */
  lemma FirstToken(k: Kernels, embs: seq<AudioEmb>, maxTokens: int, tokens: seq<int>)
    requires 39 <= |embs| && IsTranscript(k, embs, maxTokens, tokens)
    ensures var first := k.decode([DecInput(1, embs[0])] + seq(38, i requires 0 <= i < 38 => DecInput(32, embs[i + 1])));
            if first == 2 then tokens == [] else tokens != [] && tokens[0] == first
  {
    assert Fed(embs, tokens, 0) == [DecInput(1, embs[0])] + seq(38, i requires 0 <= i < 38 => DecInput(32, embs[i + 1]));
  }

  /** Text of a token sequence: the concatenated pieces. */
  function Text(k: Kernels, tokens: seq<int>): seq<bv8> {
    if tokens == [] then [] else Text(k, tokens[..|tokens| - 1]) + k.piece(tokens[|tokens| - 1])
  }

  /** The pieces of its tokens one behind the other. */
  lemma {:induction false} TextConcat(k: Kernels, a: seq<int>, b: seq<int>)
    ensures Text(k, []) == [] && Text(k, a + b) == Text(k, a) + Text(k, b)
    ensures |b| == 1 ==> Text(k, b) == k.piece(b[0])
    decreases |b|
  {
    if b == [] {
      assert a + b == a;
    } else {
      var init := b[..|b| - 1];
      TextConcat(k, a, init);
      assert (a + b)[..|a + b| - 1] == a + init;
    }
  }

  lemma {:induction false} TextPrefix(k: Kernels, tokens: seq<int>, n: nat)
    requires n <= |tokens|
    ensures |Text(k, tokens[..n])| <= |Text(k, tokens)|
    ensures Text(k, tokens[..n]) == Text(k, tokens)[..|Text(k, tokens[..n])|]
    decreases |tokens|
  {
    if n < |tokens| {
      var init := tokens[..|tokens| - 1];
      TextPrefix(k, init, n);
      assert init[..n] == tokens[..n];
    } else {
      assert tokens[..n] == tokens;
    }
  }

  /** The decode is determined by its outputs: a run of true outputs that halts at its end and not before is it. */
  lemma {:induction false} StepsUnique(k: Kernels, embs: seq<AudioEmb>, maxTokens: int, n: nat, m: nat)
    requires n <= m && PREFILL_LEN + m <= |embs|
    requires forall i :: n <= i < m ==> !Halts(Outs(k, embs, i), |embs|, maxTokens)
    requires Halts(Outs(k, embs, m), |embs|, maxTokens)
    ensures Steps(k, embs, maxTokens, n) == m
    decreases m - n
  {
    if n < m {
      StepsUnique(k, embs, maxTokens, n + 1, m);
    }
  }

  lemma {:induction false} StepsAtLeast(k: Kernels, embs: seq<AudioEmb>, maxTokens: int, n: nat, m: nat)
    requires n <= m && PREFILL_LEN + m <= |embs|
    requires forall i :: n <= i < m ==> !Halts(Outs(k, embs, i), |embs|, maxTokens)
    ensures Steps(k, embs, maxTokens, n) >= m
    decreases m - n
  {
    if n < m {
      StepsAtLeast(k, embs, maxTokens, n + 1, m);
    }
  }

  /** A decoder that never says EOS. */
  ghost predicate NeverEos(k: Kernels) {
    forall inputs: seq<DecInput> :: k.decode(inputs) != TOKEN_EOS
  }

  lemma NoEosOutput(k: Kernels, embs: seq<AudioEmb>, n: nat)
    requires NeverEos(k) && 0 < n && PREFILL_LEN + n <= |embs|
    ensures Outs(k, embs, n)[n - 1] != TOKEN_EOS
  {
  }

  /** It steps through every audio position. */
  lemma {:induction false} StepsToEnd(k: Kernels, embs: seq<AudioEmb>, n: nat)
    requires NeverEos(k) && PREFILL_LEN + n <= |embs|
    ensures Steps(k, embs, 0, n) == |embs| - PREFILL_LEN
    decreases |embs| - n
  {
    if PREFILL_LEN + n < |embs| {
      StepsToEnd(k, embs, n + 1);
    }
  }

  /** Earlier outputs do not depend on later audio. */
  lemma {:induction false} OutsPrefix(k: Kernels, embs: seq<AudioEmb>, more: seq<AudioEmb>, n: nat)
    requires n > 0 ==> PREFILL_LEN + n <= |embs|
    ensures Outs(k, embs + more, n) == Outs(k, embs, n)
  {
    if n > 0 {
      OutsPrefix(k, embs, more, n - 1);
      var before := Outs(k, embs, n - 1);
      assert Inputs(embs + more, before, PREFILL_LEN + n) == Inputs(embs, before, PREFILL_LEN + n);
    }
  }

  lemma {:induction false} OutsTake(k: Kernels, embs: seq<AudioEmb>, n: nat, i: nat)
    requires i <= n && (n > 0 ==> PREFILL_LEN + n <= |embs|)
    ensures Outs(k, embs, n)[..i] == Outs(k, embs, i)
    decreases n
  {
    if i < n {
      OutsTake(k, embs, n - 1, i);
    }
  }

  /** Feeding the newest output at its own position extends the inputs by one. */
  lemma LastInput(embs: seq<AudioEmb>, outs: seq<int>)
    requires outs != [] && PREFILL_LEN + |outs| < |embs|
    ensures var n := PREFILL_LEN + |outs|;
            Inputs(embs, outs[..|outs| - 1], n) + [DecInput(outs[|outs| - 1], embs[n])] == Inputs(embs, outs, n + 1)
  {
  }

  lemma StepOn(k: Kernels, embs: seq<AudioEmb>, maxTokens: int, outs: seq<int>)
    requires outs != [] && PREFILL_LEN + |outs| < |embs| && outs == Outs(k, embs, |outs|)
    requires outs[|outs| - 1] != TOKEN_EOS && (maxTokens <= 0 || |outs| < maxTokens)
    ensures Steps(k, embs, maxTokens, |outs|) == Steps(k, embs, maxTokens, |outs| + 1)
    ensures Outs(k, embs, |outs| + 1) == outs + [k.decode(Inputs(embs, outs, PREFILL_LEN + |outs| + 1))]
  {
  }

  /** [BOS], then one STREAMING_PAD per left-pad and delay token. */
  method BuildPrompt() returns (prompt: seq<int>)
    ensures |prompt| == PROMPT_LEN && forall j :: 0 <= j < |prompt| ==> prompt[j] == PromptToken(j)
  {
    prompt := [TOKEN_BOS];
    for i := 0 to LEFT_PAD_TOKENS + DELAY_TOKENS
      invariant |prompt| == i + 1 && forall j :: 0 <= j < |prompt| ==> prompt[j] == PromptToken(j)
    {
      prompt := prompt + [TOKEN_STREAMING_PAD];
    }
  }

  lemma PromptInputs(embs: seq<AudioEmb>, prompt: seq<int>, kv: seq<DecInput>)
    requires |prompt| == PROMPT_LEN <= |embs| && forall j :: 0 <= j < |prompt| ==> prompt[j] == PromptToken(j)
    requires |kv| == PREFILL_LEN && forall j :: 0 <= j < |kv| ==> kv[j] == DecInput(prompt[j], embs[j])
    ensures kv == Inputs(embs, [], PREFILL_LEN)
    ensures kv + [DecInput(prompt[PREFILL_LEN], embs[PREFILL_LEN])] == Inputs(embs, [], PREFILL_LEN + 1)
  {
  }

  /** One step per audio position, from the first output on, up to the end of the audio, the limit or an EOS. */
  method DecodeOn(k: Kernels, embs: seq<AudioEmb>, maxTokens: int, first: int, history: seq<DecInput>) returns (tokens: seq<int>)
    requires PROMPT_LEN <= |embs| && history == Inputs(embs, [], PROMPT_LEN) && first == k.decode(history)
    ensures tokens == Outs(k, embs, Steps(k, embs, maxTokens, 0)) && tokens != []
  {
    var token, kv, pos := first, history, PROMPT_LEN;
    tokens := [token];
    assert tokens == Outs(k, embs, 1);
    while pos < |embs| && (maxTokens <= 0 || |tokens| < maxTokens)
      invariant pos == PREFILL_LEN + |tokens| <= |embs| && 1 <= |tokens|
      invariant token == tokens[|tokens| - 1] && tokens == Outs(k, embs, |tokens|)
      invariant kv == Inputs(embs, tokens[..|tokens| - 1], pos)
      invariant Steps(k, embs, maxTokens, 0) == Steps(k, embs, maxTokens, |tokens|)
      decreases |embs| - pos
    {
      hide Inputs, Halts;
      if token == TOKEN_EOS {
        break;
      }
      LastInput(embs, tokens);
      StepOn(k, embs, maxTokens, tokens);
      kv := kv + [DecInput(token, embs[pos])];
      token := k.decode(kv);
      assert (tokens + [token])[..|tokens|] == tokens;
      tokens := tokens + [token];
      pos := pos + 1;
    }
  }

  /** The batch decoder: prefill, one step with the last prompt token, then one step per audio position. */
  method DecodeRealtime(k: Kernels, embs: seq<AudioEmb>, maxTokens: int) returns (ok: bool, tokens: seq<int>, text: seq<bv8>)
    ensures ok <==> 39 <= |embs|
    ensures ok ==> tokens == Decoded(k, embs, maxTokens) && text == Text(k, tokens)
    ensures ok ==> IsTranscript(k, embs, maxTokens, tokens)
    ensures ok ==>
      var first := k.decode([DecInput(1, embs[0])] + seq(38, i requires 0 <= i < 38 => DecInput(32, embs[i + 1])));
      if first == 2 then tokens == [] else tokens != [] && tokens[0] == first
  {
    hide IsTranscript, Fed, Inputs, Outs, Steps, Text, PromptToken;
    tokens, text := [], [];
    var prompt := BuildPrompt();
    var len := |prompt|;
    if len > |embs| {
      return false, [], [];
    }
    var kv := seq(len - 1, i requires 0 <= i < len - 1 => DecInput(prompt[i], embs[i]));
    PromptInputs(embs, prompt, kv);
    kv := kv + [DecInput(prompt[len - 1], embs[len - 1])];
    var token := k.decode(kv);
    tokens := DecodeOn(k, embs, maxTokens, token, kv);
    if tokens[|tokens| - 1] == TOKEN_EOS {
      tokens := tokens[..|tokens| - 1];
    }
    text := Detokenize(k, tokens);
    DecodedIsTranscript(k, embs, maxTokens);
    FirstToken(k, embs, maxTokens, tokens);
    ok := true;
  }

  method Detokenize(k: Kernels, tokens: seq<int>) returns (text: seq<bv8>)
    ensures text == Text(k, tokens)
  {
    text := [];
    for i := 0 to |tokens|
      invariant text == Text(k, tokens[..i])
    {
      text := text + k.piece(tokens[i]);
      assert tokens[..i + 1][..i] == tokens[..i];
    }
    assert tokens[..|tokens|] == tokens;
  }
}
