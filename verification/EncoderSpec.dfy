/** The encoder by direct recursion: each layer of each frame attends over its own 750-frame causal window
    of that layer's K/V, with no cache, no batching and no ring. */
module EncoderSpec {
  import opened Kernels
  import opened ConvStem

  function WindowStart(e: int): nat {
    if e < ENC_WINDOW - 1 then 0 else e - (ENC_WINDOW - 1)
  }

  /** Hidden row of frame e after l layers. */
  function Hid(k: Kernels, mel: seq<MelFrame>, l: nat, e: nat): Hidden
    decreases l, 2
  {
    if l == 0 then StemAt(k, mel, e)
    else k.block(l - 1, e, Hid(k, mel, l - 1, e), multiset(Window(k, mel, l - 1, e)))
  }

  /** K/V that layer l stores for frame p. */
  function KVAt(k: Kernels, mel: seq<MelFrame>, l: nat, p: nat): KV
    decreases l, 3
  {
    k.kv(l, p, Hid(k, mel, l, p))
  }

  /** K/V of the causal window of frame e, oldest first. */
  function Window(k: Kernels, mel: seq<MelFrame>, l: nat, e: nat): (w: seq<KV>)
    ensures |w| == e + 1 - WindowStart(e) <= ENC_WINDOW
    decreases l, 4
  {
    seq(e + 1 - WindowStart(e), i requires 0 <= i < e + 1 - WindowStart(e) => KVAt(k, mel, l, WindowStart(e) + i))
  }

  lemma ProjectsOwnRow(k: Kernels, mel: seq<MelFrame>, l: nat, p: nat)
    ensures KVAt(k, mel, l, p) == k.kv(l, p, Hid(k, mel, l, p))
  {
  }

  /** Layer l+1 attends from frame e over the K/V of the 750 frames that end with e, or of all there are so far, oldest
      first, each projected from its own row of the layer below at its own position. */
  lemma LayerReads(k: Kernels, mel: seq<MelFrame>, l: nat, e: nat)
    ensures var n := if e < 749 then e + 1 else 750;
            Hid(k, mel, l + 1, e) ==
            k.block(l, e, Hid(k, mel, l, e),
                    multiset(seq(n, i requires 0 <= i < n => k.kv(l, e + 1 - n + i, Hid(k, mel, l, e + 1 - n + i)))))
  {
    var n := if e < 749 then e + 1 else 750;
    var w := seq(n, i requires 0 <= i < n => k.kv(l, e + 1 - n + i, Hid(k, mel, l, e + 1 - n + i)));
    forall i | 0 <= i < n
      ensures Window(k, mel, l, e)[i] == w[i]
    {
      ProjectsOwnRow(k, mel, l, e + 1 - n + i);
    }
    assert Window(k, mel, l, e) == w;
  }

  /** Encoder output of frame e. */
  function Enc(k: Kernels, mel: seq<MelFrame>, e: nat): Hidden {
    k.norm(Hid(k, mel, k.layers, e))
  }

  /** All K/V of layer l up to frame n. */
  function History(k: Kernels, mel: seq<MelFrame>, l: nat, n: nat): (h: seq<KV>)
    ensures |h| == n
  {
    seq(n, p requires 0 <= p < n => KVAt(k, mel, l, p))
  }

  lemma WindowOfHistory(k: Kernels, mel: seq<MelFrame>, l: nat, e: nat, n: nat)
    requires e < n
    ensures Window(k, mel, l, e) == History(k, mel, l, n)[WindowStart(e)..e + 1]
  {
  }

  /** A frame never depends on Mel frames past the ones its convolution reads. */
  lemma {:induction false} HidPrefix(k: Kernels, mel: seq<MelFrame>, more: seq<MelFrame>, l: nat, e: nat)
    requires 2 * e + 1 < |mel|
    ensures Hid(k, mel + more, l, e) == Hid(k, mel, l, e)
    decreases l
  {
    if l == 0 {
      StemPrefix(k, mel, more, e);
    } else {
      HidPrefix(k, mel, more, l - 1, e);
      forall p {:trigger KVAt(k, mel, l - 1, p)} | WindowStart(e) <= p <= e
        ensures KVAt(k, mel + more, l - 1, p) == KVAt(k, mel, l - 1, p)
      {
        HidPrefix(k, mel, more, l - 1, p);
      }
      assert Window(k, mel + more, l - 1, e) == Window(k, mel, l - 1, e);
    }
  }

  lemma EncPrefix(k: Kernels, mel: seq<MelFrame>, more: seq<MelFrame>, e: nat)
    requires 2 * e + 1 < |mel|
    ensures Enc(k, mel + more, e) == Enc(k, mel, e)
  {
    HidPrefix(k, mel, more, k.layers, e);
  }

  /** Audio embedding of group g: the adapter over its four encoder frames. */
  function Emb(k: Kernels, mel: seq<MelFrame>, g: nat): AudioEmb {
    k.adapter(Enc(k, mel, 4 * g), Enc(k, mel, 4 * g + 1), Enc(k, mel, 4 * g + 2), Enc(k, mel, 4 * g + 3))
  }

  lemma EmbPrefix(k: Kernels, mel: seq<MelFrame>, more: seq<MelFrame>, g: nat)
    requires 8 * g + 7 < |mel|
    ensures Emb(k, mel + more, g) == Emb(k, mel, g)
  {
    EncPrefix(k, mel, more, 4 * g);
    EncPrefix(k, mel, more, 4 * g + 1);
    EncPrefix(k, mel, more, 4 * g + 2);
    EncPrefix(k, mel, more, 4 * g + 3);
  }
}
