/** Values that flow through the pipeline, and the numeric kernels as parameters.

    Every kernel (Mel frame, convolution rows, K/V projection, attention block, adapter, decoder step,
    detokenizer) is a function value: the theorems hold for every choice of them, so nothing here depends on
    floating-point behaviour. */
module Kernels {
  datatype MelFrame = MelFrame(bins: seq<real>)
  datatype Hidden = Hidden(row: seq<real>)
  datatype KV = KV(key: seq<real>, value: seq<real>)
  datatype AudioEmb = AudioEmb(row: seq<real>)

  /** One decoder input: the token fed at a position and the audio embedding added to it. */
  datatype DecInput = DecInput(token: int, audio: AudioEmb)

  datatype Kernels = Kernels(
    frame: seq<real> -> MelFrame,                       // one 400-sample window to one log-Mel frame
    conv0: (MelFrame, MelFrame, MelFrame) -> Hidden,    // stride-1 row of the conv stem
    conv1: (Hidden, Hidden, Hidden) -> Hidden,          // stride-2 row of the conv stem
    layers: nat,
    kv: (nat, nat, Hidden) -> KV,                       // layer, absolute position, input row
    block: (nat, nat, Hidden, multiset<KV>) -> Hidden,  // layer, position, row, unmasked (K,V) columns
    norm: Hidden -> Hidden,
    adapter: (Hidden, Hidden, Hidden, Hidden) -> AudioEmb,
    decode: seq<DecInput> -> int,                       // greedy token for the whole input history
    piece: int -> seq<bv8>)                             // detokenizer: bytes of one token

  const ZERO_MEL := MelFrame([])
  const ZERO_HIDDEN := Hidden([])
  const ZERO_KV := KV([], [])
  const ZERO_EMB := AudioEmb([])

  const ENC_WINDOW := 750
  const ENC_KV_MAX_NEW := 128
  const ENC_KV_CAP := 878
  const ENC_OUT_RING_CAP := 256
  const AEMB_RING_CAP := 256
  const DOWNSAMPLE := 4

  const LEFT_PAD_TOKENS := 32
  const DELAY_TOKENS := 6
  const RIGHT_PAD_TOKENS := 17
  const SAMPLES_PER_TOKEN := 1280
  const STREAM_LEFT_PAD := 40960

  const TOKEN_BOS := 1
  const TOKEN_EOS := 2
  const TOKEN_STREAMING_PAD := 32
}
