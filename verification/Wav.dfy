/** The server's RIFF/WAVE reader: a walk over length-prefixed, even-padded chunks that keeps the first `fmt ` and the
    first `data` chunk. */
module Wav {
  import opened Bytes
  import opened RingMath

  const RIFF: seq<Byte> := [0x52, 0x49, 0x46, 0x46]
  const WAVE: seq<Byte> := [0x57, 0x41, 0x56, 0x45]
  const FMT: seq<Byte> := [0x66, 0x6d, 0x74, 0x20]
  const DATA: seq<Byte> := [0x64, 0x61, 0x74, 0x61]

  lemma Tags()
    ensures RIFF == Ascii("RIFF") && WAVE == Ascii("WAVE") && FMT == Ascii("fmt ") && DATA == Ascii("data")
  {
  }

  /** One chunk: four-byte id, body, and a padding byte of any value behind an odd body. */
  datatype Chunk = Chunk(id: seq<Byte>, body: seq<Byte>, pad: seq<Byte>)

  ghost predicate WellFormed(c: Chunk) {
    |c.id| == 4 && |c.body| < 0x1_0000_0000 && |c.pad| == |c.body| % 2
  }

  function Encode(c: Chunk): seq<Byte> { c.id + Le(|c.body|, 4) + c.body + c.pad }

  function EncodeAll(cs: seq<Chunk>): seq<Byte> {
    if cs == [] then [] else Encode(cs[0]) + EncodeAll(cs[1..])
  }

  /** A RIFF file made of these chunks; trailing bytes behind the RIFF size are ignored by readers. */
  ghost predicate IsRiff(body: seq<Byte>, cs: seq<Chunk>) {
    && AllWellFormed(cs)
    && var size := 4 + |EncodeAll(cs)|;
       && size < 0x1_0000_0000 && 8 + size <= |body|
       && body[..8 + size] == RIFF + Le(size, 4) + WAVE + EncodeAll(cs)
  }

  datatype Found = Missing | Found(body: seq<Byte>)

  /** Body of the first chunk with this id. */
  function First(cs: seq<Chunk>, id: seq<Byte>): Found {
    if cs == [] then Missing else if cs[0].id == id then Found(cs[0].body) else First(cs[1..], id)
  }

  /** The first chunk with the id counts, later ones do not. */
  lemma {:induction false} FirstIs(cs: seq<Chunk>, id: seq<Byte>, i: nat)
    requires i <= |cs| && (forall j :: 0 <= j < i ==> cs[j].id != id) && (i < |cs| ==> cs[i].id == id)
    ensures First(cs, id) == if i < |cs| then Found(cs[i].body) else Missing
  {
    if i > 0 {
      FirstIs(cs[1..], id, i - 1);
    }
  }

  function U16(b: seq<Byte>, at: nat): nat
    requires at + 2 <= |b|
  {
    FromLe(b[at..at + 2])
  }

  function U32(b: seq<Byte>, at: nat): nat
    requires at + 4 <= |b|
  {
    FromLe(b[at..at + 4])
  }

  /** Mono signed 16-bit PCM at 16 kHz. */
  predicate Supported(fmt: seq<Byte>) {
    && |fmt| >= 16
    && U16(fmt, 0) == 1 && U16(fmt, 2) == 1 && U32(fmt, 4) == 16000 && U32(fmt, 8) == 32000
    && U16(fmt, 12) == 2 && U16(fmt, 14) == 16
  }

  /** Byte for byte: PCM, one channel, 16000 Hz, 32000 bytes a second, two bytes a frame, 16 bits. */
  lemma SupportedBytes(fmt: seq<Byte>)
    ensures Supported(fmt) <==> |fmt| >= 16 && fmt[..16] == [1, 0, 1, 0, 0x80, 0x3e, 0, 0, 0, 0x7d, 0, 0, 2, 0, 16, 0]
  {
    hide U16, U32;
    if |fmt| >= 16 {
      U16Is(fmt, 0);
      U16Is(fmt, 2);
      U16Is(fmt, 12);
      U16Is(fmt, 14);
      U32Is(fmt, 4);
      U32Is(fmt, 8);
      var h := fmt[..16];
      assert forall i :: 0 <= i < 16 ==> h[i] == fmt[i];
      if Supported(fmt) {
        assert h == [h[0], h[1], h[2], h[3], h[4], h[5], h[6], h[7], h[8], h[9], h[10], h[11], h[12], h[13], h[14], h[15]];
      }
    }
  }

  lemma U16Is(b: seq<Byte>, at: nat)
    requires at + 2 <= |b|
    ensures U16(b, at) == b[at] as int + 256 * (b[at + 1] as int)
  {
    var s := b[at..at + 2];
    assert s[1..][1..] == [] && FromLe(s[1..]) == s[1] as int + 256 * FromLe(s[1..][1..]);
  }

  lemma U32Is(b: seq<Byte>, at: nat)
    requires at + 4 <= |b|
    ensures U32(b, at) == b[at] as int + 256 * (b[at + 1] as int) + 65536 * (b[at + 2] as int) + 16777216 * (b[at + 3] as int)
  {
    var s := b[at..at + 4];
    U16Is(b, at + 2);
    assert s[1..][1..] == b[at + 2..at + 4];
    assert FromLe(s) == s[0] as int + 256 * FromLe(s[1..]) && FromLe(s[1..]) == s[1] as int + 256 * FromLe(s[1..][1..]);
  }

  /** The chunks make an acceptable recording. */
  ghost predicate Acceptable(cs: seq<Chunk>) {
    && First(cs, FMT).Found? && Supported(First(cs, FMT).body)
    && First(cs, DATA).Found? && First(cs, DATA).body != [] && |First(cs, DATA).body| % 2 == 0
  }

  datatype Result = Ok(samples: seq<int>) | Failure

  method MakeAudio(bytes: seq<Byte>) returns (r: Result)
    ensures r == if bytes == [] || |bytes| % 2 != 0 then Failure else Ok(Samples(bytes))
  {
    if |bytes| == 0 || |bytes| % 2 != 0 {
      return Failure;
    }
    var samples: seq<int> := [];
    for i := 0 to |bytes| / 2
      invariant samples == Samples(bytes)[..i]
    {
      samples := samples + [Sample(bytes[2 * i], bytes[2 * i + 1])];
    }
    assert Samples(bytes)[..|bytes| / 2] == Samples(bytes);
    r := Ok(samples);
  }

  // ---- the grammar is unambiguous ------------------------------------------------------------------------

  ghost predicate AllWellFormed(cs: seq<Chunk>) {
    forall i :: 0 <= i < |cs| ==> WellFormed(cs[i])
  }

  lemma Parts(a: seq<Byte>, b: seq<Byte>, c: seq<Byte>, p: seq<Byte>, rest: seq<Byte>)
    ensures var d := a + b + c + p + rest;
            var i, j, k := |a|, |a| + |b|, |a| + |b| + |c|;
            && d[..i] == a && d[i..j] == b && d[j..k] == c && d[k..k + |p|] == p && d[k + |p|..] == rest
  {
  }

  /** The front of an encoding determines its first chunk. */
  lemma HeadOf(cs: seq<Chunk>)
    requires cs != [] && WellFormed(cs[0])
    ensures var d, n := EncodeAll(cs), |cs[0].body|;
            && |d| >= 8 + n + n % 2 && d[..4] == cs[0].id && FromLe(d[4..8]) == n
            && d[8..8 + n] == cs[0].body && d[8 + n..8 + n + n % 2] == cs[0].pad && d[8 + n + n % 2..] == EncodeAll(cs[1..])
  {
    hide Le;
    var c := cs[0];
    Parts(c.id, Le(|c.body|, 4), c.body, c.pad, EncodeAll(cs[1..]));
    LeRoundTrip(|c.body|, 4);
  }

  /** The chunk that stands at the front of some bytes. */
  lemma HeadIs(d: seq<Byte>, n: nat) returns (c: Chunk)
    requires |d| >= 8 && n == FromLe(d[4..8]) && |d| >= 8 + n + n % 2
    ensures WellFormed(c) && c.id == d[..4] && c.body == d[8..8 + n] && d[..8 + n + n % 2] == Encode(c)
  {
    c := Chunk(d[..4], d[8..8 + n], d[8 + n..8 + n + n % 2]);
    FromLeRange(d[4..8]);
    assert d[..8 + n + n % 2] == d[..4] + d[4..8] + d[8..8 + n] + d[8 + n..8 + n + n % 2];
  }

  lemma FrontSame(d: seq<Byte>, e: seq<Byte>, i: nat, j: nat)
    requires d <= e && i <= j <= |d|
    ensures d[i..j] == e[i..j] && d[i..] == e[i..][..|d| - i]
  {
  }

  /** Encodings that agree as far as the shorter reaches begin with the same chunk. */
  lemma HeadsAgree(cs: seq<Chunk>, s: seq<Chunk>) returns (k: nat)
    requires AllWellFormed(cs) && AllWellFormed(s) && cs != [] && EncodeAll(cs) <= EncodeAll(s)
    ensures s != [] && s[0] == cs[0] && k <= |EncodeAll(cs)|
    ensures EncodeAll(cs)[k..] == EncodeAll(cs[1..]) && EncodeAll(s)[k..] == EncodeAll(s[1..])
  {
    HeadOf(cs);
    NotEmpty(s);
    HeadOf(s);
    hide EncodeAll, WellFormed, Encode;
    var d, e, n := EncodeAll(cs), EncodeAll(s), |cs[0].body|;
    k := 8 + n + n % 2;
    FrontSame(d, e, 0, 4);
    FrontSame(d, e, 4, 8);
    FrontSame(d, e, 8, 8 + n);
    FrontSame(d, e, 8 + n, k);
  }

  lemma NotEmpty(s: seq<Chunk>)
    requires |EncodeAll(s)| > 0
    ensures s != []
  {
  }

  /** Two chunk lists whose encodings agree as far as the first reaches agree as far as the first reaches. */
  lemma {:induction false} PrefixUnique(cs: seq<Chunk>, s: seq<Chunk>)
    requires AllWellFormed(cs) && AllWellFormed(s) && EncodeAll(cs) <= EncodeAll(s)
    ensures cs <= s && EncodeAll(s[|cs|..]) == EncodeAll(s)[|EncodeAll(cs)|..]
    decreases |cs|
  {
    if cs == [] {
      assert s[0..] == s;
    } else {
      hide EncodeAll, WellFormed;
      var k := HeadsAgree(cs, s);
      var d, e := EncodeAll(cs), EncodeAll(s);
      FrontSame(d, e, k, |d|);
      PrefixUnique(cs[1..], s[1..]);
      assert s[1..][|cs| - 1..] == s[|cs|..] && e[k..][|d| - k..] == e[|d|..];
    }
  }

  lemma {:induction false} EncodeAppend(cs: seq<Chunk>, c: Chunk)
    ensures EncodeAll(cs + [c]) == EncodeAll(cs) + Encode(c)
  {
    if cs == [] {
      assert cs + [c] == [c] && [c][1..] == [];
    } else {
      assert (cs + [c])[1..] == cs[1..] + [c];
      EncodeAppend(cs[1..], c);
    }
  }

  lemma {:induction false} FirstAppend(cs: seq<Chunk>, c: Chunk, id: seq<Byte>)
    ensures First(cs + [c], id) == if First(cs, id).Found? then First(cs, id) else if c.id == id then Found(c.body) else Missing
  {
    if cs == [] {
      assert cs + [c] == [c] && [c][1..] == [];
    } else {
      assert (cs + [c])[1..] == cs[1..] + [c];
      FirstAppend(cs[1..], c, id);
    }
  }

  lemma {:induction false} FirstPrefix(cs: seq<Chunk>, s: seq<Chunk>, id: seq<Byte>)
    requires cs <= s && First(cs, id).Found?
    ensures First(s, id) == First(cs, id)
  {
    if cs[0].id != id {
      assert cs[1..] <= s[1..];
      FirstPrefix(cs[1..], s[1..], id);
    }
  }

  // ---- the walk ------------------------------------------------------------------------------------------

  /** No acceptable chunk list encodes d. */
  ghost predicate Refuted(d: seq<Byte>) {
    forall s :: AllWellFormed(s) && EncodeAll(s) == d ==> !Acceptable(s)
  }

  /** A header or body that does not fit, or a missing padding byte, refutes every chunk list. */
  lemma Stuck(d: seq<Byte>, cs: seq<Chunk>, k: nat)
    requires AllWellFormed(cs) && k < |d| && EncodeAll(cs) == d[..k]
    requires |d| - k < 8 || |d| - k < 8 + FromLe(d[k..][4..8]) + FromLe(d[k..][4..8]) % 2
    ensures Refuted(d)
  {
    forall s | AllWellFormed(s)
      ensures EncodeAll(s) != d
    {
      StuckOne(d, cs, k, s);
    }
  }

  lemma StuckOne(d: seq<Byte>, cs: seq<Chunk>, k: nat, s: seq<Chunk>)
    requires AllWellFormed(cs) && AllWellFormed(s) && k < |d| && EncodeAll(cs) == d[..k]
    requires |d| - k < 8 || |d| - k < 8 + FromLe(d[k..][4..8]) + FromLe(d[k..][4..8]) % 2
    ensures EncodeAll(s) != d
  {
    if EncodeAll(s) == d {
      PrefixUnique(cs, s);
      if s[|cs|..] != [] {
        HeadOf(s[|cs|..]);
      }
    }
  }

  /** So does a first fmt chunk that is too small. */
  lemma ShortFmt(d: seq<Byte>, cs: seq<Chunk>, k: nat, c: Chunk)
    requires AllWellFormed(cs) && WellFormed(c) && k <= |d| && EncodeAll(cs + [c]) == d[..k]
    requires First(cs, FMT).Missing? && c.id == FMT && |c.body| < 16
    ensures Refuted(d)
  {
    forall s | AllWellFormed(s) && EncodeAll(s) == d
      ensures !Acceptable(s)
    {
      PrefixUnique(cs + [c], s);
      FirstAppend(cs, c, FMT);
      FirstPrefix(cs + [c], s, FMT);
    }
  }

  /** Walk the chunks of the RIFF body, keeping the first fmt and data chunks. */
  method Walk(d: seq<Byte>) returns (ok: bool, fmt: Found, data: Found, ghost cs: seq<Chunk>)
    ensures ok ==> AllWellFormed(cs) && EncodeAll(cs) == d && fmt == First(cs, FMT) && data == First(cs, DATA)
    ensures ok && fmt.Found? ==> |fmt.body| >= 16
    ensures !ok ==> Refuted(d)
  {
    hide WellFormed, Encode, EncodeAll, First, Refuted;
    fmt, data, cs := Missing, Missing, [];
    NoChunks();
    var offset := 0;
    while offset < |d|
      invariant offset <= |d| && AllWellFormed(cs) && EncodeAll(cs) == d[..offset]
      invariant fmt == First(cs, FMT) && data == First(cs, DATA) && (fmt.Found? ==> |fmt.body| >= 16)
    {
      if |d| - offset < 8 {
        Stuck(d, cs, offset);
        return false, fmt, data, cs;
      }
      var size := U32(d, offset + 4);
      assert d[offset..][4..8] == d[offset + 4..offset + 8];
      if size > |d| - offset - 8 {
        Stuck(d, cs, offset);
        return false, fmt, data, cs;
      }
      if size % 2 != 0 && offset + 8 + size == |d| {
        Stuck(d, cs, offset);
        return false, fmt, data, cs;
      }
      ghost var c := HeadIs(d[offset..], size);
      var next := offset + 8 + size + size % 2;
      EncodeAppend(cs, c);
      assert d[..next] == d[..offset] + d[offset..][..next - offset];
      FirstAppend(cs, c, FMT);
      FirstAppend(cs, c, DATA);
      var id, body := d[offset..offset + 4], d[offset + 8..offset + 8 + size];
      assert id == d[offset..][..4] && body == d[offset..][8..8 + size];
      if id == FMT && fmt.Missing? {
        if size < 16 {
          ShortFmt(d, cs, next, c);
          return false, fmt, data, cs;
        }
        fmt := Found(body);
      } else if id == DATA && data.Missing? {
        data := Found(body);
      }
      cs := cs + [c];
      offset := next;
    }
    assert d[..offset] == d;
    ok := true;
  }

  lemma NoChunks()
    ensures EncodeAll([]) == [] && First([], FMT) == Missing == First([], DATA)
  {
  }

  /** Parse a request body: accepted exactly when it is a RIFF file of chunks that make an acceptable recording, and
      then the samples are those of its first data chunk. */
  method ParsePcm16Wav(body: seq<Byte>) returns (r: Result)
    ensures r.Ok? ==> exists cs :: IsRiff(body, cs) && Acceptable(cs) && r.samples == Samples(First(cs, DATA).body)
    ensures forall cs :: IsRiff(body, cs) && Acceptable(cs) ==> r == Ok(Samples(First(cs, DATA).body))
    ensures r.Ok? ==> |body| >= 12 && body[..4] == Ascii("RIFF") && body[8..12] == Ascii("WAVE")
  {
    Tags();
    hide First, EncodeAll, Samples;
    if |body| < 12 || body[..4] != RIFF || body[8..12] != WAVE {
      NotRiff(body);
      return Failure;
    }
    var riffEnd := U32(body, 4) + 8;
    if riffEnd < 12 || riffEnd > |body| {
      NotRiff(body);
      return Failure;
    }
    var ok, fmt, data; ghost var cs;
    ok, fmt, data, cs := Walk(body[12..riffEnd]);
    RiffIs(body, riffEnd);
    if !ok || fmt.Missing? || data.Missing? || !Supported(fmt.body) {
      if ok {
        OnlyList(body, riffEnd, cs);
      }
      return Failure;
    }
    OnlyList(body, riffEnd, cs);
    r := MakeAudio(data.body);
  }

  /** A body that is a RIFF file starts with its header. */
  lemma NotRiff(body: seq<Byte>)
    ensures forall cs :: IsRiff(body, cs) ==>
      |body| >= 12 && body[..4] == RIFF && body[8..12] == WAVE && 12 <= U32(body, 4) + 8 <= |body|
  {
    forall cs | IsRiff(body, cs)
      ensures |body| >= 12 && body[..4] == RIFF && body[8..12] == WAVE && 12 <= U32(body, 4) + 8 <= |body|
    {
      RiffHeader(body, cs);
    }
  }

  lemma Inside(b: seq<Byte>, n: nat, i: nat, j: nat)
    requires i <= j <= n <= |b|
    ensures b[i..j] == b[..n][i..j]
  {
  }

  lemma HeaderAndRest(b: seq<Byte>, n: nat)
    requires 12 <= n <= |b|
    ensures b[..n] == b[..4] + b[4..8] + b[8..12] + b[12..n]
  {
  }

  lemma RiffHeader(body: seq<Byte>, cs: seq<Chunk>)
    requires IsRiff(body, cs)
    ensures |body| >= 12 && body[..4] == RIFF && body[8..12] == WAVE
    ensures U32(body, 4) == 4 + |EncodeAll(cs)| && 12 + |EncodeAll(cs)| <= |body| && body[12..12 + |EncodeAll(cs)|] == EncodeAll(cs)
  {
    hide Le;
    var size := 4 + |EncodeAll(cs)|;
    Parts(RIFF, Le(size, 4), WAVE, [], EncodeAll(cs));
    LeRoundTrip(size, 4);
    var h := body[..8 + size];
    assert RIFF + Le(size, 4) + WAVE + [] + EncodeAll(cs) == h;
    Inside(body, 8 + size, 0, 4);
    Inside(body, 8 + size, 4, 8);
    Inside(body, 8 + size, 8, 12);
    Inside(body, 8 + size, 12, 8 + size);
    assert h[12..8 + size] == h[12..] && h[0..4] == h[..4] && body[0..4] == body[..4];
  }

  /** The chunk lists of a body are those that encode its RIFF payload. */
  lemma RiffIs(body: seq<Byte>, riffEnd: nat)
    requires |body| >= 12 && body[..4] == RIFF && body[8..12] == WAVE && riffEnd == U32(body, 4) + 8 && 12 <= riffEnd <= |body|
    ensures forall cs :: IsRiff(body, cs) <==> AllWellFormed(cs) && EncodeAll(cs) == body[12..riffEnd]
  {
    forall cs
      ensures IsRiff(body, cs) <==> AllWellFormed(cs) && EncodeAll(cs) == body[12..riffEnd]
    {
      RiffOf(body, riffEnd, cs);
    }
  }

  lemma RiffOf(body: seq<Byte>, riffEnd: nat, cs: seq<Chunk>)
    requires |body| >= 12 && body[..4] == RIFF && body[8..12] == WAVE && riffEnd == U32(body, 4) + 8 && 12 <= riffEnd <= |body|
    ensures IsRiff(body, cs) <==> AllWellFormed(cs) && EncodeAll(cs) == body[12..riffEnd]
  {
    hide EncodeAll, Le, AllWellFormed;
    FromLeRange(body[4..8]);
    HeaderAndRest(body, riffEnd);
    if IsRiff(body, cs) {
      RiffHeader(body, cs);
    }
  }

  /** There is at most one of them. */
  lemma OnlyList(body: seq<Byte>, riffEnd: nat, cs: seq<Chunk>)
    requires 12 <= riffEnd <= |body| && AllWellFormed(cs) && EncodeAll(cs) == body[12..riffEnd]
    ensures forall s :: AllWellFormed(s) && EncodeAll(s) == body[12..riffEnd] ==> s == cs
  {
    forall s | AllWellFormed(s) && EncodeAll(s) == body[12..riffEnd]
      ensures s == cs
    {
      PrefixUnique(cs, s);
      PrefixUnique(s, cs);
    }
  }
}
