/** Incremental SHA-256 as the diagnostics use it: any split of the data gives the digest of the whole, with the padding
    of section 5.1.1 of FIPS 180-4, and asking for the digest does not disturb the running state. The compression of one
    block is a parameter. */
module Sha256 {
  import opened RingMath
  import opened Bytes

  type State = seq<bv32>
  type Compress = (State, seq<Byte>) -> State

  const BLOCK := 64
  const WORD64 := 0x1_0000_0000_0000_0000
  const INIT: State := [0x6a09e667, 0xbb67ae85, 0x3c6ef372, 0xa54ff53a, 0x510e527f, 0x9b05688c, 0x1f83d9ab, 0x5be0cd19]

  /** The initial words are the first 32 fractional bits of the square roots of the first eight primes (section 5.3.3 of
      FIPS 180-4). */
  lemma InitialWords(i: nat)
    requires i < 8
    ensures |INIT| == 8
    ensures var p, x := [2, 3, 5, 7, 11, 13, 17, 19][i], [1, 1, 2, 2, 3, 3, 4, 4][i] * 0x1_0000_0000 + INIT[i] as int;
            x * x < p * WORD64 < (x + 1) * (x + 1)
  {
  }

  /** Compress whole blocks one after the other. */
  function Absorb(f: Compress, h: State, data: seq<Byte>): State
    requires |data| % BLOCK == 0
    decreases |data|
  {
    if |data| == 0 then h else Absorb(f, f(h, data[..BLOCK]), data[BLOCK..])
  }

  lemma AbsorbStep(f: Compress, h: State, data: seq<Byte>)
    requires |data| % BLOCK == 0
    ensures Absorb(f, h, data) == if |data| == 0 then h else Absorb(f, f(h, data[..BLOCK]), data[BLOCK..])
  {
  }

  lemma {:induction false} AbsorbConcat(f: Compress, h: State, a: seq<Byte>, b: seq<Byte>)
    requires |a| % BLOCK == 0 && |b| % BLOCK == 0
    ensures Absorb(f, h, a + b) == Absorb(f, Absorb(f, h, a), b)
    decreases |a|
  {
    hide Absorb;
    AbsorbStep(f, h, a);
    AbsorbStep(f, h, a + b);
    if |a| == 0 {
      assert a + b == b;
    } else {
      assert (a + b)[..BLOCK] == a[..BLOCK] && (a + b)[BLOCK..] == a[BLOCK..] + b;
      AbsorbConcat(f, f(h, a[..BLOCK]), a[BLOCK..], b);
    }
  }

  lemma AbsorbBlock(f: Compress, h: State, a: seq<Byte>, b: seq<Byte>)
    requires |a| % BLOCK == 0 && |b| == BLOCK
    ensures Absorb(f, h, a + b) == f(Absorb(f, h, a), b)
  {
    hide Absorb;
    AbsorbConcat(f, h, a, b);
    AbsorbStep(f, Absorb(f, h, a), b);
    AbsorbStep(f, f(Absorb(f, h, a), b), []);
    assert b[..BLOCK] == b && b[BLOCK..] == [];
  }

  /** The eight big-endian bytes of a 64-bit number. */
  function Be64(n: nat): (b: seq<Byte>)
    requires n < WORD64
    ensures |b| == 8
  {
    seq(8, i requires 0 <= i < 8 => ByteAt(n, i))
  }

  function ByteAt(n: nat, i: nat): Byte
    requires i < 8
  {
    n / Range(7 - i) % 256
  }

  function FromBe(b: seq<Byte>): nat {
    if b == [] then 0 else 256 * FromBe(b[..|b| - 1]) + b[|b| - 1]
  }

  /** Most significant byte first. */
  lemma Be64Value(n: nat)
    requires n < WORD64
    ensures FromBe(Be64(n)) == n
  {
    var b := Be64(n);
    Be64Prefix(n, 8);
    assert b[..8] == b && Range(0) == 1;
  }

  lemma {:induction false} Be64Prefix(n: nat, i: nat)
    requires n < WORD64 && i <= 8
    ensures FromBe(Be64(n)[..i]) == n / Range(8 - i)
  {
    var b := Be64(n);
    if i == 0 {
      Ranges();
      ModUnique(n, 0, n, WORD64);
      assert b[..0] == [];
    } else {
      Be64Prefix(n, i - 1);
      var r := Range(8 - i);
      DivideLast(n, r);
      assert b[..i][..i - 1] == b[..i - 1] && b[..i][i - 1] == b[i - 1] == n / r % 256;
    }
  }

  /** Zero bytes between the 0x80 marker and the length: fewer than a block, so the fewest that complete the last one. */
  function ZeroCount(n: nat): (k: nat)
    ensures k < BLOCK && (n + 1 + k) % BLOCK == 56 && (n + 1 + k + 8) % BLOCK == 0
  {
    (119 - n % BLOCK) % BLOCK
  }

  /** Message padding: the marker, the zeros, and the bit length modulo 2^64. */
  function Padded(m: seq<Byte>): (p: seq<Byte>)
    ensures |p| % BLOCK == 0 && m <= p
  {
    m + [0x80] + seq(ZeroCount(|m|), _ => 0) + Be64(8 * |m| % WORD64)
  }

  /** The padded message is the message, a byte 0x80, as few zeros as complete the last block, and the bit length in eight
      bytes, most significant first. */
  lemma PaddedShape(m: seq<Byte>)
    ensures var p, n := Padded(m), |m|;
            && |p| % 64 == 0 && n + 9 <= |p| < n + 9 + 64 && p[..n] == m && p[n] == 0x80
            && (forall i :: n < i < |p| - 8 ==> p[i] == 0)
            && FromBe(p[|p| - 8..]) == 8 * n % 0x1_0000_0000_0000_0000
  {
    hide Be64;
    var p := Padded(m);
    Be64Value(8 * |m| % WORD64);
    assert p[|p| - 8..] == Be64(8 * |m| % WORD64);
  }

  function Digest(f: Compress, m: seq<Byte>): State {
    Absorb(f, INIT, Padded(m))
  }

  const DIGITS := "0123456789abcdef"

  function HexByte(b: bv8): (s: string)
    ensures |s| == 2
  {
    [DIGITS[(b >> 4) as int], DIGITS[(b & 0xf) as int]]
  }

  function Octet(w: bv32, j: nat): bv8
    requires j < 4
  {
    ((match j case 0 => w case 1 => w >> 8 case 2 => w >> 16 case _ => w >> 24) & 0xff) as bv8
  }

  function HexWord(w: bv32): string {
    HexByte(Octet(w, 3)) + HexByte(Octet(w, 2)) + HexByte(Octet(w, 1)) + HexByte(Octet(w, 0))
  }

  function Hex(h: State): string {
    if h == [] then [] else HexWord(h[0]) + Hex(h[1..])
  }

  /** The bytes of a word, by significance. */
  lemma Octets(w: bv32)
    ensures Octet(w, 3) == ((w >> 24) & 0xff) as bv8 && Octet(w, 2) == ((w >> 16) & 0xff) as bv8
    ensures Octet(w, 1) == ((w >> 8) & 0xff) as bv8 && Octet(w, 0) == (w & 0xff) as bv8
  {
  }

  function HexDigit(nibble: bv8): char
    requires nibble <= 0xf
  {
    "0123456789abcdef"[nibble as int]
  }

  /** The high nibble first, in lower case. */
  lemma HexByteIs(b: bv8)
    ensures b >> 4 <= 0xf && b & 0xf <= 0xf && HexByte(b) == [HexDigit(b >> 4), HexDigit(b & 0xf)]
  {
  }

  /** Two digits a byte, the most significant byte first. */
  lemma HexWordBytes(w: bv32, j: nat)
    requires j < 4
    ensures |HexWord(w)| == 8 && HexWord(w)[2 * j..2 * j + 2] == HexByte(Octet(w, 3 - j))
  {
    hide HexByte, Octet;
  }

  lemma HexStep(h: State)
    requires h != []
    ensures Hex(h) == HexWord(h[0]) + Hex(h[1..]) && |HexWord(h[0])| == 8
  {
    HexWordBytes(h[0], 0);
  }

  lemma SliceBehind(a: string, b: string, j: nat)
    requires |a| == 8 && j + 8 <= |b|
    ensures (a + b)[..8] == a && (a + b)[j + 8..j + 16] == b[j..j + 8]
  {
  }

  lemma {:induction false} HexAt(h: State, i: nat)
    requires i < |h|
    ensures |Hex(h)| == 8 * |h| && Hex(h)[8 * i..8 * i + 8] == HexWord(h[i])
  {
    hide HexWord, Hex;
    HexLength(h);
    HexLength(h[1..]);
    HexStep(h);
    if i == 0 {
      assert Hex(h)[0..8] == HexWord(h[0]);
    } else {
      HexAt(h[1..], i - 1);
      SliceBehind(HexWord(h[0]), Hex(h[1..]), 8 * (i - 1));
    }
  }

  lemma {:induction false} HexLength(h: State)
    ensures |Hex(h)| == 8 * |h|
  {
    hide HexWord;
    if h != [] {
      HexStep(h);
      HexLength(h[1..]);
    }
  }

  /** A running hash: whole blocks of the data compressed into h, the rest of it waiting in `tail`. */
  ghost predicate Running(f: Compress, h: State, tail: seq<Byte>, data: seq<Byte>) {
    && |tail| == |data| % BLOCK && tail == data[|data| - |tail|..]
    && h == Absorb(f, INIT, data[..|data| - |tail|])
  }

  lemma Parted(data: seq<Byte>, tail: seq<Byte>, bytes: seq<Byte>)
    requires |tail| <= |data| && tail == data[|data| - |tail|..]
    ensures var n := |data| - |tail|;
            data + bytes == data[..n] + (tail + bytes) && (data + bytes)[..n] == data[..n] && (data + bytes)[n..] == tail + bytes
  {
  }

  lemma RunningStep(f: Compress, h: State, tail: seq<Byte>, data: seq<Byte>, bytes: seq<Byte>)
    requires Running(f, h, tail, data) && |tail| + |bytes| <= BLOCK
    ensures if |tail| + |bytes| == BLOCK then Running(f, f(h, tail + bytes), [], data + bytes)
            else Running(f, h, tail + bytes, data + bytes)
  {
    hide Absorb;
    var whole := data[..|data| - |tail|];
    var next := data + bytes;
    Parted(data, tail, bytes);
    if |tail| + |bytes| == BLOCK {
      AbsorbBlock(f, INIT, whole, tail + bytes);
      assert next[..|next|] == next;
    }
  }

  class Sha256 {
    const f: Compress
    var h: State
    var len: nat               // bytes, modulo 2^64
    const buf: array<Byte>
    var bufLen: nat

    ghost var data: seq<Byte>   // everything hashed since reset

    /** The state is a function of the data alone. */
    ghost predicate Valid()
      reads this, buf
    {
      && buf.Length == BLOCK && bufLen < BLOCK && len == |data| % WORD64
      && Running(f, h, buf[..bufLen], data)
    }

    constructor (f: Compress)
      ensures Valid() && data == [] && this.f == f && fresh(buf)
    {
      this.f := f;
      buf := new Byte[BLOCK](_ => 0);
      h, len, bufLen, data := INIT, 0, 0, [];
    }

    /** A copy of the running state. */
    constructor Copy(s: Sha256)
      requires s.Valid()
      ensures Valid() && data == s.data && f == s.f && fresh(buf)
    {
      f := s.f;
      var bytes := s.buf[..];
      buf := new Byte[BLOCK](i requires 0 <= i < BLOCK => bytes[i]);
      h, len, bufLen, data := s.h, s.len, s.bufLen, s.data;
      new;
      assert buf[..] == s.buf[..];
      assert buf[..bufLen] == s.buf[..][..bufLen];
    }

    method Reset()
      requires buf.Length == BLOCK
      modifies this
      ensures Valid() && data == []
    {
      h, len, bufLen, data := INIT, 0, 0, [];
    }

    method CopyIn(bytes: seq<Byte>)
      requires buf.Length == BLOCK && bufLen + |bytes| <= BLOCK
      modifies buf
      ensures buf[..bufLen + |bytes|] == old(buf[..bufLen]) + bytes
    {
      for i := 0 to |bytes|
        invariant buf[..bufLen + i] == old(buf[..bufLen]) + bytes[..i]
      {
        buf[bufLen + i] := bytes[i];
      }
      assert bytes[..|bytes|] == bytes;
    }

    /** Buffer the next bytes; a full buffer is compressed. */
    method Take(bytes: seq<Byte>)
      requires buf.Length == BLOCK && bufLen < BLOCK && bufLen + |bytes| <= BLOCK && Running(f, h, buf[..bufLen], data)
      modifies this`h, this`bufLen, this`data, buf
      ensures bufLen < BLOCK && Running(f, h, buf[..bufLen], data) && data == old(data) + bytes
    {
      hide Running;
      RunningStep(f, h, buf[..bufLen], data, bytes);
      CopyIn(bytes);
      bufLen := bufLen + |bytes|;
      data := data + bytes;
      if bufLen == BLOCK {
        h := f(h, buf[..bufLen]);
        bufLen := 0;
        assert buf[..bufLen] == [];
      }
    }

    method Update(bytes: seq<Byte>)
      requires Valid()
      modifies this`h, this`len, this`bufLen, this`data, buf
      ensures Valid() && data == old(data) + bytes
    {
      hide Running;
      len := (len + |bytes|) % WORD64;
      var at := 0;
      while at < |bytes|
        invariant at <= |bytes| && data == old(data) + bytes[..at] && bufLen < BLOCK
        invariant Running(f, h, buf[..bufLen], data)
        modifies this`h, this`bufLen, this`data, buf
      {
        var take := Min(BLOCK - bufLen, |bytes| - at);
        assert bytes[..at] + bytes[at..at + take] == bytes[..at + take];
        Take(bytes[at..at + take]);
        at := at + take;
      }
      assert bytes[..at] == bytes;
    }

    lemma BufLenIs()
      requires Valid()
      ensures bufLen == |data| % BLOCK
    {
    }

    /** Zero bytes up to the length field. */
    method PadZeros(ghost m: seq<Byte>)
      requires Valid() && data == m + [0x80]
      modifies this`h, this`len, this`bufLen, this`data, buf
      ensures Valid() && data == m + [0x80] + seq(ZeroCount(|m|), _ => 0)
    {
      hide Valid;
      ghost var zeros := 0;
      BufLenIs();
      while bufLen != 56
        invariant Valid() && bufLen == |data| % BLOCK
        invariant zeros <= ZeroCount(|m|) && data == m + [0x80] + seq(zeros, _ => 0)
        decreases ZeroCount(|m|) - zeros
      {
        Update([0]);
        BufLenIs();
        assert seq(zeros, _ => 0 as Byte) + [0] == seq(zeros + 1, _ => 0 as Byte);
        zeros := zeros + 1;
      }
      ZerosDone(|m|, zeros);
    }

    /** When the padding is complete no byte is buffered. */
    lemma Finalised(m: seq<Byte>)
      requires Valid() && data == Padded(m)
      ensures h == Digest(f, m)
    {
      assert data[..|data|] == data;
    }

    lemma LenIs()
      requires Valid()
      ensures len == |data| % WORD64
    {
    }

    /** Finalise a copy; this object is unchanged. */
    method HexDigest() returns (out: string)
      requires Valid()
      ensures out == Hex(Digest(f, data))
    {
      hide Valid, Digest;
      var s := new Sha256.Copy(this);
      s.LenIs();
      BitLength(|data|);
      var bits := s.len * 8 % WORD64;
      s.Update([0x80]);
      s.PadZeros(data);
      var lenbe := BigEndian(bits);
      s.Update(lenbe);
      s.Finalised(data);
      out := Render(s.h);
    }
  }

  lemma ZerosDone(n: nat, zeros: nat)
    requires zeros <= ZeroCount(n) && (n + 1 + zeros) % BLOCK == 56
    ensures zeros == ZeroCount(n)
  {
  }

  /** The 64-bit counter of bytes gives the bit length modulo 2^64. */
  lemma BitLength(n: nat)
    ensures (n % WORD64) * 8 % WORD64 == 8 * n % WORD64
  {
  }

  method BigEndian(bits: nat) returns (b: seq<Byte>)
    requires bits < WORD64
    ensures b == Be64(bits)
  {
    hide ByteAt;
    b := [];
    for i := 0 to 8
      invariant b == Be64(bits)[..i]
    {
      b := b + [ByteAt(bits, i)];
    }
  }

  method RenderWord(w: bv32) returns (out: string)
    ensures out == HexWord(w)
  {
    hide HexByte, Octet;
    out := HexByte(Octet(w, 3));
    out := out + HexByte(Octet(w, 2));
    out := out + HexByte(Octet(w, 1));
    out := out + HexByte(Octet(w, 0));
  }

  method Render(h: State) returns (out: string)
    ensures out == Hex(h)
  {
    hide HexWord;
    out := "";
    assert h[0..] == h;
    for i := 0 to |h|
      invariant out + Hex(h[i..]) == Hex(h)
    {
      assert h[i..][1..] == h[i + 1..];
      assert out + (HexWord(h[i]) + Hex(h[i + 1..])) == (out + HexWord(h[i])) + Hex(h[i + 1..]);
      var word := RenderWord(h[i]);
      out := out + word;
    }
  }
}
