/** Bytes, little-endian integers and 16-bit PCM samples. */
module Bytes {
  import RingMath

  type Byte = x: int | 0 <= x < 256

  /** Number of values of w bytes. */
  function Range(w: nat): (r: nat)
    ensures r > 0
  {
    if w == 0 then 1 else 256 * Range(w - 1)
  }

  function Le(n: nat, w: nat): (b: seq<Byte>)
    ensures |b| == w
  {
    if w == 0 then [] else [n % 256] + Le(n / 256, w - 1)
  }

  function FromLe(b: seq<Byte>): nat {
    if b == [] then 0 else b[0] + 256 * FromLe(b[1..])
  }

  /** Byte i of a little-endian number is its i-th digit to base 256. */
  lemma {:induction false} LeDigit(n: nat, w: nat, i: nat)
    requires i < w
    ensures Le(n, w)[i] == n / Range(i) % 256
  {
    if i > 0 {
      LeDigit(n / 256, w - 1, i - 1);
      DivideTwice(n, Range(i - 1));
    }
  }

  lemma DivideTwice(n: nat, r: nat)
    requires 0 < r
    ensures n / 256 / r == n / (256 * r)
  {
    var q, a := n / 256, n % 256;
    var p, b := q / r, q % r;
    assert q == p * r + b;
    assert n == 256 * (p * r) + (256 * b + a);
    Regroup(p, r);
    RingMath.ModUnique(n, p, 256 * b + a, 256 * r);
  }

  /** One more digit in front. */
  lemma DivideLast(n: nat, r: nat)
    requires 0 < r
    ensures n / r == 256 * (n / (256 * r)) + n / r % 256
  {
    var q := n / r;
    assert q / 256 == n / (256 * r) by {
      var p, c, m := q / 256, q % 256, n % r;
      assert n == q * r + m;
      Spread(p, c, r);
      RingMath.MulMonotone(c, 255, r);
      RingMath.ModUnique(n, p, c * r + m, 256 * r);
    }
  }

  lemma Regroup(p: nat, r: nat)
    ensures 256 * (p * r) == p * (256 * r)
  {
  }

  lemma Spread(p: nat, c: nat, r: nat)
    ensures (256 * p + c) * r == p * (256 * r) + c * r
  {
  }

  lemma Ranges()
    ensures Range(0) == 1 && Range(1) == 0x100 && Range(2) == 0x1_0000 && Range(3) == 0x100_0000 && Range(4) == 0x1_0000_0000
    ensures Range(8) == 0x1_0000_0000_0000_0000
  {
  }

  /** The bytes of an ASCII text. */
  function Ascii(s: string): (b: seq<Byte>)
    requires forall i :: 0 <= i < |s| ==> s[i] as int < 128
    ensures |b| == |s| && forall i :: 0 <= i < |s| ==> b[i] == s[i] as int
  {
    seq(|s|, i requires 0 <= i < |s| => s[i] as int)
  }

  lemma {:induction false} LeRoundTrip(n: nat, w: nat)
    requires n < Range(w)
    ensures FromLe(Le(n, w)) == n
  {
    if w > 0 {
      LeRoundTrip(n / 256, w - 1);
      assert Le(n, w)[1..] == Le(n / 256, w - 1);
    }
  }

  lemma {:induction false} FromLeRange(b: seq<Byte>)
    ensures FromLe(b) < Range(|b|)
    ensures Le(FromLe(b), |b|) == b
  {
    if b != [] {
      FromLeRange(b[1..]);
      assert FromLe(b) / 256 == FromLe(b[1..]) && FromLe(b) % 256 == b[0];
    }
  }

  /** A signed 16-bit sample from its two bytes. */
  function Sample(low: Byte, high: Byte): (s: int)
    ensures -32768 <= s < 32768 && (s - (low + 256 * high)) % 65536 == 0
  {
    var u := low + 256 * high;
    if u >= 0x8000 then u - 0x1_0000 else u
  }

  function Samples(bytes: seq<Byte>): (s: seq<int>)
    requires |bytes| % 2 == 0
    ensures |s| == |bytes| / 2
    ensures forall i :: 0 <= i < |s| ==> -32768 <= s[i] < 32768 && (s[i] - (bytes[2 * i] as int + 256 * (bytes[2 * i + 1] as int))) % 65536 == 0
  {
    seq(|bytes| / 2, i requires 0 <= i < |bytes| / 2 => Sample(bytes[2 * i], bytes[2 * i + 1]))
  }
}
