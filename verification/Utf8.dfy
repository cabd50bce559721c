/** The two UTF-8 scanners: the strict forward scan of the public API and the cheap backward scan of the
    incremental detokenizer. */
module Utf8 {
  type byte = bv8

  predicate Tail(b: byte) {
    b & 0xC0 == 0x80
  }

  /** Lead and second byte of a three-byte and of a four-byte character. */
  predicate Pair3(lead: byte, second: byte) {
    || (lead == 0xE0 && 0xA0 <= second <= 0xBF)
    || (0xE1 <= lead <= 0xEC && Tail(second))
    || (lead == 0xED && 0x80 <= second <= 0x9F)
    || (0xEE <= lead <= 0xEF && Tail(second))
  }

  predicate Pair4(lead: byte, second: byte) {
    || (lead == 0xF0 && 0x90 <= second <= 0xBF)
    || (0xF1 <= lead <= 0xF3 && Tail(second))
    || (lead == 0xF4 && 0x80 <= second <= 0x8F)
  }

  /** Length of the well-formed character at the start of s, or 0 (section 4 of RFC 3629). */
  function CharLen(s: seq<byte>): (w: nat)
    ensures w <= 4 && w <= |s|
  {
    if |s| >= 1 && s[0] <= 0x7F then 1
    else if |s| >= 2 && 0xC2 <= s[0] <= 0xDF && Tail(s[1]) then 2
    else if |s| >= 3 && Pair3(s[0], s[1]) && Tail(s[2]) then 3
    else if |s| >= 4 && Pair4(s[0], s[1]) && Tail(s[2]) && Tail(s[3]) then 4
    else 0
  }

  /** Unicode scalar values, and their encoding (section 3 of RFC 3629). */
  predicate Scalar(c: bv32) {
    c <= 0x10FFFF && !(0xD800 <= c <= 0xDFFF)
  }

  function Encode(c: bv32): seq<byte>
    requires Scalar(c)
  {
    if c <= 0x7F then [c as byte]
    else if c <= 0x7FF then [(0xC0 | (c >> 6)) as byte, (0x80 | (c & 0x3F)) as byte]
    else if c <= 0xFFFF then [(0xE0 | (c >> 12)) as byte, (0x80 | ((c >> 6) & 0x3F)) as byte, (0x80 | (c & 0x3F)) as byte]
    else [(0xF0 | (c >> 18)) as byte, (0x80 | ((c >> 12) & 0x3F)) as byte, (0x80 | ((c >> 6) & 0x3F)) as byte,
          (0x80 | (c & 0x3F)) as byte]
  }

  /** Every scalar value is recognised whole. */
  lemma EncodedIsChar(c: bv32)
    requires Scalar(c)
    ensures CharLen(Encode(c)) == |Encode(c)| > 0
  {
  }

  lemma TwoBytes(a: byte, b: byte) returns (c: bv32)
    requires 0xC2 <= a <= 0xDF && Tail(b)
    ensures Scalar(c) && Encode(c) == [a, b]
  {
    c := ((a & 0x1F) as bv32 << 6) | (b & 0x3F) as bv32;
  }

  lemma ThreeBytes(a: byte, b: byte, d: byte) returns (c: bv32)
    requires Pair3(a, b) && Tail(d)
    ensures Scalar(c) && Encode(c) == [a, b, d]
  {
    c := ((a & 0x0F) as bv32 << 12) | ((b & 0x3F) as bv32 << 6) | (d & 0x3F) as bv32;
  }

  lemma FourBytes(a: byte, b: byte, d: byte, e: byte) returns (c: bv32)
    requires Pair4(a, b) && Tail(d) && Tail(e)
    ensures Scalar(c) && Encode(c) == [a, b, d, e]
  {
    c := ((a & 0x07) as bv32 << 18) | ((b & 0x3F) as bv32 << 12) | ((d & 0x3F) as bv32 << 6) | (e & 0x3F) as bv32;
  }

  /** Everything recognised is the encoding of a scalar value: no overlong form, no surrogate, nothing past 10FFFF. */
  lemma CharIsEncoded(s: seq<byte>) returns (c: bv32)
    requires CharLen(s) > 0
    ensures Scalar(c) && Encode(c) == s[..CharLen(s)]
  {
    hide Pair3, Pair4, Tail, Encode, Scalar;
    var w := CharLen(s);
    if w == 1 {
      c := s[0] as bv32;
      OneByte(s[0]);
      assert s[..1] == [s[0]];
    } else if w == 2 {
      c := TwoBytes(s[0], s[1]);
      assert s[..2] == [s[0], s[1]];
    } else if w == 3 {
      c := ThreeBytes(s[0], s[1], s[2]);
      assert s[..3] == [s[0], s[1], s[2]];
    } else {
      c := FourBytes(s[0], s[1], s[2], s[3]);
      assert s[..4] == [s[0], s[1], s[2], s[3]];
    }
  }

  lemma OneByte(a: byte)
    requires a <= 0x7F
    ensures Scalar(a as bv32) && Encode(a as bv32) == [a]
  {
  }

  predicate WellFormed(s: seq<byte>) {
    s == [] || (CharLen(s) > 0 && WellFormed(s[CharLen(s)..]))
  }

  /** A character is recognised from its own bytes alone. */
  lemma CharLenExtends(s: seq<byte>, more: seq<byte>)
    ensures CharLen(s) > 0 ==> CharLen(s + more) == CharLen(s)
  {
    if CharLen(s) > 0 {
      var t := s + more;
      assert t[0] == s[0];
      assert |s| >= 2 ==> t[1] == s[1];
      assert |s| >= 3 ==> t[2] == s[2];
      assert |s| >= 4 ==> t[3] == s[3];
      LeadsDisjoint(s[0], if |s| > 1 then s[1] else 0);
      LeadsDisjoint(t[0], if |t| > 1 then t[1] else 0);
    }
  }

  lemma LeadsDisjoint(lead: byte, second: byte)
    ensures Pair3(lead, second) ==> 0xE0 <= lead <= 0xEF && Tail(second)
    ensures Pair4(lead, second) ==> 0xF0 <= lead <= 0xF4 && Tail(second)
  {
  }

  /** Well-formed text splits behind any well-formed prefix. */
  lemma {:induction false} WellFormedSplit(a: seq<byte>, b: seq<byte>)
    requires WellFormed(a)
    ensures WellFormed(a + b) <==> WellFormed(b)
  {
    if a == [] {
      assert a + b == b;
    } else {
      var w := CharLen(a);
      CharLenExtends(a, b);
      assert (a + b)[w..] == a[w..] + b;
      WellFormedSplit(a[w..], b);
    }
  }

  predicate Scalars(cs: seq<bv32>) {
    forall i :: 0 <= i < |cs| ==> Scalar(cs[i])
  }

  function EncodeAll(cs: seq<bv32>): seq<byte>
    requires Scalars(cs)
  {
    if cs == [] then [] else Encode(cs[0]) + EncodeAll(cs[1..])
  }

  /** Encoded text is well formed. */
  lemma {:induction false} EncodedIsWellFormed(cs: seq<bv32>)
    requires Scalars(cs)
    ensures WellFormed(EncodeAll(cs))
  {
    hide Encode, CharLen, Scalar;
    if cs != [] {
      EncodedIsWellFormed(cs[1..]);
      var s, rest := Encode(cs[0]), EncodeAll(cs[1..]);
      EncodedIsChar(cs[0]);
      CharLenExtends(s, rest);
      assert (s + rest)[|s|..] == rest;
    }
  }

  /** And well-formed text is the encoding of a sequence of scalar values. */
  lemma {:induction false} WellFormedIsEncoded(s: seq<byte>) returns (cs: seq<bv32>)
    requires WellFormed(s)
    ensures Scalars(cs) && EncodeAll(cs) == s
  {
    hide Encode, CharLen, Scalar;
    if s == [] {
      cs := [];
    } else {
      var w := CharLen(s);
      var c := CharIsEncoded(s);
      var rest := WellFormedIsEncoded(s[w..]);
      cs := [c] + rest;
      assert cs[1..] == rest && s == s[..w] + s[w..];
    }
  }

  /** Longest well-formed prefix of text within the first `limit` bytes. */
  ghost predicate LongestPrefix(text: seq<byte>, limit: nat, n: nat) {
    && n <= |text| && n <= limit
    && WellFormed(text[..n])
    && forall r :: 0 <= r <= |text| && r <= limit && WellFormed(text[..r]) ==> r <= n
  }

  /** Width of the valid character starting at i and ending by `end`, or 0. */
  method ScanChar(text: seq<byte>, i: nat, end: nat) returns (width: nat)
    requires i < end <= |text|
    ensures width == CharLen(text[i..end])
  {
    ghost var s := text[i..end];
    var lead := text[i];
    LeadsDisjoint(lead, if |s| > 1 then s[1] else 0);
    if lead <= 0x7f {
      width := 1;
    } else if lead >= 0xc2 && lead <= 0xdf {
      width := 2;
    } else if lead >= 0xe0 && lead <= 0xef {
      width := 3;
    } else if lead >= 0xf0 && lead <= 0xf4 {
      width := 4;
    } else {
      return 0;
    }
    if i + width > end {
      return 0;
    }
    for j := 1 to width
      invariant forall m :: 1 <= m < j ==> Tail(s[m])
    {
      if text[i + j] & 0xc0 != 0x80 {
        assert !Tail(s[j]);
        return 0;
      }
      assert Tail(s[j]);
    }
    if width == 3 && ((lead == 0xe0 && text[i + 1] < 0xa0) || (lead == 0xed && text[i + 1] >= 0xa0)) {
      return 0;
    }
    if width == 4 && ((lead == 0xf0 && text[i + 1] < 0x90) || (lead == 0xf4 && text[i + 1] >= 0x90)) {
      return 0;
    }
    assert width >= 2 ==> Tail(s[1]);
    TailRange(if |s| > 1 then s[1] else 0);
  }

  lemma TailRange(b: byte)
    ensures Tail(b) <==> 0x80 <= b <= 0xBF
  {
  }

  method PrefixAtMost(text: seq<byte>, limit: nat) returns (stable: nat)
    ensures LongestPrefix(text, limit, stable)
  {
    var i := 0;
    stable := 0;
    var end := if |text| < limit then |text| else limit;
    while i < end
      invariant 0 <= i == stable <= end
      invariant WellFormed(text[..i])
      decreases end - i
    {
      var width := ScanChar(text, i, end);
      if width == 0 {
        NothingStarts(text, i, end);
        break;
      }
      TakeChar(text, i, width, end);
      i := i + width;
      stable := i;
    }
  }

  const EVENT_TEXT_CAPACITY := 4096

  /** Text of a public event: the longest well-formed piece of the stable part that leaves room for the terminator,
      flagged when that is not all of it. */
  method CopyEventText(source: seq<byte>, stableBytes: nat) returns (text: seq<byte>, truncated: bool)
    ensures |text| < 4096 && text <= source && |text| <= stableBytes && WellFormed(text)
    ensures forall r :: 0 <= r <= |source| && r <= stableBytes && r < 4096 && WellFormed(source[..r]) ==> r <= |text|
    ensures truncated <==> |text| < stableBytes && |text| < |source|
  {
    var available := if stableBytes < |source| then stableBytes else |source|;
    var limit := if available < EVENT_TEXT_CAPACITY - 1 then available else EVENT_TEXT_CAPACITY - 1;
    var n := PrefixAtMost(source, limit);
    text := source[..n];
    truncated := n < available;
  }

  lemma TakeChar(text: seq<byte>, i: nat, width: nat, end: nat)
    requires i <= end <= |text| && WellFormed(text[..i])
    requires CharLen(text[i..end]) == width > 0
    ensures WellFormed(text[..i + width])
  {
    var c := text[i..i + width];
    CharOfPrefix(text[i..end], width);
    assert text[i..end][..width] == c;
    assert c[width..] == [];
    assert WellFormed(c);
    assert text[..i + width] == text[..i] + c;
    WellFormedSplit(text[..i], c);
  }

  lemma SplitSlice(t: seq<byte>, a: nat, b: nat, c: nat)
    requires a <= b <= c <= |t|
    ensures t[a..c] == t[a..b] + t[b..c]
  {
  }

  /** When no character starts at i before `end`, no longer prefix is well formed. */
  lemma NothingStarts(text: seq<byte>, i: nat, end: nat)
    requires i < end <= |text| && WellFormed(text[..i])
    requires CharLen(text[i..end]) == 0
    ensures forall r :: i < r <= end ==> !WellFormed(text[..r])
  {
    forall r | i < r <= end
      ensures !WellFormed(text[..r])
    {
      SplitSlice(text, 0, i, r);
      SplitSlice(text, i, r, end);
      WellFormedSplit(text[..i], text[i..r]);
      CharLenExtends(text[i..r], text[r..end]);
    }
  }

  // ---- backward scan -------------------------------------------------------------------------------------

  /** Index behind the last byte of t[..i] that is not a continuation byte. */
  function SkipTails(t: seq<byte>, i: nat): (r: nat)
    requires i <= |t|
    ensures r <= i
    ensures r > 0 ==> !Tail(t[r - 1])
    ensures forall j :: r <= j < i ==> Tail(t[j])
  {
    if i > 0 && Tail(t[i - 1]) then SkipTails(t, i - 1) else i
  }

  /** Bytes a lead byte announces. */
  function Need(lead: byte): (n: nat)
    ensures 1 <= n <= 4
  {
    if lead & 0x80 == 0x00 then 1 else if lead & 0xE0 == 0xC0 then 2
    else if lead & 0xF0 == 0xE0 then 3 else if lead & 0xF8 == 0xF0 then 4 else 1
  }

  function StableLen(t: seq<byte>): (n: nat)
    ensures n <= |t|
  {
    var i := SkipTails(t, |t|);
    if i == 0 then |t| else if (i - 1) + Need(t[i - 1]) <= |t| then |t| else i - 1
  }

  method StablePrefix(text: seq<byte>) returns (n: nat)
    ensures n == StableLen(text)
  {
    var i := |text|;
    while i > 0 && text[i - 1] & 0xC0 == 0x80
      invariant 0 <= i <= |text| && SkipTails(text, i) == SkipTails(text, |text|)
    {
      i := i - 1;
    }
    if i == 0 {
      return |text|;
    }
    var need := Need(text[i - 1]);
    n := if (i - 1) + need <= |text| then |text| else i - 1;
  }

  /** The backward scan on any bytes: it looks at the last byte that is no continuation byte, and cuts in front of it exactly
      when it announces more bytes than there are. */
  lemma StableCuts(t: seq<byte>, i: nat)
    requires i < |t| && !(0x80 <= t[i] <= 0xBF) && forall j :: i < j < |t| ==> 0x80 <= t[j] <= 0xBF
    ensures var n := if 0xC0 <= t[i] <= 0xDF then 2 else if 0xE0 <= t[i] <= 0xEF then 3 else if 0xF0 <= t[i] <= 0xF7 then 4 else 1;
            StableLen(t) == if i + n <= |t| then |t| else i
  {
    hide StableLen, SkipTails, Need, Tail;
    forall j | i < j < |t|
      ensures Tail(t[j])
    {
      TailRange(t[j]);
    }
    TailRange(t[i]);
    SkipTailsAt(t, |t|, i);
    NeedRange(t[i]);
    StableLenIs(t);
  }

  lemma StableLenIs(t: seq<byte>)
    ensures var i := SkipTails(t, |t|);
            StableLen(t) == if i == 0 || i - 1 + Need(t[i - 1]) <= |t| then |t| else i - 1
  {
  }

  lemma NeedRange(b: byte)
    ensures Need(b) == if 0xC0 <= b <= 0xDF then 2 else if 0xE0 <= b <= 0xEF then 3 else if 0xF0 <= b <= 0xF7 then 4 else 1
  {
  }

  /** Nothing but continuation bytes is left as it is. */
  lemma {:induction false} StableOfTails(t: seq<byte>)
    requires forall j :: 0 <= j < |t| ==> 0x80 <= t[j] <= 0xBF
    ensures StableLen(t) == |t|
  {
    hide Tail;
    OnlyTails(t, |t|);
  }

  lemma {:induction false} OnlyTails(t: seq<byte>, i: nat)
    requires i <= |t| && forall j :: 0 <= j < i ==> 0x80 <= t[j] <= 0xBF
    ensures SkipTails(t, i) == 0
  {
    if i > 0 {
      TailRange(t[i - 1]);
      OnlyTails(t, i - 1);
    }
  }

  /** The stable prefix never shrinks, whatever bytes arrive. */
  lemma StableMonotone(t: seq<byte>, b: byte)
    ensures StableLen(t) <= StableLen(t + [b])
  {
    var u := t + [b];
    if Tail(b) {
      SkipTailsAppend(t, [b], |t|);
      assert SkipTails(u, |u|) == SkipTails(u, |t|);
    }
  }

  lemma {:induction false} StableMonotoneAll(t: seq<byte>, more: seq<byte>)
    ensures StableLen(t) <= StableLen(t + more)
    decreases |more|
  {
    if more == [] {
      assert t + more == t;
    } else {
      StableMonotone(t, more[0]);
      StableMonotoneAll(t + [more[0]], more[1..]);
      assert t + [more[0]] + more[1..] == t + more;
    }
  }

  lemma {:induction false} SkipTailsAppend(t: seq<byte>, more: seq<byte>, i: nat)
    requires i <= |t|
    ensures SkipTails(t + more, i) == SkipTails(t, i)
  {
    if i > 0 {
      assert (t + more)[i - 1] == t[i - 1];
      SkipTailsAppend(t, more, i - 1);
    }
  }

  lemma SkipTailsAt(t: seq<byte>, i: nat, c: nat)
    requires c < i <= |t| && !Tail(t[c])
    requires forall j :: c < j < i ==> Tail(t[j])
    ensures SkipTails(t, i) == c + 1
    decreases i
  {
    if c + 1 < i {
      SkipTailsAt(t, i - 1, c);
    }
  }

  /** A character starts with a byte that is no continuation byte and announces its length; the others follow. */
  lemma CharShape(s: seq<byte>)
    requires CharLen(s) > 0
    ensures !Tail(s[0]) && Need(s[0]) == CharLen(s)
    ensures forall j :: 1 <= j < CharLen(s) ==> Tail(s[j])
  {
    LeadsDisjoint(s[0], if |s| > 1 then s[1] else 0);
    LeadBits(s[0]);
  }

  lemma LeadBits(lead: byte)
    ensures lead <= 0x7F ==> !Tail(lead) && Need(lead) == 1
    ensures 0xC2 <= lead <= 0xDF ==> !Tail(lead) && Need(lead) == 2
    ensures 0xE0 <= lead <= 0xEF ==> !Tail(lead) && Need(lead) == 3
    ensures 0xF0 <= lead <= 0xF4 ==> !Tail(lead) && Need(lead) == 4
  {
  }

  /** StableLen(t[..n]) is the last boundary after `base`: a well-formed stretch ends there, none ends later. */
  ghost predicate BoundaryAfter(t: seq<byte>, base: nat, n: nat)
    requires base <= n <= |t|
  {
    var m := StableLen(t[..n]);
    && base <= m <= n
    && WellFormed(t[base..m])
    && forall r :: m < r <= n ==> !WellFormed(t[base..r])
  }

  /** The cut falls inside or right behind the character that starts at `base`. */
  lemma CutInChar(t: seq<byte>, base: nat, n: nat)
    requires base < n <= |t|
    requires 0 < CharLen(t[base..]) && n <= base + CharLen(t[base..])
    ensures BoundaryAfter(t, base, n)
  {
    var p, s := t[..n], t[base..];
    var w := CharLen(s);
    CharShape(s);
    assert p[base] == s[0];
    forall j | base < j < n ensures Tail(p[j]) {
      assert p[j] == s[j - base];
    }
    SkipTailsAt(p, n, base);
    if base + w == n {
      FirstChar(t, base, w, n);
      assert t[base + w..n] == [];
    } else {
      assert StableLen(p) == base;
      forall r | base < r <= n
        ensures !WellFormed(t[base..r])
      {
        CharNotShorter(s, r - base);
        assert s[..r - base] == t[base..r];
      }
    }
  }

  /** No proper prefix of a character is a character. */
  lemma CharNotShorter(s: seq<byte>, n: nat)
    requires 0 < n < CharLen(s)
    ensures CharLen(s[..n]) == 0
  {
    CharShape(s);
    LeadsDisjoint(s[0], if |s| > 1 then s[1] else 0);
  }

  lemma FirstCharFits(s: seq<byte>)
    requires WellFormed(s) && s != []
    ensures 0 < CharLen(s) <= |s| && WellFormed(s[CharLen(s)..])
  {
  }

  /** Cutting well-formed text anywhere, the backward scan returns the last character boundary. */
  lemma {:induction false} StableIsBoundary(t: seq<byte>, base: nat, n: nat)
    requires base < n <= |t| && WellFormed(t[base..])
    ensures BoundaryAfter(t, base, n)
    decreases |t| - base
  {
    hide WellFormed, CharLen, StableLen;
    var w := CharLen(t[base..]);
    FirstCharFits(t[base..]);
    if n <= base + w {
      CutInChar(t, base, n);
    } else {
      assert t[base..][w..] == t[base + w..];
      StableIsBoundary(t, base + w, n);
      var m := StableLen(t[..n]);
      FirstChar(t, base, w, m);
      forall r | m < r <= n
        ensures !WellFormed(t[base..r])
      {
        FirstChar(t, base, w, r);
      }
    }
  }

  lemma FirstChar(t: seq<byte>, base: nat, w: nat, r: nat)
    requires base + w <= r <= |t| && CharLen(t[base..]) == w > 0
    ensures WellFormed(t[base..r]) <==> WellFormed(t[base + w..r])
  {
    var c := t[base..base + w];
    assert c[w..] == [];
    CharOfPrefix(t[base..], w);
    assert t[base..][..w] == c;
    assert WellFormed(c);
    assert t[base..r] == c + t[base + w..r];
    WellFormedSplit(c, t[base + w..r]);
  }

  lemma CharOfPrefix(s: seq<byte>, w: nat)
    requires CharLen(s) == w > 0
    ensures CharLen(s[..w]) == w
  {
    LeadsDisjoint(s[0], if |s| > 1 then s[1] else 0);
  }

  /** On every prefix of well-formed text the two scanners agree. */
  lemma ScannersAgree(t: seq<byte>, n: nat)
    requires WellFormed(t) && n <= |t|
    ensures LongestPrefix(t[..n], n, StableLen(t[..n]))
  {
    var p := t[..n];
    if n > 0 {
      assert t[0..] == t;
      StableIsBoundary(t, 0, n);
      forall r | 0 <= r <= n
        ensures p[..r] == t[0..r]
      {
      }
    }
  }
}
