/** The GGUF container as the converter writes it and reads it back: little-endian metadata, tensor directory, and
    tensor data at aligned offsets. Scalars are carried as their fixed-width bit patterns. */
module Gguf {
  import opened Common
  import opened Bytes
  import opened RingMath

  const MAGIC: seq<Byte> := [0x47, 0x47, 0x55, 0x46]
  const VERSION := 3
  const ALIGNMENT := 32

  const TYPE_STRING := 8
  const TYPE_ARRAY := 9

  // ---- values --------------------------------------------------------------------------------------------

  /** Bytes of a scalar type, or nothing for strings, arrays and unknown tags. */
  function ScalarSize(typ: int): (w: nat) {
    if typ == 0 || typ == 1 || typ == 7 then 1
    else if typ == 2 || typ == 3 then 2
    else if typ == 4 || typ == 5 || typ == 6 then 4
    else if typ == 10 || typ == 11 || typ == 12 then 8
    else 0
  }

  /** By tag: uint8, int8, uint16, int16, uint32, int32, float32, bool, string, array, uint64, int64, float64. */
  lemma ScalarSizes(typ: int)
    ensures ScalarSize(typ) == if 0 <= typ <= 12 then [1, 1, 2, 2, 4, 4, 4, 1, 0, 0, 8, 8, 8][typ] else 0
  {
  }

  datatype Value =
    | Number(typ: nat, bits: nat)
    | Text(s: seq<Byte>)
    | NumberArray(itemType: nat, items: seq<nat>)
    | TextArray(texts: seq<seq<Byte>>)

  datatype Pair = Pair(key: seq<Byte>, value: Value)

  datatype Tensor = Tensor(name: seq<Byte>, dims: seq<nat>, ggmlType: nat, bytes: nat)

  datatype Info = Info(ggmlType: nat, dims: seq<nat>)

  predicate Fits(n: int, w: nat) { 0 <= n < Range(w) }

  predicate Packable(v: Value) {
    match v
    case Number(typ, bits) => ScalarSize(typ) > 0 && Fits(bits, ScalarSize(typ))
    case Text(s) => Fits(|s|, 8)
    case NumberArray(t, items) =>
      ScalarSize(t) > 0 && Fits(|items|, 8) && forall i :: 0 <= i < |items| ==> Fits(items[i], ScalarSize(t))
    case TextArray(texts) => Fits(|texts|, 8) && forall i :: 0 <= i < |texts| ==> Fits(|texts[i]|, 8)
  }

  function TypeTag(v: Value): nat {
    match v
    case Number(typ, _) => typ
    case Text(_) => TYPE_STRING
    case NumberArray(_, _) => TYPE_ARRAY
    case TextArray(_) => TYPE_ARRAY
  }

  function PackStr(s: seq<Byte>): seq<Byte> { Le(|s|, 8) + s }

  function PackNumbers(w: nat, items: seq<nat>): (b: seq<Byte>)
    ensures |b| == w * |items|
  {
    if items == [] then [] else Le(items[0], w) + PackNumbers(w, items[1..])
  }

  function PackTexts(texts: seq<seq<Byte>>): seq<Byte> {
    if texts == [] then [] else PackStr(texts[0]) + PackTexts(texts[1..])
  }

  function PackValue(v: Value): seq<Byte> {
    match v
    case Number(typ, bits) => Le(bits, ScalarSize(typ))
    case Text(s) => PackStr(s)
    case NumberArray(t, items) => Le(t, 4) + Le(|items|, 8) + PackNumbers(ScalarSize(t), items)
    case TextArray(texts) => Le(TYPE_STRING, 4) + Le(|texts|, 8) + PackTexts(texts)
  }

  function PackPair(p: Pair): seq<Byte> {
    PackStr(p.key) + Le(TypeTag(p.value), 4) + PackValue(p.value)
  }

  function PackPairs(ps: seq<Pair>): seq<Byte> {
    if ps == [] then [] else PackPair(ps[0]) + PackPairs(ps[1..])
  }

  function PackTensor(t: Tensor, off: nat): seq<Byte> {
    PackStr(t.name) + Le(|t.dims|, 4) + PackNumbers(8, t.dims) + Le(t.ggmlType, 4) + Le(off, 8)
  }

  function PackTensors(ts: seq<Tensor>, offs: seq<nat>): seq<Byte>
    requires |ts| == |offs|
  {
    if ts == [] then [] else PackTensor(ts[0], offs[0]) + PackTensors(ts[1..], offs[1..])
  }

  function Header(ts: nat, ps: nat): seq<Byte> {
    MAGIC + Le(VERSION, 4) + Le(ts, 8) + Le(ps, 8)
  }

  /** Everything in front of the tensor data. */
  function Serialized(ps: seq<Pair>, ts: seq<Tensor>, offs: seq<nat>): seq<Byte>
    requires |ts| == |offs|
  {
    Header(|ts|, |ps|) + PackPairs(ps) + PackTensors(ts, offs)
  }

  // ---- the layout byte by byte ---------------------------------------------------------------------------

  /** A length as eight little-endian bytes, then the bytes themselves. */
  lemma StrBytes(s: seq<Byte>)
    requires Fits(|s|, 8)
    ensures var b := PackStr(s);
            |b| == 8 + |s| && FromLe(b[..8]) == |s| && b[8..] == s
  {
    LeRoundTrip(|s|, 8);
  }

  /** Magic, version 3, number of tensors, number of key/value pairs. */
  lemma HeaderBytes(ts: nat, ps: nat)
    requires Fits(ts, 8) && Fits(ps, 8)
    ensures var b := Header(ts, ps);
            && |b| == 24 && b[..4] == Ascii("GGUF") && FromLe(b[4..8]) == 3 && FromLe(b[8..16]) == ts && FromLe(b[16..]) == ps
  {
    hide Le, FromLe;
    Ranges();
    LeRoundTrip(VERSION, 4);
    LeRoundTrip(ts, 8);
    LeRoundTrip(ps, 8);
    var b := Header(ts, ps);
    assert b[4..8] == Le(VERSION, 4) && b[8..16] == Le(ts, 8) && b[16..] == Le(ps, 8);
  }

  lemma {:induction false} NumbersBytes(w: nat, items: seq<nat>, i: nat)
    requires i < |items| && Fits(items[i], w)
    ensures w * i + w <= |PackNumbers(w, items)| && FromLe(PackNumbers(w, items)[w * i..w * i + w]) == items[i]
  {
    hide Le, FromLe;
    var b, rest := PackNumbers(w, items), PackNumbers(w, items[1..]);
    assert b == Le(items[0], w) + rest;
    if i == 0 {
      LeRoundTrip(items[0], w);
      assert w * 0 == 0 && b[0..w] == Le(items[0], w);
    } else {
      NumbersBytes(w, items[1..], i - 1);
      var at := w * (i - 1);
      assert w * i == at + w;
      assert b[at + w..at + w + w] == rest[at..at + w];
    }
  }

  lemma FiveParts(a: seq<Byte>, b: seq<Byte>, c: seq<Byte>, d: seq<Byte>, e: seq<Byte>)
    ensures var s, i, j, k, l := a + b + c + d + e, |a|, |a| + |b|, |a| + |b| + |c|, |a| + |b| + |c| + |d|;
            s[..i] == a && s[i..j] == b && s[j..k] == c && s[k..l] == d && s[l..] == e
  {
  }

  /** A directory entry: name, number of dimensions, the dimensions, type, offset. */
  lemma TensorBytes(t: Tensor, off: nat)
    requires PackableTensor(t) && Fits(off, 8)
    ensures var b, n, m := PackTensor(t, off), |t.name|, 8 * |t.dims|;
            && |b| == 24 + n + m
            && FromLe(b[..8]) == n && b[8..8 + n] == t.name && FromLe(b[8 + n..12 + n]) == |t.dims|
            && b[12 + n..12 + n + m] == PackNumbers(8, t.dims)
            && FromLe(b[12 + n + m..16 + n + m]) == t.ggmlType && FromLe(b[16 + n + m..]) == off
  {
    hide Le, FromLe, PackNumbers, PackStr;
    var b, n := PackTensor(t, off), |t.name|;
    StrBytes(t.name);
    LeRoundTrip(|t.dims|, 4);
    LeRoundTrip(t.ggmlType, 4);
    LeRoundTrip(off, 8);
    FiveParts(PackStr(t.name), Le(|t.dims|, 4), PackNumbers(8, t.dims), Le(t.ggmlType, 4), Le(off, 8));
    assert b[..8] == b[..8 + n][..8] && b[8..8 + n] == b[..8 + n][8..];
  }

  /** A key/value pair: key, type tag, value; an array is its element type, its length and its elements. */
  lemma PairBytes(p: Pair)
    requires PackablePair(p)
    ensures var b, n := PackPair(p), 8 + |p.key|;
            && n + 4 <= |b| && b[..n] == PackStr(p.key)
            && FromLe(b[n..n + 4]) == (match p.value case Number(typ, _) => typ case Text(_) => 8 case _ => 9)
            && b[n + 4..] == (match p.value
                 case Number(typ, bits) => Le(bits, ScalarSize(typ))
                 case Text(s) => PackStr(s)
                 case NumberArray(typ, items) => Le(typ, 4) + Le(|items|, 8) + PackNumbers(ScalarSize(typ), items)
                 case TextArray(texts) => Le(8, 4) + Le(|texts|, 8) + PackTexts(texts))
  {
    hide Le, FromLe, PackNumbers, PackStr, PackTexts, Packable;
    var b := PackPair(p);
    StrBytes(p.key);
    TagFits(p.value);
    LeRoundTrip(TypeTag(p.value), 4);
    FiveParts(PackStr(p.key), Le(TypeTag(p.value), 4), PackValue(p.value), [], []);
    assert b == PackStr(p.key) + Le(TypeTag(p.value), 4) + PackValue(p.value) + [] + [];
  }

  lemma TagFits(v: Value)
    requires Packable(v)
    ensures TypeTag(v) < Range(4)
  {
    Ranges();
  }

  ghost predicate PackableTensor(t: Tensor) {
    && Fits(|t.name|, 8) && Fits(|t.dims|, 4) && Fits(t.ggmlType, 4)
    && forall i :: 0 <= i < |t.dims| ==> Fits(t.dims[i], 8)
  }

  ghost predicate PackablePair(p: Pair) {
    Fits(|p.key|, 8) && Packable(p.value)
  }

  ghost predicate PackableAll(ps: seq<Pair>, ts: seq<Tensor>) {
    && Fits(|ps|, 8) && Fits(|ts|, 8)
    && (forall i :: 0 <= i < |ps| ==> PackablePair(ps[i]))
    && (forall i :: 0 <= i < |ts| ==> PackableTensor(ts[i]))
  }

  // ---- reading -------------------------------------------------------------------------------------------

  /** `s` stands at position p of the file. */
  ghost predicate At(data: seq<Byte>, p: int, s: seq<Byte>) {
    0 <= p && p + |s| <= |data| && data[p..p + |s|] == s
  }

  lemma AtSplit(data: seq<Byte>, p: int, a: seq<Byte>, b: seq<Byte>)
    requires At(data, p, a + b)
    ensures At(data, p, a) && At(data, p + |a|, b)
  {
    assert data[p..p + |a|] == data[p..p + |a + b|][..|a|];
    assert data[p + |a|..p + |a| + |b|] == data[p..p + |a + b|][|a|..];
  }

  method ReadInt(data: seq<Byte>, p: nat, w: nat, ghost n: nat) returns (ok: bool, v: nat, q: nat)
    ensures ok <==> p + w <= |data|
    ensures ok ==> q == p + w
    ensures n < Range(w) && At(data, p, Le(n, w)) ==> ok && v == n
  {
    if p + w > |data| {
      return false, 0, p;
    }
    if n < Range(w) {
      LeRoundTrip(n, w);
    }
    v := FromLe(data[p..p + w]);
    q := p + w;
    ok := true;
  }

  /** A length-prefixed string; a slice past the end of the file is cut short. */
  method ReadStr(data: seq<Byte>, p: nat, ghost s: seq<Byte>) returns (ok: bool, b: seq<Byte>, q: nat)
    ensures Fits(|s|, 8) && At(data, p, PackStr(s)) ==> ok && b == s && q == p + |PackStr(s)|
  {
    if At(data, p, PackStr(s)) {
      AtSplit(data, p, Le(|s|, 8), s);
    }
    var n: nat;
    ok, n, q := ReadInt(data, p, 8, |s|);
    if !ok {
      return false, [], p;
    }
    b := data[Min(q, |data|)..Min(q + n, |data|)];
    q := q + n;
  }

  method SkipTexts(data: seq<Byte>, p: nat, n: nat, ghost texts: seq<seq<Byte>>) returns (ok: bool, q: nat)
    ensures n == |texts| && Packable(TextArray(texts)) && At(data, p, PackTexts(texts)) ==> ok && q == p + |PackTexts(texts)|
  {
    ghost var good := n == |texts| && Packable(TextArray(texts)) && At(data, p, PackTexts(texts));
    q := p;
    ok := true;
    for i := 0 to n
      invariant good ==> ok && At(data, q, PackTexts(texts[i..])) && q + |PackTexts(texts[i..])| == p + |PackTexts(texts)|
    {
      if good {
        AtSplit(data, q, PackStr(texts[i]), PackTexts(texts[i + 1..]));
        assert texts[i..][1..] == texts[i + 1..];
      }
      var b;
      ok, b, q := ReadStr(data, q, if good then texts[i] else []);
      if !ok {
        return;
      }
    }
  }

  /** Skip one value by its type tag. */
  method SkipValue(data: seq<Byte>, p: nat, typ: nat, ghost v: Value) returns (ok: bool, q: nat)
    ensures typ == TypeTag(v) && Packable(v) && At(data, p, PackValue(v)) ==> ok && q == p + |PackValue(v)|
  {
    ghost var good := typ == TypeTag(v) && Packable(v) && At(data, p, PackValue(v));
    if typ == TYPE_ARRAY {
      if good {
        ArrayParts(data, p, v);
      }
      var arrType, n: nat;
      ok, arrType, q := ReadInt(data, p, 4, if v.NumberArray? then v.itemType else TYPE_STRING);
      if !ok {
        return;
      }
      ok, n, q := ReadInt(data, q, 8, if v.NumberArray? then |v.items| else if v.TextArray? then |v.texts| else 0);
      if !ok {
        return;
      }
      if arrType == TYPE_STRING {
        ok, q := SkipTexts(data, q, n, if v.TextArray? then v.texts else []);
      } else if ScalarSize(arrType) == 0 {
        ok := false;
      } else {
        q := q + ScalarSize(arrType) * n;
      }
    } else if typ == TYPE_STRING {
      var b;
      ok, b, q := ReadStr(data, p, if v.Text? then v.s else []);
    } else {
      ok := ScalarSize(typ) > 0;
      q := p + ScalarSize(typ);
    }
  }

  lemma ArrayParts(data: seq<Byte>, p: nat, v: Value)
    requires TypeTag(v) == TYPE_ARRAY && Packable(v) && At(data, p, PackValue(v))
    ensures v.NumberArray? || v.TextArray?
    ensures v.NumberArray? ==>
      && v.itemType < Range(4) && At(data, p, Le(v.itemType, 4)) && At(data, p + 4, Le(|v.items|, 8))
      && |PackValue(v)| == 12 + ScalarSize(v.itemType) * |v.items|
    ensures v.TextArray? ==>
      && TYPE_STRING < Range(4) && At(data, p, Le(TYPE_STRING, 4)) && At(data, p + 4, Le(|v.texts|, 8))
      && At(data, p + 12, PackTexts(v.texts)) && |PackValue(v)| == 12 + |PackTexts(v.texts)|
  {
    if v.NumberArray? {
      var rest := PackNumbers(ScalarSize(v.itemType), v.items);
      AtSplit(data, p, Le(v.itemType, 4) + Le(|v.items|, 8), rest);
      AtSplit(data, p, Le(v.itemType, 4), Le(|v.items|, 8));
    } else if v.TextArray? {
      AtSplit(data, p, Le(TYPE_STRING, 4) + Le(|v.texts|, 8), PackTexts(v.texts));
      AtSplit(data, p, Le(TYPE_STRING, 4), Le(|v.texts|, 8));
    }
  }

  method SkipPair(data: seq<Byte>, p: nat, ghost pair: Pair) returns (ok: bool, q: nat)
    ensures PackablePair(pair) && At(data, p, PackPair(pair)) ==> ok && q == p + |PackPair(pair)|
  {
    hide PackValue, PackStr, At, Le, TypeTag, Packable, Range;
    if PackablePair(pair) && At(data, p, PackPair(pair)) {
      assert PackPair(pair) + [] == PackPair(pair);
      PairParts(data, p, pair, []);
    }
    var b, typ;
    ok, b, q := ReadStr(data, p, pair.key);
    if !ok {
      return;
    }
    ok, typ, q := ReadInt(data, q, 4, TypeTag(pair.value));
    if !ok {
      return;
    }
    ok, q := SkipValue(data, q, typ, pair.value);
  }

  /** Skip the key/value section. */
  method SkipPairs(data: seq<Byte>, p: nat, n: nat, ghost ps: seq<Pair>) returns (ok: bool, q: nat)
    ensures n == |ps| && (forall i :: 0 <= i < |ps| ==> PackablePair(ps[i])) && At(data, p, PackPairs(ps)) ==>
      ok && q == p + |PackPairs(ps)|
  {
    hide At, PackPair, PackablePair;
    ghost var good := n == |ps| && (forall i :: 0 <= i < |ps| ==> PackablePair(ps[i])) && At(data, p, PackPairs(ps));
    q := p;
    ok := true;
    assert ps[0..] == ps;
    for i := 0 to n
      invariant good ==> ok && At(data, q, PackPairs(ps[i..])) && q + |PackPairs(ps[i..])| == p + |PackPairs(ps)|
    {
      ghost var pair := if good then ps[i] else Pair([], Text([]));
      if good {
        assert ps[i..][1..] == ps[i + 1..];
        AtSplit(data, q, PackPair(pair), PackPairs(ps[i + 1..]));
      }
      ok, q := SkipPair(data, q, pair);
      if !ok {
        return;
      }
    }
  }

  lemma PairParts(data: seq<Byte>, p: nat, pair: Pair, rest: seq<Byte>)
    requires PackablePair(pair) && At(data, p, PackPair(pair) + rest)
    ensures var q := p + |PackStr(pair.key)|;
            && At(data, p, PackStr(pair.key)) && TypeTag(pair.value) < Range(4) && At(data, q, Le(TypeTag(pair.value), 4))
            && At(data, q + 4, PackValue(pair.value)) && At(data, p + |PackPair(pair)|, rest)
  {
    AtSplit(data, p, PackPair(pair), rest);
    AtSplit(data, p, PackStr(pair.key) + Le(TypeTag(pair.value), 4), PackValue(pair.value));
    AtSplit(data, p, PackStr(pair.key), Le(TypeTag(pair.value), 4));
  }

  method ReadDims(data: seq<Byte>, p: nat, n: nat, ghost dims: seq<nat>) returns (ok: bool, out: seq<nat>, q: nat)
    ensures n == |dims| && (forall i :: 0 <= i < |dims| ==> Fits(dims[i], 8)) && At(data, p, PackNumbers(8, dims)) ==>
      ok && out == dims && q == p + 8 * |dims|
  {
    hide At, Le, Range;
    ghost var good := n == |dims| && (forall i :: 0 <= i < |dims| ==> Fits(dims[i], 8)) && At(data, p, PackNumbers(8, dims));
    out, q, ok := [], p, true;
    for i := 0 to n
      invariant good ==> ok && out == dims[..i] && q == p + 8 * i && At(data, q, PackNumbers(8, dims[i..]))
    {
      if good {
        assert dims[i..][1..] == dims[i + 1..];
        AtSplit(data, q, Le(dims[i], 8), PackNumbers(8, dims[i + 1..]));
      }
      var d;
      ok, d, q := ReadInt(data, q, 8, if good then dims[i] else 0);
      if !ok {
        return;
      }
      out := out + [d];
    }
  }

  /** One directory entry. */
  method ReadTensor(data: seq<Byte>, p: nat, ghost t: Tensor, ghost off: nat)
    returns (ok: bool, name: seq<Byte>, info: Info, q: nat)
    ensures PackableTensor(t) && Fits(off, 8) && At(data, p, PackTensor(t, off)) ==>
      ok && name == t.name && info == Info(t.ggmlType, t.dims) && q == p + |PackTensor(t, off)|
  {
    if PackableTensor(t) && Fits(off, 8) && At(data, p, PackTensor(t, off)) {
      TensorParts(data, p, t, off);
    }
    info := Info(0, []);
    ok, name, q := ReadStr(data, p, t.name);
    if !ok {
      return;
    }
    var nDims, dims, ggmlType, offset;
    ok, nDims, q := ReadInt(data, q, 4, |t.dims|);
    if !ok {
      return;
    }
    ok, dims, q := ReadDims(data, q, nDims, t.dims);
    if !ok {
      return;
    }
    ok, ggmlType, q := ReadInt(data, q, 4, t.ggmlType);
    if !ok {
      return;
    }
    ok, offset, q := ReadInt(data, q, 8, off);
    info := Info(ggmlType, dims);
  }

  lemma TensorParts(data: seq<Byte>, p: nat, t: Tensor, off: nat)
    requires At(data, p, PackTensor(t, off))
    ensures var q := p + |PackStr(t.name)|;
            && At(data, p, PackStr(t.name)) && At(data, q, Le(|t.dims|, 4)) && At(data, q + 4, PackNumbers(8, t.dims))
            && At(data, q + 4 + 8 * |t.dims|, Le(t.ggmlType, 4)) && At(data, q + 8 + 8 * |t.dims|, Le(off, 8))
            && |PackTensor(t, off)| == |PackStr(t.name)| + 16 + 8 * |t.dims|
  {
    var a, b, c, d, e := PackStr(t.name), Le(|t.dims|, 4), PackNumbers(8, t.dims), Le(t.ggmlType, 4), Le(off, 8);
    AtSplit(data, p, a + b + c + d, e);
    AtSplit(data, p, a + b + c, d);
    AtSplit(data, p, a + b, c);
    AtSplit(data, p, a, b);
  }

  /** The directory as the reader returns it: later entries replace earlier ones of the same name. */
  function Directory(ts: seq<Tensor>): map<seq<Byte>, Info> {
    if ts == [] then map[]
    else Directory(ts[..|ts| - 1])[ts[|ts| - 1].name := Info(ts[|ts| - 1].ggmlType, ts[|ts| - 1].dims)]
  }

  /** No later tensor has the name of tensor i. */
  predicate NewestOfName(ts: seq<Tensor>, i: nat) {
    i < |ts| && forall j :: i < j < |ts| ==> ts[j].name != ts[i].name
  }

  lemma {:induction false} FindsNewest(ts: seq<Tensor>, i: nat)
    requires NewestOfName(ts, i)
    ensures ts[i].name in Directory(ts) && Directory(ts)[ts[i].name] == Info(ts[i].ggmlType, ts[i].dims)
    decreases |ts|
  {
    var init := ts[..|ts| - 1];
    if i < |init| {
      assert init[i] == ts[i] && ts[|ts| - 1].name != ts[i].name;
      assert forall j :: 0 <= j < |init| ==> init[j] == ts[j];
      FindsNewest(init, i);
    }
  }

  lemma {:induction false} FindsNothingElse(ts: seq<Tensor>, n: seq<Byte>) returns (i: nat)
    requires n in Directory(ts)
    ensures i < |ts| && ts[i].name == n
  {
    i := |ts| - 1;
    if ts[i].name != n {
      i := FindsNothingElse(ts[..|ts| - 1], n);
    }
  }

  /** A name leads to the last tensor that carries it, with its type and dims, and nothing else is found; with distinct
      names that is every tensor. */
  lemma DirectoryFinds(ts: seq<Tensor>)
    ensures forall i :: 0 <= i < |ts| && NewestOfName(ts, i) ==>
      ts[i].name in Directory(ts) && Directory(ts)[ts[i].name] == Info(ts[i].ggmlType, ts[i].dims)
    ensures forall n :: n in Directory(ts) ==> exists i :: 0 <= i < |ts| && ts[i].name == n
  {
    hide Directory, NewestOfName;
    forall i | 0 <= i < |ts| && NewestOfName(ts, i)
      ensures ts[i].name in Directory(ts) && Directory(ts)[ts[i].name] == Info(ts[i].ggmlType, ts[i].dims)
    {
      FindsNewest(ts, i);
    }
    forall n | n in Directory(ts)
      ensures exists i :: 0 <= i < |ts| && ts[i].name == n
    {
      var i := FindsNothingElse(ts, n);
    }
  }

  method ReadTensors(data: seq<Byte>, p: nat, n: nat, ghost ts: seq<Tensor>, ghost offs: seq<nat>)
    returns (ok: bool, out: map<seq<Byte>, Info>)
    requires |ts| == |offs|
    ensures n == |ts| && (forall i :: 0 <= i < |ts| ==> PackableTensor(ts[i]) && Fits(offs[i], 8)) && At(data, p, PackTensors(ts, offs)) ==>
      ok && out == Directory(ts)
  {
    hide At, PackTensor, PackableTensor;
    ghost var good := n == |ts| && (forall i :: 0 <= i < |ts| ==> PackableTensor(ts[i]) && Fits(offs[i], 8)) &&
                      At(data, p, PackTensors(ts, offs));
    out, ok := map[], true;
    var q := p;
    for i := 0 to n
      invariant good ==> ok && out == Directory(ts[..i]) && At(data, q, PackTensors(ts[i..], offs[i..]))
    {
      ghost var t, off := if good then ts[i] else Tensor([], [], 0, 0), if good then offs[i] else 0;
      if good {
        assert ts[i..][1..] == ts[i + 1..] && offs[i..][1..] == offs[i + 1..];
        AtSplit(data, q, PackTensor(t, off), PackTensors(ts[i + 1..], offs[i + 1..]));
        assert ts[..i + 1][..i] == ts[..i];
      }
      var name, info;
      ok, name, info, q := ReadTensor(data, q, t, off);
      if !ok {
        return;
      }
      out := out[name := info];
    }
    assert good ==> ts[..n] == ts;
  }

  /** Magic and version. */
  method ReadVersion(data: seq<Byte>) returns (ok: bool)
    ensures ok <==> |data| >= 8 && data[..4] == Ascii("GGUF") && FromLe(data[4..8]) == 3
    ensures At(data, 0, MAGIC) && At(data, 4, Le(VERSION, 4)) ==> ok
  {
    hide Le, FromLe;
    assert MAGIC == Ascii("GGUF");
    Ranges();
    LeRoundTrip(VERSION, 4);
    if data[..Min(4, |data|)] != MAGIC || |data| < 8 {
      return false;
    }
    ok := FromLe(data[4..8]) == VERSION;
  }

  /** Read the tensor directory of a file. Whatever key/value list was written, reading back what the writer
      serialised yields exactly the directory. */
  method ReadTensorInfo(data: seq<Byte>, ghost ps: seq<Pair>, ghost ts: seq<Tensor>, ghost offs: seq<nat>)
    returns (out: Option<map<seq<Byte>, Info>>)
    requires |ts| == |offs|
    ensures PackableAll(ps, ts) && (forall i :: 0 <= i < |offs| ==> Fits(offs[i], 8)) && At(data, 0, Serialized(ps, ts, offs)) ==>
      out == Some(Directory(ts))
    ensures |data| < 24 || data[..4] != Ascii("GGUF") || FromLe(data[4..8]) != 3 ==> out == None
  {
    hide At, Le, Serialized, PackPairs, PackTensors, Directory, Range;
    ghost var good := PackableAll(ps, ts) && (forall i :: 0 <= i < |offs| ==> Fits(offs[i], 8)) && At(data, 0, Serialized(ps, ts, offs));
    if good {
      HeaderParts(data, ps, ts, offs);
    }
    var ok, nTensors, nKv, p;
    ok := ReadVersion(data);
    if !ok {
      return None;
    }
    ok, nTensors, p := ReadInt(data, 8, 8, |ts|);
    if !ok {
      return None;
    }
    ok, nKv, p := ReadInt(data, p, 8, |ps|);
    if !ok {
      return None;
    }
    ok, p := SkipPairs(data, p, nKv, ps);
    if !ok {
      return None;
    }
    var dir;
    ok, dir := ReadTensors(data, p, nTensors, ts, offs);
    out := if ok then Some(dir) else None;
  }

  lemma HeaderParts(data: seq<Byte>, ps: seq<Pair>, ts: seq<Tensor>, offs: seq<nat>)
    requires |ts| == |offs| && At(data, 0, Serialized(ps, ts, offs))
    ensures At(data, 0, MAGIC) && |data| >= 4 && data[..4] == MAGIC && VERSION < Range(4) && At(data, 4, Le(VERSION, 4))
    ensures At(data, 8, Le(|ts|, 8)) && At(data, 16, Le(|ps|, 8)) && At(data, 24, PackPairs(ps))
    ensures At(data, 24 + |PackPairs(ps)|, PackTensors(ts, offs))
  {
    var h := Header(|ts|, |ps|);
    AtSplit(data, 0, h + PackPairs(ps), PackTensors(ts, offs));
    AtSplit(data, 0, h, PackPairs(ps));
    AtSplit(data, 0, MAGIC + Le(VERSION, 4) + Le(|ts|, 8), Le(|ps|, 8));
    AtSplit(data, 0, MAGIC + Le(VERSION, 4), Le(|ts|, 8));
    AtSplit(data, 0, MAGIC, Le(VERSION, 4));
  }

  // ---- writing -------------------------------------------------------------------------------------------

  function AlignUp(v: nat, a: nat): (r: nat)
    requires 0 < a
    ensures v <= r < v + a && r % a == 0
  {
    var q := (v + a - 1) / a;
    assert v + a - 1 == q * a + (v + a - 1) % a;
    ModUnique(q * a, q, 0, a);
    q * a
  }

  method AppendPair(out: seq<Byte>, pair: Pair) returns (r: seq<Byte>)
    ensures r == out + PackPair(pair)
  {
    r := out + PackStr(pair.key);
    r := r + Le(TypeTag(pair.value), 4);
    r := r + PackValue(pair.value);
  }

  method AppendTensor(out: seq<Byte>, t: Tensor, off: nat) returns (r: seq<Byte>)
    ensures r == out + PackTensor(t, off)
  {
    hide Le, PackStr;
    r := out + PackStr(t.name);
    r := r + Le(|t.dims|, 4);
    ghost var before := r;
    assert t.dims[0..] == t.dims;
    for j := 0 to |t.dims|
      invariant r + PackNumbers(8, t.dims[j..]) == before + PackNumbers(8, t.dims)
    {
      assert t.dims[j..][1..] == t.dims[j + 1..];
      assert r + (Le(t.dims[j], 8) + PackNumbers(8, t.dims[j + 1..])) == (r + Le(t.dims[j], 8)) + PackNumbers(8, t.dims[j + 1..]);
      r := r + Le(t.dims[j], 8);
    }
    assert PackNumbers(8, t.dims[|t.dims|..]) == [];
    assert r == out + PackStr(t.name) + Le(|t.dims|, 4) + PackNumbers(8, t.dims);
    r := r + Le(t.ggmlType, 4);
    r := r + Le(off, 8);
    assert r == out + PackTensor(t, off);
  }

  /** Metadata and tensor directory, appended piece by piece. */
  method Serialize(ps: seq<Pair>, ts: seq<Tensor>, offs: seq<nat>) returns (out: seq<Byte>)
    requires |ts| == |offs|
    ensures out == Serialized(ps, ts, offs)
  {
    hide PackPair, PackTensor, Le;
    out := MAGIC + Le(VERSION, 4) + Le(|ts|, 8) + Le(|ps|, 8);
    ghost var h := out;
    assert ps[0..] == ps && ts[0..] == ts && offs[0..] == offs;
    for i := 0 to |ps|
      invariant out + PackPairs(ps[i..]) == h + PackPairs(ps)
    {
      assert ps[i..][1..] == ps[i + 1..];
      assert out + (PackPair(ps[i]) + PackPairs(ps[i + 1..])) == (out + PackPair(ps[i])) + PackPairs(ps[i + 1..]);
      out := AppendPair(out, ps[i]);
    }
    h := h + PackPairs(ps);
    assert out == h;
    for i := 0 to |ts|
      invariant out + PackTensors(ts[i..], offs[i..]) == h + PackTensors(ts, offs)
    {
      assert ts[i..][1..] == ts[i + 1..] && offs[i..][1..] == offs[i + 1..];
      assert out + (PackTensor(ts[i], offs[i]) + PackTensors(ts[i + 1..], offs[i + 1..])) ==
             (out + PackTensor(ts[i], offs[i])) + PackTensors(ts[i + 1..], offs[i + 1..]);
      out := AppendTensor(out, ts[i], offs[i]);
    }
  }

  /** Tensor offsets: aligned, in order, without overlap. */
  ghost predicate Laid(ts: seq<Tensor>, offs: seq<nat>) {
    && |offs| == |ts|
    && (forall i :: 0 <= i < |offs| ==> offs[i] % ALIGNMENT == 0)
    && (|offs| > 0 ==> offs[0] == 0)
    && forall i :: 0 < i < |offs| ==> offs[i - 1] + ts[i - 1].bytes <= offs[i] < offs[i - 1] + ts[i - 1].bytes + ALIGNMENT
  }

  method PlanOffsets(ts: seq<Tensor>) returns (offs: seq<nat>)
    ensures Laid(ts, offs)
    ensures |offs| == |ts| && (|offs| > 0 ==> offs[0] == 0) && forall i :: 0 <= i < |offs| ==> offs[i] % 32 == 0
    ensures forall i :: 0 < i < |offs| ==> offs[i - 1] + ts[i - 1].bytes <= offs[i] < offs[i - 1] + ts[i - 1].bytes + 32
  {
    offs := [];
    var off := 0;
    for i := 0 to |ts|
      invariant Laid(ts[..i], offs)
      invariant off == if i == 0 then 0 else offs[i - 1] + ts[i - 1].bytes
    {
      off := AlignUp(off, ALIGNMENT);
      offs := offs + [off];
      off := off + ts[i].bytes;
    }
    assert ts[..|ts|] == ts;
  }

  /** Where the data of tensor i ends up in the file. */
  ghost predicate Placed(file: seq<Byte>, at: nat, content: seq<Byte>) {
    at + |content| <= |file| && file[at..at + |content|] == content
  }

  datatype Source = Inline(data: seq<Byte>) | Converted(chunks: seq<seq<Byte>>)

  function Joined(chunks: seq<seq<Byte>>): seq<Byte> {
    if chunks == [] then [] else chunks[0] + Joined(chunks[1..])
  }

  function Content(src: Source): seq<Byte> {
    match src
    case Inline(data) => data
    case Converted(chunks) => Joined(chunks)
  }

  method WriteTensor(file: seq<Byte>, src: Source) returns (r: seq<Byte>)
    ensures r == file + Content(src)
  {
    match src
    case Inline(data) => r := file + data;
    case Converted(chunks) =>
      r := file;
      assert chunks[0..] == chunks;
      for i := 0 to |chunks|
        invariant r + Joined(chunks[i..]) == file + Joined(chunks)
      {
        assert chunks[i..][1..] == chunks[i + 1..];
        assert r + (chunks[i] + Joined(chunks[i + 1..])) == (r + chunks[i]) + Joined(chunks[i + 1..]);
        r := r + chunks[i];
      }
  }

  lemma PlacedLater(file: seq<Byte>, more: seq<Byte>, at: nat, content: seq<Byte>)
    requires Placed(file, at, content)
    ensures Placed(file + more, at, content)
  {
    assert (file + more)[at..at + |content|] == file[at..at + |content|];
  }

  ghost predicate AllPlaced(file: seq<Byte>, start: nat, offs: seq<nat>, srcs: seq<Source>, n: nat)
    requires n <= |offs| && n <= |srcs|
  {
    forall i :: 0 <= i < n ==> Placed(file, start + offs[i], Content(srcs[i]))
  }

  /** The streamed writer: metadata, padding to the first aligned position, then every tensor at exactly the offset its
      directory entry names, with zero bytes between. When every source delivers its planned size it never fails. */
  method WriteStreamed(ps: seq<Pair>, ts: seq<Tensor>, srcs: seq<Source>) returns (ok: bool, file: seq<Byte>, ghost offs: seq<nat>)
    requires |srcs| == |ts|
    ensures Laid(ts, offs)
    ensures (forall i :: 0 <= i < |ts| ==> |Content(srcs[i])| == ts[i].bytes) ==> ok
    ensures ok ==> At(file, 0, Serialized(ps, ts, offs))
    ensures ok ==> AllPlaced(file, AlignUp(|Serialized(ps, ts, offs)|, ALIGNMENT), offs, srcs, |ts|)
    ensures var n := |Serialized(ps, ts, offs)|; var start := AlignUp(n, ALIGNMENT);
            n <= start < n + 32 && start % 32 == 0 && (ok ==> ZeroBetween(file, n, start, offs, srcs, |ts|))
  {
    hide Serialized, AlignUp, At, Content, ZeroBetween;
    var offsets := PlanOffsets(ts);
    offs := offsets;
    var meta := Serialize(ps, ts, offsets);
    var start := AlignUp(|meta|, ALIGNMENT);
    file := meta + Zeros(start - |meta|);
    MetaFirst(meta, Zeros(start - |meta|));
    ZeroFirst(meta, start, offsets, srcs);
    ok := true;
    for i := 0 to |ts|
      invariant ok && start <= |file| && At(file, 0, meta) && AllPlaced(file, start, offsets, srcs, i)
      invariant ZeroBetween(file, |meta|, start, offsets, srcs, i)
      invariant (forall j :: 0 <= j < |ts| ==> |Content(srcs[j])| == ts[j].bytes) ==>
        |file| - start == if i == 0 then 0 else offsets[i - 1] + ts[i - 1].bytes
    {
      hide AllPlaced, At, Content, Laid;
      ghost var before := file;
      NextOffset(ts, offsets, i);
      ok, file := WriteAt(file, start, offsets[i], ts[i], srcs[i]);
      if !ok {
        return;
      }
      AtPrefix(before, file, meta);
      StepPlaced(before, file, start, offsets, srcs, i);
      StepZero(before, file, |meta|, start, offsets, srcs, i);
    }
  }

  /** End of the first n tensors in the file. */
  function EndOf(start: nat, offs: seq<nat>, srcs: seq<Source>, n: nat): nat
    requires n <= |offs| && n <= |srcs|
  {
    if n == 0 then start else start + offs[n - 1] + |Content(srcs[n - 1])|
  }

  /** Zero bytes lie between the metadata and the first tensor and between each tensor and the next, and the file ends
      with its last tensor. */
  ghost predicate ZeroBetween(file: seq<Byte>, metaLen: nat, start: nat, offs: seq<nat>, srcs: seq<Source>, n: nat)
    requires n <= |offs| && n <= |srcs|
  {
    && |file| == EndOf(start, offs, srcs, n) && ZeroRange(file, metaLen, start)
    && forall i :: 0 <= i < n ==> ZeroRange(file, EndOf(start, offs, srcs, i), start + offs[i])
  }

  ghost predicate ZeroRange(file: seq<Byte>, a: nat, b: nat) {
    (a < b ==> b <= |file|) && forall p :: a <= p < b ==> file[p] == 0
  }

  lemma ZeroLater(before: seq<Byte>, file: seq<Byte>, a: nat, b: nat)
    requires before <= file && ZeroRange(before, a, b)
    ensures ZeroRange(file, a, b)
  {
    forall p | a <= p < b
      ensures file[p] == 0
    {
      assert file[p] == before[p];
    }
  }

  lemma ZeroFirst(meta: seq<Byte>, start: nat, offs: seq<nat>, srcs: seq<Source>)
    requires |meta| <= start
    ensures ZeroBetween(meta + Zeros(start - |meta|), |meta|, start, offs, srcs, 0)
  {
  }

  lemma StepZero(before: seq<Byte>, file: seq<Byte>, metaLen: nat, start: nat, offs: seq<nat>, srcs: seq<Source>, i: nat)
    requires i < |offs| && i < |srcs| && before <= file && ZeroBetween(before, metaLen, start, offs, srcs, i)
    requires |file| == start + offs[i] + |Content(srcs[i])| && ZeroRange(file, |before|, start + offs[i])
    ensures ZeroBetween(file, metaLen, start, offs, srcs, i + 1)
  {
    hide Content, ZeroRange;
    ZeroLater(before, file, metaLen, start);
    forall j | 0 <= j < i + 1
      ensures ZeroRange(file, EndOf(start, offs, srcs, j), start + offs[j])
    {
      if j < i {
        ZeroLater(before, file, EndOf(start, offs, srcs, j), start + offs[j]);
      }
    }
  }

  lemma MetaFirst(meta: seq<Byte>, more: seq<Byte>)
    ensures At(meta + more, 0, meta)
  {
  }

  lemma NextOffset(ts: seq<Tensor>, offs: seq<nat>, i: nat)
    requires Laid(ts, offs) && i < |ts|
    ensures |offs| == |ts| && (if i == 0 then 0 else offs[i - 1] + ts[i - 1].bytes) <= offs[i]
  {
  }

  lemma AtPrefix(before: seq<Byte>, file: seq<Byte>, s: seq<Byte>)
    requires before <= file && At(before, 0, s)
    ensures At(file, 0, s)
  {
    assert file[..|s|] == before[..|s|];
  }

  /** Pad up to the target offset and write one tensor there; a position already past the target, or inline data of the
      wrong size, is an error. */
  method WriteAt(file: seq<Byte>, start: nat, target: nat, t: Tensor, src: Source) returns (ok: bool, r: seq<Byte>)
    requires start <= |file|
    ensures ok ==> file <= r && |r| == start + target + |Content(src)| && r[start + target..] == Content(src)
    ensures |file| - start <= target && |Content(src)| == t.bytes ==> ok
    ensures ok ==> |file| - start <= target
    ensures ok ==> ZeroRange(r, |file|, start + target)
  {
    r := file;
    var rel := |file| - start;
    if rel < target {
      r := r + Zeros(target - rel);
    } else if rel != target {
      return false, r;
    }
    if src.Inline? && |src.data| != t.bytes {
      return false, r;
    }
    r := WriteTensor(r, src);
    ok := true;
  }

  lemma StepPlaced(before: seq<Byte>, file: seq<Byte>, start: nat, offs: seq<nat>, srcs: seq<Source>, i: nat)
    requires i < |offs| && i < |srcs| && before <= file && AllPlaced(before, start, offs, srcs, i)
    requires |file| == start + offs[i] + |Content(srcs[i])| && file[start + offs[i]..] == Content(srcs[i])
    ensures AllPlaced(file, start, offs, srcs, i + 1)
  {
    forall j | 0 <= j < i + 1
      ensures Placed(file, start + offs[j], Content(srcs[j]))
    {
      if j < i {
        PlacedLater(before, file[|before|..], start + offs[j], Content(srcs[j]));
        assert before + file[|before|..] == file;
      } else {
        assert file[start + offs[i]..start + offs[i] + |Content(srcs[i])|] == file[start + offs[i]..];
      }
    }
  }

  function Zeros(n: nat): (z: seq<Byte>)
    ensures |z| == n
  {
    seq(n, _ => 0)
  }

  /** Round trip through a file. */
  method WriteThenRead(ps: seq<Pair>, ts: seq<Tensor>, srcs: seq<Source>) returns (ok: bool, out: Option<map<seq<Byte>, Info>>)
    requires |srcs| == |ts| && PackableAll(ps, ts) && Fits(TotalBytes(ts), 8)
    ensures ok ==> out == Some(Directory(ts))
  {
    hide Serialized, At;
    var file; ghost var offs;
    ok, file, offs := WriteStreamed(ps, ts, srcs);
    OffsetsFit(ts, offs);
    out := ReadTensorInfo(file, ps, ts, offs);
  }

  /** Bytes of all tensors, each rounded up to the alignment. */
  function TotalBytes(ts: seq<Tensor>): nat {
    if ts == [] then 0 else TotalBytes(ts[..|ts| - 1]) + ts[|ts| - 1].bytes + ALIGNMENT
  }

  lemma {:induction false} OffsetsFit(ts: seq<Tensor>, offs: seq<nat>)
    requires Laid(ts, offs)
    ensures forall i :: 0 <= i < |offs| ==> offs[i] <= TotalBytes(ts)
    ensures |ts| > 0 ==> offs[|ts| - 1] + ts[|ts| - 1].bytes <= TotalBytes(ts)
  {
    if |ts| > 0 {
      OffsetsFit(ts[..|ts| - 1], offs[..|ts| - 1]);
      assert forall i :: 0 <= i < |ts| - 1 ==> offs[..|ts| - 1][i] == offs[i];
    }
  }
}
