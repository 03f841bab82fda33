/**
 * The binary format of commands and log entries: fixed-width big-endian integers, 32-bit
 * length prefixes, and one tag byte per command and value. Encoders are functions to bytes;
 * parsers read at a position and return the position behind what they read.
 */
module Codec {
  import opened Basics
  import opened Model

  datatype CodecError = Truncated | BadUtf8 | UnknownTag | TrailingBytes

  type Parsed<+T> = Result<(T, nat), CodecError>

  // ----- Integers -----

  function Pow256(w: nat): nat {
    if w == 0 then 1 else 256 * Pow256(w - 1)
  }

  function Shift(x: nat, k: nat): nat {
    if k == 0 then x else Shift(x, k - 1) / 256
  }

  /** The low `w` bytes of `x`, most significant first. */
  function BE(x: nat, w: nat): (r: bytes)
    ensures |r| == w
  {
    seq(w, j requires 0 <= j < w => Shift(x, w - 1 - j) % 256)
  }

  /** The number whose `w` bytes stand in `i` at `p`. */
  function FromBE(i: bytes, p: nat, w: nat): (r: nat)
    requires p + w <= |i|
    ensures r < Pow256(w)
  {
    if w == 0 then 0 else FromBE(i, p, w - 1) * 256 + i[p + w - 1]
  }

  lemma {:induction false} ShiftedOut(x: nat, w: nat, k: nat)
    requires x < Pow256(w) && k <= w
    ensures Shift(x, k) < Pow256(w - k)
  {
    if k > 0 { ShiftedOut(x, w, k - 1); }
  }

  lemma {:induction false} BEPrefix(i: bytes, p: nat, x: nat, w: nat, n: nat)
    requires x < Pow256(w) && At(i, p, BE(x, w)) && n <= w
    ensures FromBE(i, p, n) == Shift(x, w - n)
  {
    if n == 0 {
      ShiftedOut(x, w, w);
    } else {
      BEPrefix(i, p, x, w, n - 1);
      assert BE(x, w)[n - 1] == Shift(x, w - n) % 256;
    }
  }

  lemma BERoundTrip(i: bytes, p: nat, x: nat, w: nat)
    requires x < Pow256(w) && At(i, p, BE(x, w))
    ensures FromBE(i, p, w) == x
  {
    BEPrefix(i, p, x, w, w);
  }

  lemma Widths()
    ensures Pow256(1) == 0x100 && Pow256(4) == 0x1_0000_0000 && Pow256(8) == 0x1_0000_0000_0000_0000
  {
    assert Pow256(2) == 0x1_0000 && Pow256(3) == 0x100_0000;
    assert Pow256(5) == 0x100_0000_0000 && Pow256(6) == 0x1_0000_0000_0000 && Pow256(7) == 0x100_0000_0000_0000;
  }

  function U32(x: u32): (r: bytes)
    ensures |r| == 4
  {
    BE(x, 4)
  }

  function U64(x: u64): (r: bytes)
    ensures |r| == 8
  {
    BE(x, 8)
  }

  /** `as u32`: a longer length loses its high bits. */
  function Low32(n: nat): u32 {
    if n < 0x1_0000_0000 then n else n % 0x1_0000_0000
  }

  function Len(n: nat): (r: bytes)
    ensures |r| == 4
  {
    U32(Low32(n))
  }

  /** Two's complement. */
  function Unsigned(x: i64): u64 {
    if x >= 0 then x else x + 0x1_0000_0000_0000_0000
  }

  function Signed(x: u64): i64 {
    if x < 0x8000_0000_0000_0000 then x else x - 0x1_0000_0000_0000_0000
  }

  // ----- Positions -----

  /** The bytes `bs` stand in `i` at position `p`. */
  ghost predicate At(i: bytes, p: nat, bs: bytes) {
    p + |bs| <= |i| && forall j {:trigger bs[j]} :: 0 <= j < |bs| ==> i[p + j] == bs[j]
  }

  lemma AtConcat(i: bytes, p: nat, a: bytes, b: bytes)
    requires At(i, p, a + b)
    ensures At(i, p, a) && At(i, p + |a|, b)
  {
    forall j | 0 <= j < |a|
      ensures i[p + j] == a[j]
    {
      assert (a + b)[j] == a[j];
    }
    forall j | 0 <= j < |b|
      ensures i[p + |a| + j] == b[j]
    {
      assert (a + b)[|a| + j] == b[j];
    }
  }

  lemma AtIsSlice(i: bytes, p: nat, bs: bytes)
    requires At(i, p, bs)
    ensures ParseExact(i, p, |bs|) == Ok((bs, p + |bs|))
  {
    assert Sub(i, p, |bs|) == bs;
  }

  /** The `n` bytes at `p`. */
  function Sub(i: bytes, p: nat, n: nat): (r: bytes)
    requires p + n <= |i|
    ensures |r| == n
  {
    seq(n, j requires 0 <= j < n => i[p + j])
  }

  function ParseExact(i: bytes, p: nat, n: nat): (r: Parsed<bytes>)
    requires p <= |i|
    ensures r.Ok? ==> r.value.1 == p + n <= |i|
  {
    if p + n > |i| then Err(Truncated) else Ok((Sub(i, p, n), p + n))
  }

  function ParseU8(i: bytes, p: nat): (r: Parsed<byte>)
    requires p <= |i|
    ensures r.Ok? ==> r.value.1 == p + 1 <= |i|
  {
    if p + 1 > |i| then Err(Truncated) else Ok((i[p], p + 1))
  }

  function ParseU32(i: bytes, p: nat): (r: Parsed<u32>)
    requires p <= |i|
    ensures r.Ok? ==> r.value.1 == p + 4 <= |i|
  {
    Widths();
    if p + 4 > |i| then Err(Truncated) else Ok((FromBE(i, p, 4), p + 4))
  }

  function ParseU64(i: bytes, p: nat): (r: Parsed<u64>)
    requires p <= |i|
    ensures r.Ok? ==> r.value.1 == p + 8 <= |i|
  {
    Widths();
    if p + 8 > |i| then Err(Truncated) else Ok((FromBE(i, p, 8), p + 8))
  }

  lemma U8At(i: bytes, p: nat, x: byte)
    requires At(i, p, [x])
    ensures ParseU8(i, p) == Ok((x, p + 1))
  {
    assert [x][0] == x;
  }

  lemma U32At(i: bytes, p: nat, x: u32)
    requires At(i, p, U32(x))
    ensures ParseU32(i, p) == Ok((x, p + 4))
  {
    Widths();
    BERoundTrip(i, p, x, 4);
  }

  lemma U64At(i: bytes, p: nat, x: u64)
    requires At(i, p, U64(x))
    ensures ParseU64(i, p) == Ok((x, p + 8))
  {
    Widths();
    BERoundTrip(i, p, x, 8);
  }

  // ----- Text -----

  predicate Tail(b: byte) {
    0x80 <= b <= 0xBF
  }

  /** Well-formed UTF-8 from byte `k` on, section 4 of RFC 3629: no overlong forms, no surrogates, at most U+10FFFF. */
  predicate ValidFrom(s: bytes, k: nat)
    requires k <= |s|
    decreases |s| - k
  {
    if k == |s| then true
    else if s[k] <= 0x7F then ValidFrom(s, k + 1)
    else if 0xC2 <= s[k] <= 0xDF then k + 2 <= |s| && Tail(s[k + 1]) && ValidFrom(s, k + 2)
    else if 0xE0 <= s[k] <= 0xEF then
      k + 3 <= |s| && Tail(s[k + 1]) && Tail(s[k + 2])
      && (s[k] == 0xE0 ==> s[k + 1] >= 0xA0) && (s[k] == 0xED ==> s[k + 1] <= 0x9F) && ValidFrom(s, k + 3)
    else if 0xF0 <= s[k] <= 0xF4 then
      k + 4 <= |s| && Tail(s[k + 1]) && Tail(s[k + 2]) && Tail(s[k + 3])
      && (s[k] == 0xF0 ==> s[k + 1] >= 0x90) && (s[k] == 0xF4 ==> s[k + 1] <= 0x8F) && ValidFrom(s, k + 4)
    else false
  }

  predicate ValidUtf8(s: bytes) {
    ValidFrom(s, 0)
  }

  /** A string that fits: valid, and its length within 32 bits. */
  predicate SizedText(s: Text) {
    |s| < 0x1_0000_0000 && ValidUtf8(s)
  }

  function Str(s: Text): (r: bytes)
    ensures |r| == 4 + |s|
  {
    Len(|s|) + s
  }

  function ParseText(i: bytes, p: nat): (r: Parsed<Text>)
    requires p <= |i|
    ensures r.Ok? ==> p + 4 <= r.value.1 <= |i|
  {
    var (n, q) :- ParseU32(i, p);
    var (bs, end) :- ParseExact(i, q, n);
    if ValidUtf8(bs) then Ok((bs, end)) else Err(BadUtf8)
  }

  lemma TextAt(i: bytes, p: nat, s: Text)
    requires SizedText(s) && At(i, p, Str(s))
    ensures ParseText(i, p) == Ok((s, p + |Str(s)|))
  {
    AtConcat(i, p, Len(|s|), s);
    U32At(i, p, |s|);
    AtIsSlice(i, p + 4, s);
  }

  function Strs(ss: seq<Text>): bytes {
    if ss == [] then [] else Strs(ss[..|ss| - 1]) + Str(ss[|ss| - 1])
  }

  function ParseTexts(i: bytes, p: nat, n: nat, got: seq<Text>): (r: Parsed<seq<Text>>)
    requires p <= |i|
    ensures r.Ok? ==> p <= r.value.1 <= |i|
    decreases n
  {
    if n == 0 then Ok((got, p))
    else
      var (s, q) :- ParseText(i, p);
      ParseTexts(i, q, n - 1, got + [s])
  }

  function TextList(ss: seq<Text>): bytes {
    Len(|ss|) + Strs(ss)
  }

  function ParseTextList(i: bytes, p: nat): (r: Parsed<seq<Text>>)
    requires p <= |i|
    ensures r.Ok? ==> p + 4 <= r.value.1 <= |i|
  {
    var (n, q) :- ParseU32(i, p);
    ParseTexts(i, q, n, [])
  }

  predicate SizedTexts(ss: seq<Text>) {
    |ss| < 0x1_0000_0000 && forall j :: 0 <= j < |ss| ==> SizedText(ss[j])
  }

  /** Splitting off the first string instead of the last. */
  lemma {:induction false} StrsFirst(ss: seq<Text>)
    requires ss != []
    ensures Strs(ss) == Str(ss[0]) + Strs(ss[1..])
  {
    if |ss| == 1 {
      assert Strs(ss[..0]) == [] && Strs(ss[1..]) == [];
      assert [] + Str(ss[0]) == Str(ss[0]) + [];
    } else {
      var front, last := ss[..|ss| - 1], ss[|ss| - 1];
      StrsFirst(front);
      assert ss[1..][..|ss| - 2] == front[1..];
      assert Str(ss[0]) + Strs(front[1..]) + Str(last) == Str(ss[0]) + (Strs(front[1..]) + Str(last));
    }
  }

  lemma {:induction false} TextsAt(i: bytes, p: nat, ss: seq<Text>, got: seq<Text>)
    requires (forall j :: 0 <= j < |ss| ==> SizedText(ss[j])) && At(i, p, Strs(ss))
    ensures ParseTexts(i, p, |ss|, got) == Ok((got + ss, p + |Strs(ss)|))
    decreases |ss|
  {
    if ss == [] {
      assert got + ss == got;
    } else {
      StrsFirst(ss);
      AtConcat(i, p, Str(ss[0]), Strs(ss[1..]));
      TextAt(i, p, ss[0]);
      TextsAt(i, p + |Str(ss[0])|, ss[1..], got + [ss[0]]);
      assert got + [ss[0]] + ss[1..] == got + ss;
    }
  }

  lemma TextListAt(i: bytes, p: nat, ss: seq<Text>)
    requires SizedTexts(ss) && At(i, p, TextList(ss))
    ensures ParseTextList(i, p) == Ok((ss, p + |TextList(ss)|))
  {
    AtConcat(i, p, Len(|ss|), Strs(ss));
    U32At(i, p, |ss|);
    TextsAt(i, p + 4, ss, []);
    assert [] + ss == ss;
  }

  // ----- Order of map keys -----

  /** Byte-wise lexicographic order, from position `k` on. */
  predicate LessFrom(a: Text, b: Text, k: nat)
    requires k <= |a| && k <= |b|
    decreases |a| - k
  {
    k < |b| && (k == |a| || a[k] < b[k] || (a[k] == b[k] && LessFrom(a, b, k + 1)))
  }

  predicate Less(a: Text, b: Text) {
    LessFrom(a, b, 0)
  }

  lemma {:induction false} LessTotal(a: Text, b: Text, k: nat)
    requires k <= |a| && k <= |b| && a[..k] == b[..k] && a != b
    ensures LessFrom(a, b, k) || LessFrom(b, a, k)
    decreases |a| - k
  {
    if k < |a| && k < |b| && a[k] == b[k] {
      assert a[..k + 1] == a[..k] + [a[k]] && b[..k + 1] == b[..k] + [b[k]];
      LessTotal(a, b, k + 1);
    } else {
      assert a == a[..k] + a[k..] && b == b[..k] + b[k..];
    }
  }

  lemma {:induction false} LessAsymmetric(a: Text, b: Text, k: nat)
    requires k <= |a| && k <= |b|
    ensures !(LessFrom(a, b, k) && LessFrom(b, a, k))
    decreases |a| - k
  {
    if k < |a| && k < |b| { LessAsymmetric(a, b, k + 1); }
  }

  lemma {:induction false} LessTransitive(a: Text, b: Text, c: Text, k: nat)
    requires k <= |a| && k <= |b| && k <= |c| && LessFrom(a, b, k) && LessFrom(b, c, k)
    ensures LessFrom(a, c, k)
    decreases |a| - k
  {
    if k < |a| && a[k] == b[k] == c[k] { LessTransitive(a, b, c, k + 1); }
  }

  predicate IsFirst(s: set<Text>, x: Text) {
    x in s && forall y :: y in s && y != x ==> Less(x, y)
  }

  lemma {:induction false} FirstExists(s: set<Text>)
    requires s != {}
    ensures exists x :: IsFirst(s, x)
  {
    var y :| y in s;
    if s == {y} {
      assert IsFirst(s, y);
    } else {
      FirstExists(s - {y});
      var x :| IsFirst(s - {y}, x);
      LessTotal(x, y, 0);
      if Less(x, y) {
        assert IsFirst(s, x);
      } else {
        forall z | z in s && z != y
          ensures Less(y, z)
        {
          if z != x {
            assert z in s - {y};
            LessTransitive(y, x, z, 0);
          }
        }
        assert IsFirst(s, y);
      }
    }
  }

  lemma FirstUnique(s: set<Text>, x: Text, y: Text)
    requires IsFirst(s, x) && IsFirst(s, y)
    ensures x == y
  {
    LessAsymmetric(x, y, 0);
  }

  function First(s: set<Text>): (x: Text)
    requires s != {}
    ensures IsFirst(s, x)
  {
    FirstExists(s);
    assert forall x, y :: IsFirst(s, x) && IsFirst(s, y) ==> x == y by {
      forall x, y | IsFirst(s, x) && IsFirst(s, y) ensures x == y { FirstUnique(s, x, y); }
    }
    var x :| IsFirst(s, x);
    x
  }

  /** The keys of a map in ascending byte order, each once. */
  function SortedKeys(s: set<Text>): (r: seq<Text>)
    ensures |r| == |s|
  {
    if s == {} then [] else [First(s)] + SortedKeys(s - {First(s)})
  }

  lemma {:induction false} SortedKeysElements(s: set<Text>)
    ensures forall x :: x in SortedKeys(s) <==> x in s
  {
    if s != {} { SortedKeysElements(s - {First(s)}); }
  }

  // ----- Values -----

  function Items(items: seq<u32>): bytes {
    if items == [] then [] else Items(items[..|items| - 1]) + U32(items[|items| - 1])
  }

  function Tag(v: Value): byte {
    match v
    case VNull => 0
    case VBool(_) => 1
    case VInt(_) => 2
    case VFloat(_) => 3
    case VString(_) => 4
    case VVector(_) => 5
    case VMap(_) => 6
  }

  function EncValue(v: Value): (r: bytes)
    decreases v, 2
  {
    [Tag(v)] + EncBody(v)
  }

  function EncBody(v: Value): bytes
    decreases v, 1
  {
    match v
    case VNull => []
    case VBool(b) => [if b then 1 else 0]
    case VInt(x) => U64(Unsigned(x))
    case VFloat(bits) => U64(bits)
    case VString(s) => Str(s)
    case VVector(items) => Len(|items|) + Items(items)
    case VMap(m) =>
      SortedKeysElements(m.Keys);
      Len(|m|) + EncEntries(v, SortedKeys(m.Keys))
  }

  /** The entries of map `v` for the listed keys. */
  function EncEntries(v: Value, keys: seq<Text>): bytes
    requires v.VMap? && forall k :: k in keys ==> k in v.entries
    decreases v, 0, |keys|
  {
    if keys == [] then []
    else Str(keys[0]) + (EncValue(v.entries[keys[0]]) + EncEntries(v, keys[1..]))
  }

  function EncProps(m: Properties): bytes {
    SortedKeysElements(m.Keys);
    Len(|m|) + EncEntries(VMap(m), SortedKeys(m.Keys))
  }

  /** Strings valid and every length within 32 bits, all the way down. */
  predicate SizedValue(v: Value) {
    match v
    case VString(s) => SizedText(s)
    case VVector(items) => |items| < 0x1_0000_0000
    case VMap(m) => |m| < 0x1_0000_0000 && forall k :: k in m ==> SizedText(k) && SizedValue(m[k])
    case _ => true
  }

  predicate SizedProps(m: Properties) {
    SizedValue(VMap(m))
  }

  function ParseItems(i: bytes, p: nat, n: nat, got: seq<u32>): (r: Parsed<seq<u32>>)
    requires p <= |i|
    ensures r.Ok? ==> p <= r.value.1 <= |i|
    decreases n
  {
    if n == 0 then Ok((got, p))
    else
      var (x, q) :- ParseU32(i, p);
      ParseItems(i, q, n - 1, got + [x])
  }

  function ParseValue(i: bytes, p: nat): (r: Parsed<Value>)
    requires p <= |i|
    ensures r.Ok? ==> p < r.value.1 <= |i|
    decreases |i| - p, 0
  {
    var (tag, q) :- ParseU8(i, p);
    ParseBody(i, q, tag)
  }

  function ParseBody(i: bytes, p: nat, tag: byte): (r: Parsed<Value>)
    requires p <= |i|
    ensures r.Ok? ==> p <= r.value.1 <= |i|
    decreases |i| - p, 1
  {
    match tag
    case 0 => Ok((VNull, p))
    case 1 =>
      var (b, end) :- ParseU8(i, p);
      Ok((VBool(b != 0), end))
    case 2 =>
      var (x, end) :- ParseU64(i, p);
      Ok((VInt(Signed(x)), end))
    case 3 =>
      var (x, end) :- ParseU64(i, p);
      Ok((VFloat(x), end))
    case 4 =>
      var (s, end) :- ParseText(i, p);
      Ok((VString(s), end))
    case 5 =>
      var (n, q) :- ParseU32(i, p);
      var (items, end) :- ParseItems(i, q, n, []);
      Ok((VVector(items), end))
    case 6 =>
      var (n, q) :- ParseU32(i, p);
      var (m, end) :- ParseEntries(i, q, n, map[]);
      Ok((VMap(m), end))
    case _ => Err(UnknownTag)
  }

  /** `n` entries; a repeated key keeps its last value. */
  function ParseEntries(i: bytes, p: nat, n: nat, got: Properties): (r: Parsed<Properties>)
    requires p <= |i|
    ensures r.Ok? ==> p <= r.value.1 <= |i|
    decreases |i| - p, n
  {
    if n == 0 then Ok((got, p))
    else
      var (key, q) :- ParseText(i, p);
      var (value, q1) :- ParseValue(i, q);
      ParseEntries(i, q1, n - 1, got[key := value])
  }

  function ParseProps(i: bytes, p: nat): (r: Parsed<Properties>)
    requires p <= |i|
    ensures r.Ok? ==> p + 4 <= r.value.1 <= |i|
  {
    var (n, q) :- ParseU32(i, p);
    ParseEntries(i, q, n, map[])
  }

  lemma {:induction false} ItemsFirst(items: seq<u32>)
    requires items != []
    ensures Items(items) == U32(items[0]) + Items(items[1..])
  {
    if |items| == 1 {
      assert items[..0] == [] && items[1..] == [];
    } else {
      var front, last := items[..|items| - 1], items[|items| - 1];
      ItemsFirst(front);
      assert items[1..][..|items| - 2] == front[1..];
      assert U32(items[0]) + Items(front[1..]) + U32(last) == U32(items[0]) + (Items(front[1..]) + U32(last));
    }
  }

  lemma {:induction false} ItemsAt(i: bytes, p: nat, items: seq<u32>, got: seq<u32>)
    requires At(i, p, Items(items))
    ensures ParseItems(i, p, |items|, got) == Ok((got + items, p + |Items(items)|))
    decreases |items|
  {
    if items == [] {
      assert got + items == got;
    } else {
      ItemsFirst(items);
      AtConcat(i, p, U32(items[0]), Items(items[1..]));
      U32At(i, p, items[0]);
      ItemsAt(i, p + 4, items[1..], got + [items[0]]);
      assert got + [items[0]] + items[1..] == got + items;
    }
  }

  /** Decoding inverts encoding for values, nested maps included. */
  lemma {:induction false} ValueAt(i: bytes, p: nat, v: Value)
    requires SizedValue(v) && At(i, p, EncValue(v))
    ensures ParseValue(i, p) == Ok((v, p + |EncValue(v)|))
    decreases v, 2
  {
    AtConcat(i, p, [Tag(v)], EncBody(v));
    U8At(i, p, Tag(v));
    BodyAt(i, p + 1, v);
  }

  lemma {:induction false} BodyAt(i: bytes, p: nat, v: Value)
    requires SizedValue(v) && At(i, p, EncBody(v))
    ensures ParseBody(i, p, Tag(v)) == Ok((v, p + |EncBody(v)|))
    decreases v, 1
  {
    match v
    case VNull =>
    case VBool(b) => U8At(i, p, if b then 1 else 0);
    case VInt(x) => U64At(i, p, Unsigned(x));
    case VFloat(bits) => U64At(i, p, bits);
    case VString(s) => TextAt(i, p, s);
    case VVector(items) => VectorAt(i, p, items);
    case VMap(m) => MapAt(i, p, v);
  }

  lemma VectorAt(i: bytes, p: nat, items: seq<u32>)
    requires |items| < 0x1_0000_0000 && At(i, p, EncBody(VVector(items)))
    ensures ParseBody(i, p, 5) == Ok((VVector(items), p + |EncBody(VVector(items))|))
  {
    AtConcat(i, p, Len(|items|), Items(items));
    U32At(i, p, |items|);
    ItemsAt(i, p + 4, items, []);
    assert [] + items == items;
  }

  /** Wherever the encoding of `x` stands in `i`, it parses back. */
  ghost predicate Reads(i: bytes, x: Value) {
    forall q: nat {:trigger At(i, q, EncValue(x))} ::
      At(i, q, EncValue(x)) ==> ParseValue(i, q) == Ok((x, q + |EncValue(x)|))
  }

  lemma {:induction false} MapReads(i: bytes, v: Value)
    requires v.VMap? && SizedValue(v)
    ensures forall k {:trigger k in v.entries} :: k in v.entries ==> SizedText(k) && Reads(i, v.entries[k])
    decreases v, 0, 0
  {
    forall k | k in v.entries
      ensures SizedText(k) && Reads(i, v.entries[k])
    {
      forall q: nat | At(i, q, EncValue(v.entries[k]))
        ensures ParseValue(i, q) == Ok((v.entries[k], q + |EncValue(v.entries[k])|))
      {
        ValueAt(i, q, v.entries[k]);
      }
    }
  }

  lemma {:induction false} MapAt(i: bytes, p: nat, v: Value)
    requires v.VMap? && SizedValue(v) && At(i, p, EncBody(v))
    ensures ParseBody(i, p, 6) == Ok((v, p + |EncBody(v)|))
    decreases v, 0, 1
  {
    MapReads(i, v);
    var keys := MapLaid(i, p, v);
    MapParses(i, p, v, keys, p + |EncBody(v)|);
  }

  /** A map stands as its length and its entries, under some listing of its keys. */
  lemma MapLaid(i: bytes, p: nat, v: Value) returns (keys: seq<Text>)
    requires v.VMap? && At(i, p, EncBody(v))
    ensures |keys| == |v.entries| && Remaining(v, map[], keys)
    ensures At(i, p, Len(|v.entries|)) && Laid(i, p + 4, v, keys, p + |EncBody(v)|)
  {
    keys := SortedKeys(v.entries.Keys);
    SortedKeysElements(v.entries.Keys);
    AtConcat(i, p, Len(|v.entries|), EncEntries(v, keys));
    EntriesLaid(i, p + 4, v, keys);
  }

  lemma MapParses(i: bytes, p: nat, v: Value, keys: seq<Text>, end: nat)
    requires v.VMap? && |keys| == |v.entries| < 0x1_0000_0000 && Remaining(v, map[], keys)
    requires At(i, p, Len(|v.entries|)) && Laid(i, p + 4, v, keys, end)
    requires forall k {:trigger k in v.entries} :: k in v.entries ==> SizedText(k) && Reads(i, v.entries[k])
    ensures ParseBody(i, p, 6) == Ok((v, end))
  {
    U32At(i, p, |v.entries|);
    EntriesAt(i, p + 4, v, keys, map[], end);
  }

  /** The entries read so far are right, and `keys` lists all that are missing. */
  ghost predicate Remaining(v: Value, got: Properties, keys: seq<Text>)
    requires v.VMap?
  {
    && (forall k {:trigger k in keys} :: k in keys ==> k in v.entries)
    && (forall k {:trigger k in got} :: k in got ==> k in v.entries && got[k] == v.entries[k])
    && (forall k {:trigger k in v.entries} :: k in v.entries ==> k in got || k in keys)
  }

  lemma RemainingStep(v: Value, got: Properties, keys: seq<Text>)
    requires v.VMap? && Remaining(v, got, keys) && keys != []
    ensures keys[0] in v.entries && Remaining(v, got[keys[0] := v.entries[keys[0]]], keys[1..])
  {
    assert keys[0] in keys;
    assert forall x {:trigger x in keys[1..]} :: x in keys[1..] ==> x in keys;
    assert forall x {:trigger x in keys} :: x in keys ==> x == keys[0] || x in keys[1..];
  }

  lemma EntriesHead(i: bytes, p: nat, v: Value, keys: seq<Text>)
    requires v.VMap? && keys != [] && (forall k :: k in keys ==> k in v.entries) && At(i, p, EncEntries(v, keys))
    ensures var k, x := keys[0], v.entries[keys[0]];
            && At(i, p, Str(k)) && At(i, p + |Str(k)|, EncValue(x))
            && At(i, p + |Str(k)| + |EncValue(x)|, EncEntries(v, keys[1..]))
            && |EncEntries(v, keys)| == |Str(k)| + |EncValue(x)| + |EncEntries(v, keys[1..])|
  {
    var k, x, rest := keys[0], v.entries[keys[0]], keys[1..];
    AtConcat(i, p, Str(k), EncValue(x) + EncEntries(v, rest));
    AtConcat(i, p + |Str(k)|, EncValue(x), EncEntries(v, rest));
  }

  lemma EntriesStep(i: bytes, p: nat, n: nat, got: Properties, key: Text, q: nat, value: Value, q1: nat)
    requires p <= |i| && ParseText(i, p) == Ok((key, q)) && ParseValue(i, q) == Ok((value, q1)) && n > 0
    ensures ParseEntries(i, p, n, got) == ParseEntries(i, q1, n - 1, got[key := value])
  {
  }

  /** Keys and values stand one behind the other from `p` to `end`. */
  ghost predicate Laid(i: bytes, p: nat, v: Value, keys: seq<Text>, end: nat)
    requires v.VMap?
    decreases |keys|
  {
    if keys == [] then p == end <= |i|
    else
      && keys[0] in v.entries && At(i, p, Str(keys[0]))
      && At(i, p + |Str(keys[0])|, EncValue(v.entries[keys[0]]))
      && Laid(i, p + |Str(keys[0])| + |EncValue(v.entries[keys[0]])|, v, keys[1..], end)
  }

  lemma {:induction false} EntriesLaid(i: bytes, p: nat, v: Value, keys: seq<Text>)
    requires v.VMap? && (forall k :: k in keys ==> k in v.entries) && At(i, p, EncEntries(v, keys))
    ensures Laid(i, p, v, keys, p + |EncEntries(v, keys)|)
    decreases |keys|
  {
    if keys != [] {
      EntriesHead(i, p, v, keys);
      EntriesLaid(i, p + |Str(keys[0])| + |EncValue(v.entries[keys[0]])|, v, keys[1..]);
    }
  }

  lemma RemainingNone(v: Value, got: Properties)
    requires v.VMap? && Remaining(v, got, [])
    ensures got == v.entries
  {
  }

  lemma {:induction false} EntriesAt(i: bytes, p: nat, v: Value, keys: seq<Text>, got: Properties, end: nat)
    requires v.VMap? && Remaining(v, got, keys) && Laid(i, p, v, keys, end)
    requires forall k {:trigger k in v.entries} :: k in v.entries ==> SizedText(k) && Reads(i, v.entries[k])
    ensures ParseEntries(i, p, |keys|, got) == Ok((v.entries, end))
    decreases |keys|
  {
    hide At, Str, EncValue, Remaining;
    if keys == [] {
      RemainingNone(v, got);
    } else {
      var k, x := keys[0], v.entries[keys[0]];
      var q := p + |Str(k)|;
      var q1 := q + |EncValue(x)|;
      RemainingStep(v, got, keys);
      TextAt(i, p, k);
      EntriesAt(i, q1, v, keys[1..], got[k := x], end);
      EntriesStep(i, p, |keys|, got, k, q, x, q1);
    }
  }

  lemma PropsAt(i: bytes, p: nat, m: Properties)
    requires SizedProps(m) && At(i, p, EncProps(m))
    ensures ParseProps(i, p) == Ok((m, p + |EncProps(m)|))
  {
    var v := VMap(m);
    assert EncBody(v) == EncProps(m);
    BodyAt(i, p, v);
  }

  // ----- Routing tables -----

  function EncReplicas(rs: seq<ShardReplica>): bytes {
    if rs == [] then []
    else U64(rs[0].serverId) + ([if rs[0].role == Primary then 1 else 2] + EncReplicas(rs[1..]))
  }

  function EncPlacement(x: ShardPlacement): bytes {
    U64(x.shardId) + (Len(|x.replicas|) + EncReplicas(x.replicas))
  }

  function EncPlacements(xs: seq<ShardPlacement>): bytes {
    if xs == [] then [] else EncPlacement(xs[0]) + EncPlacements(xs[1..])
  }

  function EncTable(t: RoutingTable): bytes {
    U64(t.version) + (Len(|t.placements|) + EncPlacements(t.placements))
  }

  function EncIds(ids: seq<u64>): bytes {
    if ids == [] then [] else U64(ids[0]) + EncIds(ids[1..])
  }

  predicate SizedTable(t: RoutingTable) {
    |t.placements| < 0x1_0000_0000 && forall x :: x in t.placements ==> |x.replicas| < 0x1_0000_0000
  }

  function ParseIds(i: bytes, p: nat, n: nat, got: seq<u64>): (r: Parsed<seq<u64>>)
    requires p <= |i|
    ensures r.Ok? ==> p <= r.value.1 <= |i|
    decreases n
  {
    if n == 0 then Ok((got, p))
    else
      var (x, q) :- ParseU64(i, p);
      ParseIds(i, q, n - 1, got + [x])
  }

  function ParseReplica(i: bytes, p: nat): (r: Parsed<ShardReplica>)
    requires p <= |i|
    ensures r.Ok? ==> r.value.1 == p + 9 <= |i|
  {
    var (server, q) :- ParseU64(i, p);
    var (tag, end) :- ParseU8(i, q);
    if tag == 1 then Ok((ShardReplica(server, Primary), end))
    else if tag == 2 then Ok((ShardReplica(server, Replica), end))
    else Err(UnknownTag)
  }

  function ParseReplicas(i: bytes, p: nat, n: nat, got: seq<ShardReplica>): (r: Parsed<seq<ShardReplica>>)
    requires p <= |i|
    ensures r.Ok? ==> p <= r.value.1 <= |i|
    decreases n
  {
    if n == 0 then Ok((got, p))
    else
      var (x, q) :- ParseReplica(i, p);
      ParseReplicas(i, q, n - 1, got + [x])
  }

  function ParsePlacement(i: bytes, p: nat): (r: Parsed<ShardPlacement>)
    requires p <= |i|
    ensures r.Ok? ==> p + 12 <= r.value.1 <= |i|
  {
    var (shard, q) :- ParseU64(i, p);
    var (n, q1) :- ParseU32(i, q);
    var (rs, end) :- ParseReplicas(i, q1, n, []);
    Ok((ShardPlacement(shard, rs), end))
  }

  function ParsePlacements(i: bytes, p: nat, n: nat, got: seq<ShardPlacement>): (r: Parsed<seq<ShardPlacement>>)
    requires p <= |i|
    ensures r.Ok? ==> p <= r.value.1 <= |i|
    decreases n
  {
    if n == 0 then Ok((got, p))
    else
      var (x, q) :- ParsePlacement(i, p);
      ParsePlacements(i, q, n - 1, got + [x])
  }

  function ParseTable(i: bytes, p: nat): (r: Parsed<RoutingTable>)
    requires p <= |i|
    ensures r.Ok? ==> p + 12 <= r.value.1 <= |i|
  {
    var (version, q) :- ParseU64(i, p);
    var (n, q1) :- ParseU32(i, q);
    var (xs, end) :- ParsePlacements(i, q1, n, []);
    Ok((RoutingTable(version, xs), end))
  }

  lemma {:induction false} IdsAt(i: bytes, p: nat, ids: seq<u64>, got: seq<u64>)
    requires At(i, p, EncIds(ids))
    ensures ParseIds(i, p, |ids|, got) == Ok((got + ids, p + |EncIds(ids)|))
    decreases |ids|
  {
    if ids == [] {
      assert got + ids == got;
    } else {
      AtConcat(i, p, U64(ids[0]), EncIds(ids[1..]));
      U64At(i, p, ids[0]);
      IdsAt(i, p + 8, ids[1..], got + [ids[0]]);
      assert got + [ids[0]] + ids[1..] == got + ids;
    }
  }

  lemma ReplicaAt(i: bytes, p: nat, x: ShardReplica)
    requires At(i, p, U64(x.serverId)) && At(i, p + 8, [if x.role == Primary then 1 else 2])
    ensures ParseReplica(i, p) == Ok((x, p + 9))
  {
    U64At(i, p, x.serverId);
    U8At(i, p + 8, if x.role == Primary then 1 else 2);
  }

  lemma {:induction false} ReplicasAt(i: bytes, p: nat, rs: seq<ShardReplica>, got: seq<ShardReplica>)
    requires At(i, p, EncReplicas(rs))
    ensures ParseReplicas(i, p, |rs|, got) == Ok((got + rs, p + |EncReplicas(rs)|))
    decreases |rs|
  {
    if rs == [] {
      assert got + rs == got;
    } else {
      var role := [if rs[0].role == Primary then 1 else 2];
      AtConcat(i, p, U64(rs[0].serverId), role + EncReplicas(rs[1..]));
      AtConcat(i, p + 8, role, EncReplicas(rs[1..]));
      ReplicaAt(i, p, rs[0]);
      ReplicasAt(i, p + 9, rs[1..], got + [rs[0]]);
      assert got + [rs[0]] + rs[1..] == got + rs;
    }
  }

  lemma PlacementAt(i: bytes, p: nat, x: ShardPlacement)
    requires |x.replicas| < 0x1_0000_0000 && At(i, p, EncPlacement(x))
    ensures ParsePlacement(i, p) == Ok((x, p + |EncPlacement(x)|))
  {
    AtConcat(i, p, U64(x.shardId), Len(|x.replicas|) + EncReplicas(x.replicas));
    AtConcat(i, p + 8, Len(|x.replicas|), EncReplicas(x.replicas));
    U64At(i, p, x.shardId);
    U32At(i, p + 8, |x.replicas|);
    ReplicasAt(i, p + 12, x.replicas, []);
    assert [] + x.replicas == x.replicas;
  }

  lemma {:induction false} PlacementsAt(i: bytes, p: nat, xs: seq<ShardPlacement>, got: seq<ShardPlacement>)
    requires (forall x {:trigger x in xs} :: x in xs ==> |x.replicas| < 0x1_0000_0000) && At(i, p, EncPlacements(xs))
    ensures ParsePlacements(i, p, |xs|, got) == Ok((got + xs, p + |EncPlacements(xs)|))
    decreases |xs|
  {
    hide At, EncPlacement, ParsePlacement;
    if xs == [] {
      assert got + xs == got;
    } else {
      assert xs[0] in xs && forall x {:trigger x in xs[1..]} :: x in xs[1..] ==> x in xs;
      AtConcat(i, p, EncPlacement(xs[0]), EncPlacements(xs[1..]));
      PlacementAt(i, p, xs[0]);
      var q := p + |EncPlacement(xs[0])|;
      PlacementsAt(i, q, xs[1..], got + [xs[0]]);
      PlacementsStep(i, p, |xs|, got, xs[0], q);
      assert got + [xs[0]] + xs[1..] == got + xs;
    }
  }

  lemma PlacementsStep(i: bytes, p: nat, n: nat, got: seq<ShardPlacement>, x: ShardPlacement, q: nat)
    requires p <= |i| && ParsePlacement(i, p) == Ok((x, q)) && n > 0
    ensures ParsePlacements(i, p, n, got) == ParsePlacements(i, q, n - 1, got + [x])
  {
  }

  lemma TableAt(i: bytes, p: nat, t: RoutingTable)
    requires SizedTable(t) && At(i, p, EncTable(t))
    ensures ParseTable(i, p) == Ok((t, p + |EncTable(t)|))
  {
    hide At, EncPlacements, ParsePlacements, U64;
    AtConcat(i, p, U64(t.version), Len(|t.placements|) + EncPlacements(t.placements));
    AtConcat(i, p + 8, Len(|t.placements|), EncPlacements(t.placements));
    U64At(i, p, t.version);
    U32At(i, p + 8, |t.placements|);
    PlacementsAt(i, p + 12, t.placements, []);
    assert [] + t.placements == t.placements;
  }
}
