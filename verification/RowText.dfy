/** Splitting, joining, hexadecimal and decimal text, over ASCII bytes. */
module RowText {
  import opened Basics
  import opened Codec

  // ----- Split and join -----

  /** The parts before and behind the first `c`. */
  function SplitOnce(s: bytes, c: byte): (r: Option<(bytes, bytes)>)
    ensures r.Some? ==> |r.value.0| + |r.value.1| + 1 == |s|
  {
    if s == [] then None
    else if s[0] == c then Some(([], s[1..]))
    else
      match SplitOnce(s[1..], c)
      case None => None
      case Some((a, b)) => Some(([s[0]] + a, b))
  }

  /** All parts between `c`s; always at least one. */
  function Split(s: bytes, c: byte): (r: seq<bytes>)
    ensures r != []
  {
    if s == [] then [[]]
    else
      var rest := Split(s[1..], c);
      if s[0] == c then [[]] + rest
      else [[s[0]] + rest[0]] + rest[1..]
  }

  lemma {:induction false} SplitShorter(s: bytes, c: byte)
    ensures forall p :: p in Split(s, c) ==> |p| <= |s|
  {
    if s != [] {
      var rest := Split(s[1..], c);
      SplitShorter(s[1..], c);
      assert rest[0] in rest && forall p :: p in rest[1..] ==> p in rest;
    }
  }

  function Join(parts: seq<bytes>, c: byte): bytes {
    if parts == [] then []
    else if |parts| == 1 then parts[0]
    else parts[0] + ([c] + Join(parts[1..], c))
  }

  lemma {:induction false} SplitOnceAt(a: bytes, b: bytes, c: byte)
    requires c !in a
    ensures SplitOnce(a + ([c] + b), c) == Some((a, b))
  {
    var s := a + ([c] + b);
    if a == [] {
      assert s[1..] == b;
    } else {
      assert a[0] in a && s[1..] == a[1..] + ([c] + b);
      SplitOnceAt(a[1..], b, c);
      assert [a[0]] + a[1..] == a;
    }
  }

  lemma {:induction false} SplitNever(s: bytes, c: byte)
    requires c !in s
    ensures Split(s, c) == [s] && SplitOnce(s, c) == None
  {
    if s != [] {
      assert s[0] in s;
      SplitNever(s[1..], c);
      assert [s[0]] + s[1..] == s;
    }
  }

  /** Splitting what was joined splits each part on its own. */
  lemma {:induction false} SplitAppend(a: bytes, b: bytes, c: byte)
    ensures Split(a + ([c] + b), c) == Split(a, c) + Split(b, c)
  {
    var s := a + ([c] + b);
    if a == [] {
      assert s[0] == c && s[1..] == b;
      assert Split(s, c) == [[]] + Split(b, c);
    } else {
      assert s[0] == a[0] && s[1..] == a[1..] + ([c] + b);
      SplitAppend(a[1..], b, c);
      SplitStep(a[0], Split(a[1..], c), Split(b, c), c);
      assert Split(s, c) == Attach(a[0], Split(s[1..], c), c);
      assert Split(a, c) == Attach(a[0], Split(a[1..], c), c);
    }
  }

  /** One more byte in front of a split text. */
  function Attach(x: byte, parts: seq<bytes>, c: byte): seq<bytes>
    requires parts != []
  {
    if x == c then [[]] + parts else [[x] + parts[0]] + parts[1..]
  }

  lemma SplitStep(x: byte, a: seq<bytes>, b: seq<bytes>, c: byte)
    requires a != []
    ensures Attach(x, a + b, c) == Attach(x, a, c) + b
  {
  }

  lemma {:induction false} SplitJoin(parts: seq<bytes>, c: byte)
    requires parts != [] && forall p :: p in parts ==> c !in p
    ensures Split(Join(parts, c), c) == parts
    decreases |parts|
  {
    assert parts[0] in parts;
    SplitNever(parts[0], c);
    if |parts| > 1 {
      assert forall p :: p in parts[1..] ==> p in parts;
      SplitJoin(parts[1..], c);
      SplitAppend(parts[0], Join(parts[1..], c), c);
      assert [parts[0]] + parts[1..] == parts;
    } else {
      assert parts == [parts[0]];
    }
  }

  /** A part with a separator in it falls into several pieces. */
  lemma {:induction false} SplitJoinPiece(parts: seq<bytes>, c: byte, k: nat, piece: bytes)
    requires k < |parts| && piece in Split(parts[k], c)
    ensures piece in Split(Join(parts, c), c)
    decreases |parts|
  {
    if |parts| > 1 {
      SplitAppend(parts[0], Join(parts[1..], c), c);
      if k > 0 { SplitJoinPiece(parts[1..], c, k - 1, piece); }
    }
  }

  lemma {:induction false} JoinAvoids(parts: seq<bytes>, c: byte, d: byte)
    requires d != c && forall p :: p in parts ==> d !in p
    ensures d !in Join(parts, c)
    decreases |parts|
  {
    if |parts| > 0 {
      assert parts[0] in parts;
      if |parts| > 1 {
        assert forall p :: p in parts[1..] ==> p in parts;
        JoinAvoids(parts[1..], c, d);
      }
    }
  }

  lemma {:induction false} JoinEmpty(parts: seq<bytes>, c: byte)
    ensures Join(parts, c) == [] <==> parts == [] || parts == [[]]
    decreases |parts|
  {
    if |parts| == 1 { assert parts == [parts[0]]; }
  }

  // ----- Hexadecimal -----

  function Digit(x: nat): (r: byte)
    requires x < 16
    ensures 0x30 <= r <= 0x39 || 0x61 <= r <= 0x66
  {
    if x < 10 then 0x30 + x else 0x57 + x
  }

  function Nibble(b: byte): (r: Option<nat>)
    ensures r.Some? ==> r.value < 16
  {
    if 0x30 <= b <= 0x39 then Some(b - 0x30)
    else if 0x61 <= b <= 0x66 then Some(b - 0x57)
    else if 0x41 <= b <= 0x46 then Some(b - 0x37)
    else None
  }

  function High(b: byte): (r: nat)
    ensures r < 16
  {
    b / 16
  }

  function Low(b: byte): (r: nat)
    ensures r < 16
  {
    b % 16
  }

  function Octet(high: nat, low: nat): byte
    requires high < 16 && low < 16
  {
    high * 16 + low
  }

  function Hex(bs: bytes): (r: bytes)
    ensures |r| == 2 * |bs|
  {
    if bs == [] then [] else Hex(bs[..|bs| - 1]) + [Digit(High(bs[|bs| - 1])), Digit(Low(bs[|bs| - 1]))]
  }

  function Unhex(s: bytes): (r: Option<bytes>)
    ensures r.Some? ==> 2 * |r.value| == |s|
  {
    if s == [] then Some([])
    else if |s| < 2 then None
    else
      var high, low := Nibble(s[|s| - 2]), Nibble(s[|s| - 1]);
      var front := Unhex(s[..|s| - 2]);
      if high.None? || low.None? || front.None? then None
      else Some(front.value + [Octet(high.value, low.value)])
  }

  lemma NibbleRoundTrip(b: byte)
    ensures Nibble(Digit(High(b))) == Some(High(b)) && Nibble(Digit(Low(b))) == Some(Low(b))
    ensures Octet(High(b), Low(b)) == b
  {
  }

  lemma UnhexStep(s: bytes, a: byte, b: byte)
    requires Nibble(a).Some? && Nibble(b).Some? && Unhex(s).Some?
    ensures Unhex(s + [a, b]) == Some(Unhex(s).value + [Octet(Nibble(a).value, Nibble(b).value)])
  {
    hide Nibble, Octet;
    var t := s + [a, b];
    assert t[..|s|] == s && t[|s|] == a && t[|s| + 1] == b;
  }

  lemma HexStep(s: bytes, x: byte)
    ensures Hex(s + [x]) == Hex(s) + [Digit(High(x)), Digit(Low(x))]
  {
    hide Digit, High, Low;
    var t := s + [x];
    assert t[..|s|] == s && t[|s|] == x;
  }

  lemma HexNone()
    ensures Hex([]) == [] && Unhex([]) == Some([])
  {
  }

  lemma {:induction false} HexRoundTrip(bs: bytes)
    ensures Unhex(Hex(bs)) == Some(bs)
  {
    hide Digit, Nibble, Octet, High, Low, Hex, Unhex;
    if bs == [] {
      HexNone();
    } else {
      var front, last := bs[..|bs| - 1], bs[|bs| - 1];
      assert front + [last] == bs;
      HexRoundTrip(front);
      NibbleRoundTrip(last);
      HexStep(front, last);
      UnhexStep(Hex(front), Digit(High(last)), Digit(Low(last)));
    }
  }

  /** Hex text holds only digits and the letters a to f. */
  lemma {:induction false} HexBytes(bs: bytes, c: byte)
    requires c in Hex(bs)
    ensures 0x30 <= c <= 0x39 || 0x61 <= c <= 0x66
  {
    if bs != [] {
      var last := bs[|bs| - 1];
      if c != Digit(High(last)) && c != Digit(Low(last)) { HexBytes(bs[..|bs| - 1], c); }
    }
  }

  method HexEncode(bs: bytes) returns (out: bytes)
    ensures out == Hex(bs)
  {
    out := [];
    for i := 0 to |bs|
      invariant out == Hex(bs[..i])
    {
      assert bs[..i + 1][..i] == bs[..i];
      out := out + [Digit(High(bs[i]))];
      out := out + [Digit(Low(bs[i]))];
    }
    assert bs[..|bs|] == bs;
  }

  method HexDecode(s: bytes) returns (r: Option<bytes>)
    ensures r == Unhex(s)
  {
    if |s| % 2 != 0 {
      OddIsNoHex(s);
      return None;
    }
    var out := [];
    var i := 0;
    while i < |s|
      invariant 0 <= i <= |s| && i % 2 == 0 && Unhex(s[..i]) == Some(out)
      decreases |s| - i
    {
      assert s[..i + 2][..i] == s[..i];
      var high, low := Nibble(s[i]), Nibble(s[i + 1]);
      if high.None? || low.None? {
        assert Unhex(s[..i + 2]) == None;
        BadPrefix(s, i + 2);
        return None;
      }
      out := out + [Octet(high.value, low.value)];
      i := i + 2;
    }
    assert s[..|s|] == s;
    r := Some(out);
  }

  lemma {:induction false} OddIsNoHex(s: bytes)
    requires |s| % 2 != 0
    ensures Unhex(s) == None
  {
  }

  lemma {:induction false} BadPrefix(s: bytes, i: nat)
    requires i <= |s| && i % 2 == 0 && |s| % 2 == 0 && Unhex(s[..i]) == None
    ensures Unhex(s) == None
    decreases |s|
  {
    if i < |s| {
      assert s[..|s| - 2][..i] == s[..i];
      BadPrefix(s[..|s| - 2], i);
    } else {
      assert s[..i] == s;
    }
  }

  // ----- Decimal -----

  function Dec(n: nat): (r: bytes)
    ensures r != []
  {
    if n < 10 then [0x30 + n] else Dec(n / 10) + [0x30 + n % 10]
  }

  function Digits(s: bytes): Option<nat> {
    if s == [] then Some(0)
    else
      var front, last := Digits(s[..|s| - 1]), s[|s| - 1];
      if front.None? || last < 0x30 || last > 0x39 then None else Some(front.value * 10 + (last - 0x30))
  }

  /** `parse` for unsigned numbers: an optional plus, at least one digit, within the limit. */
  function ParseNat(s: bytes, limit: nat): Option<nat> {
    var body := if s != [] && s[0] == 0x2B then s[1..] else s;
    if body == [] then None
    else
      var n := Digits(body);
      if n.Some? && n.value < limit then n else None
  }

  function ParseU64Text(s: bytes): Option<u64> {
    ParseNat(s, 0x1_0000_0000_0000_0000)
  }

  function ParseU32Text(s: bytes): Option<u32> {
    ParseNat(s, 0x1_0000_0000)
  }

  function Signed64(x: i64): bytes {
    if x < 0 then [0x2D] + Dec(-(x as int)) else Dec(x)
  }

  function ParseI64Text(s: bytes): Option<i64> {
    if s != [] && s[0] == 0x2D then
      var n := if s[1..] == [] then None else Digits(s[1..]);
      if n.Some? && n.value <= 0x8000_0000_0000_0000 then Some(-(n.value as int)) else None
    else
      var n := ParseNat(s, 0x8000_0000_0000_0000);
      if n.Some? then Some(n.value) else None
  }

  lemma {:induction false} DecDigits(n: nat)
    ensures Digits(Dec(n)) == Some(n)
  {
    if n < 10 {
      assert [0x30 + n][..0] == [];
    } else {
      DecDigits(n / 10);
      var s := Dec(n);
      assert s[..|s| - 1] == Dec(n / 10) && s[|s| - 1] == 0x30 + n % 10;
    }
  }

  lemma {:induction false} DecBytes(n: nat, c: byte)
    requires c in Dec(n)
    ensures 0x30 <= c <= 0x39
  {
    if n >= 10 && c != 0x30 + n % 10 { DecBytes(n / 10, c); }
  }

  lemma DecRoundTrip(n: nat, limit: nat)
    requires n < limit
    ensures ParseNat(Dec(n), limit) == Some(n)
  {
    DecDigits(n);
    assert Dec(n)[0] in Dec(n);
    DecBytes(n, Dec(n)[0]);
  }

  lemma SignedRoundTrip(x: i64)
    ensures ParseI64Text(Signed64(x)) == Some(x)
  {
    if x < 0 {
      DecDigits(-(x as int));
      assert Signed64(x)[1..] == Dec(-(x as int));
    } else {
      DecRoundTrip(x, 0x8000_0000_0000_0000);
      assert Dec(x)[0] in Dec(x);
      DecBytes(x, Dec(x)[0]);
    }
  }

  /** ASCII text is valid UTF-8. */
  lemma {:induction false} AsciiValid(s: bytes, k: nat)
    requires k <= |s| && forall j :: 0 <= j < |s| ==> s[j] < 0x80
    ensures ValidFrom(s, k)
    decreases |s| - k
  {
    if k < |s| { AsciiValid(s, k + 1); }
  }
}
