/** The text check accepts exactly the UTF-8 encodings of Unicode scalar values. */
module Utf8 {
  import opened Basics
  import opened Codec

  /** Unicode scalar values: code points that are no surrogates. */
  type scalar = x: int | 0 <= x < 0xD800 || 0xE000 <= x < 0x11_0000

  /** Section 3 of RFC 3629. */
  function One(x: scalar): (r: bytes)
    ensures 1 <= |r| <= 4
  {
    if x < 0x80 then [x]
    else if x < 0x800 then [0xC0 + x / 0x40, 0x80 + x % 0x40]
    else if x < 0x1_0000 then [0xE0 + x / 0x40 / 0x40, 0x80 + x / 0x40 % 0x40, 0x80 + x % 0x40]
    else
      [0xF0 + x / 0x40 / 0x40 / 0x40, 0x80 + x / 0x40 / 0x40 % 0x40, 0x80 + x / 0x40 % 0x40, 0x80 + x % 0x40]
  }

  function Encoded(xs: seq<scalar>): bytes {
    if xs == [] then [] else One(xs[0]) + Encoded(xs[1..])
  }

  /** How many bytes the character at `k` takes, if the text is well formed there. */
  predicate Begins(s: bytes, k: nat, n: nat) {
    && k + n <= |s|
    && match n
       case 1 => s[k] <= 0x7F
       case 2 => 0xC2 <= s[k] <= 0xDF && Tail(s[k + 1])
       case 3 =>
         && 0xE0 <= s[k] <= 0xEF && Tail(s[k + 1]) && Tail(s[k + 2])
         && (s[k] == 0xE0 ==> s[k + 1] >= 0xA0) && (s[k] == 0xED ==> s[k + 1] <= 0x9F)
       case 4 =>
         && 0xF0 <= s[k] <= 0xF4 && Tail(s[k + 1]) && Tail(s[k + 2]) && Tail(s[k + 3])
         && (s[k] == 0xF0 ==> s[k + 1] >= 0x90) && (s[k] == 0xF4 ==> s[k + 1] <= 0x8F)
       case _ => false
  }

  lemma ValidStep(s: bytes, k: nat, n: nat)
    requires Begins(s, k, n)
    ensures ValidFrom(s, k) <==> ValidFrom(s, k + n)
  {
  }

  lemma ValidBegins(s: bytes, k: nat) returns (n: nat)
    requires k < |s| && ValidFrom(s, k)
    ensures Begins(s, k, n)
  {
    n := if s[k] <= 0x7F then 1 else if s[k] <= 0xDF then 2 else if s[k] <= 0xEF then 3 else 4;
  }

  /** An encoded scalar value begins a well-formed character. */
  lemma OneBegins(s: bytes, k: nat, x: scalar)
    requires At(s, k, One(x))
    ensures Begins(s, k, |One(x)|)
  {
    var r := One(x);
    assert s[k + 0] == r[0];
    if |r| > 1 { assert s[k + 1] == r[1]; }
    if |r| > 2 { assert s[k + 2] == r[2]; }
    if |r| > 3 { assert s[k + 3] == r[3]; }
  }

  lemma Digits(a: nat, b: nat)
    requires b < 0x40
    ensures (a * 0x40 + b) / 0x40 == a && (a * 0x40 + b) % 0x40 == b
  {
  }

  lemma Two(a: byte, b: byte) returns (x: scalar)
    requires 0xC2 <= a <= 0xDF && Tail(b)
    ensures One(x) == [a, b]
  {
    var u: nat, v: nat := a - 0xC0, b - 0x80;
    Digits(u, v);
    x := u * 0x40 + v;
  }

  lemma Three(a: byte, b: byte, c: byte) returns (x: scalar)
    requires 0xE0 <= a <= 0xEF && Tail(b) && Tail(c) && (a == 0xE0 ==> b >= 0xA0) && (a == 0xED ==> b <= 0x9F)
    ensures One(x) == [a, b, c]
  {
    var u: nat, v: nat, w: nat := a - 0xE0, b - 0x80, c - 0x80;
    Digits(u, v);
    Digits(u * 0x40 + v, w);
    x := (u * 0x40 + v) * 0x40 + w;
  }

  lemma Four(a: byte, b: byte, c: byte, d: byte) returns (x: scalar)
    requires 0xF0 <= a <= 0xF4 && Tail(b) && Tail(c) && Tail(d)
    requires (a == 0xF0 ==> b >= 0x90) && (a == 0xF4 ==> b <= 0x8F)
    ensures One(x) == [a, b, c, d]
  {
    var u: nat, v: nat, w: nat, z: nat := a - 0xF0, b - 0x80, c - 0x80, d - 0x80;
    Digits(u, v);
    Digits(u * 0x40 + v, w);
    Digits((u * 0x40 + v) * 0x40 + w, z);
    x := ((u * 0x40 + v) * 0x40 + w) * 0x40 + z;
  }

  /** Every well-formed character is the encoding of a scalar value. */
  lemma BeginsOne(s: bytes, k: nat, n: nat) returns (x: scalar)
    requires Begins(s, k, n)
    ensures |One(x)| == n && At(s, k, One(x))
  {
    if n == 1 {
      x := s[k];
    } else {
      hide One;
      if n == 2 {
        x := Two(s[k], s[k + 1]);
      } else if n == 3 {
        x := Three(s[k], s[k + 1], s[k + 2]);
      } else {
        x := Four(s[k], s[k + 1], s[k + 2], s[k + 3]);
      }
    }
  }

  lemma {:induction false} EncodedIsValid(s: bytes, k: nat, xs: seq<scalar>)
    requires At(s, k, Encoded(xs)) && k + |Encoded(xs)| == |s|
    ensures ValidFrom(s, k)
    decreases |xs|
  {
    hide One, At, Begins;
    if xs != [] {
      AtConcat(s, k, One(xs[0]), Encoded(xs[1..]));
      OneBegins(s, k, xs[0]);
      EncodedIsValid(s, k + |One(xs[0])|, xs[1..]);
      ValidStep(s, k, |One(xs[0])|);
    }
  }

  lemma {:induction false} ValidIsEncoded(s: bytes, k: nat) returns (xs: seq<scalar>)
    requires k <= |s| && ValidFrom(s, k)
    ensures s[k..] == Encoded(xs)
    decreases |s| - k
  {
    hide One;
    if k == |s| {
      xs := [];
    } else {
      var n := ValidBegins(s, k);
      var x := BeginsOne(s, k, n);
      ValidStep(s, k, n);
      var rest := ValidIsEncoded(s, k + n);
      xs := [x] + rest;
      assert xs[1..] == rest;
      assert s[k..k + n] == One(x);
      assert s[k..] == s[k..k + n] + s[k + n..];
    }
  }

  /** The check accepts exactly the encodings of sequences of scalar values. */
  lemma ValidExactly(s: bytes)
    ensures ValidUtf8(s) <==> exists xs: seq<scalar> :: Encoded(xs) == s
  {
    if ValidUtf8(s) {
      var xs := ValidIsEncoded(s, 0);
      assert s[0..] == s;
    }
    if xs: seq<scalar> :| Encoded(xs) == s {
      EncodedIsValid(s, 0, xs);
    }
  }
}
