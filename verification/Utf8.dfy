/** What valid UTF-8 is: the encodings of Unicode scalar values, one after the other. */
module Utf8 {
  import opened Bytes

  /** Code points without the surrogates. */
  type Scalar = c: int | 0 <= c < 0xD800 || 0xE000 <= c <= 0x10FFFF

  function Utf8Of(c: Scalar): (s: Bytes)
    ensures 1 <= |s| <= 4
  {
    if c < 0x80 then [c]
    else if c < 0x800 then [0xC0 + c / 64, 0x80 + c % 64]
    else if c < 0x10000 then [0xE0 + c / 64 / 64, 0x80 + c / 64 % 64, 0x80 + c % 64]
    else [0xF0 + c / 64 / 64 / 64, 0x80 + c / 64 / 64 % 64, 0x80 + c / 64 % 64, 0x80 + c % 64]
  }

  function Utf8Text(cs: seq<Scalar>): Bytes {
    if |cs| == 0 then [] else Utf8Of(cs[0]) + Utf8Text(cs[1..])
  }

  lemma ScalarIsCodePoint(c: Scalar, rest: Bytes)
    ensures CodePointLength(Utf8Of(c) + rest) == |Utf8Of(c)|
  {
    var s := Utf8Of(c) + rest;
    assert forall i :: 0 <= i < |Utf8Of(c)| ==> s[i] == Utf8Of(c)[i];
  }

  lemma {:induction false} TextIsValid(cs: seq<Scalar>)
    ensures ValidUtf8(Utf8Text(cs))
  {
    hide CodePointLength, Utf8Of;
    if |cs| == 0 {
    } else {
      TextIsValid(cs[1..]);
      ScalarIsCodePoint(cs[0], Utf8Text(cs[1..]));
      assert Utf8Text(cs)[|Utf8Of(cs[0])|..] == Utf8Text(cs[1..]);
    }
  }

  lemma SixBits(high: nat, low: nat)
    requires low < 64
    ensures (64 * high + low) / 64 == high && (64 * high + low) % 64 == low
  {
  }

  lemma CodePointIsScalar(s: Bytes) returns (c: Scalar)
    requires |s| > 0 && CodePointLength(s) > 0
    ensures Utf8Of(c) == s[..CodePointLength(s)]
  {
    var n, a: int := CodePointLength(s), s[0];
    if n == 1 {
      c := a;
    } else if n == 2 {
      c := TwoBytes(a, s[1]);
    } else if n == 3 {
      c := ThreeBytes(a, s[1], s[2]);
    } else {
      c := FourBytes(a, s[1], s[2], s[3]);
    }
  }

  lemma TwoBytes(a: int, b: int) returns (c: Scalar)
    requires 194 <= a < 224 && 128 <= b < 192
    ensures Utf8Of(c) == [a, b]
  {
    SixBits(a - 0xC0, b - 0x80);
    c := 64 * (a - 0xC0) + (b - 0x80);
  }

  lemma ThreeBytes(a: int, b: int, d: int) returns (c: Scalar)
    requires 224 <= a < 240 && 128 <= b < 192 && 128 <= d < 192
    requires (a == 224 ==> b >= 160) && (a == 237 ==> b < 160)
    ensures Utf8Of(c) == [a, b, d]
  {
    var high := 64 * (a - 0xE0) + (b - 0x80);
    SixBits(a - 0xE0, b - 0x80);
    SixBits(high, d - 0x80);
    c := 64 * high + (d - 0x80);
  }

  lemma FourBytes(a: int, b: int, d: int, e: int) returns (c: Scalar)
    requires 240 <= a < 245 && 128 <= b < 192 && 128 <= d < 192 && 128 <= e < 192
    requires (a == 240 ==> b >= 144) && (a == 244 ==> b < 144)
    ensures Utf8Of(c) == [a, b, d, e]
  {
    var high := 64 * (a - 0xF0) + (b - 0x80);
    var middle := 64 * high + (d - 0x80);
    SixBits(a - 0xF0, b - 0x80);
    SixBits(high, d - 0x80);
    SixBits(middle, e - 0x80);
    c := 64 * middle + (e - 0x80);
  }

  lemma {:induction false} ValidIsText(s: Bytes) returns (cs: seq<Scalar>)
    requires ValidUtf8(s)
    ensures Utf8Text(cs) == s
  {
    hide CodePointLength, Utf8Of;
    if |s| == 0 {
      cs := [];
    } else {
      var n := CodePointLength(s);
      var c := CodePointIsScalar(s);
      var rest := ValidIsText(s[n..]);
      cs := [c] + rest;
      assert cs[1..] == rest;
      assert s == s[..n] + s[n..];
    }
  }

  /** Exactly: overlong forms, surrogates, numbers past the last code point and torn sequences are refused, all else is accepted. */
  lemma Utf8Exactly(s: Bytes)
    ensures ValidUtf8(s) <==> exists cs :: Utf8Text(cs) == s
  {
    hide ValidUtf8, Utf8Text;
    if ValidUtf8(s) {
      var cs := ValidIsText(s);
    }
    if cs :| Utf8Text(cs) == s {
      TextIsValid(cs);
    }
  }
}
