/**
 UTF-8 as in section 4 of RFC 3629, and the decoder for one character that the
 sanitizers use: the width follows from the first byte, and the bytes of that width
 must be one well-formed character.
 */
module Utf8 {
  import opened Common

  /** A Unicode scalar value. */
  type Scalar = c: int | 0 <= c <= 0x10FFFF && !(0xD800 <= c <= 0xDFFF)

  const REPLACEMENT: Scalar := 0xFFFD

  predicate Continuation(b: Byte) {
    0x80 <= b <= 0xBF
  }

  function CharWidth(b: Byte): (w: Option<nat>)
    ensures w.Some? ==> 1 <= w.value <= 4
  {
    if b <= 0x7F then Some(1)
    else if 0xC2 <= b <= 0xDF then Some(2)
    else if 0xE0 <= b <= 0xEF then Some(3)
    else if 0xF0 <= b <= 0xF4 then Some(4)
    else None
  }

  /** `std::str::from_utf8` on exactly one character's worth of bytes. */
  predicate WellFormed(s: seq<Byte>) {
    if |s| == 1 then s[0] <= 0x7F
    else if |s| == 2 then 0xC2 <= s[0] <= 0xDF && Continuation(s[1])
    else if |s| == 3 then
      && 0xE0 <= s[0] <= 0xEF && Continuation(s[1]) && Continuation(s[2])
      && (s[0] == 0xE0 ==> s[1] >= 0xA0)
      && (s[0] == 0xED ==> s[1] <= 0x9F)
    else if |s| == 4 then
      && 0xF0 <= s[0] <= 0xF4 && Continuation(s[1]) && Continuation(s[2]) && Continuation(s[3])
      && (s[0] == 0xF0 ==> s[1] >= 0x90)
      && (s[0] == 0xF4 ==> s[1] <= 0x8F)
    else false
  }

  /** The payload bits of a continuation byte. */
  function Low(b: Byte): int {
    b - 0x80
  }

  function Lead(b: Byte, mark: int): int {
    b - mark
  }

  function CharValue(s: seq<Byte>): Scalar
    requires WellFormed(s)
  {
    if |s| == 1 then s[0]
    else if |s| == 2 then 64 * Lead(s[0], 0xC0) + Low(s[1])
    else if |s| == 3 then 4096 * Lead(s[0], 0xE0) + 64 * Low(s[1]) + Low(s[2])
    else 262144 * Lead(s[0], 0xF0) + 4096 * Low(s[1]) + 64 * Low(s[2]) + Low(s[3])
  }

  /** `decode_utf8_char`: the first character of `s` and its width. */
  function DecodeChar(s: seq<Byte>): (r: Option<(Scalar, nat)>)
    ensures r.Some? ==> 1 <= r.value.1 <= |s|
  {
    if s == [] || CharWidth(s[0]).None? then None
    else
      var w := CharWidth(s[0]).value;
      if |s| < w || !WellFormed(s[..w]) then None
      else Some((CharValue(s[..w]), w))
  }

  function EncodeChar(c: Scalar): (s: seq<Byte>)
    ensures 1 <= |s| <= 4 && WellFormed(s) && CharWidth(s[0]) == Some(|s|)
  {
    if c < 0x80 then [c]
    else if c < 0x800 then [0xC0 + c / 64, 0x80 + c % 64]
    else if c < 0x10000 then [0xE0 + c / 4096, 0x80 + c / 64 % 64, 0x80 + c % 64]
    else [0xF0 + c / 262144, 0x80 + c / 4096 % 64, 0x80 + c / 64 % 64, 0x80 + c % 64]
  }

  function EncodeText(text: seq<Scalar>): seq<Byte> {
    if text == [] then [] else EncodeChar(text[0]) + EncodeText(text[1..])
  }

  lemma Digits(c: int)
    requires 0 <= c <= 0x10FFFF
    ensures c == 64 * (c / 64) + c % 64
    ensures c == 4096 * (c / 4096) + 64 * (c / 64 % 64) + c % 64
    ensures c == 262144 * (c / 262144) + 4096 * (c / 4096 % 64) + 64 * (c / 64 % 64) + c % 64
  {
    assert c / 4096 == c / 64 / 64;
    assert c / 262144 == c / 4096 / 64;
  }

  lemma EncodedValue(c: Scalar)
    ensures CharValue(EncodeChar(c)) == c
  {
    Digits(c);
  }

  lemma DecodeEncoded(c: Scalar, rest: seq<Byte>)
    ensures DecodeChar(EncodeChar(c) + rest) == Some((c, |EncodeChar(c)|))
  {
    var e := EncodeChar(c);
    assert (e + rest)[..|e|] == e && (e + rest)[0] == e[0];
    EncodedValue(c);
  }

  lemma EncodeTextConcat(a: seq<Scalar>, b: seq<Scalar>)
    ensures EncodeText(a + b) == EncodeText(a) + EncodeText(b)
  {
    if a == [] {
      assert a + b == b;
    } else {
      assert (a + b)[0] == a[0] && (a + b)[1..] == a[1..] + b;
      EncodeTextConcat(a[1..], b);
    }
  }

  /** More input never changes a decision that had all the bytes it needed. */
  lemma DecodeIgnoresTail(s: seq<Byte>, t: seq<Byte>)
    requires s != []
    requires CharWidth(s[0]).None? || |s| >= CharWidth(s[0]).value
    ensures DecodeChar(s + t) == DecodeChar(s)
  {
    if CharWidth(s[0]).Some? {
      var w := CharWidth(s[0]).value;
      assert (s + t)[..w] == s[..w];
    }
  }

  /** A byte that is no continuation byte ends every character before it. */
  lemma DecodeStopsAt(s: seq<Byte>, stop: Byte, t: seq<Byte>)
    requires s != [] && stop <= 0x7F
    ensures DecodeChar(s + [stop] + t) == DecodeChar(s)
  {
    var u := s + [stop] + t;
    if CharWidth(s[0]).Some? {
      var w := CharWidth(s[0]).value;
      if |s| >= w {
        assert u[..w] == s[..w];
      } else if |u| >= w {
        assert u[..w][|s|] == stop;
        assert !WellFormed(u[..w]);
      }
    }
  }

  lemma DigitsAreUnique(a: int, b: int, c: int, d: int)
    requires 0 <= a && 0 <= b < 64 && 0 <= c < 64 && 0 <= d < 64
    ensures var v := 262144 * a + 4096 * b + 64 * c + d;
      v / 262144 == a && v / 4096 % 64 == b && v / 64 % 64 == c && v % 64 == d && v / 4096 == 64 * a + b
      && v / 64 == 4096 * a + 64 * b + c
  {
    var high := 64 * a + b;
    var mid := 64 * high + c;
    var v := 262144 * a + 4096 * b + 64 * c + d;
    assert v == 64 * mid + d;
    assert v / 64 == mid && v % 64 == d;
    assert mid / 64 == high && mid % 64 == c;
    assert v / 4096 == v / 64 / 64;
    assert high / 64 == a && high % 64 == b;
    assert v / 262144 == v / 4096 / 64;
  }

  lemma TwoBytes(e: seq<Byte>)
    requires WellFormed(e) && |e| == 2
    ensures EncodeChar(CharValue(e)) == e
  {
    DigitsAreUnique(0, 0, Lead(e[0], 0xC0), Low(e[1]));
  }

  lemma ThreeBytes(e: seq<Byte>)
    requires WellFormed(e) && |e| == 3
    ensures EncodeChar(CharValue(e)) == e
  {
    DigitsAreUnique(0, Lead(e[0], 0xE0), Low(e[1]), Low(e[2]));
  }

  lemma FourBytes(e: seq<Byte>)
    requires WellFormed(e) && |e| == 4
    ensures EncodeChar(CharValue(e)) == e
  {
    DigitsAreUnique(Lead(e[0], 0xF0), Low(e[1]), Low(e[2]), Low(e[3]));
  }

  /** The decoder accepts only the shortest form: what it decodes is what the encoder writes. */
  lemma DecodedIsEncoded(s: seq<Byte>)
    requires DecodeChar(s).Some?
    ensures s[..DecodeChar(s).value.1] == EncodeChar(DecodeChar(s).value.0)
  {
    hide CharValue;
    hide EncodeChar;
    var e := s[..DecodeChar(s).value.1];
    if |e| == 1 {
      OneByte(e);
    } else if |e| == 2 {
      TwoBytes(e);
    } else if |e| == 3 {
      ThreeBytes(e);
    } else {
      FourBytes(e);
    }
  }

  lemma OneByte(e: seq<Byte>)
    requires WellFormed(e) && |e| == 1
    ensures EncodeChar(CharValue(e)) == e
  {
  }
}
