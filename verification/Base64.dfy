/**
 The handwritten base64 codec of the wire protocol (section 4 of RFC 4648, with the
 canonical form of section 3.5), and the canonical decoder built on it. Strings are
 their UTF-8 bytes.
 */
module Base64 {
  import opened Common

  const MAX_SEND_DATA_BYTES: nat := 700 * 1024
  const PAD: Byte := 61

  type Sextet = v: int | 0 <= v < 64

  function Letter(v: Sextet): Byte {
    if v < 26 then 65 + v
    else if v < 52 then 71 + v
    else if v < 62 then v - 4
    else if v == 62 then 43
    else 47
  }

  /** `decode_char`. */
  function LetterValue(b: Byte): Option<Sextet> {
    if 65 <= b <= 90 then Some(b - 65)
    else if 97 <= b <= 122 then Some(b - 71)
    else if 48 <= b <= 57 then Some(b + 4)
    else if b == 43 then Some(62)
    else if b == 47 then Some(63)
    else None
  }

  lemma LettersInvert(v: Sextet, b: Byte)
    ensures LetterValue(Letter(v)) == Some(v) && Letter(v) != PAD && Letter(v) < 128
    ensures LetterValue(b).Some? ==> Letter(LetterValue(b).value) == b
  {
  }

  // ---- Encoding ----

  /** One chunk of at most three bytes without padding; missing bytes count as zero. */
  function EncodeChunk(c: seq<Byte>): (e: seq<Byte>)
    requires 1 <= |c| <= 3
    ensures |e| == |c| + 1
  {
    var b0 := c[0];
    var b1 := if |c| > 1 then c[1] else 0;
    var b2 := if |c| > 2 then c[2] else 0;
    [Letter(b0 / 4), Letter(b0 % 4 * 16 + b1 / 16)]
    + (if |c| > 1 then [Letter(b1 % 16 * 4 + b2 / 64)] else [])
    + (if |c| > 2 then [Letter(b2 % 64)] else [])
  }

  /** The encoding without its padding. */
  function EncodeBody(d: seq<Byte>): seq<Byte> {
    if d == [] then []
    else if |d| < 3 then EncodeChunk(d)
    else EncodeChunk(d[..3]) + EncodeBody(d[3..])
  }

  function Padding(n: nat): (p: seq<Byte>)
    ensures |p| <= 2 && forall i :: 0 <= i < |p| ==> p[i] == PAD
  {
    if n % 3 == 1 then [PAD, PAD] else if n % 3 == 2 then [PAD] else []
  }

  function Encode(d: seq<Byte>): seq<Byte> {
    EncodeBody(d) + Padding(|d|)
  }

  function PaddedChunk(c: seq<Byte>): (e: seq<Byte>)
    requires 1 <= |c| <= 3
    ensures |e| == 4
  {
    EncodeChunk(c) + Padding(|c|)
  }

  lemma EncodeByChunks(d: seq<Byte>)
    requires d != []
    ensures var k := if |d| < 3 then |d| else 3; Encode(d) == PaddedChunk(d[..k]) + Encode(d[k..])
  {
    if |d| >= 3 {
      assert EncodeChunk(d[..3]) + EncodeBody(d[3..]) + Padding(|d|)
          == EncodeChunk(d[..3]) + (EncodeBody(d[3..]) + Padding(|d| - 3));
    } else {
      assert d[..|d|] == d && d[|d|..] == [];
    }
  }

  /** `encode_base64`. */
  method EncodeBase64(data: seq<Byte>) returns (out: seq<Byte>)
    ensures out == Encode(data)
  {
    hide Encode;
    hide PaddedChunk;
    out := [];
    var i := 0;
    assert data[0..] == data;
    while i < |data|
      invariant 0 <= i <= |data|
      invariant Encode(data) == out + Encode(data[i..])
    {
      var k := if |data| - i < 3 then |data| - i else 3;
      EncodeByChunks(data[i..]);
      assert data[i..][..k] == data[i..i + k] && data[i..][k..] == data[i + k..];
      out := out + PaddedChunk(data[i..i + k]);
      i := i + k;
    }
    assert Encode(data[i..]) == [] by { EncodeNothing(data[i..]); }
  }

  lemma EncodeNothing(d: seq<Byte>)
    requires d == []
    ensures Encode(d) == []
  {
  }

  // ---- Decoding ----

  function Trimmed(value: seq<Byte>): (t: seq<Byte>)
    ensures |t| <= |value| && t == value[..|t|]
    ensures t != [] ==> t[|t| - 1] != PAD
    ensures forall i :: |t| <= i < |value| ==> value[i] == PAD
  {
    if value != [] && value[|value| - 1] == PAD then Trimmed(value[..|value| - 1]) else value
  }

  // Left shifts of an eight-bit value: the bits that would leave it at the top are dropped first.

  function Shl2(v: int): (r: int)
    ensures 0 <= r <= 252
  {
    v % 64 * 4
  }

  function Shl4(v: int): (r: int)
    ensures 0 <= r <= 240
  {
    v % 16 * 16
  }

  function Shl6(v: int): (r: int)
    ensures 0 <= r <= 192
  {
    v % 4 * 64
  }

  /** `push_decoded_quartet`. */
  function Triple(q: seq<Sextet>): (t: seq<Byte>)
    requires |q| == 4
    ensures |t| == 3
  {
    [Shl2(q[0]) + q[1] / 16, Shl4(q[1]) + q[2] / 4, Shl6(q[2]) + q[3]]
  }

  function Sextets(t: seq<Byte>): (r: Option<seq<Sextet>>)
    ensures r.Some? ==> |r.value| == |t|
    ensures r.Some? ==> forall i :: 0 <= i < |t| ==> LetterValue(t[i]) == Some(r.value[i])
  {
    if t == [] then Some([])
    else
      var last := LetterValue(t[|t| - 1]);
      match Sextets(t[..|t| - 1])
      case None => None
      case Some(s) => if last.None? then None else Some(s + [last.value])
  }

  /** Whole quartets to triples; a tail of two or three sextets must have its spare bits clear. */
  function FromSextets(s: seq<Sextet>): Option<seq<Byte>> {
    if |s| == 0 then Some([])
    else if |s| == 1 then None
    else if |s| == 2 then
      if s[1] % 16 != 0 then None else Some(Triple(s + [0, 0])[..1])
    else if |s| == 3 then
      if s[2] % 4 != 0 then None else Some(Triple(s + [0])[..2])
    else
      match FromSextets(s[4..])
      case None => None
      case Some(rest) => Some(Triple(s[..4]) + rest)
  }

  predicate Ascii(value: seq<Byte>) {
    forall i :: 0 <= i < |value| ==> value[i] < 128
  }

  /** The length rules before any character is looked at. */
  predicate Shaped(value: seq<Byte>) {
    var t := Trimmed(value);
    var padding := |value| - |t|;
    && Ascii(value)
    && PAD !in t
    && padding <= 2
    && (padding > 0 ==> |value| % 4 == 0)
    && |t| % 4 != 1
  }

  function MaxDecoded(n: nat): nat {
    n / 4 * 3 + if n % 4 == 2 then 1 else if n % 4 == 3 then 2 else 0
  }

  /** `decode_base64`. */
  function Decode(value: seq<Byte>): Option<seq<Byte>> {
    var t := Trimmed(value);
    if !Shaped(value) || MaxDecoded(|t|) > MAX_SEND_DATA_BYTES then None
    else
      match Sextets(t)
      case None => None
      case Some(s) => FromSextets(s)
  }

  // ---- The decoding program ----

  lemma SextetsSnoc(t: seq<Byte>, i: nat)
    requires i < |t|
    ensures Sextets(t[..i + 1]) ==
      if Sextets(t[..i]).None? || LetterValue(t[i]).None? then None
      else Some(Sextets(t[..i]).value + [LetterValue(t[i]).value])
  {
    assert t[..i + 1][..i] == t[..i];
  }

  /** The triples of whole quartets. */
  function Triples(s: seq<Sextet>): seq<Byte>
    requires |s| % 4 == 0
  {
    if s == [] then [] else Triples(s[..|s| - 4]) + Triple(s[|s| - 4..])
  }

  lemma {:induction false} TriplesThenTail(s: seq<Sextet>, tail: seq<Sextet>)
    requires |s| % 4 == 0 && |tail| < 4
    ensures FromSextets(s + tail) ==
      if FromSextets(tail).None? then None else Some(Triples(s) + FromSextets(tail).value)
    decreases |s|
  {
    hide Triple;
    hide FromSextets;
    if s == [] {
      assert s + tail == tail;
      assert FromSextets(tail).Some? ==> [] + FromSextets(tail).value == FromSextets(tail).value;
    } else {
      TriplesThenTail(s[4..], tail);
      TriplesFront(s);
      assert (s + tail)[..4] == s[..4] && (s + tail)[4..] == s[4..] + tail;
      FirstQuartet(s + tail);
      if FromSextets(tail).Some? {
        var end := FromSextets(tail).value;
        assert Triple(s[..4]) + (Triples(s[4..]) + end) == Triples(s) + end;
      }
    }
  }

  lemma FirstQuartet(s: seq<Sextet>)
    requires |s| >= 4
    ensures FromSextets(s) ==
      if FromSextets(s[4..]).None? then None else Some(Triple(s[..4]) + FromSextets(s[4..]).value)
  {
    hide Triple;
  }

  lemma LastQuartet(s: seq<Sextet>)
    requires |s| % 4 == 0 && s != []
    ensures Triples(s) == Triples(s[..|s| - 4]) + Triple(s[|s| - 4..])
  {
  }

  lemma OneQuartet(s: seq<Sextet>)
    requires |s| == 4
    ensures Triples(s) == Triple(s)
  {
    hide Triple;
    assert s[..0] == [] && s[0..] == s;
  }

  lemma NoQuartet(s: seq<Sextet>)
    requires s == []
    ensures Triples(s) == []
  {
  }

  lemma {:induction false} TriplesFront(s: seq<Sextet>)
    requires |s| % 4 == 0 && s != []
    ensures Triples(s) == Triple(s[..4]) + Triples(s[4..])
    decreases |s|
  {
    hide Triple;
    hide Triples;
    if |s| == 4 {
      OneQuartet(s);
      NoQuartet(s[4..]);
      assert s[..4] == s;
    } else {
      var front, rest := s[..|s| - 4], s[4..];
      TriplesFront(front);
      LastQuartet(s);
      LastQuartet(rest);
      assert front[..4] == s[..4];
      assert front[4..] == rest[..|rest| - 4];
      assert rest[|rest| - 4..] == s[|s| - 4..];
    }
  }

  lemma {:induction false} PrefixFails(t: seq<Byte>, i: nat)
    requires i <= |t| && Sextets(t[..i]).None?
    ensures Sextets(t).None?
    decreases |t| - i
  {
    if i < |t| {
      SextetsSnoc(t, i);
      PrefixFails(t, i + 1);
    } else {
      assert t[..i] == t;
    }
  }

  /** The quartet loop of `decode_base64` over the trimmed characters. */
  method DecodeQuartets(t: seq<Byte>) returns (r: Option<seq<Byte>>)
    requires MaxDecoded(|t|) <= MAX_SEND_DATA_BYTES
    ensures r == match Sextets(t) case None => None case Some(s) => FromSextets(s)
  {
    hide Sextets;
    hide FromSextets;
    hide Triple;
    hide MaxDecoded;
    var out: seq<Byte> := [];
    var quartet: seq<Sextet> := [];
    ghost var whole: seq<Sextet> := [];
    assert Sextets(t[..0]) == Some(whole + quartet) by {
      NoSextets(t[..0]);
      assert whole + quartet == [];
    }
    var i := 0;
    while i < |t|
      invariant 0 <= i <= |t|
      invariant |quartet| < 4 && |whole| % 4 == 0 && |whole| + |quartet| == i
      invariant |out| == |whole| / 4 * 3
      invariant Sextets(t[..i]) == Some(whole + quartet)
      invariant out == Triples(whole)
    {
      SextetsSnoc(t, i);
      var v := LetterValue(t[i]);
      if v.None? {
        PrefixFails(t, i + 1);
        return None;
      }
      assert (whole + quartet) + [v.value] == whole + (quartet + [v.value]);
      quartet := quartet + [v.value];
      if |quartet| == 4 {
        assert (whole + quartet)[..|whole|] == whole && (whole + quartet)[|whole|..] == quartet;
        // The size test of `push_decoded_quartet` cannot fail: the cap was checked on the length.
        assert |out| + 3 <= MAX_SEND_DATA_BYTES by { RoomForQuartet(|whole|, |t|); }
        out := out + Triple(quartet);
        whole := whole + quartet;
        quartet := [];
        assert whole + quartet == whole;
      }
      i := i + 1;
    }
    assert t[..i] == t;
    TriplesThenTail(whole, quartet);
    r := DecodeTail(out, quartet);
  }

  lemma RoomForQuartet(i: nat, n: nat)
    requires i % 4 == 0 && i + 4 <= n
    ensures i / 4 * 3 + 3 <= MaxDecoded(n)
  {
  }

  lemma NoSextets(t: seq<Byte>)
    requires t == []
    ensures Sextets(t) == Some([])
  {
  }

  /** The last two or three sextets: spare bits must be clear. */
  method DecodeTail(out: seq<Byte>, quartet: seq<Sextet>) returns (r: Option<seq<Byte>>)
    requires |quartet| < 4
    ensures r == if FromSextets(quartet).None? then None else Some(out + FromSextets(quartet).value)
  {
    if |quartet| == 0 {
      assert out + [] == out;
      return Some(out);
    }
    if |quartet| == 2 && quartet[1] % 16 == 0 {
      return Some(out + Triple(quartet + [0, 0])[..1]);
    }
    if |quartet| == 3 && quartet[2] % 4 == 0 {
      return Some(out + Triple(quartet + [0])[..2]);
    }
    return None;
  }

  /** `decode_base64`. */
  method DecodeBase64(value: seq<Byte>) returns (r: Option<seq<Byte>>)
    ensures r == Decode(value)
  {
    var t := Trimmed(value);
    if !Shaped(value) || MaxDecoded(|t|) > MAX_SEND_DATA_BYTES {
      return None;
    }
    r := DecodeQuartets(t);
  }

  // ---- Chunk arithmetic ----

  lemma Shifts(v: int)
    requires 0 <= v < 64
    ensures Shl2(v) == v * 4 && Shl4(v) == v % 16 * 16 && Shl6(v) == v % 4 * 64
  {
  }

  lemma TripleOfChunk(b0: Byte, b1: Byte, b2: Byte)
    ensures Triple([b0 / 4, b0 % 4 * 16 + b1 / 16, b1 % 16 * 4 + b2 / 64, b2 % 64]) == [b0, b1, b2]
  {
    Shifts(b0 / 4);
    Shifts(b0 % 4 * 16 + b1 / 16);
    Shifts(b1 % 16 * 4 + b2 / 64);
    assert (b0 % 4 * 16 + b1 / 16) / 16 == b0 % 4 && (b0 % 4 * 16 + b1 / 16) % 16 == b1 / 16;
    assert (b1 % 16 * 4 + b2 / 64) / 4 == b1 % 16 && (b1 % 16 * 4 + b2 / 64) % 4 == b2 / 64;
  }

  /** The sextets an encoding consists of. */
  function ChunkSextets(c: seq<Byte>): (s: seq<Sextet>)
    requires 1 <= |c| <= 3
    ensures |s| == |c| + 1
  {
    var b0 := c[0];
    var b1 := if |c| > 1 then c[1] else 0;
    var b2 := if |c| > 2 then c[2] else 0;
    [b0 / 4, b0 % 4 * 16 + b1 / 16, b1 % 16 * 4 + b2 / 64, b2 % 64][..|c| + 1]
  }

  function BodySextets(d: seq<Byte>): seq<Sextet> {
    if d == [] then []
    else if |d| < 3 then ChunkSextets(d)
    else ChunkSextets(d[..3]) + BodySextets(d[3..])
  }

  function Letters(s: seq<Sextet>): (t: seq<Byte>)
    ensures |t| == |s| && forall i :: 0 <= i < |s| ==> t[i] == Letter(s[i])
  {
    seq(|s|, i requires 0 <= i < |s| => Letter(s[i]))
  }

  lemma {:induction false} BodyIsLetters(d: seq<Byte>)
    ensures EncodeBody(d) == Letters(BodySextets(d))
    decreases |d|
  {
    if d != [] && |d| >= 3 {
      BodyIsLetters(d[3..]);
      assert EncodeChunk(d[..3]) == Letters(ChunkSextets(d[..3]));
    } else if d != [] {
      assert EncodeChunk(d) == Letters(ChunkSextets(d));
    }
  }

  lemma {:induction false} LettersDecode(s: seq<Sextet>)
    ensures Sextets(Letters(s)) == Some(s)
    decreases |s|
  {
    if s != [] {
      var front := s[..|s| - 1];
      LettersDecode(front);
      assert Letters(s)[..|s| - 1] == Letters(front);
      LettersInvert(s[|s| - 1], 0);
      assert front + [s[|s| - 1]] == s;
    }
  }

  lemma SextetsAreLetters(t: seq<Byte>)
    requires Sextets(t).Some?
    ensures t == Letters(Sextets(t).value)
  {
    var s := Sextets(t).value;
    forall i | 0 <= i < |t|
      ensures t[i] == Letters(s)[i]
    {
      LettersInvert(0, t[i]);
    }
  }

  lemma TailDecodes(d: seq<Byte>)
    requires 1 <= |d| <= 2
    ensures FromSextets(ChunkSextets(d)) == Some(d)
  {
    hide Triple;
    var b0, b1 := d[0], if |d| > 1 then d[1] else 0;
    TripleOfChunk(b0, b1, 0);
    var s := ChunkSextets(d);
    var whole: seq<Sextet> := [b0 / 4, b0 % 4 * 16 + b1 / 16, b1 % 16 * 4 + 0 / 64, 0 % 64];
    if |d| == 1 {
      assert s[1] % 16 == 0;
      assert s + [0, 0] == whole;
      assert [b0, b1, 0][..1] == d;
    } else {
      assert s[2] % 4 == 0;
      assert s + [0] == whole;
      assert [b0, b1, 0][..2] == d;
    }
  }

  lemma ChunkDecodes(d: seq<Byte>)
    requires |d| == 3
    ensures Triple(ChunkSextets(d)) == d
  {
    TripleOfChunk(d[0], d[1], d[2]);
    assert ChunkSextets(d) == [d[0] / 4, d[0] % 4 * 16 + d[1] / 16, d[1] % 16 * 4 + d[2] / 64, d[2] % 64];
  }

  lemma {:induction false} BodyDecodes(d: seq<Byte>)
    ensures FromSextets(BodySextets(d)) == Some(d)
    decreases |d|
  {
    hide Triple;
    hide ChunkSextets;
    if d == [] {
    } else if |d| < 3 {
      TailDecodes(d);
    } else {
      BodyDecodes(d[3..]);
      ChunkDecodes(d[..3]);
      var s := BodySextets(d);
      assert s[..4] == ChunkSextets(d[..3]) && s[4..] == BodySextets(d[3..]);
      assert d[..3] + d[3..] == d;
    }
  }

  lemma {:induction false} BodyLength(d: seq<Byte>)
    ensures |EncodeBody(d)| == |BodySextets(d)|
    ensures MaxDecoded(|EncodeBody(d)|) == |d|
    ensures |EncodeBody(d)| % 4 == if |d| % 3 == 0 then 0 else |d| % 3 + 1
    decreases |d|
  {
    hide EncodeChunk;
    hide ChunkSextets;
    if |d| >= 3 {
      BodyLength(d[3..]);
    }
  }

  lemma ChunkOfTriple(q: seq<Sextet>)
    requires |q| == 4
    ensures ChunkSextets(Triple(q)) == q
  {
    Shifts(q[0]);
    Shifts(q[1]);
    Shifts(q[2]);
    var b := Triple(q);
    assert b[0] / 4 == q[0] && b[0] % 4 == q[1] / 16;
    assert b[1] / 16 == q[1] % 16 && b[1] % 16 == q[2] / 4;
    assert b[2] / 64 == q[2] % 4 && b[2] % 64 == q[3];
    assert b[0] % 4 * 16 + b[1] / 16 == q[1];
    assert b[1] % 16 * 4 + b[2] / 64 == q[2];
  }

  /** The sextet decoder inverts on its whole domain: it accepts no two sequences for the same bytes. */
  lemma {:induction false} DecodedBodyIsUnique(s: seq<Sextet>)
    requires FromSextets(s).Some?
    ensures BodySextets(FromSextets(s).value) == s
    decreases |s|
  {
    var d := FromSextets(s).value;
    if |s| == 2 {
      ShortTail(s, 1);
    } else if |s| == 3 {
      ShortTail(s, 2);
    } else if |s| >= 4 {
      DecodedBodyIsUnique(s[4..]);
      ChunkOfTriple(s[..4]);
      assert d[..3] == Triple(s[..4]) && d[3..] == FromSextets(s[4..]).value;
      assert s == s[..4] + s[4..];
    }
  }

  lemma ShortTail(s: seq<Sextet>, n: nat)
    requires 1 <= n <= 2 && |s| == n + 1
    requires n == 1 ==> s[1] % 16 == 0
    requires n == 2 ==> s[2] % 4 == 0
    ensures var q := if n == 1 then s + [0, 0] else s + [0];
      ChunkSextets(Triple(q)[..n]) == s
  {
    var q := if n == 1 then s + [0, 0] else s + [0];
    ChunkOfTriple(q);
    Shifts(q[1]);
    Shifts(q[2]);
    var b := Triple(q);
    assert n == 1 ==> b[1] == 0;
    assert b[2] == 0;
    assert ChunkSextets(b)[..n + 1] == s;
  }

  // ---- The encoding as a number ----

  /** The alphabet of RFC 4648, in order. */
  function Alphabet(): (a: seq<Byte>)
    ensures |a| == 64
  {
    seq(26, i requires 0 <= i < 26 => 'A' as int + i) + seq(26, i requires 0 <= i < 26 => 'a' as int + i)
    + seq(10, i requires 0 <= i < 10 => '0' as int + i) + ['+' as int, '/' as int]
  }

  lemma AlphabetIsStandard(v: Sextet)
    ensures Letter(v) == Alphabet()[v] && PAD == '=' as int
    ensures LetterValue(Alphabet()[v]) == Some(v)
  {
  }

  /** The number that bytes spell in base 256, and sextets in base 64, after `acc`. */
  function Number(acc: nat, d: seq<Byte>): nat
    decreases |d|
  {
    if d == [] then acc else Number(256 * acc + d[0], d[1..])
  }

  function Spelled(acc: nat, s: seq<Sextet>): nat
    decreases |s|
  {
    if s == [] then acc else Spelled(64 * acc + s[0], s[1..])
  }

  lemma {:induction false} SpelledConcat(acc: nat, a: seq<Sextet>, b: seq<Sextet>)
    ensures Spelled(acc, a + b) == Spelled(Spelled(acc, a), b)
    decreases |a|
  {
    if a == [] {
      assert a + b == b;
    } else {
      assert (a + b)[1..] == a[1..] + b;
      SpelledConcat(64 * acc + a[0], a[1..], b);
    }
  }

  lemma {:induction false} NumberConcat(acc: nat, a: seq<Byte>, b: seq<Byte>)
    ensures Number(acc, a + b) == Number(Number(acc, a), b)
    decreases |a|
  {
    if a == [] {
      assert a + b == b;
    } else {
      assert (a + b)[1..] == a[1..] + b;
      NumberConcat(256 * acc + a[0], a[1..], b);
    }
  }

  lemma SpelledFour(acc: nat, s: seq<Sextet>)
    requires 2 <= |s| <= 4
    ensures |s| == 2 ==> Spelled(acc, s) == 64 * (64 * acc + s[0]) + s[1]
    ensures |s| == 3 ==> Spelled(acc, s) == 64 * (64 * (64 * acc + s[0]) + s[1]) + s[2]
    ensures |s| == 4 ==> Spelled(acc, s) == 64 * (64 * (64 * (64 * acc + s[0]) + s[1]) + s[2]) + s[3]
  {
    var a1 := 64 * acc + s[0];
    var a2 := 64 * a1 + s[1];
    assert s[1..][1..] == s[2..];
    assert Spelled(acc, s) == Spelled(a1, s[1..]) == Spelled(a2, s[2..]);
    if |s| > 2 {
      var a3 := 64 * a2 + s[2];
      assert s[2..][1..] == s[3..];
      assert Spelled(a2, s[2..]) == Spelled(a3, s[3..]);
      if |s| > 3 {
        assert s[3..][1..] == s[4..];
        assert Spelled(a3, s[3..]) == Spelled(64 * a3 + s[3], s[4..]);
      }
    }
  }

  lemma NumberThree(acc: nat, d: seq<Byte>)
    requires 1 <= |d| <= 3
    ensures |d| == 1 ==> Number(acc, d) == 256 * acc + d[0]
    ensures |d| == 2 ==> Number(acc, d) == 256 * (256 * acc + d[0]) + d[1]
    ensures |d| == 3 ==> Number(acc, d) == 256 * (256 * (256 * acc + d[0]) + d[1]) + d[2]
  {
    var a1 := 256 * acc + d[0];
    assert Number(acc, d) == Number(a1, d[1..]);
    if |d| > 1 {
      var a2 := 256 * a1 + d[1];
      assert d[1..][1..] == d[2..];
      assert Number(a1, d[1..]) == Number(a2, d[2..]);
      if |d| > 2 {
        assert d[2..][1..] == d[3..];
        assert Number(a2, d[2..]) == Number(256 * a2 + d[2], d[3..]);
      }
    }
  }

  /** How far a last chunk of one or two bytes is shifted up by its spare bits. */
  function SpareBits(n: nat): nat {
    if n % 3 == 1 then 16 else if n % 3 == 2 then 4 else 1
  }

  lemma ChunkSpells(acc: nat, c: seq<Byte>)
    requires 1 <= |c| <= 3
    ensures Spelled(acc, ChunkSextets(c)) == Number(acc, c) * SpareBits(|c|)
  {
    hide Spelled;
    hide Number;
    SpelledFour(acc, ChunkSextets(c));
    NumberThree(acc, c);
    var b0, b1, b2 := c[0], if |c| > 1 then c[1] else 0, if |c| > 2 then c[2] else 0;
    assert b0 == 4 * (b0 / 4) + b0 % 4;
    assert b1 == 16 * (b1 / 16) + b1 % 16;
    assert b2 == 64 * (b2 / 64) + b2 % 64;
  }

  lemma {:induction false} BodySpells(acc: nat, d: seq<Byte>)
    ensures Spelled(acc, BodySextets(d)) == Number(acc, d) * SpareBits(|d|)
    decreases |d|
  {
    hide ChunkSextets;
    hide Spelled;
    hide Number;
    if d == [] {
      NothingSpelled(acc);
    } else if |d| >= 3 {
      var c, rest := d[..3], d[3..];
      ChunkSpells(acc, c);
      assert d == c + rest;
      NumberConcat(acc, c, rest);
      SpelledConcat(acc, ChunkSextets(c), BodySextets(rest));
      BodySpells(Number(acc, c), rest);
      assert |rest| % 3 == |d| % 3;
    } else {
      ChunkSpells(acc, d);
    }
  }

  lemma NothingSpelled(acc: nat)
    ensures Spelled(acc, []) == acc && Number(acc, []) == acc
  {
  }

  /** The letters are the base-64 digits, in the standard alphabet, of the number the bytes spell, shifted up by the
      spare bits of the last letter; equals signs fill the last group. */
  lemma EncodingSpellsTheNumber(d: seq<Byte>)
    ensures var s := BodySextets(d);
      && Spelled(0, s) == Number(0, d) * SpareBits(|d|)
      && |s| == (8 * |d| + 5) / 6
      && |Encode(d)| == (|d| + 2) / 3 * 4
      && (forall i :: 0 <= i < |s| ==> Encode(d)[i] == Alphabet()[s[i]])
      && (forall i :: |s| <= i < |Encode(d)| ==> Encode(d)[i] == '=' as int)
  {
    hide EncodeBody;
    hide BodySextets;
    hide Alphabet;
    hide Spelled;
    hide Number;
    var s := BodySextets(d);
    BodySpells(0, d);
    BodyIsLetters(d);
    BodyCount(d);
    EncodedLength(d);
    forall i | 0 <= i < |s|
      ensures Encode(d)[i] == Alphabet()[s[i]]
    {
      AlphabetIsStandard(s[i]);
    }
  }

  lemma {:induction false} BodyCount(d: seq<Byte>)
    ensures |BodySextets(d)| == (8 * |d| + 5) / 6
    decreases |d|
  {
    hide ChunkSextets;
    if |d| >= 3 {
      BodyCount(d[3..]);
    }
  }

  // ---- Round trip and exactness ----

  lemma {:induction false} TrimmedOf(t: seq<Byte>, pad: seq<Byte>)
    requires PAD !in t && forall i :: 0 <= i < |pad| ==> pad[i] == PAD
    ensures Trimmed(t + pad) == t
    decreases |pad|
  {
    if pad == [] {
      assert t + pad == t;
    } else {
      var n := |pad| - 1;
      assert (t + pad)[..|t| + n] == t + pad[..n];
      TrimmedOf(t, pad[..n]);
    }
  }

  lemma BodyHasNoPadding(d: seq<Byte>)
    ensures PAD !in EncodeBody(d) && Ascii(EncodeBody(d))
  {
    BodyIsLetters(d);
    var s := BodySextets(d);
    forall i | 0 <= i < |s|
      ensures Letters(s)[i] != PAD && Letters(s)[i] < 128
    {
      LettersInvert(s[i], 0);
    }
  }

  lemma BodyIsShaped(d: seq<Byte>, pad: seq<Byte>)
    requires pad == Padding(|d|) || pad == []
    ensures Trimmed(EncodeBody(d) + pad) == EncodeBody(d)
    ensures Shaped(EncodeBody(d) + pad)
  {
    hide EncodeBody;
    hide Trimmed;
    hide Padding;
    hide MaxDecoded;
    BodyHasNoPadding(d);
    TrimmedOf(EncodeBody(d), pad);
    BodyLength(d);
    PaddedLength(|d|, |EncodeBody(d)|);
    assert |EncodeBody(d) + pad| == |EncodeBody(d)| + |pad|;
  }

  lemma PaddedLength(n: nat, m: nat)
    requires m % 4 == if n % 3 == 0 then 0 else n % 3 + 1
    ensures m % 4 != 1 && (m + |Padding(n)|) % 4 == 0
  {
  }

  lemma DecodeOfBody(d: seq<Byte>, pad: seq<Byte>)
    requires |d| <= MAX_SEND_DATA_BYTES
    requires pad == Padding(|d|) || pad == []
    ensures Decode(EncodeBody(d) + pad) == Some(d)
  {
    hide FromSextets;
    hide Sextets;
    hide EncodeBody;
    hide BodySextets;
    hide Shaped;
    hide Trimmed;
    hide MaxDecoded;
    hide Padding;
    BodyIsShaped(d, pad);
    BodyLength(d);
    BodyIsLetters(d);
    LettersDecode(BodySextets(d));
    BodyDecodes(d);
  }

  lemma TrimmedEncoding(d: seq<Byte>)
    ensures Trimmed(Encode(d)) == EncodeBody(d)
  {
    BodyIsShaped(d, Padding(|d|));
  }

  /** Decoding inverts encoding for everything up to the cap, with or without padding. */
  lemma DecodeInvertsEncode(d: seq<Byte>)
    requires |d| <= MAX_SEND_DATA_BYTES
    ensures Decode(Encode(d)) == Some(d)
    ensures Decode(Trimmed(Encode(d))) == Some(d)
  {
    hide Decode;
    TrimmedEncoding(d);
    DecodeOfBody(d, Padding(|d|));
    DecodeOfBody(d, []);
    assert EncodeBody(d) + [] == EncodeBody(d);
  }

  /** What is decoded comes from the one unpadded encoding, with its exact padding or none. */
  lemma DecodedIsAnEncoding(value: seq<Byte>)
    requires Decode(value).Some?
    ensures var d := Decode(value).value;
      |d| <= MAX_SEND_DATA_BYTES && (value == Encode(d) || value == EncodeBody(d))
  {
    hide FromSextets;
    hide BodySextets;
    hide EncodeBody;
    hide Sextets;
    var d := Decode(value).value;
    var t := Trimmed(value);
    var s := Sextets(t).value;
    SextetsAreLetters(t);
    DecodedBodyIsUnique(s);
    BodyIsLetters(d);
    BodyLength(d);
    assert t == EncodeBody(d);
    var pad := value[|t|..];
    assert value == t + pad;
    if pad != [] {
      PaddingIsExact(d, pad);
    }
  }

  lemma PaddingIsExact(d: seq<Byte>, pad: seq<Byte>)
    requires 1 <= |pad| <= 2 && (|EncodeBody(d)| + |pad|) % 4 == 0
    requires forall i :: 0 <= i < |pad| ==> pad[i] == PAD
    ensures pad == Padding(|d|)
  {
    hide EncodeBody;
    BodyLength(d);
  }

  /** The decoder accepts exactly the padded and the unpadded encoding of byte strings within the cap. */
  lemma DecodeAcceptsExactly(value: seq<Byte>, d: seq<Byte>)
    ensures Decode(value) == Some(d) <==> |d| <= 716_800 && (value == Encode(d) || value == EncodeBody(d))
  {
    hide Decode;
    if Decode(value) == Some(d) {
      DecodedIsAnEncoding(value);
    }
    if |d| <= MAX_SEND_DATA_BYTES {
      DecodeInvertsEncode(d);
      TrimmedEncoding(d);
    }
  }

  // ---- The canonical decoder ----

  /** `decode_canonical_speculation_base64`. */
  function DecodeCanonical(value: seq<Byte>, max: nat): Option<seq<Byte>> {
    if !Ascii(value) || |value| % 4 != 0 || |value| > (max + 2) / 3 * 4 then None
    else
      match Decode(value)
      case None => None
      case Some(d) => if |d| > max || Encode(d) != value then None else Some(d)
  }

  lemma {:induction false} EncodedLength(d: seq<Byte>)
    ensures |Encode(d)| == (|d| + 2) / 3 * 4
    decreases |d|
  {
    if |d| >= 3 {
      EncodedLength(d[3..]);
      EncodeByChunks(d);
    }
  }

  /** Canonical decoding accepts exactly the padded encodings of byte strings within its bound. */
  lemma CanonicalAcceptsExactly(value: seq<Byte>, max: nat, d: seq<Byte>)
    requires max <= MAX_SEND_DATA_BYTES
    ensures DecodeCanonical(value, max) == Some(d) <==> |d| <= max && value == Encode(d)
  {
    hide Decode;
    hide Encode;
    if |d| <= max && value == Encode(d) {
      DecodeInvertsEncode(d);
      EncodedFits(d, max);
    }
  }

  lemma EncodedFits(d: seq<Byte>, max: nat)
    requires |d| <= max
    ensures Ascii(Encode(d)) && |Encode(d)| % 4 == 0 && |Encode(d)| <= (max + 2) / 3 * 4
  {
    hide EncodeBody;
    EncodedLength(d);
    BodyHasNoPadding(d);
    var groups := (|d| + 2) / 3;
    assert groups <= (max + 2) / 3;
    assert (groups * 4) % 4 == 0;
  }
}
