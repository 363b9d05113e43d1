/**
 Splitting a status line into SGR sequences and text. Segments are positions in the
 UTF-8 bytes of the line, since the splitter slices the string at byte offsets.
 */
module StatusSplit {
  import opened Common
  import opened Utf8
  import opened StatusLine

  datatype Segment = SgrSegment(lo: nat, hi: nat) | TextSegment(lo: nat, hi: nat)

  /** From the byte after `ESC [`: where the sequence ends and whether it is a parameter-only SGR. */
  function ScanCsi(line: seq<Byte>, from: nat, valid: bool): (r: (nat, bool))
    requires from <= |line|
    ensures from <= r.0 <= |line|
    decreases |line| - from
  {
    if from == |line| then (from, false)
    else
      var b := line[from];
      if ParamByte(b) then ScanCsi(line, from + 1, valid)
      else if b == 0x6D then (from + 1, valid)
      else if 0x40 <= b <= 0x7E then (from + 1, false)
      else if b == 0x1B then (from, false)
      else ScanCsi(line, from + 1, false)
  }

  predicate InRange(line: seq<Byte>, segments: seq<Segment>) {
    forall k :: 0 <= k < |segments| ==> segments[k].lo <= segments[k].hi <= |line|
  }

  function TextBefore(start: nat, i: nat): seq<Segment> {
    if start < i then [TextSegment(start, i)] else []
  }

  /** The segments of `line` from `i` on, when the text being collected began at `start`. */
  function SplitFrom(line: seq<Byte>, start: nat, i: nat): seq<Segment>
    requires start <= i <= |line|
    decreases |line| - i
  {
    if i == |line| then TextBefore(start, i)
    else if line[i] != 0x1B then SplitFrom(line, start, i + 1)
    else if i + 1 < |line| && line[i + 1] == 0x5B then
      var (end, isSgr) := ScanCsi(line, i + 2, true);
      TextBefore(start, i) + (if isSgr then [SgrSegment(i, end)] else []) + SplitFrom(line, end, end)
    else TextBefore(start, i) + SplitFrom(line, i + 1, i + 1)
  }

  method ScanSequence(line: seq<Byte>, from: nat) returns (end: nat, isSgr: bool)
    requires from <= |line|
    ensures (end, isSgr) == ScanCsi(line, from, true)
  {
    end := from;
    var valid := true;
    while end < |line|
      invariant from <= end <= |line|
      invariant ScanCsi(line, from, true) == ScanCsi(line, end, valid)
    {
      var b := line[end];
      if ParamByte(b) {
        end := end + 1;
      } else if b == 0x6D {
        return end + 1, valid;
      } else if 0x40 <= b <= 0x7E {
        return end + 1, false;
      } else if b == 0x1B {
        return end, false;
      } else {
        valid := false;
        end := end + 1;
      }
    }
    return end, false;
  }

  /** What the splitter has collected when it leaves the escape at `i`, and where it goes on. */
  function AtEscape(line: seq<Byte>, start: nat, i: nat): (r: (seq<Segment>, nat))
    requires start <= i < |line|
    ensures i < r.1 <= |line|
  {
    if i + 1 < |line| && line[i + 1] == 0x5B then
      var (end, isSgr) := ScanCsi(line, i + 2, true);
      (TextBefore(start, i) + (if isSgr then [SgrSegment(i, end)] else []), end)
    else (TextBefore(start, i), i + 1)
  }

  lemma SplitStep(line: seq<Byte>, start: nat, i: nat, done: seq<Segment>)
    requires start <= i < |line|
    ensures line[i] != 0x1B ==> SplitFrom(line, start, i) == SplitFrom(line, start, i + 1)
    ensures line[i] == 0x1B ==>
      var (found, next) := AtEscape(line, start, i);
      done + SplitFrom(line, start, i) == done + found + SplitFrom(line, next, next)
  {
    hide ScanCsi;
    hide TextBefore;
  }

  /** `split_sgr_and_text`. */
  method SplitSgrAndText(line: seq<Byte>) returns (segments: seq<Segment>)
    ensures segments == SplitFrom(line, 0, 0)
  {
    hide SplitFrom;
    hide ScanCsi;
    segments := [];
    var textStart: nat := 0;
    var index: nat := 0;
    while index < |line|
      invariant textStart <= index <= |line|
      invariant SplitFrom(line, 0, 0) == segments + SplitFrom(line, textStart, index)
      decreases |line| - index
    {
      SplitStep(line, textStart, index, segments);
      if line[index] == 0x1B {
        if textStart < index {
          segments := segments + [TextSegment(textStart, index)];
        }
        if index + 1 < |line| && line[index + 1] == 0x5B {
          var end, isSgr := ScanSequence(line, index + 2);
          if isSgr {
            segments := segments + [SgrSegment(index, end)];
          }
          textStart, index := end, end;
        } else {
          textStart, index := index + 1, index + 1;
        }
      } else {
        index := index + 1;
      }
    }
    SplitEnd(line, textStart);
    if textStart < |line| {
      segments := segments + [TextSegment(textStart, |line|)];
    }
  }

  lemma SplitEnd(line: seq<Byte>, start: nat)
    requires start <= |line|
    ensures SplitFrom(line, start, |line|) == TextBefore(start, |line|)
  {
  }

  // ---- Slices fall on character boundaries ----

  /** `str::is_char_boundary` on UTF-8 bytes. */
  predicate Boundary(line: seq<Byte>, i: nat) {
    i == 0 || i == |line| || (i < |line| && !Continuation(line[i]))
  }

  predicate BoundaryAfterAscii(line: seq<Byte>) {
    forall i :: 0 <= i < |line| && line[i] <= 0x7F ==> Boundary(line, i + 1)
  }

  lemma EncodedBytesAreHigh(c: Scalar, i: nat)
    requires i < |EncodeChar(c)| && EncodeChar(c)[i] <= 0x7F
    ensures |EncodeChar(c)| == 1
  {
  }

  lemma {:induction false} TextStartsAtBoundary(text: seq<Scalar>)
    ensures EncodeText(text) != [] ==> !Continuation(EncodeText(text)[0])
  {
  }

  lemma {:induction false} EncodedTextHasBoundaries(text: seq<Scalar>)
    ensures BoundaryAfterAscii(EncodeText(text))
    decreases |text|
  {
    if text != [] {
      var e, tail := EncodeChar(text[0]), EncodeText(text[1..]);
      var line := e + tail;
      EncodedTextHasBoundaries(text[1..]);
      TextStartsAtBoundary(text[1..]);
      forall i | 0 <= i < |line| && line[i] <= 0x7F
        ensures Boundary(line, i + 1)
      {
        if i < |e| {
          EncodedBytesAreHigh(text[0], i);
        } else {
          assert tail[i - |e|] == line[i];
          assert Boundary(tail, i - |e| + 1);
        }
      }
    }
  }

  lemma {:induction false} ScanEndsAtBoundary(line: seq<Byte>, from: nat, valid: bool)
    requires from <= |line| && BoundaryAfterAscii(line)
    ensures Boundary(line, ScanCsi(line, from, valid).0)
    decreases |line| - from
  {
    if from < |line| {
      var b := line[from];
      if ParamByte(b) {
        ScanEndsAtBoundary(line, from + 1, valid);
      } else if !(0x40 <= b <= 0x7E) && b != 0x1B {
        ScanEndsAtBoundary(line, from + 1, false);
      }
    }
  }

  predicate SlicesOk(line: seq<Byte>, segments: seq<Segment>) {
    forall k :: 0 <= k < |segments| ==>
      && segments[k].lo <= segments[k].hi <= |line|
      && Boundary(line, segments[k].lo) && Boundary(line, segments[k].hi)
  }

  lemma SlicesOkConcat(line: seq<Byte>, a: seq<Segment>, b: seq<Segment>)
    requires SlicesOk(line, a) && SlicesOk(line, b)
    ensures SlicesOk(line, a + b)
  {
    hide Boundary;
  }

  /** What is collected at an escape starts and ends at boundaries. */
  lemma AtEscapeSlicesOk(line: seq<Byte>, start: nat, i: nat)
    requires start <= i < |line| && line[i] == 0x1B && Boundary(line, start) && BoundaryAfterAscii(line)
    ensures SlicesOk(line, AtEscape(line, start, i).0) && Boundary(line, AtEscape(line, start, i).1)
  {
    hide ScanCsi;
    if i + 1 < |line| && line[i + 1] == 0x5B {
      ScanEndsAtBoundary(line, i + 2, true);
    }
  }

  lemma {:induction false} SplitFromSlicesOk(line: seq<Byte>, start: nat, i: nat)
    requires start <= i <= |line| && Boundary(line, start) && BoundaryAfterAscii(line)
    ensures SlicesOk(line, SplitFrom(line, start, i))
    decreases |line| - i
  {
    hide SplitFrom;
    hide AtEscape;
    hide SlicesOk;
    hide Boundary;
    hide BoundaryAfterAscii;
    if i == |line| {
      SplitEnd(line, start);
      TextBeforeOk(line, start);
    } else {
      SplitStep(line, start, i, []);
      if line[i] != 0x1B {
        SplitFromSlicesOk(line, start, i + 1);
      } else {
        var (found, next) := AtEscape(line, start, i);
        AtEscapeSlicesOk(line, start, i);
        SplitFromSlicesOk(line, next, next);
        SlicesOkConcat(line, found, SplitFrom(line, next, next));
        assert [] + SplitFrom(line, start, i) == SplitFrom(line, start, i) && [] + found == found;
      }
    }
  }

  lemma TextBeforeOk(line: seq<Byte>, start: nat)
    requires start <= |line| && Boundary(line, start)
    ensures SlicesOk(line, TextBefore(start, |line|))
  {
  }

  /** Whatever the text is, sanitized or not, the splitter never slices inside a character. */
  lemma SplitNeverCutsACharacter(text: seq<Scalar>)
    ensures SlicesOk(EncodeText(text), SplitFrom(EncodeText(text), 0, 0))
  {
    EncodedTextHasBoundaries(text);
    SplitFromSlicesOk(EncodeText(text), 0, 0);
  }

  lemma {:induction false} SplitInRange(line: seq<Byte>, start: nat, i: nat)
    requires start <= i <= |line|
    ensures InRange(line, SplitFrom(line, start, i))
    decreases |line| - i
  {
    if i < |line| {
      if line[i] != 0x1B {
        SplitInRange(line, start, i + 1);
      } else {
        var next := AtEscape(line, start, i).1;
        SplitInRange(line, next, next);
      }
    }
  }

  // ---- Sanitized lines are split without loss ----

  function Slices(line: seq<Byte>, segments: seq<Segment>): seq<Byte>
    requires InRange(line, segments)
  {
    if segments == [] then []
    else line[segments[0].lo..segments[0].hi] + Slices(line, segments[1..])
  }

  function EncodeToken(t: Token): seq<Byte> {
    match t
    case Text(c) => EncodeChar(c)
    case Sgr(params) => [0x1B, 0x5B] + params + [0x6D]
  }

  function EncodeTokens(tokens: seq<Token>): seq<Byte> {
    if tokens == [] then [] else EncodeToken(tokens[0]) + EncodeTokens(tokens[1..])
  }

  lemma {:induction false} ParamsAreAscii(params: seq<Byte>)
    requires forall i :: 0 <= i < |params| ==> ParamByte(params[i])
    ensures EncodeText(AsText(params)) == params
    decreases |params|
  {
    if params != [] {
      ParamsAreAscii(params[1..]);
      assert AsText(params)[1..] == AsText(params[1..]);
      assert params == [params[0]] + params[1..];
    }
  }

  lemma {:induction false} RenderedTokensEncode(tokens: seq<Token>)
    requires TokensOk(tokens)
    ensures EncodeText(Render(tokens)) == EncodeTokens(tokens)
    decreases |tokens|
  {
    if tokens != [] {
      var t := tokens[0];
      assert TokenOk(t);
      RenderedTokensEncode(tokens[1..]);
      EncodeTextConcat(RenderToken(t), Render(tokens[1..]));
      RenderedTokenEncodes(t);
    }
  }

  lemma RenderedTokenEncodes(t: Token)
    requires TokenOk(t)
    ensures EncodeText(RenderToken(t)) == EncodeToken(t)
  {
    match t
    case Text(c) => assert [c][1..] == [];
    case Sgr(params) =>
      ParamsAreAscii(params);
      var head, mid, tail: seq<Scalar> := [0x1B, 0x5B], AsText(params), [0x6D];
      EncodeTextConcat(head + mid, tail);
      EncodeTextConcat(head, mid);
      assert EncodeText(tail) == [0x6D] by { assert tail[1..] == []; }
      assert EncodeText(head) == [0x1B, 0x5B] by { assert head[1..] == [0x5B] && head[1..][1..] == []; }
  }

  lemma {:induction false} SkipText(line: seq<Byte>, start: nat, i: nat, j: nat)
    requires start <= i <= j <= |line| && forall k :: i <= k < j ==> line[k] != 0x1B
    ensures SplitFrom(line, start, i) == SplitFrom(line, start, j)
    decreases j - i
  {
    if i < j {
      SkipText(line, start, i + 1, j);
    }
  }

  lemma {:induction false} ScanParams(line: seq<Byte>, from: nat, to: nat)
    requires from <= to < |line| && line[to] == 0x6D
    requires forall k :: from <= k < to ==> ParamByte(line[k])
    ensures ScanCsi(line, from, true) == (to + 1, true)
    decreases |line| - from
  {
    if from < to {
      ScanParams(line, from + 1, to);
    }
  }

  /** Every segment of a split starts where the previous one ended: nothing is lost. */
  ghost predicate Covers(line: seq<Byte>, segments: seq<Segment>, start: nat)
    decreases |segments|
  {
    if segments == [] then start == |line|
    else
      && segments[0].lo == start && start < segments[0].hi <= |line|
      && Covers(line, segments[1..], segments[0].hi)
  }

  lemma {:induction false} CoversPrepend(line: seq<Byte>, start: nat, i: nat, rest: seq<Segment>)
    requires start <= i <= |line| && Covers(line, rest, i)
    ensures Covers(line, TextBefore(start, i) + rest, start)
  {
    if start < i {
      assert ([TextSegment(start, i)] + rest)[1..] == rest;
    } else {
      assert TextBefore(start, i) + rest == rest;
    }
  }

  /** The bytes of the first token, and what follows them. */
  lemma TokenSlices(line: seq<Byte>, tokens: seq<Token>, p: nat)
    requires p <= |line| && tokens != [] && line[p..] == EncodeTokens(tokens)
    ensures var e := EncodeToken(tokens[0]);
      p + |e| <= |line| && line[p..p + |e|] == e && line[p + |e|..] == EncodeTokens(tokens[1..])
  {
    hide EncodeToken;
    var e := EncodeToken(tokens[0]);
    assert line[p..][..|e|] == e && line[p..][|e|..] == EncodeTokens(tokens[1..]);
    assert line[p..][..|e|] == line[p..p + |e|] && line[p..][|e|..] == line[p + |e|..];
  }

  lemma TextTokenIsSkipped(line: seq<Byte>, c: Scalar, start: nat, p: nat)
    requires start <= p && p + |EncodeChar(c)| <= |line| && TokenOk(Text(c))
    requires line[p..p + |EncodeChar(c)|] == EncodeChar(c)
    ensures SplitFrom(line, start, p) == SplitFrom(line, start, p + |EncodeChar(c)|)
  {
    hide SplitFrom;
    var e := EncodeChar(c);
    TextTokenHasNoEscape(c);
    forall k | p <= k < p + |e|
      ensures line[k] != 0x1B
    {
      assert line[k] == line[p..p + |e|][k - p];
    }
    SkipText(line, start, p, p + |e|);
  }

  lemma CoversSgr(line: seq<Byte>, start: nat, p: nat, q: nat, rest: seq<Segment>)
    requires start <= p < q <= |line| && Covers(line, rest, q)
    ensures Covers(line, TextBefore(start, p) + [SgrSegment(p, q)] + rest, start)
  {
    var tail := [SgrSegment(p, q)] + rest;
    assert tail[1..] == rest;
    CoversPrepend(line, start, p, tail);
    assert TextBefore(start, p) + [SgrSegment(p, q)] + rest == TextBefore(start, p) + tail;
  }

  lemma {:induction false} TokensAreCovered(line: seq<Byte>, tokens: seq<Token>, start: nat, p: nat)
    requires start <= p <= |line| && TokensOk(tokens) && line[p..] == EncodeTokens(tokens)
    ensures Covers(line, SplitFrom(line, start, p), start)
    decreases |tokens|
  {
    hide TokenOk;
    hide SplitFrom;
    hide Covers;
    hide EncodeTokens;
    hide EncodeToken;
    hide EncodeChar;
    if tokens == [] {
      NothingLeftIsCovered(line, start, p);
    } else {
      var t, rest := tokens[0], tokens[1..];
      assert TokenOk(t) && TokensOk(rest);
      TokenSlices(line, tokens, p);
      TokenLength(t);
      if t.Text? {
        var q := p + |EncodeChar(t.c)|;
        TextTokenIsSkipped(line, t.c, start, p);
        TokensAreCovered(line, rest, start, q);
      } else {
        var q := p + 3 + |t.params|;
        SgrTokenIsCovered(line, t.params, start, p);
        TokensAreCovered(line, rest, q, q);
        CoversSgr(line, start, p, q, SplitFrom(line, q, q));
      }
    }
  }

  lemma TokenLength(t: Token)
    ensures t.Text? ==> EncodeToken(t) == EncodeChar(t.c)
    ensures t.Sgr? ==> |EncodeToken(t)| == 3 + |t.params|
  {
  }

  lemma NothingLeftIsCovered(line: seq<Byte>, start: nat, p: nat)
    requires start <= p <= |line| && line[p..] == EncodeTokens([])
    ensures Covers(line, SplitFrom(line, start, p), start)
  {
    assert |line[p..]| == 0;
    SplitEnd(line, start);
    CoversPrepend(line, start, p, []);
    assert TextBefore(start, p) + [] == TextBefore(start, p);
  }

  lemma TextTokenHasNoEscape(c: Scalar)
    requires TokenOk(Text(c))
    ensures forall k :: 0 <= k < |EncodeChar(c)| ==> EncodeChar(c)[k] != 0x1B
  {
  }

  lemma SgrTokenIsCovered(line: seq<Byte>, params: seq<Byte>, start: nat, p: nat)
    requires start <= p && p + 3 + |params| <= |line| && TokenOk(Sgr(params))
    requires line[p..p + 3 + |params|] == EncodeToken(Sgr(params))
    ensures var q := p + 3 + |params|;
      SplitFrom(line, start, p) == TextBefore(start, p) + [SgrSegment(p, q)] + SplitFrom(line, q, q)
  {
    hide SplitFrom;
    hide ScanCsi;
    var q := p + 3 + |params|;
    SgrTokenBytes(line, params, p);
    ScanParams(line, p + 2, q - 1);
    SplitStep(line, start, p, []);
    var all := SplitFrom(line, start, p);
    assert [] + all == all;
    var found := TextBefore(start, p) + [SgrSegment(p, q)];
    assert AtEscape(line, start, p) == (found, q);
    assert [] + found == found;
  }

  lemma SgrTokenBytes(line: seq<Byte>, params: seq<Byte>, p: nat)
    requires p + 3 + |params| <= |line| && TokenOk(Sgr(params))
    requires line[p..p + 3 + |params|] == EncodeToken(Sgr(params))
    ensures line[p] == 0x1B && line[p + 1] == 0x5B && line[p + 2 + |params|] == 0x6D
    ensures forall k :: p + 2 <= k < p + 2 + |params| ==> ParamByte(line[k])
  {
    var q := p + 3 + |params|;
    var e := EncodeToken(Sgr(params));
    assert forall k :: p <= k < q ==> line[k] == line[p..q][k - p];
    assert e[0] == 0x1B && e[1] == 0x5B && e[|e| - 1] == 0x6D;
    forall k | p + 2 <= k < p + 2 + |params|
      ensures ParamByte(line[k])
    {
      assert line[k] == e[k - p] == params[k - p - 2];
    }
  }

  lemma {:induction false} CoveredSlicesAreTheLine(line: seq<Byte>, segments: seq<Segment>, start: nat)
    requires start <= |line| && Covers(line, segments, start)
    ensures InRange(line, segments)
    ensures Slices(line, segments) == line[start..]
    decreases |segments|
  {
    if segments != [] {
      CoveredSlicesAreTheLine(line, segments[1..], segments[0].hi);
      forall k | 0 <= k < |segments|
        ensures segments[k].lo <= segments[k].hi <= |line|
      {
        if k > 0 {
          assert segments[k] == segments[1..][k - 1];
        }
      }
    }
  }

  /** A sanitized line is split without loss: the segments follow each other and concatenate to the line. */
  lemma SanitizedLineSplitsLosslessly(bytes: seq<Byte>, color: bool)
    ensures var line := EncodeText(Render(LineTokens(bytes, color)));
      var segments := SplitFrom(line, 0, 0);
      && Covers(line, segments, 0)
      && InRange(line, segments)
      && Slices(line, segments) == line
  {
    hide LineTokens;
    var tokens := LineTokens(bytes, color);
    StatusLineIsSafe(bytes, color);
    RenderedTokensEncode(tokens);
    var line := EncodeTokens(tokens);
    assert line[0..] == line;
    TokensAreCovered(line, tokens, 0, 0);
    CoveredSlicesAreTheLine(line, SplitFrom(line, 0, 0), 0);
  }
}
