/**
 What the truncated status line is as bytes: again safe text and bounded SGR, closed by
 a reset, showing a prefix of the plain line and the ellipsis. Clusters are slices of a
 string, hence text themselves; that is all that is assumed of them beyond their metrics.
 */
module StatusOutput {
  import opened Common
  import opened Utf8
  import TC = TerminalCapture
  import opened StatusLine
  import opened StatusSplit
  import opened StatusTruncate

  const ELLIPSIS_CHAR: Scalar := 0x2026

  predicate Plain(text: seq<Scalar>) {
    forall i :: 0 <= i < |text| ==> !TC.IsControl(text[i])
  }

  ghost predicate IsText(b: Bytes) {
    exists x :: b == EncodeText(x)
  }

  /** Grapheme segmentation cuts a string into strings. */
  ghost predicate ClustersAreText(clusters: Bytes -> seq<Bytes>) {
    forall x, i :: 0 <= i < |clusters(EncodeText(x))| ==> IsText(clusters(EncodeText(x))[i])
  }

  /** The assumptions about clusters can be met: one cluster a text, with any width. */
  lemma AssumptionsCanBeMet(width: Bytes -> nat)
    ensures ClustersAreText(b => [b]) && Metrics(b => [b], width)
  {
    var clusters: Bytes -> seq<Bytes> := b => [b];
    forall t: Bytes
      ensures MetricsAt(clusters, width, t)
    {
      FlattenOne(t);
      SumWidthSnoc([], t, width);
      assert [] + [t] == [t];
    }
    forall x, i | 0 <= i < |clusters(EncodeText(x))|
      ensures IsText(clusters(EncodeText(x))[i])
    {
      assert clusters(EncodeText(x))[i] == EncodeText(x);
    }
  }

  ghost predicate PlainBytes(b: Bytes) {
    exists x :: Plain(x) && b == EncodeText(x)
  }

  ghost predicate SgrBytes(b: Bytes) {
    exists params :: SgrOk(params) && b == EncodeToken(Sgr(params))
  }

  ghost predicate PieceOk(p: Piece) {
    match p
    case Colour(b) => SgrBytes(b)
    case Visible(b) => PlainBytes(b)
  }

  ghost predicate PiecesOk(pieces: seq<Piece>) {
    forall i :: 0 <= i < |pieces| ==> PieceOk(pieces[i])
  }

  // ---- The pieces of a line of safe tokens ----

  lemma TextGrows(line: Bytes, start: nat, p: nat, text: seq<Scalar>, c: Scalar)
    requires start <= p && p + |EncodeChar(c)| <= |line|
    requires line[start..p] == EncodeText(text) && line[p..p + |EncodeChar(c)|] == EncodeChar(c)
    ensures line[start..p + |EncodeChar(c)|] == EncodeText(text + [c])
  {
    hide EncodeChar;
    var q := p + |EncodeChar(c)|;
    EncodeTextConcat(text, [c]);
    var none: seq<Scalar> := [c][1..];
    assert none == [] && EncodeText([c]) == EncodeChar(c) + EncodeText(none);
    assert line[start..q] == line[start..p] + line[p..q];
  }

  lemma TextBeforeIsOk(line: Bytes, start: nat, p: nat, text: seq<Scalar>)
    requires start <= p <= |line| && line[start..p] == EncodeText(text) && Plain(text)
    ensures InRange(line, TextBefore(start, p)) && PiecesOk(PiecesOf(line, TextBefore(start, p)))
  {
    hide EncodeText;
    assert PlainBytes(line[start..p]);
    if start < p {
      assert TextBefore(start, p)[1..] == [];
    }
  }

  lemma SgrPieceIsOk(line: Bytes, params: seq<Byte>, p: nat)
    requires p + 3 + |params| <= |line| && SgrOk(params)
    requires line[p..p + 3 + |params|] == EncodeToken(Sgr(params))
    ensures var sgr := [SgrSegment(p, p + 3 + |params|)]; InRange(line, sgr) && PiecesOk(PiecesOf(line, sgr))
  {
    hide EncodeToken;
    assert SgrBytes(line[p..p + 3 + |params|]);
    assert [SgrSegment(p, p + 3 + |params|)][1..] == [];
  }

  lemma {:induction false} TokenPiecesAreOk(line: Bytes, tokens: seq<Token>, start: nat, p: nat, text: seq<Scalar>)
    requires start <= p <= |line| && TokensOk(tokens) && line[p..] == EncodeTokens(tokens)
    requires line[start..p] == EncodeText(text) && Plain(text)
    ensures InRange(line, SplitFrom(line, start, p)) && PiecesOk(PiecesOf(line, SplitFrom(line, start, p)))
    decreases |tokens|
  {
    hide SplitFrom;
    hide PiecesOf;
    hide EncodeTokens;
    hide EncodeToken;
    hide EncodeChar;
    hide EncodeText;
    hide PieceOk;
    SplitInRange(line, start, p);
    if tokens == [] {
      NoTokens();
      assert |line[p..]| == 0;
      SplitEnd(line, start);
      TextBeforeIsOk(line, start, p, text);
    } else {
      var t, rest := tokens[0], tokens[1..];
      assert TokenOk(t) && TokensOk(rest);
      TokenSlices(line, tokens, p);
      TokenLength(t);
      if t.Text? {
        var q := p + |EncodeChar(t.c)|;
        TextTokenIsSkipped(line, t.c, start, p);
        TextGrows(line, start, p, text, t.c);
        TokenPiecesAreOk(line, rest, start, q, text + [t.c]);
      } else {
        var q := p + 3 + |t.params|;
        TextBeforeIsOk(line, start, p, text);
        SgrPieceIsOk(line, t.params, p);
        assert line[q..q] == EncodeText([]) by { EncodeNothing(line[q..q]); }
        TokenPiecesAreOk(line, rest, q, q, []);
        LinePiecesAcrossSgr(line, t.params, start, p);
      }
    }
  }

  lemma EncodeNothing(b: Bytes)
    requires b == []
    ensures b == EncodeText([])
  {
  }

  // ---- The cut keeps whole characters ----

  lemma {:induction false} EncodingIsPrefixFree(y: seq<Scalar>, x: seq<Scalar>)
    requires EncodeText(y) <= EncodeText(x)
    ensures y <= x
    decreases |y|
  {
    hide EncodeChar;
    hide DecodeChar;
    if y != [] {
      var ey, ry := EncodeChar(y[0]), EncodeText(y[1..]);
      var tail := EncodeText(x)[|ey + ry|..];
      assert EncodeText(x) == ey + (ry + tail);
      assert |EncodeText(x)| > 0;
      var ex, rx := EncodeChar(x[0]), EncodeText(x[1..]);
      DecodeEncoded(y[0], ry + tail);
      DecodeEncoded(x[0], rx);
      assert y[0] == x[0];
      assert (ex + rx)[|ex|..] == rx && (ey + (ry + tail))[|ey|..] == ry + tail;
      EncodingIsPrefixFree(y[1..], x[1..]);
    }
  }

  lemma {:induction false} FlattenIsText(parts: seq<Bytes>)
    requires forall i :: 0 <= i < |parts| ==> IsText(parts[i])
    ensures IsText(Flatten(parts))
    decreases |parts|
  {
    hide EncodeText;
    if parts == [] {
      EncodeNothing(Flatten(parts));
    } else {
      FlattenIsText(parts[1..]);
      var a :| parts[0] == EncodeText(a);
      var b :| Flatten(parts[1..]) == EncodeText(b);
      EncodeTextConcat(a, b);
      assert Flatten(parts) == EncodeText(a + b);
    }
  }

  /** What is kept of a plain text is plain text. */
  lemma FrontIsPlain(b: Bytes, clusters: Bytes -> seq<Bytes>, width: Bytes -> nat, k: nat)
    requires PlainBytes(b) && ClustersAreText(clusters) && MetricsAt(clusters, width, b) && k <= |clusters(b)|
    ensures PlainBytes(Flatten(clusters(b)[..k]))
  {
    hide EncodeText;
    hide Flatten;
    hide IsText;
    var x :| Plain(x) && b == EncodeText(x);
    var cs := clusters(b);
    forall i | 0 <= i < k
      ensures IsText(cs[..k][i])
    {
      assert IsText(clusters(EncodeText(x))[i]);
    }
    FlattenIsText(cs[..k]);
    var y := TextBehind(Flatten(cs[..k]));
    FlattenSplit(cs, k);
    EncodingIsPrefixFree(y, x);
    assert Plain(y);
  }

  lemma TextBehind(b: Bytes) returns (y: seq<Scalar>)
    requires IsText(b)
    ensures b == EncodeText(y)
  {
    y :| b == EncodeText(y);
  }

  lemma {:induction false} CutIsOk(
    pieces: seq<Piece>, used: nat, target: nat, clusters: Bytes -> seq<Bytes>, width: Bytes -> nat)
    requires PiecesOk(pieces) && ClustersAreText(clusters) && Metrics(clusters, width)
    ensures PiecesOk(Cut(pieces, used, target, clusters, width))
    decreases |pieces|
  {
    hide MetricsAt;
    hide Flatten;
    hide SumWidth;
    hide Fitting;
    hide ClustersAreText;
    hide PlainBytes;
    hide SgrBytes;
    if pieces != [] {
      assert PieceOk(pieces[0]) && PiecesOk(pieces[1..]);
      if pieces[0].Colour? {
        CutIsOk(pieces[1..], used, target, clusters, width);
      } else {
        var b := pieces[0].bytes;
        var cs := clusters(b);
        assert MetricsAt(clusters, width, b);
        FrontIsPlain(b, clusters, width, Fitting(cs, used, target, width));
        CutIsOk(pieces[1..], used + SumWidth(cs, width), target, clusters, width);
      }
    }
  }

  // ---- Pieces as tokens ----

  /** Tokens that say what the pieces say. */
  ghost predicate Says(tokens: seq<Token>, pieces: seq<Piece>) {
    && TokensOk(tokens)
    && EncodeTokens(tokens) == RenderPieces(pieces)
    && EncodeTokens(TextOf(tokens)) == VisibleOf(pieces)
    && (HasSgr(tokens) <==> HasColour(pieces))
  }

  function AsTokens(text: seq<Scalar>): (tokens: seq<Token>)
    ensures |tokens| == |text| && forall i :: 0 <= i < |text| ==> tokens[i] == Text(text[i])
  {
    seq(|text|, i requires 0 <= i < |text| => Text(text[i]))
  }

  lemma {:induction false} AsTokensEncode(text: seq<Scalar>)
    ensures EncodeTokens(AsTokens(text)) == EncodeText(text)
    ensures TextOf(AsTokens(text)) == AsTokens(text)
    decreases |text|
  {
    hide EncodeChar;
    if text != [] {
      AsTokensEncode(text[1..]);
      assert AsTokens(text)[1..] == AsTokens(text[1..]);
      assert AsTokens(text) == [Text(text[0])] + AsTokens(text[1..]);
    }
  }

  lemma {:induction false} EncodeTokensConcat(a: seq<Token>, b: seq<Token>)
    ensures EncodeTokens(a + b) == EncodeTokens(a) + EncodeTokens(b)
    decreases |a|
  {
    hide EncodeToken;
    if a == [] {
      assert a + b == b;
    } else {
      assert (a + b)[1..] == a[1..] + b;
      EncodeTokensConcat(a[1..], b);
    }
  }

  lemma HasSgrConcat(a: seq<Token>, b: seq<Token>)
    ensures HasSgr(a + b) <==> HasSgr(a) || HasSgr(b)
  {
    if HasSgr(a) {
      var i :| 0 <= i < |a| && a[i].Sgr?;
      assert (a + b)[i].Sgr?;
    }
    if HasSgr(b) {
      var i :| 0 <= i < |b| && b[i].Sgr?;
      assert (a + b)[|a| + i].Sgr?;
    }
  }

  /** The tokens of one piece. */
  lemma PieceSays(p: Piece) returns (tokens: seq<Token>)
    requires PieceOk(p)
    ensures TokensOk(tokens) && EncodeTokens(tokens) == p.bytes
    ensures EncodeTokens(TextOf(tokens)) == if p.Visible? then p.bytes else []
    ensures HasSgr(tokens) <==> p.Colour?
  {
    hide EncodeToken;
    hide EncodeText;
    if p.Colour? {
      var params :| SgrOk(params) && p.bytes == EncodeToken(Sgr(params));
      tokens := [Sgr(params)];
      var none: seq<Token> := tokens[1..];
      assert none == [] && EncodeTokens(none) == [] && TextOf(none) == [];
      assert tokens[0].Sgr?;
    } else {
      var x :| Plain(x) && p.bytes == EncodeText(x);
      tokens := AsTokens(x);
      AsTokensEncode(x);
    }
  }

  lemma {:induction false} PiecesSay(pieces: seq<Piece>) returns (tokens: seq<Token>)
    requires PiecesOk(pieces)
    ensures Says(tokens, pieces)
    decreases |pieces|
  {
    hide PieceOk;
    hide Says;
    if pieces == [] {
      tokens := [];
      NothingSaid();
    } else {
      assert PieceOk(pieces[0]);
      var front := PieceSays(pieces[0]);
      var rest := PiecesSay(pieces[1..]);
      tokens := front + rest;
      SaysMore(pieces[0], pieces[1..], front, rest);
      assert pieces == [pieces[0]] + pieces[1..];
    }
  }

  lemma NothingSaid()
    ensures Says([], [])
  {
  }

  lemma SaysMore(piece: Piece, pieces: seq<Piece>, front: seq<Token>, rest: seq<Token>)
    requires Says(rest, pieces) && TokensOk(front) && EncodeTokens(front) == piece.bytes
    requires EncodeTokens(TextOf(front)) == (if piece.Visible? then piece.bytes else [])
    requires HasSgr(front) <==> piece.Colour?
    ensures Says(front + rest, [piece] + pieces)
  {
    hide TokenOk;
    hide EncodeTokens;
    hide TextOf;
    hide HasSgr;
    hide HasColour;
    EncodeTokensConcat(front, rest);
    TextOfConcat(front, rest);
    EncodeTokensConcat(TextOf(front), TextOf(rest));
    HasSgrConcat(front, rest);
    HasColourCons(piece, pieces);
    VisibleCons(piece, pieces);
    assert ([piece] + pieces)[1..] == pieces;
  }

  // ---- The truncated line ----

  function Ending(elided: bool, coloured: bool): seq<Token> {
    (if elided then [Text(ELLIPSIS_CHAR)] else []) + (if coloured then [RESET] else [])
  }

  lemma EndingEncodes(elided: bool, coloured: bool)
    ensures TokensOk(Ending(elided, coloured))
    ensures EncodeTokens(Ending(elided, coloured)) == (if elided then ELLIPSIS else []) + (if coloured then RESET_BYTES else [])
    ensures EncodeTokens(TextOf(Ending(elided, coloured))) == if elided then ELLIPSIS else []
    ensures HasSgr(Ending(elided, coloured)) <==> coloured
  {
    var dots, reset: seq<Token> := [Text(ELLIPSIS_CHAR)], [RESET];
    assert EncodeChar(ELLIPSIS_CHAR) == ELLIPSIS;
    assert EncodeToken(RESET) == RESET_BYTES;
    var none: seq<Token> := [];
    assert dots[1..] == none && reset[1..] == none;
    assert EncodeTokens(none) == [] && TextOf(none) == none;
    assert EncodeTokens(dots) == ELLIPSIS && EncodeTokens(reset) == RESET_BYTES;
    assert TextOf(dots) == [dots[0]] + TextOf(dots[1..]) == dots;
    assert TextOf(reset) == none + TextOf(reset[1..]) == none;
    assert CountSemicolons([0x30]) == 0 by { assert [0x30][..0] == []; }
    var a, b := if elided then dots else [], if coloured then reset else [];
    EncodeTokensConcat(a, b);
    TextOfConcat(a, b);
    EncodeTokensConcat(TextOf(a), TextOf(b));
    if coloured {
      assert (a + b)[|a|].Sgr?;
    }
  }

  /** What truncation promises of its bytes for a line that shows `plain`. */
  ghost predicate ShowsFront(out: Bytes, tokens: seq<Token>, kept: Bytes, plain: Bytes, elided: bool) {
    && out == EncodeTokens(tokens) && TokensOk(tokens)
    && (HasSgr(tokens) ==> tokens[|tokens| - 1] == RESET)
    && kept <= plain
    && VisibleOf(LinePieces(out)) == kept + if elided then ELLIPSIS else []
  }

  lemma KeptIsOk(pieces: seq<Piece>, max: nat, clusters: Bytes -> seq<Bytes>, width: Bytes -> nat)
    requires PiecesOk(pieces) && ClustersAreText(clusters) && Metrics(clusters, width)
    ensures PiecesOk(Kept(pieces, max, clusters, width))
  {
    hide PieceOk;
    hide Cut;
    CutIsOk(pieces, 0, if max == 0 then 0 else max - EllipsisMargin(max), clusters, width);
  }

  lemma TruncatedPiecesSay(pieces: seq<Piece>, max: nat, clusters: Bytes -> seq<Bytes>, width: Bytes -> nat)
    returns (tokens: seq<Token>)
    requires PiecesOk(pieces) && ClustersAreText(clusters) && Metrics(clusters, width)
    ensures TokensOk(tokens) && EncodeTokens(tokens) == Truncated(pieces, max, clusters, width)
    ensures EncodeTokens(TextOf(tokens))
         == VisibleOf(Kept(pieces, max, clusters, width)) + if Elided(pieces, max, width) then ELLIPSIS else []
    ensures HasSgr(tokens) ==> tokens[|tokens| - 1] == RESET
  {
    hide PiecesOk;
    hide TokenOk;
    hide EncodeTokens;
    hide TextOf;
    hide Kept;
    hide Elided;
    hide Ending;
    hide ClustersAreText;
    hide Metrics;
    KeptIsOk(pieces, max, clusters, width);
    var kept := Kept(pieces, max, clusters, width);
    var front := PiecesSay(kept);
    var elided, coloured := Elided(pieces, max, width), HasColour(kept);
    var ending := Ending(elided, coloured);
    EndingEncodes(elided, coloured);
    tokens := front + ending;
    EncodeTokensConcat(front, ending);
    TextOfConcat(front, ending);
    EncodeTokensConcat(TextOf(front), TextOf(ending));
    HasSgrConcat(front, ending);
    if coloured {
      ResetIsLast(elided);
    }
    assert RenderPieces(kept) + ((if elided then ELLIPSIS else []) + (if coloured then RESET_BYTES else []))
        == RenderPieces(kept) + (if elided then ELLIPSIS else []) + (if coloured then RESET_BYTES else []);
  }

  lemma ResetIsLast(elided: bool)
    ensures var e := Ending(elided, true); e != [] && e[|e| - 1] == RESET
  {
  }

  /** Safe tokens show exactly their text. */
  lemma TokensShowTheirText(tokens: seq<Token>)
    requires TokensOk(tokens)
    ensures VisibleOf(LinePieces(EncodeTokens(tokens))) == EncodeTokens(TextOf(tokens))
  {
    hide EncodeTokens;
    hide TextOf;
    hide TokenOk;
    var line := EncodeTokens(tokens);
    assert line[0..] == line && line[0..0] == [];
    VisibleTextOfTokens(line, tokens, 0, 0);
  }

  /**
   For every input: truncating the sanitized coloured line gives safe text and bounded
   SGR, closed by a reset, that shows as many whole clusters of the plain line as fit,
   plus the ellipsis exactly when something was cut and there is room for it; a line
   that fits is shown whole.
   */
  lemma TruncatedLineShowsAFront(bytes: Bytes, max: nat, clusters: Bytes -> seq<Bytes>, width: Bytes -> nat)
    returns (tokens: seq<Token>, kept: Bytes)
    requires ClustersAreText(clusters) && Metrics(clusters, width)
    ensures var line := EncodeText(Render(LineTokens(bytes, true)));
      var plain := EncodeText(Render(LineTokens(bytes, false)));
      var pieces := LinePieces(line);
      var out := Truncated(pieces, max, clusters, width);
      && ShowsFront(out, tokens, kept, plain, max >= 2 && VisibleWidth(pieces, width) > max)
      && (0 < max && VisibleWidth(pieces, width) <= max ==> kept == plain)
      && (VisibleWidth(pieces, width) > max > 0 ==>
            var target := if max >= 2 then max - 1 else max;
            var cells := CutWidth(pieces, 0, target, clusters, width);
            && cells <= target
            && Maximal(kept, cells, AllClusters(pieces, clusters), 0, target, width))
  {
    hide LineTokens;
    hide Render;
    hide EncodeText;
    hide EncodeTokens;
    hide LinePieces;
    hide TokenOk;
    hide Metrics;
    hide ClustersAreText;
    hide Maximal;
    hide Truncated;
    hide Kept;
    hide VisibleOf;
    hide VisibleWidth;
    hide AllClusters;
    hide CutWidth;
    var line := EncodeText(Render(LineTokens(bytes, true)));
    var pieces := LinePieces(line);
    SanitizedPiecesAreOk(bytes);
    tokens := TruncatedPiecesSay(pieces, max, clusters, width);
    kept := VisibleOf(Kept(pieces, max, clusters, width));
    TokensShowTheirText(tokens);
    SanitizedLineShowsPlainLine(bytes);
    TruncationFitsTheWidth(pieces, max, clusters, width);
  }

  lemma SanitizedPiecesAreOk(bytes: Bytes)
    ensures PiecesOk(LinePieces(EncodeText(Render(LineTokens(bytes, true)))))
  {
    hide LineTokens;
    hide PieceOk;
    hide TokenOk;
    var on := LineTokens(bytes, true);
    StatusLineIsSafe(bytes, true);
    RenderedTokensEncode(on);
    var line := EncodeTokens(on);
    assert line[0..] == line && line[0..0] == [];
    EncodeNothing(line[0..0]);
    TokenPiecesAreOk(line, on, 0, 0, []);
  }
}
