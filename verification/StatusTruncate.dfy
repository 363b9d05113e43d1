/**
 Truncating a status line to a display width. Grapheme segmentation and display
 width are parameters; all that is assumed of them is that the clusters of a text
 concatenate to it and that its width is the sum of theirs.
 */
module StatusTruncate {
  import opened Common
  import opened Utf8
  import opened StatusLine
  import opened StatusSplit

  type Bytes = seq<Byte>

  /** A colour sequence, kept whole, or visible text. */
  datatype Piece = Colour(bytes: Bytes) | Visible(bytes: Bytes)

  const RESET_BYTES: Bytes := [0x1B, 0x5B, 0x30, 0x6D]
  const ELLIPSIS: Bytes := [0xE2, 0x80, 0xA6]

  function Flatten(parts: seq<Bytes>): Bytes {
    if parts == [] then [] else parts[0] + Flatten(parts[1..])
  }

  function SumWidth(parts: seq<Bytes>, width: Bytes -> nat): nat {
    if parts == [] then 0 else width(parts[0]) + SumWidth(parts[1..], width)
  }

  predicate MetricsAt(clusters: Bytes -> seq<Bytes>, width: Bytes -> nat, t: Bytes) {
    Flatten(clusters(t)) == t && width(t) == SumWidth(clusters(t), width)
  }

  ghost predicate Metrics(clusters: Bytes -> seq<Bytes>, width: Bytes -> nat) {
    forall t :: MetricsAt(clusters, width, t)
  }

  function RenderPieces(pieces: seq<Piece>): Bytes {
    if pieces == [] then [] else pieces[0].bytes + RenderPieces(pieces[1..])
  }

  function VisibleOf(pieces: seq<Piece>): Bytes {
    if pieces == [] then []
    else (if pieces[0].Visible? then pieces[0].bytes else []) + VisibleOf(pieces[1..])
  }

  function VisibleWidth(pieces: seq<Piece>, width: Bytes -> nat): nat {
    if pieces == [] then 0
    else (if pieces[0].Visible? then width(pieces[0].bytes) else 0) + VisibleWidth(pieces[1..], width)
  }

  predicate HasColour(pieces: seq<Piece>) {
    exists i :: 0 <= i < |pieces| && pieces[i].Colour?
  }

  /** How many leading clusters fit when `used` of `target` cells are taken. */
  function Fitting(parts: seq<Bytes>, used: nat, target: nat, width: Bytes -> nat): (k: nat)
    ensures k <= |parts|
  {
    if parts == [] || used + width(parts[0]) > target then 0
    else 1 + Fitting(parts[1..], used + width(parts[0]), target, width)
  }

  /** The pieces kept when the line is too wide. */
  function Cut(pieces: seq<Piece>, used: nat, target: nat, clusters: Bytes -> seq<Bytes>, width: Bytes -> nat)
    : seq<Piece>
    decreases |pieces|
  {
    if pieces == [] then []
    else
      match pieces[0]
      case Colour(b) =>
        if used < target then [pieces[0]] + Cut(pieces[1..], used, target, clusters, width) else []
      case Visible(b) =>
        var cs := clusters(b);
        var k := Fitting(cs, used, target, width);
        [Visible(Flatten(cs[..k]))]
        + if k < |cs| then [] else Cut(pieces[1..], used + SumWidth(cs, width), target, clusters, width)
  }

  function EllipsisMargin(max: nat): nat {
    if max >= 2 then 1 else 0
  }

  /** The pieces of the result, without ellipsis and reset. */
  function Kept(pieces: seq<Piece>, max: nat, clusters: Bytes -> seq<Bytes>, width: Bytes -> nat): seq<Piece> {
    if max == 0 then []
    else if VisibleWidth(pieces, width) <= max then pieces
    else Cut(pieces, 0, max - EllipsisMargin(max), clusters, width)
  }

  predicate Elided(pieces: seq<Piece>, max: nat, width: Bytes -> nat) {
    max >= 2 && VisibleWidth(pieces, width) > max
  }

  function Truncated(pieces: seq<Piece>, max: nat, clusters: Bytes -> seq<Bytes>, width: Bytes -> nat): Bytes {
    var kept := Kept(pieces, max, clusters, width);
    RenderPieces(kept)
    + (if Elided(pieces, max, width) then ELLIPSIS else [])
    + (if HasColour(kept) then RESET_BYTES else [])
  }

  function PieceOf(line: Bytes, segment: Segment): Piece
    requires segment.lo <= segment.hi <= |line|
  {
    var bytes := line[segment.lo..segment.hi];
    if segment.SgrSegment? then Colour(bytes) else Visible(bytes)
  }

  function PiecesOf(line: Bytes, segments: seq<Segment>): seq<Piece>
    requires InRange(line, segments)
  {
    if segments == [] then []
    else [PieceOf(line, segments[0])] + PiecesOf(line, segments[1..])
  }

  // ---- Properties ----

  lemma {:induction false} FittingFits(parts: seq<Bytes>, used: nat, target: nat, width: Bytes -> nat)
    requires used <= target
    ensures var k := Fitting(parts, used, target, width);
      && used + SumWidth(parts[..k], width) <= target
      && (k < |parts| ==> used + SumWidth(parts[..k], width) + width(parts[k]) > target)
    decreases |parts|
  {
    if parts != [] && used + width(parts[0]) <= target {
      FittingFits(parts[1..], used + width(parts[0]), target, width);
      var k := Fitting(parts, used, target, width);
      assert parts[..k][1..] == parts[1..][..k - 1];
    }
  }

  lemma {:induction false} FlattenSplit(parts: seq<Bytes>, k: nat)
    requires k <= |parts|
    ensures Flatten(parts) == Flatten(parts[..k]) + Flatten(parts[k..])
    decreases |parts|
  {
    if k > 0 {
      FlattenSplit(parts[1..], k - 1);
      assert parts[..k][1..] == parts[1..][..k - 1] && parts[k..] == parts[1..][k - 1..];
    } else {
      assert parts[..0] == [] && parts[0..] == parts;
    }
  }

  /** The cells that the kept pieces take, counted cluster by cluster. */
  function CutWidth(pieces: seq<Piece>, used: nat, target: nat, clusters: Bytes -> seq<Bytes>, width: Bytes -> nat): nat
    decreases |pieces|
  {
    if pieces == [] then 0
    else
      match pieces[0]
      case Colour(b) => if used < target then CutWidth(pieces[1..], used, target, clusters, width) else 0
      case Visible(b) =>
        var cs := clusters(b);
        var k := Fitting(cs, used, target, width);
        SumWidth(cs[..k], width)
        + if k < |cs| then 0 else CutWidth(pieces[1..], used + SumWidth(cs, width), target, clusters, width)
  }

  /** The visible part of one text that fits. */
  lemma FittingIsAPrefix(b: Bytes, used: nat, target: nat, clusters: Bytes -> seq<Bytes>, width: Bytes -> nat)
    requires MetricsAt(clusters, width, b) && used <= target
    ensures var cs := clusters(b);
      var k := Fitting(cs, used, target, width);
      && Flatten(cs[..k]) <= b
      && used + SumWidth(cs[..k], width) <= target
      && (k == |cs| ==> Flatten(cs[..k]) == b && SumWidth(cs[..k], width) == SumWidth(cs, width))
  {
    var cs := clusters(b);
    var k := Fitting(cs, used, target, width);
    FittingFits(cs, used, target, width);
    FlattenSplit(cs, k);
    if k == |cs| {
      assert cs[..k] == cs;
    }
  }

  lemma {:induction false} CutIsANarrowPrefix(
    pieces: seq<Piece>, used: nat, target: nat, clusters: Bytes -> seq<Bytes>, width: Bytes -> nat)
    requires Metrics(clusters, width) && used <= target
    ensures VisibleOf(Cut(pieces, used, target, clusters, width)) <= VisibleOf(pieces)
    ensures used + CutWidth(pieces, used, target, clusters, width) <= target
    decreases |pieces|
  {
    hide MetricsAt;
    hide Flatten;
    hide SumWidth;
    hide Fitting;
    if pieces != [] {
      var rest := pieces[1..];
      match pieces[0]
      case Colour(b) =>
        if used < target {
          CutIsANarrowPrefix(rest, used, target, clusters, width);
          VisibleCons(pieces[0], Cut(rest, used, target, clusters, width));
        }
      case Visible(b) =>
        var cs := clusters(b);
        var k := Fitting(cs, used, target, width);
        assert MetricsAt(clusters, width, b);
        FittingIsAPrefix(b, used, target, clusters, width);
        var kept := Visible(Flatten(cs[..k]));
        if k == |cs| {
          var used' := used + SumWidth(cs, width);
          CutIsANarrowPrefix(rest, used', target, clusters, width);
          VisibleCons(kept, Cut(rest, used', target, clusters, width));
        } else {
          VisibleCons(kept, []);
          assert [kept] + [] == [kept];
        }
    }
  }

  lemma VisibleCons(piece: Piece, rest: seq<Piece>)
    ensures VisibleOf([piece] + rest) == (if piece.Visible? then piece.bytes else []) + VisibleOf(rest)
  {
    assert ([piece] + rest)[1..] == rest;
  }

  /** All clusters of the visible texts, in order. */
  function AllClusters(pieces: seq<Piece>, clusters: Bytes -> seq<Bytes>): seq<Bytes> {
    if pieces == [] then []
    else (if pieces[0].Visible? then clusters(pieces[0].bytes) else []) + AllClusters(pieces[1..], clusters)
  }

  /** `kept` is the first `k` clusters, takes `cells` cells, and the next cluster does not fit or no cell is left. */
  predicate StopsAt(kept: Bytes, cells: nat, all: seq<Bytes>, k: nat, used: nat, target: nat, width: Bytes -> nat) {
    && k <= |all|
    && kept == Flatten(all[..k])
    && cells == SumWidth(all[..k], width)
    && (k == |all| || used + cells >= target || used + cells + width(all[k]) > target)
  }

  /** Nothing that would have fitted is left out. */
  ghost predicate Maximal(kept: Bytes, cells: nat, all: seq<Bytes>, used: nat, target: nat, width: Bytes -> nat) {
    exists k :: StopsAt(kept, cells, all, k, used, target, width)
  }

  lemma FittingStops(cs: seq<Bytes>, rest: seq<Bytes>, used: nat, target: nat, width: Bytes -> nat)
    requires used <= target && Fitting(cs, used, target, width) < |cs|
    ensures var k := Fitting(cs, used, target, width);
      StopsAt(Flatten(cs[..k]), SumWidth(cs[..k], width), cs + rest, k, used, target, width)
  {
    var k := Fitting(cs, used, target, width);
    FittingFits(cs, used, target, width);
    assert (cs + rest)[..k] == cs[..k] && (cs + rest)[k] == cs[k];
  }

  lemma {:induction false} SumWidthSplit(parts: seq<Bytes>, k: nat, width: Bytes -> nat)
    requires k <= |parts|
    ensures SumWidth(parts, width) == SumWidth(parts[..k], width) + SumWidth(parts[k..], width)
    decreases |parts|
  {
    if k > 0 {
      SumWidthSplit(parts[1..], k - 1, width);
      assert parts[..k][1..] == parts[1..][..k - 1] && parts[k..] == parts[1..][k - 1..];
    } else {
      assert parts[..0] == [] && parts[0..] == parts;
    }
  }

  lemma MetricsConcat(a: seq<Bytes>, b: seq<Bytes>, width: Bytes -> nat)
    ensures Flatten(a + b) == Flatten(a) + Flatten(b)
    ensures SumWidth(a + b, width) == SumWidth(a, width) + SumWidth(b, width)
  {
    hide Flatten;
    hide SumWidth;
    FlattenSplit(a + b, |a|);
    SumWidthSplit(a + b, |a|, width);
    assert (a + b)[..|a|] == a && (a + b)[|a|..] == b;
  }

  lemma FrontOfConcat(a: seq<Bytes>, b: seq<Bytes>, k: nat)
    requires k <= |b|
    ensures (a + b)[..|a| + k] == a + b[..k]
    ensures k < |b| ==> (a + b)[|a| + k] == b[k]
  {
  }

  /** A stopping point seen from an earlier start. */
  lemma StopsFromBefore(all: seq<Bytes>, n: nat, head: Bytes, wide: nat, kept: Bytes, cells: nat, rest: seq<Bytes>, k: nat,
                        used: nat, target: nat, width: Bytes -> nat)
    requires StopsAt(kept, cells, rest, k, used + wide, target, width)
    requires |all| == n + |rest| && (k < |rest| ==> all[n + k] == rest[k])
    requires Flatten(all[..n + k]) == head + Flatten(rest[..k])
    requires SumWidth(all[..n + k], width) == wide + SumWidth(rest[..k], width)
    ensures StopsAt(head + kept, wide + cells, all, n + k, used, target, width)
  {
    hide Flatten;
    hide SumWidth;
  }

  /** Whole clusters in front move the stopping point. */
  lemma StopsLater(cs: seq<Bytes>, kept: Bytes, cells: nat, rest: seq<Bytes>, k: nat, used: nat, target: nat, width: Bytes -> nat)
    requires k <= |rest| && StopsAt(kept, cells, rest, k, used + SumWidth(cs, width), target, width)
    ensures StopsAt(Flatten(cs) + kept, SumWidth(cs, width) + cells, cs + rest, |cs| + k, used, target, width)
  {
    hide Flatten;
    hide SumWidth;
    hide StopsAt;
    FrontOfConcat(cs, rest, k);
    MetricsConcat(cs, rest[..k], width);
    StopsFromBefore(cs + rest, |cs|, Flatten(cs), SumWidth(cs, width), kept, cells, rest, k, used, target, width);
  }

  /** What the cut makes of a line that starts with a text. */
  lemma CutOfText(pieces: seq<Piece>, used: nat, target: nat, clusters: Bytes -> seq<Bytes>, width: Bytes -> nat)
    requires pieces != [] && pieces[0].Visible?
    ensures var cs, rest := clusters(pieces[0].bytes), pieces[1..];
      var k := Fitting(cs, used, target, width);
      var used' := used + SumWidth(cs, width);
      && AllClusters(pieces, clusters) == cs + AllClusters(rest, clusters)
      && (k < |cs| ==>
            && VisibleOf(Cut(pieces, used, target, clusters, width)) == Flatten(cs[..k])
            && CutWidth(pieces, used, target, clusters, width) == SumWidth(cs[..k], width))
      && (k == |cs| ==>
            && VisibleOf(Cut(pieces, used, target, clusters, width))
               == Flatten(cs) + VisibleOf(Cut(rest, used', target, clusters, width))
            && CutWidth(pieces, used, target, clusters, width)
               == SumWidth(cs, width) + CutWidth(rest, used', target, clusters, width))
  {
    hide Flatten;
    hide SumWidth;
    hide Fitting;
    var cs, rest := clusters(pieces[0].bytes), pieces[1..];
    var k := Fitting(cs, used, target, width);
    assert cs[..|cs|] == cs;
    var kept := Visible(Flatten(cs[..k]));
    VisibleCons(kept, []);
    VisibleCons(kept, Cut(rest, used + SumWidth(cs, width), target, clusters, width));
    assert [kept] + [] == [kept];
  }

  lemma CutOfColour(pieces: seq<Piece>, used: nat, target: nat, clusters: Bytes -> seq<Bytes>, width: Bytes -> nat)
    requires pieces != [] && pieces[0].Colour? && used < target
    ensures VisibleOf(Cut(pieces, used, target, clusters, width)) == VisibleOf(Cut(pieces[1..], used, target, clusters, width))
    ensures CutWidth(pieces, used, target, clusters, width) == CutWidth(pieces[1..], used, target, clusters, width)
    ensures AllClusters(pieces, clusters) == AllClusters(pieces[1..], clusters)
  {
    VisibleCons(pieces[0], Cut(pieces[1..], used, target, clusters, width));
  }

  lemma NothingCut(pieces: seq<Piece>, used: nat, target: nat, clusters: Bytes -> seq<Bytes>, width: Bytes -> nat)
    requires pieces == [] || (pieces[0].Colour? && used >= target)
    ensures StopsAt(VisibleOf(Cut(pieces, used, target, clusters, width)), CutWidth(pieces, used, target, clusters, width),
                    AllClusters(pieces, clusters), 0, used, target, width)
  {
    assert AllClusters(pieces, clusters)[..0] == [];
  }

  /** The cut goes as far as it can, cluster by cluster. */
  lemma {:induction false} CutIsMaximal(
    pieces: seq<Piece>, used: nat, target: nat, clusters: Bytes -> seq<Bytes>, width: Bytes -> nat)
    returns (k: nat)
    requires Metrics(clusters, width) && used <= target
    ensures k <= |AllClusters(pieces, clusters)|
    ensures StopsAt(VisibleOf(Cut(pieces, used, target, clusters, width)), CutWidth(pieces, used, target, clusters, width),
                    AllClusters(pieces, clusters), k, used, target, width)
    decreases |pieces|
  {
    hide Metrics;
    hide MetricsAt;
    hide Flatten;
    hide SumWidth;
    hide Fitting;
    hide StopsAt;
    hide VisibleOf;
    hide Cut;
    hide CutWidth;
    hide AllClusters;
    if pieces == [] || (pieces[0].Colour? && used >= target) {
      k := 0;
      NothingCut(pieces, used, target, clusters, width);
      return;
    }
    var rest := pieces[1..];
    if pieces[0].Colour? {
      k := CutIsMaximal(rest, used, target, clusters, width);
      CutOfColour(pieces, used, target, clusters, width);
      return;
    }
    var cs := clusters(pieces[0].bytes);
    var all := AllClusters(rest, clusters);
    k := Fitting(cs, used, target, width);
    CutOfText(pieces, used, target, clusters, width);
    if k < |cs| {
      FittingStops(cs, all, used, target, width);
    } else {
      var used' := used + SumWidth(cs, width);
      AllFit(cs, used, target, width);
      var k2 := CutIsMaximal(rest, used', target, clusters, width);
      StopsLater(cs, VisibleOf(Cut(rest, used', target, clusters, width)), CutWidth(rest, used', target, clusters, width),
                 all, k2, used, target, width);
      k := |cs| + k2;
    }
  }

  lemma AllFit(cs: seq<Bytes>, used: nat, target: nat, width: Bytes -> nat)
    requires used <= target && Fitting(cs, used, target, width) == |cs|
    ensures used + SumWidth(cs, width) <= target
  {
    FittingFits(cs, used, target, width);
    assert cs[..|cs|] == cs;
  }

  /**
   Truncation keeps a prefix of the visible text, as many whole clusters as fit,
   followed by an ellipsis exactly when something visible was cut and there is room
   for it, and stays within the width.
   */
  lemma TruncationFitsTheWidth(pieces: seq<Piece>, max: nat, clusters: Bytes -> seq<Bytes>, width: Bytes -> nat)
    requires Metrics(clusters, width)
    ensures var kept := Kept(pieces, max, clusters, width);
      && VisibleOf(kept) <= VisibleOf(pieces)
      && (0 < max && VisibleWidth(pieces, width) <= max ==> kept == pieces && !Elided(pieces, max, width))
      && (VisibleWidth(pieces, width) > max > 0 ==>
            var target := if max >= 2 then max - 1 else max;
            var cells := CutWidth(pieces, 0, target, clusters, width);
            && cells <= target && (Elided(pieces, max, width) <==> max >= 2)
            && Maximal(VisibleOf(kept), cells, AllClusters(pieces, clusters), 0, target, width))
  {
    hide MetricsAt;
    hide Cut;
    hide CutWidth;
    hide StopsAt;
    if max > 0 {
      CutIsANarrowPrefix(pieces, 0, max - EllipsisMargin(max), clusters, width);
      var k := CutIsMaximal(pieces, 0, max - EllipsisMargin(max), clusters, width);
    }
  }

  // ---- The program ----

  /** The clusters of one text that still fit, appended one by one. */
  method AppendClusters(buf0: Bytes, used0: nat, target: nat, parts: seq<Bytes>, width: Bytes -> nat)
    returns (buf: Bytes, used: nat, truncated: bool)
    requires used0 <= target
    ensures var k := Fitting(parts, used0, target, width);
      && buf == buf0 + Flatten(parts[..k])
      && used == used0 + SumWidth(parts[..k], width)
      && used <= target
      && truncated == (k < |parts|)
  {
    buf, used, truncated := buf0, used0, false;
    var i := 0;
    while i < |parts|
      invariant i <= |parts| && used <= target
      invariant buf == buf0 + Flatten(parts[..i])
      invariant used == used0 + SumWidth(parts[..i], width)
      invariant Fitting(parts, used0, target, width) == i + Fitting(parts[i..], used, target, width)
    {
      if used + width(parts[i]) > target {
        truncated := true;
        return;
      }
      assert parts[..i + 1] == parts[..i] + [parts[i]] && parts[i..][1..] == parts[i + 1..];
      FlattenSplit(parts[..i + 1], i);
      SumWidthSnoc(parts[..i], parts[i], width);
      assert parts[..i + 1][i..] == [parts[i]] && parts[..i + 1][..i] == parts[..i];
      FlattenOne(parts[i]);
      buf := buf + parts[i];
      used := used + width(parts[i]);
      i := i + 1;
    }
    assert parts[..i] == parts;
  }

  lemma FlattenOne(part: Bytes)
    ensures Flatten([part]) == part
  {
    var rest: seq<Bytes> := [part][1..];
    assert rest == [];
  }

  lemma {:induction false} SumWidthSnoc(parts: seq<Bytes>, last: Bytes, width: Bytes -> nat)
    ensures SumWidth(parts + [last], width) == SumWidth(parts, width) + width(last)
    decreases |parts|
  {
    if parts == [] {
      assert parts + [last] == [last];
      var rest: seq<Bytes> := [last][1..];
      assert rest == [];
    } else {
      assert (parts + [last])[1..] == parts[1..] + [last];
      SumWidthSnoc(parts[1..], last, width);
    }
  }

  lemma {:induction false} PiecesRenderConcat(a: seq<Piece>, b: seq<Piece>)
    ensures RenderPieces(a + b) == RenderPieces(a) + RenderPieces(b)
    decreases |a|
  {
    if a == [] {
      assert a + b == b;
    } else {
      assert (a + b)[1..] == a[1..] + b;
      PiecesRenderConcat(a[1..], b);
    }
  }

  /** One round of the cutting loop: what is kept of a piece, and whether the cut is over. */
  lemma CutStep(pieces: seq<Piece>, i: nat, used: nat, target: nat, clusters: Bytes -> seq<Bytes>,
                width: Bytes -> nat, done: seq<Piece>)
    requires i < |pieces|
    ensures pieces[i].Colour? ==>
      done + Cut(pieces[i..], used, target, clusters, width)
      == if used < target then (done + [pieces[i]]) + Cut(pieces[i + 1..], used, target, clusters, width) else done
    ensures pieces[i].Visible? ==>
      var cs := clusters(pieces[i].bytes);
      var k := Fitting(cs, used, target, width);
      done + Cut(pieces[i..], used, target, clusters, width)
      == (done + [Visible(Flatten(cs[..k]))])
         + if k < |cs| then [] else Cut(pieces[i + 1..], used + SumWidth(cs, width), target, clusters, width)
  {
    hide Flatten;
    hide SumWidth;
    hide Fitting;
    assert pieces[i..][0] == pieces[i] && pieces[i..][1..] == pieces[i + 1..];
  }

  /** The cutting loop of `truncate_status_line_ansi`. */
  method CutLoop(pieces: seq<Piece>, target: nat, clusters: Bytes -> seq<Bytes>, width: Bytes -> nat)
    returns (buf: Bytes, emittedSgr: bool)
    ensures var cut := Cut(pieces, 0, target, clusters, width);
      buf == RenderPieces(cut) && emittedSgr == HasColour(cut)
  {
    hide Cut;
    hide Flatten;
    hide SumWidth;
    hide Fitting;
    hide RenderPieces;
    buf, emittedSgr := [], false;
    var used: nat, i: nat, truncated := 0, 0, false;
    ghost var done: seq<Piece> := [];
    ghost var all := Cut(pieces, 0, target, clusters, width);
    assert pieces[0..] == pieces && [] + all == all;
    RenderNothing();
    while i < |pieces| && !truncated
      invariant i <= |pieces| && used <= target
      invariant buf == RenderPieces(done) && emittedSgr == HasColour(done)
      invariant if truncated then all == done else all == done + Cut(pieces[i..], used, target, clusters, width)
      decreases |pieces| - i, !truncated
    {
      var piece := pieces[i];
      CutStep(pieces, i, used, target, clusters, width, done);
      match piece {
        case Colour(bytes) =>
          if used < target {
            KeepPiece(done, piece);
            done := done + [piece];
            buf := buf + bytes;
            emittedSgr := true;
          } else {
            truncated := true;
          }
        case Visible(bytes) =>
          var cs := clusters(bytes);
          ghost var kept := Visible(Flatten(cs[..Fitting(cs, used, target, width)]));
          KeepPiece(done, kept);
          done := done + [kept];
          buf, used, truncated := AppendClusters(buf, used, target, cs, width);
          assert !truncated ==> cs[..|cs|] == cs;
          assert done + [] == done;
      }
      i := i + 1;
    }
    if !truncated {
      CutNothing(pieces[i..], used, target, clusters, width);
    }
    assert all == done;
  }

  lemma CutNothing(pieces: seq<Piece>, used: nat, target: nat, clusters: Bytes -> seq<Bytes>, width: Bytes -> nat)
    requires pieces == []
    ensures Cut(pieces, used, target, clusters, width) == []
  {
  }

  lemma RenderNothing()
    ensures RenderPieces([]) == []
  {
  }

  lemma KeepPiece(done: seq<Piece>, piece: Piece)
    ensures RenderPieces(done + [piece]) == RenderPieces(done) + piece.bytes
    ensures HasColour(done + [piece]) <==> HasColour(done) || piece.Colour?
  {
    PiecesRenderConcat(done, [piece]);
    assert [piece][1..] == [];
    assert (done + [piece])[|done|] == piece;
    if HasColour(done) {
      var i :| 0 <= i < |done| && done[i].Colour?;
      assert (done + [piece])[i].Colour?;
    }
  }

  /** The first pass: total width and reassembly. */
  method Reassemble(pieces: seq<Piece>, width: Bytes -> nat) returns (total: nat, buf: Bytes, emittedSgr: bool)
    ensures total == VisibleWidth(pieces, width)
    ensures buf == RenderPieces(pieces) && emittedSgr == HasColour(pieces)
  {
    total, buf, emittedSgr := 0, [], false;
    var i := 0;
    assert pieces[0..] == pieces;
    while i < |pieces|
      invariant i <= |pieces|
      invariant total + VisibleWidth(pieces[i..], width) == VisibleWidth(pieces, width)
      invariant buf + RenderPieces(pieces[i..]) == RenderPieces(pieces)
      invariant (emittedSgr || HasColour(pieces[i..])) == HasColour(pieces)
    {
      assert pieces[i..][1..] == pieces[i + 1..];
      HasColourCons(pieces[i], pieces[i + 1..]);
      assert pieces[i..] == [pieces[i]] + pieces[i + 1..];
      total := total + if pieces[i].Visible? then width(pieces[i].bytes) else 0;
      buf := buf + pieces[i].bytes;
      emittedSgr := emittedSgr || pieces[i].Colour?;
      i := i + 1;
    }
  }

  lemma HasColourCons(piece: Piece, rest: seq<Piece>)
    ensures HasColour([piece] + rest) <==> piece.Colour? || HasColour(rest)
  {
    var all := [piece] + rest;
    assert all[0] == piece;
    if HasColour(rest) {
      var i :| 0 <= i < |rest| && rest[i].Colour?;
      assert all[i + 1].Colour?;
    }
  }

  /** The pieces of a line: its colour sequences and the text between them. */
  function LinePieces(line: Bytes): seq<Piece> {
    SplitInRange(line, 0, 0);
    PiecesOf(line, SplitFrom(line, 0, 0))
  }

  method CutSegments(line: Bytes, segments: seq<Segment>) returns (pieces: seq<Piece>)
    requires InRange(line, segments)
    ensures pieces == PiecesOf(line, segments)
  {
    pieces := [];
    var i := 0;
    assert segments[0..] == segments;
    while i < |segments|
      invariant i <= |segments|
      invariant pieces + PiecesOf(line, segments[i..]) == PiecesOf(line, segments)
    {
      assert segments[i..][0] == segments[i] && segments[i..][1..] == segments[i + 1..];
      pieces := pieces + [PieceOf(line, segments[i])];
      i := i + 1;
    }
  }

  /** `truncate_status_line_ansi`. */
  method TruncateStatusLine(line: Bytes, max: nat, clusters: Bytes -> seq<Bytes>, width: Bytes -> nat)
    returns (out: Bytes)
    ensures out == Truncated(LinePieces(line), max, clusters, width)
  {
    if max == 0 {
      return [];
    }
    var segments := SplitSgrAndText(line);
    SplitInRange(line, 0, 0);
    var pieces := CutSegments(line, segments);
    var total, buf, emittedSgr := Reassemble(pieces, width);
    if total > max {
      buf, emittedSgr := CutLoop(pieces, max - EllipsisMargin(max), clusters, width);
      if EllipsisMargin(max) > 0 {
        buf := buf + ELLIPSIS;
      }
    }
    out := buf;
    if emittedSgr {
      out := out + RESET_BYTES;
    }
  }

  // ---- From sanitizer to screen ----

  lemma RangesConcat(line: Bytes, a: seq<Segment>, b: seq<Segment>)
    requires InRange(line, a) && InRange(line, b)
    ensures InRange(line, a + b)
  {
  }

  lemma {:induction false} PiecesConcat(line: Bytes, a: seq<Segment>, b: seq<Segment>)
    requires InRange(line, a) && InRange(line, b) && InRange(line, a + b)
    ensures PiecesOf(line, a + b) == PiecesOf(line, a) + PiecesOf(line, b)
    decreases |a|
  {
    hide PieceOf;
    if a == [] {
      assert a + b == b;
    } else {
      assert (a + b)[1..] == a[1..] + b;
      PiecesConcat(line, a[1..], b);
    }
  }

  lemma {:induction false} VisibleConcat(a: seq<Piece>, b: seq<Piece>)
    ensures VisibleOf(a + b) == VisibleOf(a) + VisibleOf(b)
    decreases |a|
  {
    if a == [] {
      assert a + b == b;
    } else {
      assert (a + b)[1..] == a[1..] + b;
      VisibleConcat(a[1..], b);
    }
  }

  lemma TextBeforeIsVisible(line: Bytes, start: nat, i: nat)
    requires start <= i <= |line|
    ensures VisibleOf(PiecesOf(line, TextBefore(start, i))) == line[start..i]
  {
    if start < i {
      assert TextBefore(start, i)[1..] == [];
    }
  }

  lemma SgrIsInvisible(line: Bytes, p: nat, q: nat)
    requires p <= q <= |line|
    ensures VisibleOf(PiecesOf(line, [SgrSegment(p, q)])) == []
  {
    assert [SgrSegment(p, q)][1..] == [];
  }

  function VisibleFrom(line: Bytes, start: nat, p: nat): Bytes
    requires start <= p <= |line|
  {
    SplitInRange(line, start, p);
    VisibleOf(PiecesOf(line, SplitFrom(line, start, p)))
  }

  lemma VisibleAtEnd(line: Bytes, start: nat)
    requires start <= |line|
    ensures VisibleFrom(line, start, |line|) == line[start..]
  {
    SplitEnd(line, start);
    TextBeforeIsVisible(line, start, |line|);
  }

  /** The pieces of a line up to and after a colour sequence at `p`. */
  lemma LinePiecesAcrossSgr(line: Bytes, params: seq<Byte>, start: nat, p: nat)
    requires start <= p && p + 3 + |params| <= |line| && TokenOk(Sgr(params))
    requires line[p..p + 3 + |params|] == EncodeToken(Sgr(params))
    ensures var q := p + 3 + |params|;
      && InRange(line, SplitFrom(line, start, p)) && InRange(line, SplitFrom(line, q, q))
      && InRange(line, TextBefore(start, p)) && InRange(line, [SgrSegment(p, q)])
      && PiecesOf(line, SplitFrom(line, start, p))
         == PiecesOf(line, TextBefore(start, p)) + PiecesOf(line, [SgrSegment(p, q)]) + PiecesOf(line, SplitFrom(line, q, q))
  {
    hide SplitFrom;
    hide PiecesOf;
    hide EncodeToken;
    hide TokenOk;
    var q := p + 3 + |params|;
    SgrTokenIsCovered(line, params, start, p);
    SplitInRange(line, start, p);
    SplitInRange(line, q, q);
    var head, sgr, tail := TextBefore(start, p), [SgrSegment(p, q)], SplitFrom(line, q, q);
    RangesConcat(line, head, sgr);
    RangesConcat(line, head + sgr, tail);
    PiecesConcat(line, head, sgr);
    PiecesConcat(line, head + sgr, tail);
  }

  lemma VisibleAcrossSgr(line: Bytes, params: seq<Byte>, start: nat, p: nat)
    requires start <= p && p + 3 + |params| <= |line| && TokenOk(Sgr(params))
    requires line[p..p + 3 + |params|] == EncodeToken(Sgr(params))
    ensures var q := p + 3 + |params|; VisibleFrom(line, start, p) == line[start..p] + VisibleFrom(line, q, q)
  {
    hide SplitFrom;
    hide PiecesOf;
    hide EncodeToken;
    hide TokenOk;
    var q := p + 3 + |params|;
    SgrTokenIsCovered(line, params, start, p);
    SplitInRange(line, q, q);
    var head, sgr, tail := TextBefore(start, p), [SgrSegment(p, q)], SplitFrom(line, q, q);
    LinePiecesAcrossSgr(line, params, start, p);
    VisibleConcat(PiecesOf(line, head), PiecesOf(line, sgr));
    VisibleConcat(PiecesOf(line, head) + PiecesOf(line, sgr), PiecesOf(line, tail));
    TextBeforeIsVisible(line, start, p);
    SgrIsInvisible(line, p, q);
  }

  lemma VisibleAcrossText(line: Bytes, c: Scalar, start: nat, p: nat)
    requires start <= p && p + |EncodeChar(c)| <= |line| && TokenOk(Text(c))
    requires line[p..p + |EncodeChar(c)|] == EncodeChar(c)
    ensures VisibleFrom(line, start, p) == VisibleFrom(line, start, p + |EncodeChar(c)|)
  {
    hide SplitFrom;
    TextTokenIsSkipped(line, c, start, p);
  }

  lemma EncodeTokensCons(t: Token, rest: seq<Token>)
    ensures EncodeTokens([t] + rest) == EncodeToken(t) + EncodeTokens(rest)
  {
    assert ([t] + rest)[1..] == rest;
  }

  lemma NoTokens()
    ensures EncodeTokens([]) == [] && TextOf([]) == []
  {
  }

  lemma EncodedTextOf(tokens: seq<Token>)
    requires tokens != []
    ensures EncodeTokens(TextOf(tokens))
         == (if tokens[0].Text? then EncodeToken(tokens[0]) else []) + EncodeTokens(TextOf(tokens[1..]))
  {
    hide EncodeTokens;
    var rest := TextOf(tokens[1..]);
    if tokens[0].Text? {
      EncodeTokensCons(tokens[0], rest);
    } else {
      assert [] + rest == rest;
    }
  }

  lemma {:induction false} VisibleTextOfTokens(line: Bytes, tokens: seq<Token>, start: nat, p: nat)
    requires start <= p <= |line| && TokensOk(tokens) && line[p..] == EncodeTokens(tokens)
    ensures VisibleFrom(line, start, p) == line[start..p] + EncodeTokens(TextOf(tokens))
    decreases |tokens|
  {
    hide TokenOk;
    hide EncodeChar;
    hide VisibleFrom;
    hide EncodeTokens;
    hide TextOf;
    if tokens == [] {
      NoTokens();
      VisibleAtEnd(line, start);
    } else {
      var t, rest := tokens[0], tokens[1..];
      assert TokenOk(t) && TokensOk(rest);
      TokenSlices(line, tokens, p);
      EncodedTextOf(tokens);
      if t.Text? {
        var q := p + |EncodeChar(t.c)|;
        VisibleAcrossText(line, t.c, start, p);
        VisibleTextOfTokens(line, rest, start, q);
        assert line[start..q] == line[start..p] + line[p..q];
      } else {
        var q := p + 3 + |t.params|;
        VisibleAcrossSgr(line, t.params, start, p);
        VisibleTextOfTokens(line, rest, q, q);
        assert line[q..q] == [];
      }
    }
  }

  /** What a sanitized coloured line shows is exactly the plain line. */
  lemma SanitizedLineShowsPlainLine(bytes: Bytes)
    ensures VisibleOf(LinePieces(EncodeText(Render(LineTokens(bytes, true)))))
            == EncodeText(Render(LineTokens(bytes, false)))
  {
    hide LineTokens;
    var on, off := LineTokens(bytes, true), LineTokens(bytes, false);
    StatusLineIsSafe(bytes, true);
    StatusLineIsSafe(bytes, false);
    RenderedTokensEncode(on);
    RenderedTokensEncode(off);
    PlainLineIsColouredLineErased(bytes);
    var line := EncodeTokens(on);
    assert line[0..] == line && line[0..0] == [];
    VisibleTextOfTokens(line, on, 0, 0);
  }
}
