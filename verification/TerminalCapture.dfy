/**
 The resumable terminal sanitizer: escape sequences and control strings are removed,
 UTF-8 that is cut by the end of a chunk waits in a small buffer, everything else
 that is unsafe is dropped or replaced.
 */
module TerminalCapture {
  import opened Common
  import opened Utf8

  datatype Escape = Ground | Esc | Csi | Str | StrEsc | Charset

  /** Reaction to the next bytes: consume some and move on, or wait for the rest of a character. */
  datatype Move = Consume(count: nat, next: Escape, out: seq<Scalar>) | Wait

  /** The result of a stretch of input. */
  datatype Capture = Capture(out: seq<Scalar>, escape: Escape, pending: seq<Byte>)

  predicate IsControl(c: Scalar) {
    c <= 0x1F || 0x7F <= c <= 0x9F
  }

  /** What captured text may contain. */
  predicate Safe(c: Scalar) {
    !IsControl(c) || c == 9 || c == 10 || c == 13
  }

  /** DCS, SOS, OSC, PM and APC open a control string. */
  predicate OpensString(b: int) {
    b == 0x90 || b == 0x98 || b == 0x9D || b == 0x9E || b == 0x9F
  }

  /** The first byte announces more bytes than there are. */
  predicate Incomplete(s: seq<Byte>)
    requires s != []
  {
    CharWidth(s[0]).Some? && |s| < CharWidth(s[0]).value
  }

  function GroundChar(c: Scalar, count: nat): Move {
    if c == 0x9B then Consume(count, Csi, [])
    else if OpensString(c) then Consume(count, Str, [])
    else if IsControl(c) then Consume(count, Ground, [])
    else Consume(count, Ground, [c])
  }

  function GroundMove(s: seq<Byte>): Move
    requires s != []
  {
    var b := s[0];
    if b == 0x1B then Consume(1, Esc, [])
    else if b == 0x9B then Consume(1, Csi, [])
    else if OpensString(b) then Consume(1, Str, [])
    else if 0x80 <= b <= 0x9F then Consume(1, Ground, [])
    else if b == 9 || b == 10 || b == 13 then Consume(1, Ground, [b])
    else if b <= 0x1F || b == 0x7F then Consume(1, Ground, [])
    else if b <= 0x7F then Consume(1, Ground, [b])
    else
      match DecodeChar(s)
      case Some((c, w)) => GroundChar(c, w)
      case None => if Incomplete(s) then Wait else Consume(1, Ground, [REPLACEMENT])
  }

  function EscMove(b: Byte): Escape {
    if b == 0x18 || b == 0x1A then Ground
    else if b == 0x1B then Esc
    else if b == 0x5B then Csi
    else if b == 0x5D || b == 0x50 || b == 0x5F || b == 0x5E || b == 0x58 then Str
    else if 0x28 <= b <= 0x2B || 0x2D <= b <= 0x2F then Charset
    else if b == 0x9B then Csi
    else if OpensString(b) then Str
    else if 0x20 <= b <= 0x2F then Esc
    else Ground
  }

  /** Inside a sequence, bytes from 0x80 on are taken as characters when they are. */
  function HighMove(s: seq<Byte>, stay: Escape, atEnd: Escape): Move
    requires s != []
  {
    match DecodeChar(s)
    case Some((c, w)) => Consume(w, if c == 0x9C then Ground else stay, [])
    case None => if Incomplete(s) then Wait else Consume(1, if s[0] == 0x9C then Ground else atEnd, [])
  }

  function CsiMove(s: seq<Byte>): Move
    requires s != []
  {
    var b := s[0];
    if b >= 0x80 then HighMove(s, Csi, Csi)
    else if b == 0x18 || b == 0x1A then Consume(1, Ground, [])
    else if b == 0x1B then Consume(1, Esc, [])
    else if 0x40 <= b <= 0x7E then Consume(1, Ground, [])
    else Consume(1, Csi, [])
  }

  function StrMove(s: seq<Byte>): Move
    requires s != []
  {
    var b := s[0];
    if b >= 0x80 then HighMove(s, Str, Str)
    else if b == 0x18 || b == 0x1A || b == 0x07 then Consume(1, Ground, [])
    else if b == 0x1B then Consume(1, StrEsc, [])
    else Consume(1, Str, [])
  }

  function StrEscMove(s: seq<Byte>): Move
    requires s != []
  {
    if s[0] >= 0x80 then HighMove(s, Str, Str)
    else Consume(1, if s[0] == 0x5C then Ground else Str, [])
  }

  function MoveOf(e: Escape, s: seq<Byte>): (m: Move)
    requires s != []
    ensures m.Consume? ==> 1 <= m.count <= |s|
    ensures m.Wait? ==> Incomplete(s)
  {
    match e
    case Ground => GroundMove(s)
    case Esc => Consume(1, EscMove(s[0]), [])
    case Csi => CsiMove(s)
    case Str => StrMove(s)
    case StrEsc => StrEscMove(s)
    case Charset => Consume(1, Ground, [])
  }

  /** The whole input from one escape state. */
  function Run(e: Escape, s: seq<Byte>): (r: Capture)
    ensures r.pending != [] ==> Incomplete(r.pending)
    decreases |s|
  {
    if s == [] then Capture([], e, [])
    else
      match MoveOf(e, s)
      case Wait => Capture([], e, s)
      case Consume(count, next, out) =>
        var rest := Run(next, s[count..]);
        Capture(out + rest.out, rest.escape, rest.pending)
  }

  /** The resumable state; only the first `pendingLen` bytes of the buffer mean something. */
  class CaptureState {
    var escape: Escape
    const pendingUtf8: array<Byte>
    var pendingLen: nat

    ghost predicate Valid()
      reads this, pendingUtf8
    {
      pendingUtf8.Length == 4 && pendingLen <= 4
    }

    ghost function Pending(): seq<Byte>
      requires Valid()
      reads this, pendingUtf8
    {
      pendingUtf8[..pendingLen]
    }

    constructor ()
      ensures Valid() && fresh(pendingUtf8) && escape == Ground && Pending() == []
    {
      escape, pendingLen := Ground, 0;
      pendingUtf8 := new Byte[4](_ => 0);
    }

    /** `store_incomplete_utf8`: keeps the cut character for the next chunk. */
    method StoreIncomplete(rest: seq<Byte>)
      requires Valid() && |rest| <= 4
      modifies this`pendingLen, pendingUtf8
      ensures Valid() && Pending() == rest
    {
      pendingLen := |rest|;
      forall k | 0 <= k < |rest| {
        pendingUtf8[k] := rest[k];
      }
      assert pendingUtf8[..pendingLen] == rest;
    }

    /** `terminal_capture_from_state`: one chunk, continuing where the last one stopped. */
    method CaptureChunk(chunk: seq<Byte>) returns (out: seq<Scalar>)
      requires Valid()
      modifies this, pendingUtf8
      ensures Valid()
      ensures Capture(out, escape, Pending()) == Run(old(escape), old(Pending()) + chunk)
    {
      hide MoveOf;
      hide Run;
      var bytes := pendingUtf8[..pendingLen] + chunk;
      pendingLen := 0;
      out := [];
      var index := 0;
      ghost var whole := Run(escape, bytes);
      assert bytes[0..] == bytes;
      while index < |bytes|
        invariant Valid() && index <= |bytes| && pendingLen == 0
        invariant whole == Prefixed(out, Run(escape, bytes[index..]))
      {
        var rest := bytes[index..];
        match MoveOf(escape, rest) {
          case Wait =>
            RunStops(escape, rest);
            StoreIncomplete(rest);
            return;
          case Consume(count, next, piece) =>
            RunContinues(escape, bytes, index, out);
            out := out + piece;
            escape := next;
            index := index + count;
        }
      }
      RunStops(escape, bytes[index..]);
    }

    /** `flush_pending_utf8_at_capture_end`. */
    method Flush() returns (out: seq<Scalar>)
      requires Valid()
      modifies this`pendingLen
      ensures Valid() && Pending() == []
      ensures out == Flushed(Capture([], escape, old(Pending())))
    {
      out := if pendingLen != 0 && escape == Ground then [REPLACEMENT] else [];
      pendingLen := 0;
    }
  }

  function Prefixed(out: seq<Scalar>, r: Capture): Capture {
    Capture(out + r.out, r.escape, r.pending)
  }

  lemma RunContinues(e: Escape, bytes: seq<Byte>, index: nat, out: seq<Scalar>)
    requires index < |bytes| && MoveOf(e, bytes[index..]).Consume?
    ensures var m := MoveOf(e, bytes[index..]);
      && index + m.count <= |bytes|
      && Prefixed(out, Run(e, bytes[index..])) == Prefixed(out + m.out, Run(m.next, bytes[index + m.count..]))
  {
    hide MoveOf;
    var m := MoveOf(e, bytes[index..]);
    assert bytes[index..][m.count..] == bytes[index + m.count..];
    var rest := Run(m.next, bytes[index + m.count..]).out;
    assert out + (m.out + rest) == (out + m.out) + rest;
  }

  lemma RunStops(e: Escape, s: seq<Byte>)
    requires s == [] || MoveOf(e, s).Wait?
    ensures Run(e, s) == Capture([], e, s)
  {
  }

  /** A character cut off by the end of the capture becomes one replacement character. */
  function Flushed(r: Capture): seq<Scalar> {
    r.out + if r.pending != [] && r.escape == Ground then [REPLACEMENT] else []
  }

  /** `terminal_capture`. */
  function CaptureAll(bytes: seq<Byte>): seq<Scalar> {
    Flushed(Run(Ground, bytes))
  }

  method TerminalCapture(bytes: seq<Byte>) returns (out: seq<Scalar>)
    ensures out == CaptureAll(bytes)
  {
    var state := new CaptureState();
    out := state.CaptureChunk(bytes);
    assert [] + bytes == bytes;
    var tail := state.Flush();
    out := out + tail;
  }

  // ---- Chunking ----

  lemma MoveIgnoresTail(e: Escape, a: seq<Byte>, b: seq<Byte>)
    requires a != [] && MoveOf(e, a).Consume?
    ensures MoveOf(e, a + b) == MoveOf(e, a)
  {
    assert (a + b)[0] == a[0];
    if !Incomplete(a) {
      DecodeIgnoresTail(a, b);
    }
  }

  /**
   Chunking does not matter: from any state, processing `a` and then `b` gives the
   output and the state of processing them in one call, wherever the cut falls.
   */
  lemma {:induction false} ChunkingIsTransparent(e: Escape, a: seq<Byte>, b: seq<Byte>)
    ensures var first := Run(e, a);
      Run(e, a + b) == Prefixed(first.out, Run(first.escape, first.pending + b))
    decreases |a|
  {
    hide MoveOf;
    hide Run;
    if a == [] || MoveOf(e, a).Wait? {
      RunStops(e, a);
      var r := Run(e, a + b);
      assert a + b == Run(e, a).pending + b && [] + r.out == r.out;
    } else {
      var Consume(count, next, out) := MoveOf(e, a);
      MoveIgnoresTail(e, a, b);
      assert (a + b)[count..] == a[count..] + b;
      ChunkingIsTransparent(next, a[count..], b);
      RunStep(e, a);
      RunStep(e, a + b);
      var first := Run(next, a[count..]);
      var second := Run(first.escape, first.pending + b);
      assert out + (first.out + second.out) == (out + first.out) + second.out;
    }
  }

  lemma RunStep(e: Escape, s: seq<Byte>)
    requires s != [] && MoveOf(e, s).Consume?
    ensures var m := MoveOf(e, s); m.count <= |s| && Run(e, s) == Prefixed(m.out, Run(m.next, s[m.count..]))
  {
    hide MoveOf;
  }

  /** The same for any number of chunks. */
  function RunChunks(e: Escape, pending: seq<Byte>, chunks: seq<seq<Byte>>): Capture
    decreases |chunks|
  {
    if chunks == [] then Capture([], e, pending)
    else
      var r := Run(e, pending + chunks[0]);
      Prefixed(r.out, RunChunks(r.escape, r.pending, chunks[1..]))
  }

  function Concat(chunks: seq<seq<Byte>>): seq<Byte> {
    if chunks == [] then [] else chunks[0] + Concat(chunks[1..])
  }

  lemma PendingWaits(e: Escape, s: seq<Byte>)
    ensures var r := Run(e, s); Run(r.escape, r.pending) == Capture([], r.escape, r.pending)
    decreases |s|
  {
    hide MoveOf;
    if s != [] && MoveOf(e, s).Consume? {
      PendingWaits(MoveOf(e, s).next, s[MoveOf(e, s).count..]);
    }
  }

  /** Any way of cutting a stream into chunks gives the result of the uncut stream. */
  lemma {:induction false} AnyChunkingIsTransparent(e: Escape, pending: seq<Byte>, chunks: seq<seq<Byte>>)
    requires Run(e, pending) == Capture([], e, pending)
    ensures RunChunks(e, pending, chunks) == Run(e, pending + Concat(chunks))
    decreases |chunks|
  {
    hide Run;
    if chunks == [] {
      assert pending + [] == pending;
    } else {
      var head, tail := chunks[0], chunks[1..];
      var r := Run(e, pending + head);
      PendingWaits(e, pending + head);
      AnyChunkingIsTransparent(r.escape, r.pending, tail);
      ChunkingIsTransparent(e, pending + head, Concat(tail));
      assert pending + Concat(chunks) == pending + head + Concat(tail);
    }
  }

  // ---- What comes out ----

  predicate AllSafe(text: seq<Scalar>) {
    forall i :: 0 <= i < |text| ==> Safe(text[i])
  }

  lemma {:induction false} RunIsSafe(e: Escape, s: seq<Byte>)
    ensures AllSafe(Run(e, s).out)
    decreases |s|
  {
    if s != [] && MoveOf(e, s).Consume? {
      RunIsSafe(MoveOf(e, s).next, s[MoveOf(e, s).count..]);
    }
  }

  /** Whatever goes in, no control character except tab, LF and CR comes out. */
  lemma CaptureIsSafe(bytes: seq<Byte>)
    ensures AllSafe(CaptureAll(bytes))
  {
    RunIsSafe(Ground, bytes);
  }

  lemma SafeCharPasses(c: Scalar, rest: seq<Byte>)
    requires Safe(c)
    ensures MoveOf(Ground, EncodeChar(c) + rest) == Consume(|EncodeChar(c)|, Ground, [c])
  {
    DecodeEncoded(c, rest);
    assert (EncodeChar(c) + rest)[0] == EncodeChar(c)[0];
  }

  lemma {:induction false} SafeTextPasses(text: seq<Scalar>, rest: seq<Byte>)
    requires AllSafe(text)
    ensures Run(Ground, EncodeText(text) + rest) == Prefixed(text, Run(Ground, rest))
    decreases |text|
  {
    hide MoveOf;
    hide Run;
    hide EncodeChar;
    if text == [] {
      assert EncodeText(text) + rest == rest;
      assert Prefixed(text, Run(Ground, rest)) == Run(Ground, rest);
    } else {
      var e, tail := EncodeChar(text[0]), EncodeText(text[1..]) + rest;
      assert EncodeText(text) + rest == e + tail;
      SafeCharPasses(text[0], tail);
      RunStep(Ground, e + tail);
      assert (e + tail)[|e|..] == tail;
      SafeTextPasses(text[1..], rest);
      var out := Run(Ground, rest).out;
      assert [text[0]] + (text[1..] + out) == text + out;
    }
  }

  /** Well-formed text without other controls comes out unchanged. */
  lemma CaptureKeepsSafeText(text: seq<Scalar>)
    requires AllSafe(text)
    ensures CaptureAll(EncodeText(text)) == text
  {
    SafeTextPasses(text, []);
    assert EncodeText(text) + [] == EncodeText(text);
  }

  /** Sanitizing twice is sanitizing once. */
  lemma CaptureIsIdempotent(bytes: seq<Byte>)
    ensures CaptureAll(EncodeText(CaptureAll(bytes))) == CaptureAll(bytes)
  {
    CaptureIsSafe(bytes);
    CaptureKeepsSafeText(CaptureAll(bytes));
  }

  // ---- Operating system commands ----

  /** A character that ends or escapes a control string. */
  predicate EndsString(c: Scalar) {
    c == 0x07 || c == 0x18 || c == 0x1A || c == 0x1B || c == 0x9C
  }

  predicate IsPayload(payload: seq<Scalar>) {
    forall i :: 0 <= i < |payload| ==> !EndsString(payload[i])
  }

  lemma {:induction false} PayloadIsSwallowed(payload: seq<Scalar>, rest: seq<Byte>)
    requires IsPayload(payload)
    ensures Run(Str, EncodeText(payload) + rest) == Run(Str, rest)
    decreases |payload|
  {
    hide Run;
    hide MoveOf;
    hide EncodeChar;
    if payload == [] {
      assert EncodeText(payload) + rest == rest;
    } else {
      var e, tail := EncodeChar(payload[0]), EncodeText(payload[1..]) + rest;
      assert EncodeText(payload) + rest == e + tail;
      PayloadCharIsSwallowed(payload[0], tail);
      RunStep(Str, e + tail);
      assert (e + tail)[|e|..] == tail;
      PayloadIsSwallowed(payload[1..], rest);
      var r := Run(Str, rest);
      assert Prefixed([], r) == r;
    }
  }

  lemma PayloadCharIsSwallowed(c: Scalar, rest: seq<Byte>)
    requires !EndsString(c)
    ensures MoveOf(Str, EncodeChar(c) + rest) == Consume(|EncodeChar(c)|, Str, [])
  {
    DecodeEncoded(c, rest);
    assert (EncodeChar(c) + rest)[0] == EncodeChar(c)[0];
  }

  /** A complete operating system command: ESC ] payload BEL. */
  function Osc(payload: seq<Scalar>): seq<Byte> {
    [0x1B, 0x5D] + EncodeText(payload) + [0x07]
  }

  lemma OscLeavesNothing(payload: seq<Scalar>, rest: seq<Byte>)
    requires IsPayload(payload)
    ensures Run(Ground, Osc(payload) + rest) == Run(Ground, rest)
  {
    var s := Osc(payload) + rest;
    var inner := EncodeText(payload) + ([0x07] + rest);
    assert s[0] == 0x1B && s[1..][0] == 0x5D && s[1..][1..] == inner;
    assert Run(Esc, s[1..]) == Run(Str, inner);
    PayloadIsSwallowed(payload, [0x07] + rest);
    assert ([0x07] + rest)[1..] == rest;
  }

  /** Inserting a complete command after clean text does not change the capture. */
  lemma OscIsInvisible(text: seq<Scalar>, payload: seq<Scalar>, rest: seq<Byte>)
    requires AllSafe(text) && IsPayload(payload)
    ensures CaptureAll(EncodeText(text) + Osc(payload) + rest) == CaptureAll(EncodeText(text) + rest)
  {
    hide Run;
    hide MoveOf;
    hide EncodeText;
    hide Osc;
    SafeTextPasses(text, Osc(payload) + rest);
    SafeTextPasses(text, rest);
    OscLeavesNothing(payload, rest);
    assert EncodeText(text) + Osc(payload) + rest == EncodeText(text) + (Osc(payload) + rest);
  }

  // ---- Field and label sanitizers ----

  function StripControls(text: seq<Scalar>): seq<Scalar> {
    if text == [] then []
    else (if IsControl(text[0]) then [] else [text[0]]) + StripControls(text[1..])
  }

  /** `terminal_text`. */
  function TerminalText(text: seq<Scalar>): seq<Scalar> {
    StripControls(CaptureAll(EncodeText(text)))
  }

  predicate NoControls(text: seq<Scalar>) {
    forall i :: 0 <= i < |text| ==> !IsControl(text[i])
  }

  lemma {:induction false} StripControlsIsClean(text: seq<Scalar>)
    ensures NoControls(StripControls(text))
    ensures NoControls(text) ==> StripControls(text) == text
    decreases |text|
  {
    if text != [] {
      StripControlsIsClean(text[1..]);
      assert NoControls(text) ==> text == [text[0]] + text[1..];
    }
  }

  /** Labels lose every control character, keep clean text, and are stable. */
  lemma TerminalTextIsClean(text: seq<Scalar>)
    ensures NoControls(TerminalText(text))
    ensures NoControls(text) ==> TerminalText(text) == text
    ensures TerminalText(TerminalText(text)) == TerminalText(text)
  {
    var once := TerminalText(text);
    StripControlsIsClean(CaptureAll(EncodeText(text)));
    CaptureKeepsSafeText(once);
    StripControlsIsClean(once);
    if NoControls(text) {
      CaptureKeepsSafeText(text);
      StripControlsIsClean(text);
    }
  }
}
