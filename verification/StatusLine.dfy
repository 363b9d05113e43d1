/**
 The status-line sanitizer: one line of untrusted command output, from which only
 plain text and bounded SGR colour sequences survive.
 */
module StatusLine {
  import opened Common
  import opened Utf8
  import TC = TerminalCapture

  const MAX_CSI_PARAM_BYTES: nat := 64
  const MAX_CSI_PARAM_COUNT: nat := 16

  /** What the sanitizer lets through. */
  datatype Token = Text(c: Scalar) | Sgr(params: seq<Byte>)

  /** Parser state; the last three fields belong to the control sequence being read. */
  datatype Parser = Parser(escape: TC.Escape, params: seq<Byte>, semicolons: nat, valid: bool)

  datatype Move = Move(count: nat, next: Parser, out: seq<Token>)

  function Enter(p: Parser, e: TC.Escape): Parser {
    if e == TC.Csi then Parser(TC.Csi, [], 0, true) else p.(escape := e)
  }

  function To(p: Parser, count: nat, e: TC.Escape): Move {
    Move(count, p.(escape := e), [])
  }

  predicate ParamByte(b: Byte) {
    0x30 <= b <= 0x39 || b == 0x3B || b == 0x3A
  }

  function GroundMove(p: Parser, s: seq<Byte>): Move
    requires s != []
  {
    var b := s[0];
    if b == 0x1B then To(p, 1, TC.Esc)
    else if b == 0x9B then Move(1, Enter(p, TC.Csi), [])
    else if TC.OpensString(b) then To(p, 1, TC.Str)
    else if 0x80 <= b <= 0x9F then To(p, 1, TC.Ground)
    else if b <= 0x1F || b == 0x7F then To(p, 1, TC.Ground)
    else if b <= 0x7F then Move(1, p, [Text(b)])
    else
      match DecodeChar(s)
      case Some((c, w)) =>
        if c == 0x9B then Move(w, Enter(p, TC.Csi), [])
        else if TC.OpensString(c) then To(p, w, TC.Str)
        else if TC.IsControl(c) then Move(w, p, [])
        else Move(w, p, [Text(c)])
      case None => Move(1, p, [Text(REPLACEMENT)])
  }

  /** A byte that ends the control sequence: SGR passes if it is valid, within limits and colour is on. */
  function FinalByte(p: Parser, b: Byte, color: bool): Move {
    var within := |p.params| <= MAX_CSI_PARAM_BYTES && p.semicolons < MAX_CSI_PARAM_COUNT;
    Move(1, p.(escape := TC.Ground), if color && b == 0x6D && p.valid && within then [Sgr(p.params)] else [])
  }

  function Parameter(p: Parser, b: Byte): Parser {
    if !p.valid then p
    else if |p.params| >= MAX_CSI_PARAM_BYTES || (b == 0x3B && p.semicolons >= MAX_CSI_PARAM_COUNT - 1) then
      p.(valid := false)
    else
      p.(params := p.params + [b], semicolons := p.semicolons + if b == 0x3B then 1 else 0)
  }

  function CsiMove(p: Parser, s: seq<Byte>, color: bool): Move
    requires s != []
  {
    var b := s[0];
    if b >= 0x80 then
      match DecodeChar(s)
      case Some((c, w)) => if c == 0x9C then To(p, w, TC.Ground) else Move(w, p.(valid := false), [])
      case None => if b == 0x9C then To(p, 1, TC.Ground) else Move(1, p.(valid := false), [])
    else if b == 0x18 || b == 0x1A then To(p, 1, TC.Ground)
    else if b == 0x1B then To(p, 1, TC.Esc)
    else if 0x40 <= b <= 0x7E then FinalByte(p, b, color)
    else if ParamByte(b) then Move(1, Parameter(p, b), [])
    else Move(1, p.(valid := false), [])
  }

  /** Control strings; a cut-off character counts byte by byte here. */
  function StrMove(p: Parser, s: seq<Byte>): Move
    requires s != []
  {
    var b := s[0];
    if b >= 0x80 then
      match DecodeChar(s)
      case Some((c, w)) => To(p, w, if c == 0x9C then TC.Ground else TC.Str)
      case None => To(p, 1, if b == 0x9C then TC.Ground else TC.Str)
    else if p.escape == TC.StrEsc then To(p, 1, if b == 0x5C then TC.Ground else TC.Str)
    else if b == 0x18 || b == 0x1A || b == 0x07 then To(p, 1, TC.Ground)
    else To(p, 1, if b == 0x1B then TC.StrEsc else TC.Str)
  }

  function MoveOf(p: Parser, s: seq<Byte>, color: bool): (m: Move)
    requires s != []
    ensures 1 <= m.count <= |s|
  {
    match p.escape
    case Ground => GroundMove(p, s)
    case Esc => Move(1, Enter(p, TC.EscMove(s[0])), [])
    case Csi => CsiMove(p, s, color)
    case Str => StrMove(p, s)
    case StrEsc => StrMove(p, s)
    case Charset => To(p, 1, TC.Ground)
  }

  predicate EndsLine(b: Byte) {
    b == 0x0A || b == 0x0D
  }

  /** The tokens of the first line of `s`. */
  function Tokens(p: Parser, s: seq<Byte>, color: bool): seq<Token>
    decreases |s|
  {
    if s == [] || EndsLine(s[0]) then []
    else
      var m := MoveOf(p, s, color);
      m.out + Tokens(m.next, s[m.count..], color)
  }

  function RenderToken(t: Token): seq<Scalar> {
    match t
    case Text(c) => [c]
    case Sgr(params) => [0x1B, 0x5B] + AsText(params) + [0x6D]
  }

  function AsText(bytes: seq<Byte>): (t: seq<Scalar>)
    ensures |t| == |bytes| && forall i :: 0 <= i < |t| ==> t[i] == bytes[i]
  {
    if bytes == [] then [] else [bytes[0]] + AsText(bytes[1..])
  }

  function Render(tokens: seq<Token>): seq<Scalar> {
    if tokens == [] then [] else RenderToken(tokens[0]) + Render(tokens[1..])
  }

  predicate HasSgr(tokens: seq<Token>) {
    exists i :: 0 <= i < |tokens| && tokens[i].Sgr?
  }

  const RESET: Token := Sgr([0x30])

  /** Tokens with the closing reset that any colour requires. */
  function Closed(tokens: seq<Token>): seq<Token> {
    if HasSgr(tokens) then tokens + [RESET] else tokens
  }

  const INITIAL: Parser := Parser(TC.Ground, [], 0, true)

  function LineTokens(bytes: seq<Byte>, color: bool): seq<Token> {
    Closed(Tokens(INITIAL, bytes, color))
  }

  lemma {:induction false} RenderConcat(a: seq<Token>, b: seq<Token>)
    ensures Render(a + b) == Render(a) + Render(b)
    decreases |a|
  {
    if a == [] {
      assert a + b == b;
    } else {
      assert (a + b)[1..] == a[1..] + b;
      RenderConcat(a[1..], b);
    }
  }

  lemma TokensStep(p: Parser, bytes: seq<Byte>, index: nat, color: bool, done: seq<Token>)
    requires index < |bytes| && !EndsLine(bytes[index])
    ensures var m := MoveOf(p, bytes[index..], color);
      && index + m.count <= |bytes|
      && done + Tokens(p, bytes[index..], color) == (done + m.out) + Tokens(m.next, bytes[index + m.count..], color)
  {
    hide MoveOf;
    var m := MoveOf(p, bytes[index..], color);
    assert bytes[index..][m.count..] == bytes[index + m.count..];
  }

  /** `sanitize_status_command_line`. */
  method SanitizeStatusCommandLine(bytes: seq<Byte>, color: bool) returns (out: seq<Scalar>)
    ensures out == Render(LineTokens(bytes, color))
  {
    hide MoveOf;
    hide Tokens;
    out := [];
    var parser := INITIAL;
    var emittedSgr := false;
    var index := 0;
    ghost var done: seq<Token> := [];
    ghost var all := Tokens(INITIAL, bytes, color);
    assert bytes[0..] == bytes && [] + all == all;
    while index < |bytes|
      invariant index <= |bytes|
      invariant all == done + Tokens(parser, bytes[index..], color)
      invariant out == Render(done) && emittedSgr == HasSgr(done)
    {
      if EndsLine(bytes[index]) {
        break;
      }
      var m := MoveOf(parser, bytes[index..], color);
      TokensStep(parser, bytes, index, color, done);
      MoveEmitsAtMostOne(parser, bytes[index..], color);
      RenderConcat(done, m.out);
      SgrOfConcat(done, m.out);
      done := done + m.out;
      out := out + Render(m.out);
      emittedSgr := emittedSgr || (m.out != [] && m.out[0].Sgr?);
      parser := m.next;
      index := index + m.count;
    }
    assert Tokens(parser, bytes[index..], color) == [] by { TokensEnd(parser, bytes[index..], color); }
    assert done == all;
    if emittedSgr {
      RenderConcat(done, [RESET]);
      assert Render([RESET]) == RenderToken(RESET);
      out := out + RenderToken(RESET);
    }
  }

  lemma TokensEnd(p: Parser, s: seq<Byte>, color: bool)
    requires s == [] || EndsLine(s[0])
    ensures Tokens(p, s, color) == []
  {
  }

  lemma MoveEmitsAtMostOne(p: Parser, s: seq<Byte>, color: bool)
    requires s != []
    ensures |MoveOf(p, s, color).out| <= 1
  {
  }

  lemma SgrOfConcat(a: seq<Token>, b: seq<Token>)
    requires |b| <= 1
    ensures HasSgr(a + b) <==> HasSgr(a) || (b != [] && b[0].Sgr?)
  {
    if HasSgr(a) {
      var i :| 0 <= i < |a| && a[i].Sgr?;
      assert (a + b)[i].Sgr?;
    }
    if b != [] && b[0].Sgr? {
      assert (a + b)[|a|].Sgr?;
    }
  }

  // ---- Bounded colour and safe text ----

  function CountSemicolons(params: seq<Byte>): nat {
    if params == [] then 0
    else CountSemicolons(params[..|params| - 1]) + if params[|params| - 1] == 0x3B then 1 else 0
  }

  predicate SgrOk(params: seq<Byte>) {
    && (forall i :: 0 <= i < |params| ==> ParamByte(params[i]))
    && |params| <= MAX_CSI_PARAM_BYTES
    && CountSemicolons(params) <= MAX_CSI_PARAM_COUNT - 1
  }

  predicate TokenOk(t: Token) {
    match t
    case Text(c) => !TC.IsControl(c)
    case Sgr(params) => SgrOk(params)
  }

  predicate TokensOk(tokens: seq<Token>) {
    forall i :: 0 <= i < |tokens| ==> TokenOk(tokens[i])
  }

  /** The parameters collected so far are within the bounds at every moment. */
  predicate ParserOk(p: Parser) {
    SgrOk(p.params) && p.semicolons == CountSemicolons(p.params)
  }

  lemma ParameterKeepsOk(p: Parser, b: Byte)
    requires ParserOk(p) && ParamByte(b)
    ensures ParserOk(Parameter(p, b))
  {
    assert (p.params + [b])[..|p.params|] == p.params;
  }

  lemma NothingIsOk()
    ensures SgrOk([]) && CountSemicolons([]) == 0
  {
  }

  lemma CsiKeepsOk(p: Parser, s: seq<Byte>, color: bool)
    requires ParserOk(p) && s != []
    ensures ParserOk(CsiMove(p, s, color).next) && TokensOk(CsiMove(p, s, color).out)
  {
    hide SgrOk;
    hide Parameter;
    hide DecodeChar;
    if ParamByte(s[0]) {
      ParameterKeepsOk(p, s[0]);
    }
  }

  lemma MoveKeepsOk(p: Parser, s: seq<Byte>, color: bool)
    requires ParserOk(p) && s != []
    ensures ParserOk(MoveOf(p, s, color).next) && TokensOk(MoveOf(p, s, color).out)
  {
    hide SgrOk;
    hide CsiMove;
    hide DecodeChar;
    hide CountSemicolons;
    NothingIsOk();
    if p.escape == TC.Csi {
      CsiKeepsOk(p, s, color);
    }
  }

  lemma {:induction false} TokensAreOk(p: Parser, s: seq<Byte>, color: bool)
    requires ParserOk(p)
    ensures TokensOk(Tokens(p, s, color))
    decreases |s|
  {
    hide MoveOf;
    hide TokenOk;
    if s != [] && !EndsLine(s[0]) {
      var m := MoveOf(p, s, color);
      MoveKeepsOk(p, s, color);
      TokensAreOk(m.next, s[m.count..], color);
    }
  }

  /**
   For every input the sanitized line is safe text interleaved with SGR sequences of
   at most 64 parameter bytes and 15 semicolons, and any colour is closed by a reset.
   */
  lemma StatusLineIsSafe(bytes: seq<Byte>, color: bool)
    ensures TokensOk(LineTokens(bytes, color))
    ensures HasSgr(LineTokens(bytes, color)) ==>
      var t := LineTokens(bytes, color); t[|t| - 1] == RESET
    ensures !color ==> !HasSgr(LineTokens(bytes, color))
  {
    TokensAreOk(INITIAL, bytes, color);
    if !color {
      ColourOffHasNoSgr(INITIAL, bytes);
    }
    assert CountSemicolons([0x30]) == 0 by { assert [0x30][..0] == []; }
  }

  lemma {:induction false} ColourOffHasNoSgr(p: Parser, s: seq<Byte>)
    ensures !HasSgr(Tokens(p, s, false))
    decreases |s|
  {
    if s != [] && !EndsLine(s[0]) {
      var m := MoveOf(p, s, false);
      assert !HasSgr(m.out) by { ColourOffMoveHasNoSgr(p, s); }
      hide MoveOf;
      ColourOffHasNoSgr(m.next, s[m.count..]);
    }
  }

  lemma ColourOffMoveHasNoSgr(p: Parser, s: seq<Byte>)
    requires s != []
    ensures !HasSgr(MoveOf(p, s, false).out)
  {
  }

  // ---- Only the first line matters ----

  lemma MoveStopsAtLineEnd(p: Parser, s: seq<Byte>, stop: Byte, t: seq<Byte>, color: bool)
    requires s != [] && EndsLine(stop)
    ensures MoveOf(p, s + [stop] + t, color) == MoveOf(p, s, color)
  {
    DecodeStopsAt(s, stop, t);
    assert (s + [stop] + t)[0] == s[0];
  }

  /** Nothing after the first LF or CR has any influence, not even on a character cut by it. */
  lemma {:induction false} OnlyFirstLineMatters(p: Parser, s: seq<Byte>, stop: Byte, t: seq<Byte>, color: bool)
    requires EndsLine(stop)
    ensures Tokens(p, s + [stop] + t, color) == Tokens(p, s, color)
    decreases |s|
  {
    hide MoveOf;
    var u := s + [stop] + t;
    if s == [] {
      assert u[0] == stop;
    } else {
      assert u[0] == s[0];
      if !EndsLine(s[0]) {
        MoveStopsAtLineEnd(p, s, stop, t, color);
        var m := MoveOf(p, s, color);
        assert u[m.count..] == s[m.count..] + [stop] + t;
        OnlyFirstLineMatters(m.next, s[m.count..], stop, t, color);
      }
    }
  }

  // ---- Colour off is colour on without the colours ----

  function TextOf(tokens: seq<Token>): seq<Token> {
    if tokens == [] then []
    else (if tokens[0].Text? then [tokens[0]] else []) + TextOf(tokens[1..])
  }

  lemma {:induction false} TextOfConcat(a: seq<Token>, b: seq<Token>)
    ensures TextOf(a + b) == TextOf(a) + TextOf(b)
    decreases |a|
  {
    if a == [] {
      assert a + b == b;
    } else {
      assert (a + b)[1..] == a[1..] + b;
      TextOfConcat(a[1..], b);
    }
  }

  lemma MoveIgnoresColour(p: Parser, s: seq<Byte>)
    requires s != []
    ensures var on, off := MoveOf(p, s, true), MoveOf(p, s, false);
      on.count == off.count && on.next == off.next && TextOf(on.out) == off.out
  {
    assert forall t: Token :: [t][1..] == [];
  }

  lemma {:induction false} ColourOffIsColourErased(p: Parser, s: seq<Byte>)
    ensures TextOf(Tokens(p, s, true)) == Tokens(p, s, false)
    decreases |s|
  {
    hide MoveOf;
    if s != [] && !EndsLine(s[0]) {
      var m := MoveOf(p, s, true);
      MoveIgnoresColour(p, s);
      TextOfConcat(m.out, Tokens(m.next, s[m.count..], true));
      ColourOffIsColourErased(m.next, s[m.count..]);
    }
  }

  /** The plain line is exactly the coloured line with its SGR sequences erased. */
  lemma PlainLineIsColouredLineErased(bytes: seq<Byte>)
    ensures TextOf(LineTokens(bytes, true)) == LineTokens(bytes, false)
  {
    var on := Tokens(INITIAL, bytes, true);
    ColourOffIsColourErased(INITIAL, bytes);
    ColourOffHasNoSgr(INITIAL, bytes);
    TextOfConcat(on, [RESET]);
    assert TextOf([RESET]) == [];
  }
}
