/**
 Escape sequences in a status line: a control sequence leaves one SGR token exactly when
 it is an SGR within its bounds and colour is on, and every other complete sequence
 leaves nothing.
 */
module StatusEscapes {
  import opened Common
  import opened Utf8
  import TC = TerminalCapture
  import CE = CaptureEscapes
  import opened StatusLine

  // ---- Only a control sequence remembers anything ----

  predicate Agree(p: Parser, q: Parser) {
    p.escape == q.escape && (p.escape == TC.Csi ==> p == q)
  }

  lemma MovesAgree(p: Parser, q: Parser, s: seq<Byte>, color: bool)
    requires Agree(p, q) && s != []
    ensures var m, n := MoveOf(p, s, color), MoveOf(q, s, color);
      m.count == n.count && m.out == n.out && Agree(m.next, n.next)
  {
    hide DecodeChar;
  }

  lemma {:induction false} TokensAgree(p: Parser, q: Parser, s: seq<Byte>, color: bool)
    requires Agree(p, q)
    ensures Tokens(p, s, color) == Tokens(q, s, color)
    decreases |s|
  {
    hide MoveOf;
    if s != [] && !EndsLine(s[0]) {
      MovesAgree(p, q, s, color);
      var m, n := MoveOf(p, s, color), MoveOf(q, s, color);
      TokensAgree(m.next, n.next, s[m.count..], color);
    }
  }

  /** The tokens of a line in which nothing is open. */
  function Line(s: seq<Byte>, color: bool): seq<Token> {
    Tokens(INITIAL, s, color)
  }

  lemma GroundIsLine(p: Parser, s: seq<Byte>, color: bool)
    requires p.escape == TC.Ground
    ensures Tokens(p, s, color) == Line(s, color)
  {
    TokensAgree(p, INITIAL, s, color);
  }

  /** A step that emits nothing. */
  lemma SilentStep(p: Parser, head: seq<Byte>, rest: seq<Byte>, color: bool, next: Parser)
    requires head != [] && !EndsLine(head[0])
    requires MoveOf(p, head + rest, color) == Move(|head|, next, [])
    ensures Tokens(p, head + rest, color) == Tokens(next, rest, color)
  {
    hide MoveOf;
    var s := head + rest;
    assert s[0] == head[0] && s[|head|..] == rest;
    var t := Tokens(next, rest, color);
    assert [] + t == t;
  }

  // ---- Control sequences ----

  /** Parameter and intermediate bytes of a control sequence on one line. */
  predicate ParameterBytes(params: seq<Byte>) {
    forall i :: 0 <= i < |params| ==> 0x20 <= params[i] <= 0x3F
  }

  predicate Digits(params: seq<Byte>) {
    forall i :: 0 <= i < |params| ==>
      ('0' as int <= params[i] <= '9' as int) || params[i] == ';' as int || params[i] == ':' as int
  }

  /** How many semicolons there are. */
  function Semicolons(params: seq<Byte>): nat {
    if params == [] then 0
    else Semicolons(params[..|params| - 1]) + if params[|params| - 1] == ';' as int then 1 else 0
  }

  /** Parameters that may pass: digits and separators, at most 64 bytes and 15 semicolons. */
  predicate Bounded(params: seq<Byte>) {
    Digits(params) && |params| <= 64 && Semicolons(params) <= 15
  }

  lemma {:induction false} SemicolonsGrow(params: seq<Byte>, k: nat)
    requires k <= |params|
    ensures Semicolons(params[..k]) <= Semicolons(params)
    decreases |params| - k
  {
    if k < |params| {
      SemicolonsGrow(params, k + 1);
      assert params[..k + 1][..k] == params[..k];
    } else {
      assert params[..k] == params;
    }
  }

  lemma BoundedPrefix(params: seq<Byte>, k: nat)
    requires k <= |params| && Bounded(params)
    ensures Bounded(params[..k])
  {
    SemicolonsGrow(params, k);
  }

  /** The parser after the first `k` parameter bytes. */
  predicate HasRead(p: Parser, params: seq<Byte>, k: nat)
    requires k <= |params|
  {
    && p.escape == TC.Csi
    && (p.valid <==> Bounded(params[..k]))
    && (p.valid ==> p.params == params[..k] && p.semicolons == Semicolons(params[..k]))
  }

  lemma ReadOneMore(p: Parser, params: seq<Byte>, k: nat, tail: seq<Byte>, color: bool)
    requires k < |params| && ParameterBytes(params) && HasRead(p, params, k)
    ensures var m := MoveOf(p, [params[k]] + tail, color);
      m.count == 1 && m.out == [] && HasRead(m.next, params, k + 1)
  {
    var b := params[k];
    var now, next := params[..k], params[..k + 1];
    assert next == now + [b] && next[..k] == now && next[k] == b;
    if Bounded(next) {
      BoundedPrefix(next, k);
    }
    assert Digits(next) <==> Digits(now) && ParamByte(b);
    assert Semicolons(next) == Semicolons(now) + if b == 0x3B then 1 else 0;
  }

  lemma {:induction false} ReadAll(p: Parser, params: seq<Byte>, k: nat, final: Byte, rest: seq<Byte>, color: bool)
    requires k <= |params| && ParameterBytes(params) && HasRead(p, params, k)
    requires 0x40 <= final <= 0x7E || final == 0x18 || final == 0x1A
    ensures Tokens(p, params[k..] + [final] + rest, color)
         == (if color && final == 'm' as int && Bounded(params) then [Sgr(params)] else []) + Line(rest, color)
    decreases |params| - k
  {
    hide Tokens;
    hide Line;
    var s := params[k..] + [final] + rest;
    if k == |params| {
      assert params[..k] == params && s == [final] + rest && s[1..] == rest;
      var m := MoveOf(p, s, color);
      assert m.count == 1 && m.next.escape == TC.Ground;
      assert m.out == if color && final == 0x6D && Bounded(params) then [Sgr(params)] else [];
      FirstMove(p, s, color);
      GroundIsLine(m.next, rest, color);
    } else {
      var tail := params[k + 1..] + [final] + rest;
      assert s == [params[k]] + tail;
      ReadOneMore(p, params, k, tail, color);
      var next := MoveOf(p, [params[k]] + tail, color).next;
      SilentStep(p, [params[k]], tail, color, next);
      ReadAll(next, params, k + 1, final, rest, color);
    }
  }

  lemma FirstMove(p: Parser, s: seq<Byte>, color: bool)
    requires s != [] && !EndsLine(s[0])
    ensures var m := MoveOf(p, s, color); Tokens(p, s, color) == m.out + Tokens(m.next, s[m.count..], color)
  {
    hide MoveOf;
  }

  /** The state an introducer leads to, from any state of the ground. */
  function Entered(p: Parser, code: Byte): Parser {
    if code == 0x9B then Parser(TC.Csi, [], 0, true) else p.(escape := TC.Str)
  }

  lemma IntroducerEnters(p: Parser, form: CE.Form, code: Byte, rest: seq<Byte>, color: bool)
    requires p.escape == TC.Ground && code in {0x90, 0x98, 0x9B, 0x9D, 0x9E, 0x9F}
    ensures Tokens(p, CE.C1(form, code) + rest, color) == Tokens(Entered(p, code), rest, color)
  {
    hide Tokens;
    match form
    case EscForm =>
      var esc := p.(escape := TC.Esc);
      var tail := [code - 0x40] + rest;
      assert CE.C1(form, code) + rest == [0x1B] + tail;
      SilentStep(p, [0x1B], tail, color, esc);
      SilentStep(esc, [code - 0x40], rest, color, Entered(esc, code));
      TokensAgree(Entered(esc, code), Entered(p, code), rest, color);
    case ByteForm => SilentStep(p, [code], rest, color, Entered(p, code));
    case CharForm =>
      CE.C1Decodes(code, rest);
      SilentStep(p, [0xC2, code], rest, color, Entered(p, code));
  }

  /**
   A control sequence leaves its SGR token exactly when it ends in `m`, its parameters
   are digits and separators within the bounds, and colour is on; otherwise nothing.
   */
  lemma ControlSequenceExactly(form: CE.Form, params: seq<Byte>, final: Byte, rest: seq<Byte>, color: bool)
    requires ParameterBytes(params) && (0x40 <= final <= 0x7E || final == 0x18 || final == 0x1A)
    ensures Line(CE.C1(form, 0x9B) + params + [final] + rest, color)
         == (if color && final == 'm' as int && Bounded(params) then [Sgr(params)] else []) + Line(rest, color)
  {
    hide Tokens;
    var tail := params + [final] + rest;
    assert CE.C1(form, 0x9B) + params + [final] + rest == CE.C1(form, 0x9B) + tail;
    IntroducerEnters(INITIAL, form, 0x9B, tail, color);
    var p := Parser(TC.Csi, [], 0, true);
    assert params[..0] == [] && params[0..] == params;
    assert HasRead(p, params, 0);
    ReadAll(p, params, 0, final, rest, color);
  }

  /** Something that does not belong into a control sequence: a control byte, a stray byte or a character. */
  datatype Noise = NoiseByte(b: Byte) | NoiseChar(c: Scalar)

  predicate NoiseOk(n: Noise) {
    match n
    case NoiseByte(b) =>
      || (b < 0x20 && b !in {0x0A, 0x0D, 0x18, 0x1A, 0x1B}) || b == 0x7F
      || (0x80 <= b <= 0xC1 && b != 0x9C) || 0xF5 <= b
    case NoiseChar(c) => c >= 0x80 && c != 0x9C
  }

  function NoiseBytes(n: Noise): seq<Byte> {
    match n
    case NoiseByte(b) => [b]
    case NoiseChar(c) => EncodeChar(c)
  }

  lemma NoiseSpoils(p: Parser, n: Noise, rest: seq<Byte>, color: bool)
    requires p.escape == TC.Csi && NoiseOk(n)
    ensures Tokens(p, NoiseBytes(n) + rest, color) == Tokens(p.(valid := false), rest, color)
  {
    hide Tokens;
    match n
    case NoiseByte(b) =>
      assert b >= 0x80 ==> DecodeChar([b] + rest).None?;
      SilentStep(p, [b], rest, color, p.(valid := false));
    case NoiseChar(c) =>
      DecodeEncoded(c, rest);
      assert (EncodeChar(c) + rest)[0] == EncodeChar(c)[0];
      SilentStep(p, EncodeChar(c), rest, color, p.(valid := false));
  }

  /** Past noise a control sequence runs to its end and leaves nothing. */
  lemma {:induction false} SpoiledRunsOut(p: Parser, params: seq<Byte>, final: Byte, rest: seq<Byte>, color: bool)
    requires p.escape == TC.Csi && !p.valid && ParameterBytes(params)
    requires 0x40 <= final <= 0x7E || final == 0x18 || final == 0x1A
    ensures Tokens(p, params + [final] + rest, color) == Line(rest, color)
    decreases |params|
  {
    hide Tokens;
    if params == [] {
      assert params + [final] + rest == [final] + rest;
      SilentStep(p, [final], rest, color, p.(escape := TC.Ground));
      GroundIsLine(p.(escape := TC.Ground), rest, color);
    } else {
      var tail := params[1..] + [final] + rest;
      assert params + [final] + rest == [params[0]] + tail;
      SilentStep(p, [params[0]], tail, color, p);
      SpoiledRunsOut(p, params[1..], final, rest, color);
    }
  }

  lemma {:induction false} ReadTo(p: Parser, params: seq<Byte>, k: nat, tail: seq<Byte>, color: bool) returns (q: Parser)
    requires k <= |params| && ParameterBytes(params) && HasRead(p, params, k)
    ensures q.escape == TC.Csi && Tokens(p, params[k..] + tail, color) == Tokens(q, tail, color)
    decreases |params| - k
  {
    hide Tokens;
    var s := params[k..] + tail;
    if k == |params| {
      assert s == tail;
      q := p;
    } else {
      var rest := params[k + 1..] + tail;
      assert s == [params[k]] + rest;
      ReadOneMore(p, params, k, rest, color);
      var next := MoveOf(p, [params[k]] + rest, color).next;
      SilentStep(p, [params[k]], rest, color, next);
      q := ReadTo(next, params, k + 1, tail, color);
    }
  }

  lemma ControlReads(form: CE.Form, params: seq<Byte>, tail: seq<Byte>, color: bool) returns (q: Parser)
    requires ParameterBytes(params)
    ensures q.escape == TC.Csi && Line(CE.C1(form, 0x9B) + params + tail, color) == Tokens(q, tail, color)
  {
    hide Tokens;
    assert CE.C1(form, 0x9B) + params + tail == CE.C1(form, 0x9B) + (params + tail);
    IntroducerEnters(INITIAL, form, 0x9B, params + tail, color);
    var p := Parser(TC.Csi, [], 0, true);
    assert params[..0] == [] && params[0..] == params;
    assert HasRead(p, params, 0);
    q := ReadTo(p, params, 0, tail, color);
  }

  /** A control sequence with noise in it leaves nothing, however it ends. */
  lemma SpoiledControlVanishes(form: CE.Form, before: seq<Byte>, n: Noise, after: seq<Byte>, final: Byte, rest: seq<Byte>, color: bool)
    requires ParameterBytes(before) && NoiseOk(n) && ParameterBytes(after)
    requires 0x40 <= final <= 0x7E || final == 0x18 || final == 0x1A
    ensures Line(CE.C1(form, 0x9B) + before + NoiseBytes(n) + after + [final] + rest, color) == Line(rest, color)
  {
    hide Tokens;
    hide NoiseBytes;
    var tail := after + [final] + rest;
    assert CE.C1(form, 0x9B) + before + NoiseBytes(n) + after + [final] + rest
        == CE.C1(form, 0x9B) + before + (NoiseBytes(n) + tail);
    var q := ControlReads(form, before, NoiseBytes(n) + tail, color);
    NoiseSpoils(q, n, tail, color);
    SpoiledRunsOut(q.(valid := false), after, final, rest, color);
  }

  /** ST ends a control sequence, as a byte and as a character, and leaves nothing. */
  lemma StEndsControl(form: CE.Form, params: seq<Byte>, st: CE.Form, rest: seq<Byte>, color: bool)
    requires ParameterBytes(params) && st != CE.EscForm
    ensures Line(CE.C1(form, 0x9B) + params + CE.C1(st, 0x9C) + rest, color) == Line(rest, color)
  {
    hide Tokens;
    var tail := CE.C1(st, 0x9C) + rest;
    assert CE.C1(form, 0x9B) + params + CE.C1(st, 0x9C) + rest == CE.C1(form, 0x9B) + params + tail;
    var q := ControlReads(form, params, tail, color);
    var ground := q.(escape := TC.Ground);
    if st == CE.ByteForm {
      SilentStep(q, [0x9C], rest, color, ground);
    } else {
      CE.C1Decodes(0x9C, rest);
      SilentStep(q, [0xC2, 0x9C], rest, color, ground);
    }
    GroundIsLine(ground, rest, color);
  }

  // ---- Everything else ----

  predicate OneLine(text: seq<Scalar>) {
    forall i :: 0 <= i < |text| ==> text[i] != 0x0A && text[i] != 0x0D
  }

  lemma PayloadCharMoves(p: Parser, c: Scalar, rest: seq<Byte>, color: bool)
    requires p.escape == TC.Str && !TC.EndsString(c) && c != 0x0A && c != 0x0D
    ensures MoveOf(p, EncodeChar(c) + rest, color) == Move(|EncodeChar(c)|, p, [])
    ensures !EndsLine(EncodeChar(c)[0])
  {
    DecodeEncoded(c, rest);
    assert (EncodeChar(c) + rest)[0] == EncodeChar(c)[0];
  }

  lemma {:induction false} PayloadVanishes(p: Parser, payload: seq<Scalar>, rest: seq<Byte>, color: bool)
    requires p.escape == TC.Str && TC.IsPayload(payload) && OneLine(payload)
    ensures Tokens(p, EncodeText(payload) + rest, color) == Tokens(p, rest, color)
    decreases |payload|
  {
    hide Tokens;
    hide MoveOf;
    hide EncodeChar;
    if payload == [] {
      assert EncodeText(payload) + rest == rest;
    } else {
      var e, tail := EncodeChar(payload[0]), EncodeText(payload[1..]) + rest;
      assert EncodeText(payload) + rest == e + tail;
      PayloadCharMoves(p, payload[0], tail, color);
      SilentStep(p, e, tail, color, p);
      PayloadVanishes(p, payload[1..], rest, color);
    }
  }

  /** Inside a control string an escape with another letter than the backslash does not end it. */
  lemma EscapeInsideString(p: Parser, b: Byte, rest: seq<Byte>, color: bool)
    requires p.escape == TC.Str && b < 0x80 && b !in {0x0A, 0x0D, 0x5C}
    ensures Tokens(p, [0x1B, b] + rest, color) == Tokens(p, rest, color)
  {
    hide Tokens;
    var esc := p.(escape := TC.StrEsc);
    assert [0x1B, b] + rest == [0x1B] + ([b] + rest);
    SilentStep(p, [0x1B], [b] + rest, color, esc);
    SilentStep(esc, [b], rest, color, p);
  }

  lemma EndEnds(p: Parser, end: CE.End, rest: seq<Byte>, color: bool)
    requires p.escape == TC.Str && CE.EndOk(end)
    ensures Tokens(p, CE.EndBytes(end) + rest, color) == Line(rest, color)
  {
    hide Tokens;
    hide Line;
    var ground := p.(escape := TC.Ground);
    GroundIsLine(ground, rest, color);
    match end
    case Bel => SilentStep(p, [0x07], rest, color, ground);
    case Cancel(b) => SilentStep(p, [b], rest, color, ground);
    case St(form) =>
      match form {
        case EscForm =>
          var esc := p.(escape := TC.StrEsc);
          assert CE.EndBytes(end) + rest == [0x1B] + ([0x5C] + rest);
          SilentStep(p, [0x1B], [0x5C] + rest, color, esc);
          SilentStep(esc, [0x5C], rest, color, ground);
        case ByteForm => SilentStep(p, [0x9C], rest, color, ground);
        case CharForm =>
          CE.C1Decodes(0x9C, rest);
          SilentStep(p, [0xC2, 0x9C], rest, color, ground);
      }
  }

  lemma StringVanishes(form: CE.Form, code: Byte, payload: seq<Scalar>, end: CE.End, rest: seq<Byte>, color: bool)
    requires code in {0x90, 0x98, 0x9D, 0x9E, 0x9F} && TC.IsPayload(payload) && OneLine(payload) && CE.EndOk(end)
    ensures Line(CE.C1(form, code) + EncodeText(payload) + CE.EndBytes(end) + rest, color) == Line(rest, color)
  {
    hide Tokens;
    hide EncodeText;
    var tail := CE.EndBytes(end) + rest;
    assert CE.C1(form, code) + EncodeText(payload) + CE.EndBytes(end) + rest == CE.C1(form, code) + (EncodeText(payload) + tail);
    IntroducerEnters(INITIAL, form, code, EncodeText(payload) + tail, color);
    var p := Entered(INITIAL, code);
    PayloadVanishes(p, payload, tail, color);
    EndEnds(p, end, rest, color);
  }

  lemma {:induction false} IntermediatesVanish(p: Parser, intermediates: seq<Byte>, rest: seq<Byte>, color: bool)
    requires p.escape == TC.Esc
    requires forall i :: 0 <= i < |intermediates| ==> intermediates[i] in {0x20, 0x21, 0x22, 0x23, 0x24, 0x25, 0x26, 0x27, 0x2C}
    ensures Tokens(p, intermediates + rest, color) == Tokens(p, rest, color)
    decreases |intermediates|
  {
    hide Tokens;
    if intermediates == [] {
      assert intermediates + rest == rest;
    } else {
      var tail := intermediates[1..] + rest;
      assert intermediates + rest == [intermediates[0]] + tail;
      SilentStep(p, [intermediates[0]], tail, color, p);
      IntermediatesVanish(p, intermediates[1..], rest, color);
    }
  }

  lemma EscapeVanishes(intermediates: seq<Byte>, final: Byte, rest: seq<Byte>, color: bool)
    requires CE.SequenceOk(CE.EscapeSequence(intermediates, final)) && final != 0x0A && final != 0x0D
    ensures Line([0x1B] + intermediates + [final] + rest, color) == Line(rest, color)
  {
    hide Tokens;
    var esc := INITIAL.(escape := TC.Esc);
    var tail := intermediates + ([final] + rest);
    assert [0x1B] + intermediates + [final] + rest == [0x1B] + tail;
    SilentStep(INITIAL, [0x1B], tail, color, esc);
    IntermediatesVanish(esc, intermediates, [final] + rest, color);
    SilentStep(esc, [final], rest, color, INITIAL);
  }

  lemma CharsetVanishes(designator: Byte, charset: Byte, rest: seq<Byte>, color: bool)
    requires CE.SequenceOk(CE.CharsetSelection(designator, charset)) && charset != 0x0A && charset != 0x0D
    ensures Line([0x1B, designator, charset] + rest, color) == Line(rest, color)
  {
    hide Tokens;
    var esc, sel := INITIAL.(escape := TC.Esc), INITIAL.(escape := TC.Charset);
    assert [0x1B, designator, charset] + rest == [0x1B] + ([designator] + ([charset] + rest));
    SilentStep(INITIAL, [0x1B], [designator] + ([charset] + rest), color, esc);
    SilentStep(esc, [designator], [charset] + rest, color, sel);
    SilentStep(sel, [charset], rest, color, INITIAL);
  }

  lemma SingleVanishes(form: CE.Form, code: Byte, rest: seq<Byte>, color: bool)
    requires CE.SequenceOk(CE.Single(form, code)) || (form == CE.ByteForm && code == 0x09)
    ensures Line((if code < 0x80 then [code] else CE.C1(form, code)) + rest, color) == Line(rest, color)
  {
    hide Tokens;
    if form == CE.ByteForm {
      SilentStep(INITIAL, [code], rest, color, INITIAL);
    } else {
      CE.C1Decodes(code, rest);
      SilentStep(INITIAL, [0xC2, code], rest, color, INITIAL);
    }
  }

  /** Of two escapes the first means nothing, and before a C1 introducer an escape means nothing. */
  lemma EscapeBeforeIntroducer(b: Byte, rest: seq<Byte>, color: bool)
    requires b in {0x1B, 0x90, 0x98, 0x9B, 0x9D, 0x9E, 0x9F}
    ensures Line([0x1B, b] + rest, color) == Line([b] + rest, color)
  {
    hide Tokens;
    var esc := INITIAL.(escape := TC.Esc);
    var next := if b == 0x1B then esc else Entered(INITIAL, b);
    var late := if b == 0x1B then esc else Entered(esc, b);
    assert [0x1B, b] + rest == [0x1B] + ([b] + rest);
    SilentStep(INITIAL, [0x1B], [b] + rest, color, esc);
    SilentStep(esc, [b], rest, color, late);
    SilentStep(INITIAL, [b], rest, color, next);
    TokensAgree(late, next, rest, color);
  }

  /** An escape inside a control sequence abandons it and begins anew. */
  lemma EscapeRestartsControl(form: CE.Form, params: seq<Byte>, rest: seq<Byte>, color: bool)
    requires ParameterBytes(params)
    ensures Line(CE.C1(form, 0x9B) + params + [0x1B] + rest, color) == Line([0x1B] + rest, color)
  {
    hide Tokens;
    var tail := [0x1B] + rest;
    assert CE.C1(form, 0x9B) + params + [0x1B] + rest == CE.C1(form, 0x9B) + params + tail;
    var q := ControlReads(form, params, tail, color);
    var esc, mid := INITIAL.(escape := TC.Esc), q.(escape := TC.Esc);
    SilentStep(q, [0x1B], rest, color, mid);
    SilentStep(INITIAL, [0x1B], rest, color, esc);
    TokensAgree(mid, esc, rest, color);
  }

  /** A sequence other than a control sequence, all on one line. */
  predicate OnOneLine(q: CE.Sequence) {
    match q
    case Control(_, _, _) => false
    case ControlString(_, _, payload, _) => OneLine(payload)
    case EscapeSequence(_, final) => final != 0x0A && final != 0x0D
    case CharsetSelection(_, charset) => charset != 0x0A && charset != 0x0D
    case Single(_, _) => true
  }

  /** Every other complete sequence leaves nothing. */
  lemma OtherSequenceVanishes(q: CE.Sequence, rest: seq<Byte>, color: bool)
    requires CE.SequenceOk(q) && OnOneLine(q)
    ensures Line(CE.SequenceBytes(q) + rest, color) == Line(rest, color)
  {
    hide Line;
    match q
    case ControlString(form, code, payload, end) => StringVanishes(form, code, payload, end, rest, color);
    case EscapeSequence(intermediates, final) => EscapeVanishes(intermediates, final, rest, color);
    case CharsetSelection(designator, charset) => CharsetVanishes(designator, charset, rest, color);
    case Single(form, code) => SingleVanishes(form, code, rest, color);
    case _ =>
  }

  // ---- Whole lines ----

  /** An item of a stream that fits on one status line. */
  predicate LineItem(i: CE.Item) {
    && CE.ItemOk(i)
    && (i.Letter? ==> !TC.IsControl(i.c))
    && (i.Escapes? ==> if i.q.Control? then ParameterBytes(i.q.params) else OnOneLine(i.q))
  }

  predicate LineItems(items: seq<CE.Item>) {
    forall i :: 0 <= i < |items| ==> LineItem(items[i])
  }

  function ItemTokens(i: CE.Item, color: bool): seq<Token> {
    match i
    case Letter(c) => [Text(c)]
    case Escapes(q) =>
      if color && q.Control? && q.final == 'm' as int && Bounded(q.params) then [Sgr(q.params)] else []
    case Stray(_) => [Text(0xFFFD)]
  }

  function StreamTokens(items: seq<CE.Item>, color: bool): seq<Token> {
    if items == [] then [] else ItemTokens(items[0], color) + StreamTokens(items[1..], color)
  }

  lemma LetterIsKept(c: Scalar, rest: seq<Byte>, color: bool)
    requires !TC.IsControl(c)
    ensures Line(EncodeChar(c) + rest, color) == [Text(c)] + Line(rest, color)
  {
    var s := EncodeChar(c) + rest;
    DecodeEncoded(c, rest);
    assert s[0] == EncodeChar(c)[0] && s[|EncodeChar(c)|..] == rest;
    assert MoveOf(INITIAL, s, color) == Move(|EncodeChar(c)|, INITIAL, [Text(c)]);
    hide Tokens;
    FirstMove(INITIAL, s, color);
  }

  lemma StrayIsReplaced(b: Byte, rest: seq<Byte>, color: bool)
    requires 0xA0 <= b <= 0xC1 || 0xF5 <= b
    ensures Line([b] + rest, color) == [Text(0xFFFD)] + Line(rest, color)
  {
    var s := [b] + rest;
    assert s[1..] == rest;
    assert MoveOf(INITIAL, s, color) == Move(1, INITIAL, [Text(REPLACEMENT)]);
    hide Tokens;
    FirstMove(INITIAL, s, color);
  }

  lemma OneItem(i: CE.Item, rest: seq<Byte>, color: bool)
    requires LineItem(i)
    ensures Line(CE.ItemBytes(i) + rest, color) == ItemTokens(i, color) + Line(rest, color)
  {
    hide Line;
    match i
    case Letter(c) => LetterIsKept(c, rest, color);
    case Escapes(q) =>
      if q.Control? {
        ControlSequenceExactly(q.form, q.params, q.final, rest, color);
      } else {
        OtherSequenceVanishes(q, rest, color);
        var t := Line(rest, color);
        assert [] + t == t;
      }
    case Stray(b) => StrayIsReplaced(b, rest, color);
  }

  /**
   The tokens of a line of characters, complete sequences and stray bytes: its
   characters, with U+FFFD for each stray byte, and of all the sequences exactly the
   SGRs within their bounds, when colour is on.
   */
  lemma {:induction false} LineIsItsTokens(items: seq<CE.Item>, color: bool)
    requires CE.ItemsOk(items) && LineItems(items)
    ensures Line(CE.StreamBytes(items), color) == StreamTokens(items, color)
    decreases |items|
  {
    hide CE.ItemBytes;
    hide ItemTokens;
    if items != [] {
      hide Line;
      assert LineItem(items[0]);
      OneItem(items[0], CE.StreamBytes(items[1..]), color);
      LineIsItsTokens(items[1..], color);
    }
  }
}
