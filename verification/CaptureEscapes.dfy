/**
 What a stream of text and complete escape sequences looks like, and that the capture of
 such a stream is exactly its text. Sequences are given by their own grammar: control
 sequences, control strings, escape sequences, charset selections and single control
 characters, with C1 introducers written as ESC and a letter, as one byte or as UTF-8.
 */
module CaptureEscapes {
  import opened Common
  import opened Utf8
  import opened TerminalCapture

  /** The three ways to write a C1 control. */
  datatype Form = EscForm | ByteForm | CharForm

  function C1(form: Form, code: Byte): (b: seq<Byte>)
    requires 0x80 <= code <= 0x9F
  {
    match form
    case EscForm => [0x1B, code - 0x40]
    case ByteForm => [code]
    case CharForm => [0xC2, code]
  }

  /** How a control string ends: BEL, ST, or cancelled by CAN or SUB. */
  datatype End = Bel | St(form: Form) | Cancel(b: Byte)

  datatype Sequence =
    | Control(form: Form, params: seq<Byte>, final: Byte)
    | ControlString(form: Form, code: Byte, payload: seq<Scalar>, end: End)
    | EscapeSequence(intermediates: seq<Byte>, final: Byte)
    | CharsetSelection(designator: Byte, charset: Byte)
    | Single(form: Form, code: Byte)

  /** Parameter and intermediate bytes, and controls that do not end the sequence. */
  predicate ParameterBytes(params: seq<Byte>) {
    forall i :: 0 <= i < |params| ==> (params[i] <= 0x3F && params[i] !in {0x18, 0x1A, 0x1B}) || params[i] == 0x7F
  }

  predicate Cancels(b: Byte) {
    b == 0x18 || b == 0x1A
  }

  predicate EndOk(end: End) {
    end.Cancel? ==> Cancels(end.b)
  }

  /** The letters that ESC turns into introducers. */
  predicate Introduces(b: Byte) {
    b in {'[' as int, ']' as int, 'P' as int, 'X' as int, '^' as int, '_' as int}
  }

  predicate SequenceOk(q: Sequence) {
    match q
    case Control(_, params, final) => ParameterBytes(params) && (0x40 <= final <= 0x7E || Cancels(final))
    case ControlString(_, code, payload, end) =>
      code in {0x90, 0x98, 0x9D, 0x9E, 0x9F} && IsPayload(payload) && EndOk(end)
    case EscapeSequence(intermediates, final) =>
      && (forall i :: 0 <= i < |intermediates| ==> intermediates[i] in {0x20, 0x21, 0x22, 0x23, 0x24, 0x25, 0x26, 0x27, 0x2C})
      && !(0x20 <= final <= 0x2F) && final != 0x1B && !Introduces(final)
      && final !in {0x90, 0x98, 0x9B, 0x9D, 0x9E, 0x9F}
    case CharsetSelection(designator, _) =>
      designator in {'(' as int, ')' as int, '*' as int, '+' as int, '-' as int, '.' as int, '/' as int}
    case Single(form, code) =>
      && (code >= 0x80 ==> code <= 0x9F && code !in {0x90, 0x98, 0x9B, 0x9D, 0x9E, 0x9F} && form != EscForm)
      && (code < 0x80 ==>
            form == ByteForm && (code == 0x7F || (code < 0x20 && code !in {0x09, 0x0A, 0x0D, 0x1B})))
  }

  function EndBytes(end: End): seq<Byte> {
    match end
    case Bel => [0x07]
    case St(form) => C1(form, 0x9C)
    case Cancel(b) => [b]
  }

  function SequenceBytes(q: Sequence): seq<Byte>
    requires SequenceOk(q)
  {
    match q
    case Control(form, params, final) => C1(form, 0x9B) + params + [final]
    case ControlString(form, code, payload, end) => C1(form, code) + EncodeText(payload) + EndBytes(end)
    case EscapeSequence(intermediates, final) => [0x1B] + intermediates + [final]
    case CharsetSelection(designator, charset) => [0x1B, designator, charset]
    case Single(form, code) => if code < 0x80 then [code] else C1(form, code)
  }

  // ---- One sequence ----

  /** A byte that only moves the machine on. */
  lemma RunOne(e: Escape, b: Byte, next: Escape, rest: seq<Byte>)
    requires MoveOf(e, [b] + rest) == Consume(1, next, [])
    ensures Run(e, [b] + rest) == Run(next, rest)
  {
    hide MoveOf;
    hide Run;
    RunStep(e, [b] + rest);
    assert ([b] + rest)[1..] == rest;
    var r := Run(next, rest);
    assert Prefixed([], r) == r;
  }

  /** A C1 control as a character: two bytes, one step. */
  lemma RunChar(e: Escape, code: Byte, next: Escape, rest: seq<Byte>)
    requires 0x80 <= code <= 0x9F
    requires MoveOf(e, [0xC2, code] + rest) == Consume(2, next, [])
    ensures Run(e, [0xC2, code] + rest) == Run(next, rest)
  {
    hide MoveOf;
    hide Run;
    RunStep(e, [0xC2, code] + rest);
    assert ([0xC2, code] + rest)[2..] == rest;
    var r := Run(next, rest);
    assert Prefixed([], r) == r;
  }

  lemma C1Decodes(code: Byte, rest: seq<Byte>)
    requires 0x80 <= code <= 0x9F
    ensures DecodeChar([0xC2, code] + rest) == Some((code, 2))
  {
    assert EncodeChar(code) == [0xC2, code];
    DecodeEncoded(code, rest);
  }

  /** Where an introducer leads. */
  function Target(code: Byte): Escape {
    if code == 0x9B then Csi
    else if code in {0x90, 0x98, 0x9D, 0x9E, 0x9F} then Str
    else Ground
  }

  lemma IntroducerEnters(form: Form, code: Byte, rest: seq<Byte>)
    requires code in {0x90, 0x98, 0x9B, 0x9D, 0x9E, 0x9F}
    ensures Run(Ground, C1(form, code) + rest) == Run(Target(code), rest)
  {
    hide Run;
    match form
    case EscForm =>
      var tail := [code - 0x40] + rest;
      assert C1(form, code) + rest == [0x1B] + tail;
      RunOne(Ground, 0x1B, Esc, tail);
      RunOne(Esc, code - 0x40, Target(code), rest);
    case ByteForm => RunOne(Ground, code, Target(code), rest);
    case CharForm =>
      C1Decodes(code, rest);
      RunChar(Ground, code, Target(code), rest);
  }

  lemma {:induction false} ParametersVanish(params: seq<Byte>, rest: seq<Byte>)
    requires ParameterBytes(params)
    ensures Run(Csi, params + rest) == Run(Csi, rest)
    decreases |params|
  {
    hide Run;
    if params == [] {
      assert params + rest == rest;
    } else {
      var tail := params[1..] + rest;
      assert params + rest == [params[0]] + tail;
      RunOne(Csi, params[0], Csi, tail);
      ParametersVanish(params[1..], rest);
    }
  }

  lemma ControlVanishes(form: Form, params: seq<Byte>, final: Byte, rest: seq<Byte>)
    requires ParameterBytes(params) && (0x40 <= final <= 0x7E || Cancels(final))
    ensures Run(Ground, C1(form, 0x9B) + params + [final] + rest) == Run(Ground, rest)
  {
    hide Run;
    var tail := params + ([final] + rest);
    assert C1(form, 0x9B) + params + [final] + rest == C1(form, 0x9B) + tail;
    IntroducerEnters(form, 0x9B, tail);
    ParametersVanish(params, [final] + rest);
    RunOne(Csi, final, Ground, rest);
  }

  lemma EndEnds(end: End, rest: seq<Byte>)
    requires EndOk(end)
    ensures Run(Str, EndBytes(end) + rest) == Run(Ground, rest)
  {
    hide Run;
    match end
    case Bel => RunOne(Str, 0x07, Ground, rest);
    case Cancel(b) => RunOne(Str, b, Ground, rest);
    case St(form) =>
      match form
      case EscForm =>
        assert EndBytes(end) + rest == [0x1B] + ([0x5C] + rest);
        RunOne(Str, 0x1B, StrEsc, [0x5C] + rest);
        RunOne(StrEsc, 0x5C, Ground, rest);
      case ByteForm => RunOne(Str, 0x9C, Ground, rest);
      case CharForm =>
        C1Decodes(0x9C, rest);
        RunChar(Str, 0x9C, Ground, rest);
  }

  lemma StringVanishes(form: Form, code: Byte, payload: seq<Scalar>, end: End, rest: seq<Byte>)
    requires code in {0x90, 0x98, 0x9D, 0x9E, 0x9F} && IsPayload(payload) && EndOk(end)
    ensures Run(Ground, C1(form, code) + EncodeText(payload) + EndBytes(end) + rest) == Run(Ground, rest)
  {
    hide Run;
    hide EncodeText;
    hide EndBytes;
    var tail := EndBytes(end) + rest;
    assert C1(form, code) + EncodeText(payload) + EndBytes(end) + rest == C1(form, code) + (EncodeText(payload) + tail);
    IntroducerEnters(form, code, EncodeText(payload) + tail);
    PayloadIsSwallowed(payload, tail);
    EndEnds(end, rest);
  }

  lemma {:induction false} IntermediatesVanish(intermediates: seq<Byte>, rest: seq<Byte>)
    requires forall i :: 0 <= i < |intermediates| ==> intermediates[i] in {0x20, 0x21, 0x22, 0x23, 0x24, 0x25, 0x26, 0x27, 0x2C}
    ensures Run(Esc, intermediates + rest) == Run(Esc, rest)
    decreases |intermediates|
  {
    hide Run;
    if intermediates == [] {
      assert intermediates + rest == rest;
    } else {
      var tail := intermediates[1..] + rest;
      assert intermediates + rest == [intermediates[0]] + tail;
      RunOne(Esc, intermediates[0], Esc, tail);
      IntermediatesVanish(intermediates[1..], rest);
    }
  }

  lemma EscapeVanishes(intermediates: seq<Byte>, final: Byte, rest: seq<Byte>)
    requires SequenceOk(EscapeSequence(intermediates, final))
    ensures Run(Ground, [0x1B] + intermediates + [final] + rest) == Run(Ground, rest)
  {
    hide Run;
    var tail := intermediates + ([final] + rest);
    assert [0x1B] + intermediates + [final] + rest == [0x1B] + tail;
    RunOne(Ground, 0x1B, Esc, tail);
    IntermediatesVanish(intermediates, [final] + rest);
    RunOne(Esc, final, Ground, rest);
  }

  lemma CharsetVanishes(designator: Byte, charset: Byte, rest: seq<Byte>)
    requires SequenceOk(CharsetSelection(designator, charset))
    ensures Run(Ground, [0x1B, designator, charset] + rest) == Run(Ground, rest)
  {
    hide Run;
    assert [0x1B, designator, charset] + rest == [0x1B] + ([designator] + ([charset] + rest));
    RunOne(Ground, 0x1B, Esc, [designator] + ([charset] + rest));
    RunOne(Esc, designator, Charset, [charset] + rest);
    RunOne(Charset, charset, Ground, rest);
  }

  lemma SingleVanishes(form: Form, code: Byte, rest: seq<Byte>)
    requires SequenceOk(Single(form, code))
    ensures Run(Ground, SequenceBytes(Single(form, code)) + rest) == Run(Ground, rest)
  {
    hide Run;
    if form == ByteForm {
      RunOne(Ground, code, Ground, rest);
    } else {
      C1Decodes(code, rest);
      RunChar(Ground, code, Ground, rest);
    }
  }

  /** A complete sequence leaves nothing, whatever follows. */
  lemma SequenceVanishes(q: Sequence, rest: seq<Byte>)
    requires SequenceOk(q)
    ensures Run(Ground, SequenceBytes(q) + rest) == Run(Ground, rest)
  {
    hide Run;
    match q
    case Control(form, params, final) => ControlVanishes(form, params, final, rest);
    case ControlString(form, code, payload, end) => StringVanishes(form, code, payload, end, rest);
    case EscapeSequence(intermediates, final) => EscapeVanishes(intermediates, final, rest);
    case CharsetSelection(designator, charset) => CharsetVanishes(designator, charset, rest);
    case Single(form, code) => SingleVanishes(form, code, rest);
  }

  // ---- Whole streams ----

  /** A stream of characters, complete sequences and bytes that no character begins with. */
  datatype Item = Letter(c: Scalar) | Escapes(q: Sequence) | Stray(b: Byte)

  predicate ItemOk(i: Item) {
    match i
    case Letter(c) => (c >= 0x20 && !(0x7F <= c <= 0x9F)) || c == 9 || c == 10 || c == 13
    case Escapes(q) => SequenceOk(q)
    case Stray(b) => 0xA0 <= b <= 0xC1 || 0xF5 <= b
  }

  predicate ItemsOk(items: seq<Item>) {
    forall i :: 0 <= i < |items| ==> ItemOk(items[i])
  }

  function ItemBytes(i: Item): seq<Byte>
    requires ItemOk(i)
  {
    match i
    case Letter(c) => EncodeChar(c)
    case Escapes(q) => SequenceBytes(q)
    case Stray(b) => [b]
  }

  function ItemText(i: Item): seq<Scalar> {
    match i
    case Letter(c) => [c]
    case Escapes(_) => []
    case Stray(_) => [0xFFFD]
  }

  function StreamBytes(items: seq<Item>): seq<Byte>
    requires ItemsOk(items)
  {
    if items == [] then [] else ItemBytes(items[0]) + StreamBytes(items[1..])
  }

  /** What such a stream says: its characters, with U+FFFD for each stray byte. */
  function StreamText(items: seq<Item>): seq<Scalar> {
    if items == [] then [] else ItemText(items[0]) + StreamText(items[1..])
  }

  lemma OneItem(i: Item, rest: seq<Byte>)
    requires ItemOk(i)
    ensures Run(Ground, ItemBytes(i) + rest) == Prefixed(ItemText(i), Run(Ground, rest))
  {
    hide Run;
    var r := Run(Ground, rest);
    match i
    case Letter(c) =>
      SafeCharPasses(c, rest);
      RunStep(Ground, EncodeChar(c) + rest);
      assert (EncodeChar(c) + rest)[|EncodeChar(c)|..] == rest;
    case Escapes(q) =>
      SequenceVanishes(q, rest);
      assert Prefixed([], r) == r;
    case Stray(b) =>
      assert MoveOf(Ground, [b] + rest) == Consume(1, Ground, [REPLACEMENT]);
      RunStep(Ground, [b] + rest);
      assert ([b] + rest)[1..] == rest;
  }

  lemma {:induction false} StreamRuns(items: seq<Item>, rest: seq<Byte>)
    requires ItemsOk(items)
    ensures Run(Ground, StreamBytes(items) + rest) == Prefixed(StreamText(items), Run(Ground, rest))
    decreases |items|
  {
    hide Run;
    hide ItemOk;
    hide ItemBytes;
    hide ItemText;
    var r := Run(Ground, rest);
    if items == [] {
      assert StreamBytes(items) + rest == rest;
      assert Prefixed([], r) == r;
    } else {
      assert ItemOk(items[0]);
      var head, tail := ItemBytes(items[0]), StreamBytes(items[1..]);
      assert StreamBytes(items) + rest == head + (tail + rest);
      OneItem(items[0], tail + rest);
      StreamRuns(items[1..], rest);
      var a, b := ItemText(items[0]), StreamText(items[1..]);
      assert a + (b + r.out) == (a + b) + r.out;
    }
  }

  /** The capture of such a stream is exactly its text. */
  lemma CaptureIsTheText(items: seq<Item>)
    requires ItemsOk(items)
    ensures CaptureAll(StreamBytes(items)) == StreamText(items)
  {
    hide StreamText;
    StreamRuns(items, []);
    var bytes := StreamBytes(items);
    assert bytes + [] == bytes;
    assert Run(Ground, []) == Capture([], Ground, []);
    assert StreamText(items) + [] == StreamText(items);
  }

  /** Inserting a complete sequence after such a stream leaves the capture of anything unchanged. */
  lemma SequenceIsInvisible(items: seq<Item>, q: Sequence, rest: seq<Byte>)
    requires ItemsOk(items) && SequenceOk(q)
    ensures CaptureAll(StreamBytes(items) + SequenceBytes(q) + rest) == CaptureAll(StreamBytes(items) + rest)
  {
    hide Run;
    hide StreamBytes;
    hide SequenceBytes;
    hide StreamText;
    var a, b := StreamBytes(items), SequenceBytes(q);
    StreamRuns(items, b + rest);
    StreamRuns(items, rest);
    SequenceVanishes(q, rest);
    assert a + b + rest == a + (b + rest);
  }

  // ---- Interrupted and malformed input ----

  /** An escape inside a control sequence abandons it and begins anew. */
  lemma EscapeRestartsControl(form: Form, params: seq<Byte>, rest: seq<Byte>)
    requires ParameterBytes(params)
    ensures Run(Ground, C1(form, 0x9B) + params + [0x1B] + rest) == Run(Ground, [0x1B] + rest)
  {
    hide Run;
    var tail := params + ([0x1B] + rest);
    assert C1(form, 0x9B) + params + [0x1B] + rest == C1(form, 0x9B) + tail;
    IntroducerEnters(form, 0x9B, tail);
    ParametersVanish(params, [0x1B] + rest);
    RunOne(Csi, 0x1B, Esc, rest);
    RunOne(Ground, 0x1B, Esc, rest);
  }

  /** Of two escapes the first means nothing, and before a C1 introducer an escape means nothing. */
  lemma EscapeBeforeIntroducer(b: Byte, rest: seq<Byte>)
    requires b in {0x1B, 0x90, 0x98, 0x9B, 0x9D, 0x9E, 0x9F}
    ensures Run(Ground, [0x1B, b] + rest) == Run(Ground, [b] + rest)
  {
    hide Run;
    var next := if b == 0x1B then Esc else Target(b);
    assert [0x1B, b] + rest == [0x1B] + ([b] + rest);
    RunOne(Ground, 0x1B, Esc, [b] + rest);
    RunOne(Esc, b, next, rest);
    RunOne(Ground, b, next, rest);
  }

  /** Inside a control string an escape with another letter than the backslash does not end it. */
  lemma EscapeInsideString(b: Byte, rest: seq<Byte>)
    requires b < 0x80 && b != '\\' as int
    ensures Run(Str, [0x1B, b] + rest) == Run(Str, rest)
  {
    hide Run;
    assert [0x1B, b] + rest == [0x1B] + ([b] + rest);
    RunOne(Str, 0x1B, StrEsc, [b] + rest);
    RunOne(StrEsc, b, Str, rest);
  }

  /** A character inside a control sequence or control string, other than ST, is swallowed. */
  lemma CharactersAreSwallowed(c: Scalar, rest: seq<Byte>)
    requires c >= 0x80 && c != 0x9C
    ensures Run(Csi, EncodeChar(c) + rest) == Run(Csi, rest)
    ensures Run(Str, EncodeChar(c) + rest) == Run(Str, rest)
    ensures Run(StrEsc, EncodeChar(c) + rest) == Run(Str, rest)
  {
    hide Run;
    var e := EncodeChar(c);
    DecodeEncoded(c, rest);
    assert (e + rest)[0] == e[0] && (e + rest)[|e|..] == rest;
    RunStep(Csi, e + rest);
    RunStep(Str, e + rest);
    RunStep(StrEsc, e + rest);
    assert Prefixed([], Run(Csi, rest)) == Run(Csi, rest);
    assert Prefixed([], Run(Str, rest)) == Run(Str, rest);
  }

  /** A first byte whose character breaks off before an ASCII byte counts as one U+FFFD. */
  lemma BrokenCharacterIsReplaced(lead: Byte, next: Byte, rest: seq<Byte>)
    requires 0xC2 <= lead <= 0xF4 && next < 0x80 && |rest| >= 2
    ensures Run(Ground, [lead, next] + rest) == Prefixed([0xFFFD], Run(Ground, [next] + rest))
  {
    hide Run;
    var s := [lead, next] + rest;
    BrokenDecodesToNothing(s);
    hide DecodeChar;
    RunStep(Ground, s);
    assert s[1..] == [next] + rest;
  }

  lemma BrokenDecodesToNothing(s: seq<Byte>)
    requires |s| >= 4 && 0xC2 <= s[0] <= 0xF4 && s[1] < 0x80
    ensures DecodeChar(s).None? && !Incomplete(s)
  {
    var w := CharWidth(s[0]).value;
    assert s[..w][1] == s[1];
  }

  lemma CutIsIncomplete(c: Scalar, k: nat)
    requires 0 < k < |EncodeChar(c)|
    ensures Run(Ground, EncodeChar(c)[..k]) == Capture([], Ground, EncodeChar(c)[..k])
  {
    var e := EncodeChar(c)[..k];
    assert e[0] == EncodeChar(c)[0] && Incomplete(e);
    assert e[0] >= 0xC2;
    assert DecodeChar(e).None?;
    RunStops(Ground, e);
  }

  /** A stream that ends inside a character is its text and one U+FFFD, however much of the character came. */
  lemma CutCharacterIsOneReplacement(items: seq<Item>, c: Scalar, k: nat)
    requires ItemsOk(items) && 0 < k < |EncodeChar(c)|
    ensures CaptureAll(StreamBytes(items) + EncodeChar(c)[..k]) == StreamText(items) + [0xFFFD]
  {
    hide Run;
    hide StreamBytes;
    hide StreamText;
    StreamRuns(items, EncodeChar(c)[..k]);
    CutIsIncomplete(c, k);
  }
}
