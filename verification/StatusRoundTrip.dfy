/**
 The status-line sanitizer loses nothing it is meant to keep: a line of safe text and
 bounded SGR sequences passes unchanged, whatever the order of text and colours.
 */
module StatusRoundTrip {
  import opened Common
  import opened Utf8
  import TC = TerminalCapture
  import opened StatusLine
  import opened StatusSplit

  lemma {:induction false} CountGrows(params: seq<Byte>, k: nat)
    requires k <= |params|
    ensures CountSemicolons(params[..k]) <= CountSemicolons(params)
    decreases |params| - k
  {
    if k < |params| {
      CountGrows(params, k + 1);
      assert params[..k + 1][..k] == params[..k];
    } else {
      assert params[..k] == params;
    }
  }

  /** The parser in the middle of a control sequence. */
  function Reading(params: seq<Byte>): Parser {
    Parser(TC.Csi, params, CountSemicolons(params), true)
  }

  lemma ParameterIsRead(params: seq<Byte>, k: nat, tail: seq<Byte>)
    requires SgrOk(params) && k < |params|
    ensures MoveOf(Reading(params[..k]), [params[k]] + tail, true) == Move(1, Reading(params[..k + 1]), [])
    ensures !EndsLine(params[k])
  {
    CountGrows(params, k + 1);
    assert params[..k + 1][..k] == params[..k] && params[..k + 1] == params[..k] + [params[k]];
  }

  lemma {:induction false} ParametersAreRead(params: seq<Byte>, k: nat, rest: seq<Byte>)
    requires SgrOk(params) && k <= |params|
    ensures Tokens(Reading(params[..k]), params[k..] + [0x6D] + rest, true)
         == [Sgr(params)] + Tokens(Reading(params).(escape := TC.Ground), rest, true)
    decreases |params| - k
  {
    var s := params[k..] + [0x6D] + rest;
    if k == |params| {
      assert params[..k] == params && s[0] == 0x6D && s[1..] == rest;
    } else {
      var tail := params[k + 1..] + [0x6D] + rest;
      assert s == [params[k]] + tail && s[1..] == tail;
      ParameterIsRead(params, k, tail);
      hide MoveOf;
      ParametersAreRead(params, k + 1, rest);
      assert Tokens(Reading(params[..k]), s, true) == [] + Tokens(Reading(params[..k + 1]), s[1..], true);
    }
  }

  lemma SgrPasses(p: Parser, params: seq<Byte>, rest: seq<Byte>)
    requires p.escape == TC.Ground && SgrOk(params)
    ensures Tokens(p, EncodeToken(Sgr(params)) + rest, true)
         == [Sgr(params)] + Tokens(Reading(params).(escape := TC.Ground), rest, true)
  {
    var s := EncodeToken(Sgr(params)) + rest;
    var body := params + [0x6D] + rest;
    assert s[0] == 0x1B && s[1] == 0x5B && s[2..] == body;
    var esc := p.(escape := TC.Esc);
    assert MoveOf(p, s, true) == Move(1, esc, []);
    assert s[1..][0] == 0x5B && s[1..][1..] == body;
    assert MoveOf(esc, s[1..], true) == Move(1, Reading([]), []) by { NothingIsOk(); }
    hide MoveOf;
    assert Tokens(p, s, true) == Tokens(esc, s[1..], true);
    assert Tokens(esc, s[1..], true) == Tokens(Reading([]), body, true);
    ParametersAreRead(params, 0, rest);
    assert params[..0] == [] && params[0..] == params;
  }

  lemma TextMove(p: Parser, c: Scalar, rest: seq<Byte>)
    requires p.escape == TC.Ground && !TC.IsControl(c)
    ensures MoveOf(p, EncodeChar(c) + rest, true) == Move(|EncodeChar(c)|, p, [Text(c)])
    ensures !EndsLine((EncodeChar(c) + rest)[0])
  {
    DecodeEncoded(c, rest);
    assert (EncodeChar(c) + rest)[0] == EncodeChar(c)[0];
  }

  lemma TextPasses(p: Parser, c: Scalar, rest: seq<Byte>)
    requires p.escape == TC.Ground && !TC.IsControl(c)
    ensures Tokens(p, EncodeChar(c) + rest, true) == [Text(c)] + Tokens(p, rest, true)
  {
    hide MoveOf;
    TextMove(p, c, rest);
    var s := EncodeChar(c) + rest;
    assert s[|EncodeChar(c)|..] == rest;
  }

  /** Safe text and bounded SGR come out as they went in. */
  lemma {:induction false} TokensPass(p: Parser, tokens: seq<Token>)
    requires p.escape == TC.Ground && TokensOk(tokens)
    ensures Tokens(p, EncodeTokens(tokens), true) == tokens
    decreases |tokens|
  {
    hide Tokens;
    hide EncodeTokens;
    hide EncodeToken;
    hide EncodeChar;
    hide TokenOk;
    if tokens == [] {
      NothingPasses(p);
    } else {
      var t, rest := tokens[0], tokens[1..];
      var tail := EncodeTokens(rest);
      assert TokenOk(t) && TokensOk(rest);
      TokenUnfolds(tokens);
      if t.Text? {
        assert !TC.IsControl(t.c) by { KnownOk(t); }
        TextPasses(p, t.c, tail);
        TokensPass(p, rest);
      } else {
        assert SgrOk(t.params) by { KnownOk(t); }
        SgrPasses(p, t.params, tail);
        TokensPass(Reading(t.params).(escape := TC.Ground), rest);
      }
      assert [t] + rest == tokens;
    }
  }

  lemma NothingPasses(p: Parser)
    ensures Tokens(p, EncodeTokens([]), true) == []
  {
  }

  lemma KnownOk(t: Token)
    requires TokenOk(t)
    ensures t.Text? ==> !TC.IsControl(t.c)
    ensures t.Sgr? ==> SgrOk(t.params)
  {
  }

  lemma TokenUnfolds(tokens: seq<Token>)
    requires tokens != []
    ensures EncodeTokens(tokens) == EncodeToken(tokens[0]) + EncodeTokens(tokens[1..])
    ensures tokens[0].Text? ==> EncodeToken(tokens[0]) == EncodeChar(tokens[0].c)
    ensures tokens[0].Sgr? ==> EncodeToken(tokens[0]) == EncodeToken(Sgr(tokens[0].params))
  {
  }

  /** A sanitized line sanitized again is itself, but for one more reset when it has colour. */
  lemma SanitizingAgain(bytes: seq<Byte>)
    ensures var once := LineTokens(bytes, true);
      LineTokens(EncodeText(Render(once)), true) == if HasSgr(once) then once + [RESET] else once
  {
    hide Tokens;
    var once := LineTokens(bytes, true);
    StatusLineIsSafe(bytes, true);
    RenderedTokensEncode(once);
    TokensPass(INITIAL, once);
  }

  /** Without colour, sanitizing keeps exactly the text of such a line. */
  lemma ColourOffKeepsTheText(tokens: seq<Token>)
    requires TokensOk(tokens)
    ensures Tokens(INITIAL, EncodeTokens(tokens), false) == TextOf(tokens)
  {
    hide Tokens;
    TokensPass(INITIAL, tokens);
    ColourOffIsColourErased(INITIAL, EncodeTokens(tokens));
  }
}
