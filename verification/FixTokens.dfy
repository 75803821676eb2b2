/**
 `fix` against TOML's own reading of strings: when the span that `valueSpan` finds is TOML's
 value, and when TOML reads the replacement, and nothing else, where the value stood.
 */
module FixTokens {
  import opened JsText
  import opened Wrappers
  import opened BasicStrings
  import opened Fix
  import opened FixLines
  import opened FixRewrite
  import opened TomlStrings
  import FormatScan

  // ----- When the span is TOML's value -----

  /** How many backslashes stand right in front of `i`, back to `from`. */
  function Backslashes(s: string, from: nat, i: nat): nat
    requires from <= i <= |s|
    decreases i
  {
    if i > from && s[i - 1] == '\\' then 1 + Backslashes(s, from, i - 1) else 0
  }

  /** A date with a time behind it: `valueSpan` takes the date alone. */
  predicate DateBeforeTime(s: string, start: nat, end: nat)
    requires start <= end <= |s|
  {
    IsDate(s[start..end]) && end + 1 < |s| && s[end] == ' ' && IsDigit(s[end + 1])
  }

  /** The text between the quotes of a span, where it has any. */
  function Inside(s: string, span: Span): string {
    var n := match span.quote case Bare => 0 case Basic => 1 case Literal => 1 case _ => 3;
    if span.start + 2 * n <= span.end <= |s| then s[span.start + n..span.end - n] else ""
  }

  /** What stands between the quotes is what TOML allows there. */
  predicate Valid(s: string, span: Span) {
    var content := Inside(s, span);
    match span.quote
    case Basic => BasicContent(content)
    case Literal => NoControls(content)
    case TripleBasic => MultiContent(content)
    case TripleLiteral => OnlyLineBreaks(content)
    case Bare => true
  }

  /**
   The span is all of TOML's value: behind a multi-line string stands no further quote, and
   its closing quotes are not escaped; behind a date stands no time; and the string is valid.
   */
  predicate Exact(s: string, span: Span) {
    && Valid(s, span)
    && match span.quote
       case Basic => true
       case Literal => true
       case TripleBasic =>
         && span.start + 6 <= span.end <= |s|
         && !At(s, "\"", span.end) && Backslashes(s, span.start + 3, span.end - 3) % 2 == 0
       case TripleLiteral => !At(s, "'", span.end)
       case Bare => span.start <= span.end <= |s| && !DateBeforeTime(s, span.start, span.end)
  }

  /** The text from `v` to `limit` is the rest of one line. */
  ghost predicate OneLine(s: string, v: nat, limit: nat) {
    && v < limit <= |s| && (limit == |s| || s[limit - 1] == '\n')
    && forall j | v <= j < limit - 1 :: s[j] != '\n'
  }

  lemma {:induction false} SameQuote(s: string, limit: nat, i: nat)
    requires i <= limit <= |s| && FormatScan.BasicCloses(s[..limit], i)
    requires forall j | i <= j < limit - 1 :: s[j] != '\n'
    ensures FormatScan.BasicEnd(s[..limit], i) > i
    ensures BasicQuote(s, i) == Some(FormatScan.BasicEnd(s[..limit], i) - 1)
    decreases limit - i
  {
    if s[i] == '\\' {
      SameQuote(s, limit, i + 2);
    } else if s[i] != '"' {
      SameQuote(s, limit, i + 1);
    }
  }

  lemma {:induction false} FirstLiteralQuote(s: string, i: nat, close: nat)
    requires i <= close < |s| && s[close] == '\'' && forall j | i <= j < close :: s[j] != '\'' && s[j] != '\n'
    ensures LiteralQuote(s, i) == Some(close)
    decreases close - i
  {
    if i < close {
      FirstLiteralQuote(s, i + 1, close);
    }
  }

  /** The first three quotes close the string unless an odd number of backslashes stands in front of them. */
  lemma {:induction false} FirstTriple(s: string, i: nat, close: nat)
    requires i <= close && At(s, TRIPLE_BASIC, close) && forall j | i <= j < close :: !At(s, TRIPLE_BASIC, j)
    ensures if Backslashes(s, i, close) % 2 == 0 then BasicTriple(s, i) == Some(close)
            else BasicTriple(s, i).None? || BasicTriple(s, i).value > close
    decreases close - i
  {
    hide At;
    if i < close {
      assert |s| >= close + 3 by { TripleInside(s, close); }
      if s[i] == '\\' {
        if i + 2 <= close {
          FirstTriple(s, i + 2, close);
          SkipPair(s, i, close);
        } else {
          assert Backslashes(s, i, i) == 0;
        }
      } else {
        FirstTriple(s, i + 1, close);
        SkipPlain(s, i, close);
      }
    }
  }

  lemma TripleInside(s: string, close: nat)
    requires At(s, TRIPLE_BASIC, close)
    ensures close + 3 <= |s|
  {
  }

  lemma {:induction false} SkipPair(s: string, i: nat, close: nat)
    requires i + 2 <= close <= |s| && s[i] == '\\'
    ensures Backslashes(s, i, close) % 2 == Backslashes(s, i + 2, close) % 2
    decreases close
  {
    if close == i + 2 {
      assert Backslashes(s, i, i) == 0 && Backslashes(s, i, i + 1) == 1;
    } else if s[close - 1] == '\\' {
      SkipPair(s, i, close - 1);
    }
  }

  lemma {:induction false} SkipPlain(s: string, i: nat, close: nat)
    requires i < close <= |s| && s[i] != '\\'
    ensures Backslashes(s, i, close) == Backslashes(s, i + 1, close)
    decreases close
  {
    if close > i + 1 && s[close - 1] == '\\' {
      SkipPlain(s, i, close - 1);
    }
  }

  lemma OneQuote(s: string, q: char, i: nat)
    ensures At(s, [q], i) <==> i < |s| && s[i] == q
  {
    assert i < |s| ==> s[i..i + 1] == [s[i]];
  }

  /** The branch that read a one-line string. */
  lemma StringRead(s: string, limit: nat, span: Span)
    requires span.start < limit <= |s| && ValueAt(s, limit, span.start) == Some(span)
    requires span.quote == Basic || span.quote == Literal
    ensures if span.quote == Basic
            then s[span.start] == '"' && !At(s, TRIPLE_BASIC, span.start) && BasicAt(s, limit, span.start) == Some(span)
            else s[span.start] == '\'' && !At(s, TRIPLE_LITERAL, span.start) && LiteralAt(s, limit, span.start) == Some(span)
  {
    hide DecodeBasic, FormatScan.BasicCloses, FormatScan.BasicEnd, Find, At, BareEnd;
  }

  /** Three quotes of one kind do not start with a quote of the other. */
  lemma TripleStarts(s: string, v: nat)
    ensures At(s, TRIPLE_BASIC, v) ==> v < |s| && s[v] == '"'
    ensures At(s, TRIPLE_LITERAL, v) ==> v < |s| && s[v] == '\''
  {
    assert v + 3 <= |s| ==> s[v..v + 3][0] == s[v];
  }

  lemma StartsString(s: string, v: nat)
    requires v < |s| && (s[v] == '"' || s[v] == '\'') && !At(s, [s[v], s[v], s[v]], v)
    ensures StringToken(s, v) ==
      if s[v] == '"' then
        match BasicQuote(s, v + 1)
        case None => None
        case Some(close) => When(BasicContent(s[v + 1..close]), Token(close + 1, DecodeBasic(s[v + 1..close])))
      else
        match LiteralQuote(s, v + 1)
        case None => None
        case Some(close) => When(NoControls(s[v + 1..close]), Token(close + 1, s[v + 1..close]))
  {
    hide BasicQuote, LiteralQuote, DecodeBasic, DecodeMulti, Find, BasicTriple, At, BasicContent, MultiContent, NoControls;
    TripleStarts(s, v);
    OneQuote(s, '"', v);
    OneQuote(s, '\'', v);
  }

  lemma BasicToken(s: string, limit: nat, span: Span)
    requires OneLine(s, span.start, limit) && s[span.start] == '"' && !At(s, TRIPLE_BASIC, span.start)
    requires BasicAt(s, limit, span.start) == Some(span)
    ensures TokenEnd(s, span.start) == Some(span.end) <==> Exact(s, span)
  {
    hide DecodeBasic, FormatScan.BasicCloses, FormatScan.BasicEnd, BasicQuote, StringToken, At, BasicContent;
    StartsString(s, span.start);
    SameQuote(s, limit, span.start + 1);
  }

  lemma LiteralToken(s: string, limit: nat, span: Span)
    requires OneLine(s, span.start, limit) && s[span.start] == '\'' && !At(s, TRIPLE_LITERAL, span.start)
    requires LiteralAt(s, limit, span.start) == Some(span)
    ensures TokenEnd(s, span.start) == Some(span.end) <==> Exact(s, span)
  {
    hide LiteralQuote, StringToken, At, Find, NoControls;
    StartsString(s, span.start);
    LiteralFound(s, span.start + 1, span.end - 1);
  }

  lemma OneLineToken(s: string, limit: nat, v: nat, span: Span)
    requires OneLine(s, v, limit) && ValueAt(s, limit, v) == Some(span)
    requires span.quote == Basic || span.quote == Literal
    ensures TokenEnd(s, v) == Some(span.end) <==> Exact(s, span)
  {
    hide ValueAt, BasicAt, LiteralAt, TokenEnd, At, Exact;
    assert span.start == v;
    StringRead(s, limit, span);
    if span.quote == Basic {
      BasicToken(s, limit, span);
    } else {
      LiteralToken(s, limit, span);
    }
  }

  lemma LiteralFound(s: string, i: nat, close: nat)
    requires Find(s, "'", i) == Some(close) && forall j | i <= j < close :: s[j] != '\n'
    ensures LiteralQuote(s, i) == Some(close)
  {
    hide Find;
    assert At(s, "'", close);
    forall j | i <= j <= close ensures j < |s| && (s[j] == '\'' <==> j == close) {
      OneQuote(s, '\'', j);
      assert j < close ==> !At(s, "'", j);
    }
    FirstLiteralQuote(s, i, close);
  }

  /** The branch that read a multi-line string. */
  lemma TripleRead(s: string, limit: nat, v: nat, span: Span)
    requires v < limit <= |s| && ValueAt(s, limit, v) == Some(span)
    requires span.quote == TripleBasic || span.quote == TripleLiteral
    ensures var triple := if span.quote == TripleBasic then TRIPLE_BASIC else TRIPLE_LITERAL;
      && s[v] == triple[0] && At(s, triple, v) && span.start == v
      && Find(s, triple, v + 3).Some? && span.end == Find(s, triple, v + 3).value + 3
  {
    hide DecodeBasic, FormatScan.BasicCloses, FormatScan.BasicEnd, Find, At, BareEnd;
  }

  lemma TripleBasicToken(s: string, v: nat, close: nat)
    requires v < |s| && s[v] == '"' && At(s, TRIPLE_BASIC, v) && Find(s, TRIPLE_BASIC, v + 3) == Some(close)
    ensures close + 3 <= |s|
    ensures v + 3 <= close
    ensures TokenEnd(s, v) == Some(close + 3) <==>
      !At(s, "\"", close + 3) && Backslashes(s, v + 3, close) % 2 == 0 && MultiContent(s[v + 3..close])
  {
    hide MultiContent, DecodeMulti, Find, BasicTriple, Backslashes, At;
    TripleInside(s, close);
    FirstTriple(s, v + 3, close);
    OneQuote(s, '"', close + 3);
  }

  lemma TripleLiteralToken(s: string, v: nat, close: nat)
    requires v < |s| && s[v] == '\'' && At(s, TRIPLE_LITERAL, v) && Find(s, TRIPLE_LITERAL, v + 3) == Some(close)
    ensures v + 3 <= close && close + 3 <= |s|
    ensures TokenEnd(s, v) == Some(close + 3) <==> !At(s, "'", close + 3) && OnlyLineBreaks(s[v + 3..close])
  {
    hide Find, At, OnlyLineBreaks;
    FindBound(s, TRIPLE_LITERAL, v + 3);
    TripleStarts(s, v);
    OneQuote(s, '\'', close + 3);
  }

  lemma TripleToken(s: string, limit: nat, v: nat, span: Span)
    requires OneLine(s, v, limit) && ValueAt(s, limit, v) == Some(span)
    requires span.quote == TripleBasic || span.quote == TripleLiteral
    ensures TokenEnd(s, v) == Some(span.end) <==> Exact(s, span)
  {
    hide ValueAt, TokenEnd, Find, At, Backslashes, MultiContent, OnlyLineBreaks;
    TripleRead(s, limit, v, span);
    if span.quote == TripleBasic {
      TripleBasicToken(s, v, span.end - 3);
    } else {
      TripleLiteralToken(s, v, span.end - 3);
    }
  }

  lemma {:induction false} BareEndPastLine(s: string, limit: nat, i: nat)
    requires i < limit <= |s| && (limit == |s| || s[limit - 1] == '\n')
    ensures BareEnd(s, limit, i) == BareEnd(s, |s|, i)
    decreases limit - i
  {
    if !IsGap(s[i]) && s[i] != '#' && i + 1 < limit {
      BareEndPastLine(s, limit, i + 1);
    }
  }

  lemma BareToken(s: string, limit: nat, v: nat, span: Span)
    requires OneLine(s, v, limit) && ValueAt(s, limit, v) == Some(span) && span.quote == Bare
    ensures TokenEnd(s, v) == Some(span.end) <==> Exact(s, span)
  {
    hide DecodeBasic, FormatScan.BasicCloses, FormatScan.BasicEnd, Find, BareEnd, IsDate, At, TripleAt;
    BareEndPastLine(s, limit, v);
    assert s[v] != '"' && s[v] != '\'' by { BareStarts(s, limit, v, span); }
    if DateBeforeTime(s, v, span.end) {
      BareGoesOn(s, span.end + 1);
    }
  }

  lemma BareStarts(s: string, limit: nat, v: nat, span: Span)
    requires v < limit <= |s| && ValueAt(s, limit, v) == Some(span) && span.quote == Bare
    ensures s[v] != '"' && s[v] != '\'' && span.start == v && span.end == BareEnd(s, limit, v)
  {
    hide DecodeBasic, FormatScan.BasicCloses, FormatScan.BasicEnd, Find, BareEnd;
  }

  lemma BareGoesOn(s: string, i: nat)
    requires i < |s| && IsDigit(s[i])
    ensures BareEnd(s, |s|, i) > i
  {
  }

  /** The span that `valueSpan` finds is TOML's value exactly when no quote and no time goes on behind it. */
  lemma SpanIsToken(s: string, limit: nat, v: nat)
    requires OneLine(s, v, limit) && ValueAt(s, limit, v).Some?
    ensures TokenEnd(s, v) == Some(ValueAt(s, limit, v).value.end) <==> Exact(s, ValueAt(s, limit, v).value)
  {
    hide TokenEnd, ValueAt, Exact;
    var span := ValueAt(s, limit, v).value;
    match span.quote {
      case Basic => OneLineToken(s, limit, v, span);
      case Literal => OneLineToken(s, limit, v, span);
      case Bare => BareToken(s, limit, v, span);
      case _ => TripleToken(s, limit, v, span);
    }
  }

  // ----- When TOML reads the replacement -----

  /** The quote that `encodeValue` writes. */
  function WrittenQuote(style: QuoteStyle, replacement: string): char {
    if style == Literal && '\'' !in replacement then '\'' else '"'
  }

  /** No quote behind an empty replacement makes it open a multi-line string, and a literal one has no control characters. */
  predicate Reads(s: string, end: nat, style: QuoteStyle, replacement: string) {
    var q := WrittenQuote(style, replacement);
    && (replacement == "" ==> !At(s, [q], end))
    && (q == '\'' ==> NoControls(replacement))
  }

  /** A string token that opens with three quotes ends behind six at least. */
  lemma TripleIsLong(s: string, v: nat, q: char)
    requires q == '"' || q == '\''
    requires At(s, [q, q, q], v)
    ensures StringToken(s, v).Some? ==> StringToken(s, v).value.end >= v + 6
  {
    hide At, BasicTriple, Find, DecodeMulti;
    assert [q, q, q] == if q == '"' then TRIPLE_BASIC else TRIPLE_LITERAL;
  }

  lemma TriplesOpen(pre: string, q: char, body: string, rest: string)
    requires body != "" ==> body[0] != q
    ensures At(pre + [q] + body + [q] + rest, [q, q, q], |pre|) <==> body == "" && At(rest, [q], 0)
  {
    OpensTriple(pre, q, body, rest);
  }

  lemma BasicWritten(pre: string, value: string, rest: string)
    ensures var s, text := pre + "\"" + EncodeBody(value) + "\"" + rest, "\"" + EncodeBody(value) + "\"";
      StringToken(s, |pre|) == Some(Token(|pre| + |text|, value)) <==> !(value == "" && At(rest, "\"", 0))
  {
    hide EncodeBody, DecodeBasic, At, BasicQuote, StringToken, FormatScan.BasicCloses, FormatScan.BasicEnd, Escapes;
    var body := EncodeBody(value);
    var s, t := pre + "\"" + body + "\"" + rest, pre + "\"" + body + "\"";
    EncodedIsPlain(value);
    TriplesOpen(pre, '"', body, rest);
    assert "\"" + "\"" + "\"" == ['"', '"', '"'];
    assert s[|pre|] == '"' && s[..|t|] == t;
    if At(s, ['"', '"', '"'], |pre|) {
      TripleIsLong(s, |pre|, '"');
    } else {
      StartsString(s, |pre|);
      EncodedCloses(pre + "\"", value);
      assert t == (pre + "\"") + body + "\"";
      forall j | |pre| + 1 <= j < |t| - 1 ensures s[j] != '\n' {
        assert s[j] == body[j - |pre| - 1] && s[j] in body;
      }
      SameQuote(s, |t|, |pre| + 1);
      assert s[|pre| + 1..|t| - 1] == body;
      DecodeOfEncode(value);
      EncodedIsValid(value);
    }
  }

  /** What `encodeBasic` writes is valid between quotes. */
  lemma EncodedIsValid(value: string)
    ensures BasicContent(EncodeBody(value))
  {
    hide EncodeBody, Escapes;
    EncodedIsPlain(value);
    EncodedEscapes(value);
  }

  lemma {:induction false} EncodedEscapes(value: string)
    ensures Escapes(EncodeBody(value), false)
  {
    hide EncodeChar;
    if value != "" {
      EncodedEscapes(value[1..]);
      CharEscapes(value[0], EncodeBody(value[1..]));
    }
  }

  lemma CharEscapes(c: char, rest: string)
    requires Escapes(rest, false)
    ensures Escapes(EncodeChar(c) + rest, false)
  {
    var s := EncodeChar(c) + rest;
    assert s[|EncodeChar(c)|..] == rest;
    if EncodeChar(c)[0] == '\\' {
      if |EncodeChar(c)| == 2 {
        assert s[1] in "btnfr\"\\" by { ShortEscape(c); }
      } else {
        LongEscape(c);
        assert s[2..6] == EncodeChar(c)[2..6];
      }
    }
  }

  lemma ShortEscape(c: char)
    requires |EncodeChar(c)| == 2
    ensures EncodeChar(c)[1] in "btnfr\"\\"
  {
    var e := "btnfr\"\\";
    assert e[0] == 'b' && e[1] == 't' && e[2] == 'n' && e[3] == 'f' && e[4] == 'r' && e[5] == '"' && e[6] == '\\';
  }

  lemma LongEscape(c: char)
    requires |EncodeChar(c)| > 2
    ensures |EncodeChar(c)| == 6 && EncodeChar(c)[1] == 'u' && EncodeChar(c)[1] !in "btnfr\"\\"
    ensures AllHex(EncodeChar(c)[2..6]) && IsScalar(ParseHex(EncodeChar(c)[2..6]))
  {
    var d := EncodeChar(c)[2..6];
    assert d == ['0', '0', d[2], d[3]];
    assert d[..3] == ['0', '0', d[2]] && d[..3][..2] == ['0', '0'] && d[..3][..2][..1] == ['0'];
    assert ParseHex(['0']) == 0 && ParseHex(['0', '0']) == 0;
    assert ParseHex(['0', '0', d[2]]) < 16;
    assert ParseHex(d) < 256;
  }

  lemma LiteralWritten(pre: string, value: string, rest: string)
    requires '\'' !in value
    ensures var s, text := pre + "'" + value + "'" + rest, "'" + value + "'";
      StringToken(s, |pre|) == Some(Token(|pre| + |text|, value)) <==> NoControls(value) && !(value == "" && At(rest, "'", 0))
  {
    hide At, LiteralQuote, StringToken;
    var s := pre + "'" + value + "'" + rest;
    TriplesOpen(pre, '\'', value, rest);
    assert s[|pre|] == '\'' && s[|pre| + 1..|pre| + 1 + |value|] == value && s[|pre| + 1 + |value|] == '\'';
    if At(s, ['\'', '\'', '\''], |pre|) {
      TripleIsLong(s, |pre|, '\'');
    } else {
      StartsString(s, |pre|);
      LiteralContent(s, |pre| + 1, value);
    }
  }

  lemma {:induction false} LiteralContent(s: string, i: nat, value: string)
    requires '\'' !in value && i + |value| < |s| && s[i..i + |value|] == value && s[i + |value|] == '\''
    ensures '\n' !in value ==> LiteralQuote(s, i) == Some(i + |value|)
    ensures '\n' in value ==> LiteralQuote(s, i).None?
    decreases |value|
  {
    if value != "" {
      assert s[i] == value[0] && value[0] in value;
      assert s[i + 1..i + |value|] == value[1..];
      LiteralContent(s, i + 1, value[1..]);
    }
  }

  /** What `fix` writes is read by TOML as the replacement, right up to what stands behind it. */
  lemma WrittenBetween(pre: string, style: QuoteStyle, replacement: string, rest: string)
    ensures var text := EncodeValue(style, replacement);
      StringToken(pre + text + rest, |pre|) == Some(Token(|pre| + |text|, replacement)) <==> Reads(rest, 0, style, replacement)
  {
    hide StringToken, At, EncodeBody;
    var text := EncodeValue(style, replacement);
    if WrittenQuote(style, replacement) == '\'' {
      assert pre + text + rest == pre + "'" + replacement + "'" + rest;
      LiteralWritten(pre, replacement, rest);
    } else {
      assert pre + text + rest == pre + "\"" + EncodeBody(replacement) + "\"" + rest;
      BasicWritten(pre, replacement, rest);
    }
  }

  lemma WrittenToken(s: string, v: nat, end: nat, style: QuoteStyle, replacement: string)
    requires v <= end <= |s|
    ensures var text := EncodeValue(style, replacement);
      StringToken(s[..v] + text + s[end..], v) == Some(Token(v + |text|, replacement)) <==> Reads(s, end, style, replacement)
  {
    hide StringToken, At, EncodeValue;
    AtBehind(s, end, WrittenQuote(style, replacement));
    WrittenBetween(s[..v], style, replacement, s[end..]);
  }

  lemma AtBehind(s: string, end: nat, q: char)
    requires end <= |s|
    ensures At(s, [q], end) <==> At(s[end..], [q], 0)
  {
    OneQuote(s, q, end);
    OneQuote(s[end..], q, 0);
  }

  /**
   Exactly when one fix replaces TOML's value and nothing else: TOML reads the replacement
   where the value stood, and behind it stands what stood behind TOML's value.
   */
  lemma TokenReplaced(s: string, limit: nat, v: nat, replacement: string)
    requires OneLine(s, v, limit) && ValueAt(s, limit, v).Some?
    ensures var span := ValueAt(s, limit, v).value;
      var text := EncodeValue(span.quote, replacement);
      var out := s[..v] + text + s[span.end..];
      (&& TokenEnd(s, v).Some? && StringToken(out, v) == Some(Token(v + |text|, replacement))
       && out[v + |text|..] == s[TokenEnd(s, v).value..])
      <==> Exact(s, span) && Reads(s, span.end, span.quote, replacement)
  {
    hide TokenEnd, ValueAt, Exact, StringToken, Reads, EncodeValue;
    var span := ValueAt(s, limit, v).value;
    var text := EncodeValue(span.quote, replacement);
    var out := s[..v] + text + s[span.end..];
    assert out[v + |text|..] == s[span.end..];
    SpanIsToken(s, limit, v);
    WrittenToken(s, v, span.end, span.quote, replacement);
    if TokenEnd(s, v).Some? {
      SameSuffix(s, span.end, TokenEnd(s, v).value);
    }
  }

  lemma SameSuffix(s: string, i: nat, j: nat)
    requires i <= |s| && j <= |s|
    ensures s[i..] == s[j..] <==> i == j
  {
    assert |s[i..]| == |s| - i && |s[j..]| == |s| - j;
  }

  // ----- What goes wrong otherwise -----

  /** A fourth quote belongs to the string; the fix leaves it behind, whatever it writes. */
  lemma LeavesQuoteBehind()
    ensures var s := "A=\"\"\"x\"\"\"\"";
      && ValueAt(s, |s|, 2) == Some(Span(2, 9, "x", TripleBasic)) && StringToken(s, 2) == Some(Token(10, "x\""))
      && s[..2] + EncodeValue(TripleBasic, "y") + s[9..] == "A=\"y\"\""
      && !Exact(s, ValueAt(s, |s|, 2).value)
  {
    hide StringToken, ValueAt, Backslashes, MultiContent, EncodeBody;
    var s := "A=\"\"\"x\"\"\"\"";
    assert s[9..10] == "\"";
    FourQuotesFound(s);
    FourQuotesToken(s);
    EncodedY();
  }

  lemma FourQuotesClose(s: string)
    requires s == "A=\"\"\"x\"\"\"\""
    ensures At(s, TRIPLE_BASIC, 2) && Find(s, TRIPLE_BASIC, 5) == Some(6) && BasicTriple(s, 5) == Some(6)
  {
    hide Find, BasicTriple;
    assert s[2..5] == TRIPLE_BASIC && s[6..9] == TRIPLE_BASIC && s[5] == 'x';
    assert !At(s, TRIPLE_BASIC, 5) by { assert s[5..8][0] == 'x'; }
    FindFirst(s, TRIPLE_BASIC, 5, 6);
    FirstTriple(s, 5, 6);
  }

  lemma FourQuotesFound(s: string)
    requires s == "A=\"\"\"x\"\"\"\""
    ensures ValueAt(s, |s|, 2) == Some(Span(2, 9, "x", TripleBasic))
  {
    hide Find, BasicTriple, DecodeBasic, At;
    FourQuotesClose(s);
    assert s[5..6] == "x";
    PlainBasic("x");
  }

  lemma FourQuotesToken(s: string)
    requires s == "A=\"\"\"x\"\"\"\""
    ensures StringToken(s, 2) == Some(Token(10, "x\""))
  {
    hide Find, BasicTriple, DecodeMulti, Escapes, At;
    FourQuotesClose(s);
    assert s[5..7] == "x\"";
    PlainMulti("x\"");
    PlainEscapes("x\"", true);
  }

  lemma {:induction false} PlainEscapes(s: string, multi: bool)
    requires '\\' !in s
    ensures Escapes(s, multi)
  {
    if s != "" {
      PlainEscapes(s[1..], multi);
    }
  }

  /** A control character is written raw between single quotes, where TOML does not allow it. */
  lemma LiteralTakesControl()
    ensures var s, t := "A='x'", "a\U{0001}b";
      var out := s[..2] + EncodeValue(Literal, t) + s[5..];
      && ValueAt(s, |s|, 2) == Some(Span(2, 5, "x", Literal)) && Exact(s, ValueAt(s, |s|, 2).value)
      && out == "A='a\U{0001}b'" && StringToken(out, 2) == None && !Reads(s, 5, Literal, t)
  {
    hide Find, ValueAt, StringToken, LiteralQuote;
    var s, t := "A='x'", "a\U{0001}b";
    var out := "A='a\U{0001}b'";
    assert t[1] == '\U{0001}' && IsControl(t[1]);
    LiteralXFound(s);
    assert s[3..4] == "x";
    assert out[2] == '\'' && !At(out, ['\'', '\'', '\''], 2) by { assert out[2..5][1] == 'a'; }
    StartsString(out, 2);
    assert out == "A='" + t + "'";
    BetweenParts("A='", t, "'");
    LiteralContent(out, 3, t);
    assert s[5..] == "" && s[..2] == "A=";
  }

  lemma BetweenParts(a: string, t: string, b: string)
    ensures (a + t + b)[|a|..|a| + |t|] == t
  {
  }

  lemma LiteralXFound(s: string)
    requires s == "A='x'"
    ensures ValueAt(s, |s|, 2) == Some(Span(2, 5, "x", Literal))
  {
    hide Find;
    assert !At(s, TRIPLE_LITERAL, 2) by { assert s[2..5][1] == 'x'; }
    assert !At(s, "'", 3) by { assert s[3..4] == "x"; }
    assert At(s, "'", 4) by { assert s[4..5] == "'"; }
    FindFirst(s, "'", 3, 4);
    assert s[3..4] == "x";
  }

  lemma EncodedY()
    ensures EncodeBody("y") == "y"
  {
    assert EncodeBody("y") == EncodeChar('y') + EncodeBody("");
  }

  lemma {:induction false} PlainBasic(s: string)
    requires '\\' !in s
    ensures DecodeBasic(s) == s
  {
    if s != "" {
      PlainBasic(s[1..]);
    }
  }

  lemma {:induction false} PlainMulti(s: string)
    requires '\\' !in s
    ensures DecodeMulti(s) == s
  {
    if s != "" {
      PlainMulti(s[1..]);
    }
  }
}
