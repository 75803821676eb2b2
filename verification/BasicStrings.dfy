/**
 Reading and writing the content of TOML basic strings, as `src/fix.ts` does.
 Text is a sequence of Unicode scalar values here.
 */
module BasicStrings {
  import opened JsText
  import opened FormatScan

  const BACKSPACE := '\U{0008}'
  const FORM_FEED := '\U{000C}'
  const DELETE := '\U{007F}'
  const REPLACEMENT := '\U{FFFD}'

  predicate IsHex(c: char) {
    '0' <= c <= '9' || 'a' <= c <= 'f' || 'A' <= c <= 'F'
  }

  predicate AllHex(s: string) {
    forall c | c in s :: IsHex(c)
  }

  function HexValue(c: char): (n: nat)
    requires IsHex(c)
    ensures n < 16
  {
    if c <= '9' then c as int - '0' as int
    else if c <= 'F' then c as int - 'A' as int + 10
    else c as int - 'a' as int + 10
  }

  /** `parseInt(s, 16)`. */
  function ParseHex(s: string): nat
    requires AllHex(s)
  {
    if s == "" then 0 else 16 * ParseHex(s[..|s| - 1]) + HexValue(s[|s| - 1])
  }

  /** The character of a code; a surrogate has none of its own. */
  function FromCode(n: nat): char {
    if n < 0xD800 || 0xE000 <= n <= 0x10FFFF then n as char else REPLACEMENT
  }

  /** What `.` does not match. */
  predicate IsLineTerminator(c: char) {
    c == '\n' || c == '\r' || c == '\U{2028}' || c == '\U{2029}'
  }

  /** Length of the escape sequence that starts `s`, or 0. */
  function EscapeLength(s: string): (n: nat)
    ensures n <= |s| && (n > 0 ==> n >= 2 && s[0] == '\\')
  {
    if |s| < 2 || s[0] != '\\' || IsLineTerminator(s[1]) then 0
    else if s[1] == 'u' && |s| >= 6 && AllHex(s[2..6]) then 6
    else if s[1] == 'U' && |s| >= 10 && AllHex(s[2..10]) then 10
    else 2
  }

  /** What one escape sequence stands for; an unknown one stands for itself. */
  function Unescape(esc: string): string
    requires |esc| >= 2 && EscapeLength(esc) == |esc|
  {
    if |esc| > 2 then [FromCode(ParseHex(esc[2..]))]
    else
      match esc[1]
      case 'b' => [BACKSPACE]
      case 't' => "\t"
      case 'n' => "\n"
      case 'f' => [FORM_FEED]
      case 'r' => "\r"
      case '"' => "\""
      case '\\' => "\\"
      case _ => esc
  }

  function DecodeBasic(s: string): string
    decreases |s|
  {
    if s == "" then ""
    else
      var n := EscapeLength(s);
      if n == 0 then [s[0]] + DecodeBasic(s[1..])
      else EscapeAlone(s); Unescape(s[..n]) + DecodeBasic(s[n..])
  }

  lemma EscapeAlone(s: string)
    ensures EscapeLength(s[..EscapeLength(s)]) == EscapeLength(s)
  {
    var n := EscapeLength(s);
    if n > 2 {
      assert s[..n][2..] == s[2..n] && s[..n][2..n] == s[2..n];
    }
  }

  function HexDigit(n: nat): (c: char)
    requires n < 16
    ensures IsHex(c) && HexValue(c) == n
  {
    if n < 10 then ('0' as int + n) as char else ('a' as int + n - 10) as char
  }

  function EncodeChar(c: char): string {
    match c
    case '"' => "\\\""
    case '\\' => "\\\\"
    case '\U{0008}' => "\\b"
    case '\t' => "\\t"
    case '\n' => "\\n"
    case '\U{000C}' => "\\f"
    case '\r' => "\\r"
    case _ =>
      if c < ' ' || c == DELETE then "\\u00" + [HexDigit(c as int / 16), HexDigit(c as int % 16)] else [c]
  }

  /** What `encodeBasic` writes between the quotes. */
  function EncodeBody(value: string): string {
    if value == "" then "" else EncodeChar(value[0]) + EncodeBody(value[1..])
  }

  lemma {:induction false} EncodeBodyConcat(a: string, b: string)
    ensures EncodeBody(a + b) == EncodeBody(a) + EncodeBody(b)
  {
    hide EncodeChar;
    if a == "" {
      assert a + b == b;
    } else {
      EncodeBodyConcat(a[1..], b);
      assert (a + b)[1..] == a[1..] + b && (a + b)[0] == a[0];
      var head := EncodeChar(a[0]);
      assert head + (EncodeBody(a[1..]) + EncodeBody(b)) == (head + EncodeBody(a[1..])) + EncodeBody(b);
    }
  }

  lemma EncodeNothing()
    ensures EncodeBody("") == ""
  {
  }

  lemma EncodeBodyNext(v: string, c: char)
    ensures EncodeBody(v + [c]) == EncodeBody(v) + EncodeChar(c)
  {
    hide EncodeChar;
    EncodeBodyConcat(v, [c]);
    assert [c][1..] == "" && EncodeBody([c]) == EncodeChar(c);
  }

  method EncodeBasic(value: string) returns (out: string)
    ensures out == "\"" + EncodeBody(value) + "\""
  {
    hide EncodeChar, EncodeBody;
    out := "\"";
    EncodeNothing();
    for i := 0 to |value|
      invariant out == "\"" + EncodeBody(value[..i])
    {
      out := out + EncodeChar(value[i]);
      assert value[..i + 1] == value[..i] + [value[i]];
      EncodeBodyNext(value[..i], value[i]);
    }
    assert value[..|value|] == value;
    out := out + "\"";
  }

  lemma DecodeHex(h1: char, h2: char, rest: string)
    requires IsHex(h1) && IsHex(h2)
    ensures DecodeBasic("\\u00" + [h1, h2] + rest) == [FromCode(16 * HexValue(h1) + HexValue(h2))] + DecodeBasic(rest)
  {
    var esc := "\\u00" + [h1, h2];
    var s := esc + rest;
    assert s[2..6] == ['0', '0', h1, h2];
    assert s[..6] == esc && s[6..] == rest;
    var digits := esc[2..];
    assert digits == ['0', '0', h1, h2];
    assert digits[..3] == ['0', '0', h1] && digits[..3][..2] == ['0', '0'] && digits[..3][..2][..1] == ['0'];
    assert ParseHex(digits[..3][..2][..1]) == 0;
    assert ParseHex(digits[..3][..2]) == 0;
    assert ParseHex(digits[..3]) == HexValue(h1);
  }

  lemma DecodePair(c: char, rest: string)
    requires !IsLineTerminator(c) && c != 'u' && c != 'U'
    ensures DecodeBasic(['\\', c] + rest) == Unescape(['\\', c]) + DecodeBasic(rest)
  {
    var s := ['\\', c] + rest;
    assert s[..2] == ['\\', c] && s[2..] == rest;
  }

  lemma DecodeStep(c: char, rest: string)
    ensures DecodeBasic(EncodeChar(c) + rest) == [c] + DecodeBasic(rest)
  {
    var e := EncodeChar(c);
    if |e| == 1 {
      assert ([c] + rest)[1..] == rest;
    } else if |e| == 2 {
      DecodePair(e[1], rest);
      assert e == ['\\', e[1]];
    } else {
      DecodeHex(e[4], e[5], rest);
      assert e == "\\u00" + [e[4], e[5]];
      assert 16 * (c as int / 16) + c as int % 16 == c as int;
    }
  }

  /** Decoding what was encoded gives back every value. */
  lemma {:induction false} DecodeOfEncode(value: string)
    ensures DecodeBasic(EncodeBody(value)) == value
  {
    if value != "" {
      DecodeOfEncode(value[1..]);
      DecodeStep(value[0], EncodeBody(value[1..]));
    }
  }

  /** An encoded value holds no line break, no control character and no bare quote. */
  lemma {:induction false} EncodedIsPlain(value: string)
    ensures forall c | c in EncodeBody(value) :: c >= ' ' && c != DELETE
    ensures EncodeBody(value) != "" ==> EncodeBody(value)[0] != '"'
    ensures EncodeBody(value) == "" <==> value == ""
  {
    if value != "" {
      EncodedIsPlain(value[1..]);
    }
  }

  predicate Unquoted(s: string) {
    forall c | c in s :: c != '\\' && c != '"'
  }

  lemma {:induction false} PlainSkipped(t: string, from: nat, n: nat)
    requires from + n <= |t| && Unquoted(t[from..from + n])
    ensures BasicCloses(t, from) == BasicCloses(t, from + n)
    ensures BasicEnd(t, from) == BasicEnd(t, from + n)
    decreases n
  {
    if n > 0 {
      var run := t[from..from + n];
      assert run[0] in run && run[0] == t[from];
      assert t[from + 1..from + 1 + (n - 1)] == run[1..];
      assert forall c | c in run[1..] :: c in run;
      PlainSkipped(t, from + 1, n - 1);
    }
  }

  lemma EncodedCharSkipped(t: string, from: nat, c: char)
    requires from + |EncodeChar(c)| <= |t| && t[from..from + |EncodeChar(c)|] == EncodeChar(c)
    ensures BasicCloses(t, from) == BasicCloses(t, from + |EncodeChar(c)|)
    ensures BasicEnd(t, from) == BasicEnd(t, from + |EncodeChar(c)|)
  {
    var e := EncodeChar(c);
    assert t[from] == t[from..from + |e|][0];
    if |e| > 1 {
      assert t[from + 1] == t[from..from + |e|][1];
      assert t[from + 2..from + |e|] == e[2..];
      PlainSkipped(t, from + 2, |e| - 2);
    }
  }

  /** The closing quote of an encoded value is the first one a scan of its content stops at. */
  lemma {:induction false} EncodedCloses(pre: string, value: string)
    ensures var t := pre + EncodeBody(value) + "\"";
      BasicCloses(t, |pre|) && BasicEnd(t, |pre|) == |t|
    decreases |value|
  {
    hide EncodeChar;
    var t := pre + EncodeBody(value) + "\"";
    if value == "" {
      assert t == pre + "\"";
    } else {
      var e := EncodeChar(value[0]);
      EncodedCloses(pre + e, value[1..]);
      assert t == pre + e + EncodeBody(value[1..]) + "\"";
      EncodedCharSkipped(t, |pre|, value[0]);
    }
  }

  /** A literal string rewritten as a basic one decodes to the same characters. */
  lemma {:induction false} LiteralSurvivesRewriting(content: string)
    ensures BasicString(content) == "\"" + Escaped(content) + "\""
    ensures DecodeBasic(Escaped(content)) == content
  {
    if content != "" {
      hide DecodeBasic, Escaped;
      LiteralSurvivesRewriting(content[1..]);
      EscapedHead(content);
      DecodeEscaped(content[0], Escaped(content[1..]));
      assert content == [content[0]] + content[1..];
    }
    assert BasicString(content) == "\"" + Escaped(content) + "\"";
  }

  lemma DecodeEscaped(c: char, rest: string)
    ensures DecodeBasic((match c case '\\' => "\\\\" case '"' => "\\\"" case x => [x]) + rest) == [c] + DecodeBasic(rest)
  {
    if c == '\\' {
      DecodePair('\\', rest);
      assert "\\\\" == ['\\', '\\'];
    } else if c == '"' {
      DecodePair('"', rest);
      assert "\\\"" == ['\\', '"'];
    } else {
      assert ([c] + rest)[1..] == rest;
    }
  }

  /** Decoding never makes text disappear. */
  lemma {:induction false} DecodeKeepsText(s: string)
    ensures DecodeBasic(s) == "" <==> s == ""
  {
  }

  // ----- Escapes as they are written -----

  /** `n` in so many hexadecimal digits of a table. */
  function InHex(n: nat, width: nat, digits: string): string
    requires |digits| == 16
  {
    if width == 0 then "" else InHex(n / 16, width - 1, digits) + [digits[n % 16]]
  }

  function Power16(width: nat): nat {
    if width == 0 then 1 else 16 * Power16(width - 1)
  }

  predicate IsHexTable(digits: string) {
    digits == "0123456789abcdef" || digits == "0123456789ABCDEF"
  }

  lemma TableDigit(digits: string, d: nat)
    requires IsHexTable(digits) && d < 16
    ensures IsHex(digits[d]) && HexValue(digits[d]) == d
  {
  }

  lemma {:induction false} InHexParses(n: nat, width: nat, digits: string)
    requires IsHexTable(digits) && n < Power16(width)
    ensures var t := InHex(n, width, digits); |t| == width && AllHex(t) && ParseHex(t) == n
  {
    if width > 0 {
      InHexParses(n / 16, width - 1, digits);
      TableDigit(digits, n % 16);
      var t := InHex(n, width, digits);
      assert t[..|t| - 1] == InHex(n / 16, width - 1, digits);
    }
  }

  /** Four digits behind `\u` or eight behind `\U` name the character with that code. */
  lemma CodeDecodes(n: nat, digits: string, rest: string)
    requires IsHexTable(digits) && (n < 0xD800 || 0xE000 <= n <= 0x10FFFF)
    ensures n < 0x10000 ==> DecodeBasic("\\u" + InHex(n, 4, digits) + rest) == [n as char] + DecodeBasic(rest)
    ensures DecodeBasic("\\U" + InHex(n, 8, digits) + rest) == [n as char] + DecodeBasic(rest)
  {
    assert Power16(4) == 0x10000 && Power16(8) == 0x1_0000_0000;
    if n < 0x10000 {
      InHexParses(n, 4, digits);
      CodeRead('u', InHex(n, 4, digits), rest);
    }
    InHexParses(n, 8, digits);
    CodeRead('U', InHex(n, 8, digits), rest);
  }

  lemma CodeRead(letter: char, code: string, rest: string)
    requires AllHex(code) && ((letter == 'u' && |code| == 4) || (letter == 'U' && |code| == 8))
    ensures DecodeBasic(['\\', letter] + code + rest) == [FromCode(ParseHex(code))] + DecodeBasic(rest)
  {
    hide ParseHex, AllHex;
    var esc := ['\\', letter] + code;
    var s := esc + rest;
    assert s[2..|esc|] == code && s[..|esc|] == esc && s[|esc|..] == rest && esc[2..] == code;
  }

  /** The escapes with a name. */
  lemma NamedDecodes(rest: string)
    ensures DecodeBasic("\\b" + rest) == [8 as char] + DecodeBasic(rest)
    ensures DecodeBasic("\\t" + rest) == [9 as char] + DecodeBasic(rest)
    ensures DecodeBasic("\\n" + rest) == [10 as char] + DecodeBasic(rest)
    ensures DecodeBasic("\\f" + rest) == [12 as char] + DecodeBasic(rest)
    ensures DecodeBasic("\\r" + rest) == [13 as char] + DecodeBasic(rest)
    ensures DecodeBasic("\\\"" + rest) == ['"'] + DecodeBasic(rest)
    ensures DecodeBasic("\\\\" + rest) == ['\\'] + DecodeBasic(rest)
  {
    hide DecodeBasic;
    DecodePair('b', rest);
    DecodePair('t', rest);
    DecodePair('n', rest);
    DecodePair('f', rest);
    DecodePair('r', rest);
    DecodePair('"', rest);
    DecodePair('\\', rest);
  }

  predicate NamesNothing(c: char, rest: string) {
    && c !in ['b', 't', 'n', 'f', 'r', '"', '\\']
    && (c == 'u' ==> |rest| < 4 || !AllHex(rest[..4])) && (c == 'U' ==> |rest| < 8 || !AllHex(rest[..8]))
  }

  /** A character other than a backslash stands for itself, and so does a backslash at the end. */
  lemma PlainDecodes(c: char, rest: string)
    requires c != '\\'
    ensures DecodeBasic([c] + rest) == [c] + DecodeBasic(rest)
    ensures DecodeBasic("\\") == "\\"
  {
    assert ([c] + rest)[1..] == rest;
  }

  lemma NoEscape(c: char, rest: string)
    requires NamesNothing(c, rest)
    ensures var s := ['\\', c] + rest;
      if IsLineTerminator(c) then EscapeLength(s) == 0 else EscapeLength(s) == 2 && Unescape(s[..2]) == ['\\', c]
  {
    hide AllHex;
    var s := ['\\', c] + rest;
    assert s[..2] == ['\\', c] && s[0] == '\\' && s[1] == c;
    if |rest| >= 4 { assert s[2..6] == rest[..4]; }
    if |rest| >= 8 { assert s[2..10] == rest[..8]; }
  }

  /** So does one with anything behind it that starts none of the escapes. */
  lemma OthersDecode(c: char, rest: string)
    requires NamesNothing(c, rest)
    ensures DecodeBasic(['\\', c] + rest) == ['\\', c] + DecodeBasic(rest)
  {
    hide EscapeLength, Unescape, NamesNothing;
    var s := ['\\', c] + rest;
    NoEscape(c, rest);
    assert s[2..] == rest && s[1..] == [c] + rest;
    if IsLineTerminator(c) {
      hide DecodeBasic;
      PlainDecodes(c, rest);
      DecodeFirst(s);
    }
  }

  lemma DecodeFirst(s: string)
    requires s != "" && EscapeLength(s) == 0
    ensures DecodeBasic(s) == [s[0]] + DecodeBasic(s[1..])
  {
  }

  /** No escape is longer than it has to be: one letter where TOML has a name, else four small hexadecimal digits. */
  lemma EncodedShort(c: char)
    ensures |EncodeChar(c)| ==
      if c in [BACKSPACE, '\t', '\n', FORM_FEED, '\r', '"', '\\'] then 2 else if c < ' ' || c == DELETE then 6 else 1
    ensures |EncodeChar(c)| == 6 ==> forall d | d in EncodeChar(c)[2..] :: d in "0123456789abcdef"
  {
  }
}
