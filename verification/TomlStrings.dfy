/**
 The string tokens of TOML v1.0.0, as its "String" section defines them: where the value
 that starts at an offset ends, and what it says. The rewriters look for values in their own
 ways; this is what they are measured against.
 */
module TomlStrings {
  import opened JsText
  import opened Wrappers
  import opened BasicStrings
  import opened Fix
  import FormatScan

  /** A string token: the offset behind it, and its value. */
  datatype Token = Token(end: nat, value: string)

  // ----- What may stand in a string -----

  /** Control characters, which a string may not hold, but for the tab. */
  predicate IsControl(c: char) {
    (c < ' ' && c != '\t') || c == DELETE
  }

  predicate NoControls(s: string) {
    forall c | c in s :: !IsControl(c)
  }

  /** In a multi-line string line breaks are the only control characters. */
  predicate OnlyLineBreaks(s: string) {
    forall i | 0 <= i < |s| && IsControl(s[i]) :: s[i] == '\n' || (s[i] == '\r' && i + 1 < |s| && s[i + 1] == '\n')
  }

  predicate IsScalar(n: nat) {
    n < 0xD800 || 0xE000 <= n <= 0x10FFFF
  }

  /** The length of one of TOML's escape sequences at the front of `s`, or 0; any other escape is an error. */
  function TomlEscape(s: string): (n: nat)
    ensures n <= |s| && (n > 0 ==> n >= 2 && s[0] == '\\')
  {
    if |s| < 2 || s[0] != '\\' then 0
    else if s[1] in "btnfr\"\\" then 2
    else if s[1] == 'u' && |s| >= 6 && AllHex(s[2..6]) && IsScalar(ParseHex(s[2..6])) then 6
    else if s[1] == 'U' && |s| >= 10 && AllHex(s[2..10]) && IsScalar(ParseHex(s[2..10])) then 10
    else 0
  }

  /** Every backslash starts an escape sequence, or in a multi-line string one that continues the line. */
  predicate Escapes(s: string, multi: bool)
    decreases |s|
  {
    if s == "" then true
    else if s[0] != '\\' then Escapes(s[1..], multi)
    else if multi && ContinuesLine(s[1..]) then Escapes(s[1..], multi)
    else TomlEscape(s) > 0 && Escapes(s[TomlEscape(s)..], multi)
  }

  predicate BasicContent(s: string) {
    NoControls(s) && Escapes(s, false)
  }

  predicate MultiContent(s: string) {
    OnlyLineBreaks(s) && Escapes(s, true)
  }

  // ----- One-line strings -----

  /** The quote that closes a one-line basic string whose content starts at `i`. */
  function BasicQuote(s: string, i: nat): (r: Option<nat>)
    ensures r.Some? ==> i <= r.value < |s| && s[r.value] == '"'
    decreases |s| - i
  {
    if i >= |s| || s[i] == '\n' then None
    else if s[i] == '"' then Some(i)
    else if s[i] == '\\' then if i + 1 < |s| && s[i + 1] != '\n' then BasicQuote(s, i + 2) else None
    else BasicQuote(s, i + 1)
  }

  function LiteralQuote(s: string, i: nat): (r: Option<nat>)
    ensures r.Some? ==> i <= r.value < |s| && s[r.value] == '\''
    decreases |s| - i
  {
    if i >= |s| || s[i] == '\n' then None
    else if s[i] == '\'' then Some(i)
    else LiteralQuote(s, i + 1)
  }

  // ----- Multi-line strings -----

  /** The first three quotes from `i` on, none of which is escaped. */
  function BasicTriple(s: string, i: nat): (r: Option<nat>)
    ensures r.Some? ==> i <= r.value && At(s, TRIPLE_BASIC, r.value)
    decreases |s| - i
  {
    if At(s, TRIPLE_BASIC, i) then Some(i)
    else if i >= |s| then None
    else BasicTriple(s, if s[i] == '\\' then i + 2 else i + 1)
  }

  /** A line break right behind the opening quotes does not belong to the string. */
  function WithoutFirstBreak(s: string): string {
    if s != "" && s[0] == '\n' then s[1..] else if StartsWith(s, "\r\n") then s[2..] else s
  }

  /** White space and line breaks. */
  predicate IsLayout(c: char) {
    c == ' ' || c == '\t' || c == '\n' || c == '\r'
  }

  function SkipLayout(s: string): (r: string)
    ensures |r| <= |s|
  {
    if s != "" && IsLayout(s[0]) then SkipLayout(s[1..]) else s
  }

  /** A backslash with only blanks behind it on its line swallows the layout up to the next character. */
  predicate ContinuesLine(s: string) {
    s != "" && (s[0] == '\n' || (IsLayout(s[0]) && ContinuesLine(s[1..])))
  }

  function DecodeMulti(s: string): string
    decreases |s|
  {
    if s == "" then ""
    else if s[0] == '\\' && ContinuesLine(s[1..]) then DecodeMulti(SkipLayout(s[1..]))
    else
      var n := EscapeLength(s);
      if n == 0 then [s[0]] + DecodeMulti(s[1..])
      else EscapeAlone(s); Unescape(s[..n]) + DecodeMulti(s[n..])
  }

  // ----- Tokens -----

  function When(valid: bool, token: Token): Option<Token> {
    if valid then Some(token) else None
  }

  /** The string token that starts at `v`, if there is a valid one. */
  function StringToken(s: string, v: nat): (r: Option<Token>)
    ensures r.Some? ==> v + 2 <= r.value.end <= |s|
  {
    if At(s, TRIPLE_BASIC, v) then
      match BasicTriple(s, v + 3)
      case None => None
      case Some(close) =>
        var end := FormatScan.UpToTwo(s, '"', close + 3);
        var content := s[v + 3..end - 3];
        When(MultiContent(content), Token(end, DecodeMulti(WithoutFirstBreak(content))))
    else if At(s, TRIPLE_LITERAL, v) then
      match Find(s, TRIPLE_LITERAL, v + 3)
      case None => None
      case Some(close) =>
        var end := FormatScan.UpToTwo(s, '\'', close + 3);
        var content := s[v + 3..end - 3];
        When(OnlyLineBreaks(content), Token(end, WithoutFirstBreak(content)))
    else if At(s, "\"", v) then
      match BasicQuote(s, v + 1)
      case None => None
      case Some(close) => When(BasicContent(s[v + 1..close]), Token(close + 1, DecodeBasic(s[v + 1..close])))
    else if At(s, "'", v) then
      match LiteralQuote(s, v + 1)
      case None => None
      case Some(close) => When(NoControls(s[v + 1..close]), Token(close + 1, s[v + 1..close]))
    else None
  }

  predicate IsDigit(c: char) {
    '0' <= c <= '9'
  }

  /** `2024-01-31`: a date, behind which a space may stand for the `T` in front of a time. */
  predicate IsDate(s: string) {
    |s| == 10 && forall i | 0 <= i < 10 :: if i == 4 || i == 7 then s[i] == '-' else IsDigit(s[i])
  }

  /** Where a value that is no string ends: at the next gap or comment, a date and a time counted as one. */
  function BareTokenEnd(s: string, v: nat): (r: nat)
    requires v <= |s|
    ensures v <= r <= |s|
  {
    var end := BareEnd(s, |s|, v);
    if IsDate(s[v..end]) && end + 1 < |s| && s[end] == ' ' && IsDigit(s[end + 1]) then BareEnd(s, |s|, end + 1) else end
  }

  /** Where TOML's value at `v` ends. */
  function TokenEnd(s: string, v: nat): (r: Option<nat>)
    requires v < |s|
    ensures r.Some? ==> v <= r.value <= |s|
  {
    if s[v] == '"' || s[v] == '\'' then
      match StringToken(s, v) case None => None case Some(t) => Some(t.end)
    else Some(BareTokenEnd(s, v))
  }
}
