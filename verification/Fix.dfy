/**
 The mechanical fix engine of `src/fix.ts`: where a value stands in the source,
 what is written over it, and how the edits are put together. Where a key path
 stands is given (`at`), because the parser behind it is not part of this model.
 */
module Fix {
  import opened JsText
  import opened Wrappers
  import opened BasicStrings
  import opened Splices
  import FormatScan

  const TRIPLE_BASIC := "\"\"\""
  const TRIPLE_LITERAL := "'''"

  /** A 1-based line and column. */
  datatype RawPosition = Position(line: nat, column: nat)
  type Position = p: RawPosition | p.line >= 1 && p.column >= 1 witness Position(1, 1)

  datatype QuoteStyle = Bare | Basic | Literal | TripleBasic | TripleLiteral

  datatype Span = Span(start: nat, end: nat, value: string, quote: QuoteStyle)

  datatype Diagnostic = Diagnostic(rule: string, path: Option<string>, fix: Option<string>)

  datatype Note = Note(path: string, rule: string, old_: string, replacement: string)

  datatype FixResult = FixResult(source: string, edits: seq<Edit<Note>>)

  // ----- Text -----

  /** The white space of `isSpace`. */
  predicate IsGap(c: char) {
    c == ' ' || c == '\t' || c == '\r' || c == '\n' || c == FORM_FEED
  }

  function SkipGaps(s: string, limit: nat, i: nat): (r: nat)
    requires limit <= |s|
    ensures i <= r && (r == i || r <= limit) && (r < limit ==> !IsGap(s[r]))
    ensures forall j | i <= j < r :: IsGap(s[j])
    decreases limit - i
  {
    if i < limit && IsGap(s[i]) then SkipGaps(s, limit, i + 1) else i
  }

  function BareEnd(s: string, limit: nat, i: nat): (r: nat)
    requires i <= limit <= |s|
    ensures i <= r <= limit && (r < limit ==> IsGap(s[r]) || s[r] == '#')
    ensures forall j | i <= j < r :: !IsGap(s[j])
    decreases limit - i
  {
    if i < limit && !IsGap(s[i]) && s[i] != '#' then BareEnd(s, limit, i + 1) else i
  }

  /** The offsets at which the lines of `s` start. */
  function LineStarts(s: string): (starts: seq<nat>)
    ensures |starts| > 0 && forall k | 0 <= k < |starts| :: starts[k] <= |s|
    decreases |s|
  {
    if s == "" then [0]
    else LineStarts(s[..|s| - 1]) + if s[|s| - 1] == '\n' then [|s|] else []
  }

  method LineStartOffsets(source: string) returns (starts: seq<nat>)
    ensures starts == LineStarts(source)
  {
    starts := [0];
    for i := 0 to |source|
      invariant starts == LineStarts(source[..i])
    {
      assert source[..i + 1][..i] == source[..i];
      if source[i] == '\n' {
        starts := starts + [i + 1];
      }
    }
    assert source[..|source|] == source;
  }

  // ----- Where a value stands -----

  /** What stands between a triple quote at `v` and the next one. */
  function TripleAt(s: string, limit: nat, v: nat, triple: string, style: QuoteStyle): (r: Option<Span>)
    requires v < limit <= |s| && |triple| == 3
    ensures r.Some? ==> r.value.start == v < r.value.end <= |s|
  {
    match Find(s, triple, v + 3)
    case None => None
    case Some(close) =>
      var content := s[v + 3..close];
      if close > limit then None
      else Some(Span(v, close + 3, if style == TripleBasic then DecodeBasic(content) else content, style))
  }

  function BasicAt(s: string, limit: nat, v: nat): (r: Option<Span>)
    requires v < limit <= |s|
    ensures r.Some? ==> r.value.start == v < r.value.end <= |s|
  {
    if !FormatScan.BasicCloses(s[..limit], v + 1) then None
    else
      var end := FormatScan.BasicEnd(s[..limit], v + 1);
      ClosesAfter(s[..limit], v + 1);
      Some(Span(v, end, DecodeBasic(s[v + 1..end - 1]), Basic))
  }

  function LiteralAt(s: string, limit: nat, v: nat): (r: Option<Span>)
    requires v < limit <= |s|
    ensures r.Some? ==> r.value.start == v < r.value.end <= |s|
  {
    match Find(s, "'", v + 1)
    case None => None
    case Some(end) => if end >= limit then None else Some(Span(v, end + 1, s[v + 1..end], Literal))
  }

  lemma LiteralFoundAt(s: string, limit: nat, span: Span)
    requires span.start < limit <= |s| && LiteralAt(s, limit, span.start) == Some(span)
    ensures span.start + 1 < span.end <= limit && Find(s, "'", span.start + 1) == Some(span.end - 1)
  {
    hide Find, At;
  }

  /** The value that starts at `v` on a line that ends before `limit`. */
  function ValueAt(s: string, limit: nat, v: nat): (r: Option<Span>)
    requires v < limit <= |s|
    ensures r.Some? ==> r.value.start == v <= r.value.end <= |s|
  {
    if s[v] == '"' then
      if At(s, TRIPLE_BASIC, v) then TripleAt(s, limit, v, TRIPLE_BASIC, TripleBasic) else BasicAt(s, limit, v)
    else if s[v] == '\'' then
      if At(s, TRIPLE_LITERAL, v) then TripleAt(s, limit, v, TRIPLE_LITERAL, TripleLiteral) else LiteralAt(s, limit, v)
    else if s[v] == '{' || s[v] == '[' then None
    else Some(Span(v, BareEnd(s, limit, v), s[v..BareEnd(s, limit, v)], Bare))
  }

  lemma {:induction false} ClosesAfter(s: string, from: nat)
    requires from <= |s| && FormatScan.BasicCloses(s, from)
    ensures FormatScan.BasicEnd(s, from) > from
    decreases |s| - from
  {
    if s[from] == '\\' {
      ClosesAfter(s, from + 2);
    } else if s[from] != '"' {
      ClosesAfter(s, from + 1);
    }
  }

  /** The value of the key that starts at `from` on the line that ends before `limit`. */
  function SpanIn(s: string, limit: nat, from: nat, key: string): (r: Option<Span>)
    requires limit <= |s|
    ensures r.Some? ==> from < r.value.start < limit && r.value.start <= r.value.end <= |s|
  {
    match Find(s, "=", from)
    case None => None
    case Some(eq) =>
      if eq >= limit then None
      else if key != "" && Find(s[from..eq], key, 0).None? then None
      else
        var v := SkipGaps(s, limit, eq + 1);
        if v >= limit then None else ValueAt(s, limit, v)
  }

  /** `path.split('.').pop()`. */
  function KeyOf(path: string): string {
    var parts := Split(path, '.');
    parts[|parts| - 1]
  }

  function ValueSpan(s: string, position: Position, path: string): (r: Option<Span>)
    ensures r.Some? ==> r.value.start <= r.value.end <= |s|
  {
    var starts := LineStarts(s);
    if position.line > |starts| then None
    else
      var limit := if position.line < |starts| then starts[position.line] else |s|;
      SpanIn(s, limit, starts[position.line - 1] + position.column - 1, KeyOf(path))
  }

  method BasicEnd(source: string, from: nat, limit: nat) returns (end: Option<nat>)
    requires from <= limit <= |source|
    ensures end ==
      if FormatScan.BasicCloses(source[..limit], from) then Some(FormatScan.BasicEnd(source[..limit], from)) else None
  {
    var i := from;
    while i < limit
      invariant from <= i
      invariant i <= limit ==>
        && FormatScan.BasicCloses(source[..limit], i) == FormatScan.BasicCloses(source[..limit], from)
        && FormatScan.BasicEnd(source[..limit], i) == FormatScan.BasicEnd(source[..limit], from)
      invariant i > limit ==> !FormatScan.BasicCloses(source[..limit], from)
    {
      if source[i] == '\\' {
        i := i + 2;
      } else if source[i] == '"' {
        return Some(i + 1);
      } else {
        i := i + 1;
      }
    }
    return None;
  }

  /** The last part of `valueSpan`: the value that starts at `valueStart`. */
  method ReadValue(source: string, lineEnd: nat, valueStart: nat) returns (span: Option<Span>)
    requires valueStart < lineEnd <= |source|
    ensures span == ValueAt(source, lineEnd, valueStart)
  {
    hide FormatScan.BasicCloses, FormatScan.BasicEnd, DecodeBasic, At, Find;
    if source[valueStart] == '"' {
      if At(source, TRIPLE_BASIC, valueStart) {
        var close := Find(source, TRIPLE_BASIC, valueStart + 3);
        if close.None? || close.value > lineEnd {
          return None;
        }
        return Some(Span(valueStart, close.value + 3, DecodeBasic(source[valueStart + 3..close.value]), TripleBasic));
      }
      var end := BasicEnd(source, valueStart + 1, lineEnd);
      if end.None? {
        return None;
      }
      ClosesAfter(source[..lineEnd], valueStart + 1);
      return Some(Span(valueStart, end.value, DecodeBasic(source[valueStart + 1..end.value - 1]), Basic));
    }
    if source[valueStart] == '\'' {
      if At(source, TRIPLE_LITERAL, valueStart) {
        var close := Find(source, TRIPLE_LITERAL, valueStart + 3);
        if close.None? || close.value > lineEnd {
          return None;
        }
        return Some(Span(valueStart, close.value + 3, source[valueStart + 3..close.value], TripleLiteral));
      }
      var end := Find(source, "'", valueStart + 1);
      if end.None? || end.value >= lineEnd {
        return None;
      }
      return Some(Span(valueStart, end.value + 1, source[valueStart + 1..end.value], Literal));
    }
    if source[valueStart] == '{' || source[valueStart] == '[' {
      return None;
    }
    var valueEnd := valueStart;
    while valueEnd < lineEnd && !IsGap(source[valueEnd]) && source[valueEnd] != '#'
      invariant valueStart <= valueEnd <= lineEnd
      invariant BareEnd(source, lineEnd, valueEnd) == BareEnd(source, lineEnd, valueStart)
    {
      valueEnd := valueEnd + 1;
    }
    return Some(Span(valueStart, valueEnd, source[valueStart..valueEnd], Bare));
  }

  method LocateValue(source: string, lineStarts: seq<nat>, position: Position, path: string)
    returns (span: Option<Span>)
    requires lineStarts == LineStarts(source)
    ensures span == ValueSpan(source, position, path)
  {
    hide ValueAt, LineStarts, Find, At, KeyOf;
    if position.line > |lineStarts| {
      return None;
    }
    var lineEnd := if position.line < |lineStarts| then lineStarts[position.line] else |source|;
    var keyIndex := lineStarts[position.line - 1] + position.column - 1;
    var eq := Find(source, "=", keyIndex);
    if eq.None? || eq.value >= lineEnd {
      return None;
    }
    var key := KeyOf(path);
    if key != "" && Find(source[keyIndex..eq.value], key, 0).None? {
      return None;
    }
    var valueStart := eq.value + 1;
    while valueStart < lineEnd && IsGap(source[valueStart])
      invariant SkipGaps(source, lineEnd, valueStart) == SkipGaps(source, lineEnd, eq.value + 1)
    {
      valueStart := valueStart + 1;
    }
    if valueStart >= lineEnd {
      return None;
    }
    span := ReadValue(source, lineEnd, valueStart);
  }

  // ----- What is written over it -----

  function EncodeValue(quote: QuoteStyle, value: string): string {
    if quote == Literal && '\'' !in value then "'" + value + "'" else "\"" + EncodeBody(value) + "\""
  }

  /** The edit one diagnostic asks for, if any. */
  function EditFor(source: string, at: string -> Option<Position>, d: Diagnostic): (r: Option<Edit<Note>>)
    ensures r.Some? ==> r.value.start <= r.value.end <= |source|
  {
    if d.fix.None? || d.path.None? || at(d.path.value).None? then None
    else
      var span := ValueSpan(source, at(d.path.value).value, d.path.value);
      if span.None? || span.value.value == d.fix.value then None
      else
        Some(Edit(span.value.start, span.value.end, EncodeValue(span.value.quote, d.fix.value),
                  Note(d.path.value, d.rule, span.value.value, d.fix.value)))
  }

  function EditsFor(source: string, at: string -> Option<Position>, ds: seq<Diagnostic>): (edits: seq<Edit<Note>>)
    ensures Within(edits, |source|)
    decreases |ds|
  {
    if ds == [] then []
    else
      var e := EditFor(source, at, ds[|ds| - 1]);
      EditsFor(source, at, ds[..|ds| - 1]) + if e.Some? then [e.value] else []
  }

  function FixSpec(source: string, at: string -> Option<Position>, ds: seq<Diagnostic>): FixResult {
    var kept := Kept(EditsFor(source, at, ds));
    KeptIsOrdered(EditsFor(source, at, ds), |source|);
    FixResult(Replaced(source, kept, 0), kept)
  }

  method FixSource(source: string, at: string -> Option<Position>, diagnostics: seq<Diagnostic>)
    returns (r: FixResult)
    ensures r == FixSpec(source, at, diagnostics)
  {
    hide ValueSpan, EncodeValue, Kept, Replaced;
    var lineStarts := LineStartOffsets(source);
    var edits: seq<Edit<Note>> := [];
    for i := 0 to |diagnostics|
      invariant edits == EditsFor(source, at, diagnostics[..i])
    {
      var d := diagnostics[i];
      assert diagnostics[..i + 1][..i] == diagnostics[..i];
      if d.fix.Some? && d.path.Some? && at(d.path.value).Some? {
        var span := LocateValue(source, lineStarts, at(d.path.value).value, d.path.value);
        if span.Some? && span.value.value != d.fix.value {
          var text := EncodeText(span.value.quote, d.fix.value);
          edits := edits + [Edit(span.value.start, span.value.end, text,
                                 Note(d.path.value, d.rule, span.value.value, d.fix.value))];
        }
      }
    }
    assert diagnostics[..|diagnostics|] == diagnostics;
    var kept := SortNonOverlapping(edits);
    KeptIsOrdered(edits, |source|);
    var next := Apply(source, kept);
    r := FixResult(next, kept);
  }

  method EncodeText(quote: QuoteStyle, value: string) returns (text: string)
    ensures text == EncodeValue(quote, value)
  {
    if quote == Literal && '\'' !in value {
      return "'" + value + "'";
    }
    text := EncodeBasic(value);
  }
}
