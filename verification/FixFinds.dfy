/**
 The fix engine finds values: a key that stands where it is said to stand, with a value that
 ends on its line, is found, and rewritten if its value is another one.
 */
module FixFinds {
  import opened JsText
  import opened Wrappers
  import opened BasicStrings
  import opened Splices
  import opened Fix
  import opened FixLines
  import opened OffsetFix
  import FormatScan

  // ----- The text of a key and its value -----

  /** `path` ends in `key`. */
  ghost predicate EndsIn(path: string, key: string) {
    '.' !in key && (path == key || exists prefix :: path == prefix + "." + key)
  }

  /** `v` is a one-line value with what stands behind it, and `body` what it holds between its quotes. */
  predicate IsValue(v: string, body: string, rest: string, style: QuoteStyle) {
    match style
    case Basic => v == "\"" + body + "\"" && Contained(body, '"') && (body == "" ==> rest == "" || rest[0] != '"')
    case Literal => v == "'" + body + "'" && '\'' !in body && (body == "" ==> rest == "" || rest[0] != '\'')
    case Bare =>
      && v == body != "" && v[0] != '"' && v[0] != '\'' && v[0] != '{' && v[0] != '['
      && (forall c | c in v :: !IsGap(c) && c != '#')
      && (rest == "" || IsGap(rest[0]) || rest[0] == '#')
    case _ => false
  }

  /** What the value says. */
  function Says(body: string, style: QuoteStyle): string {
    if style == Basic then DecodeBasic(body) else body
  }

  /** A line on which `key` stands at the column behind `lead`, and its value behind the first `=`. */
  datatype Line = Line(lead: string, key: string, mid: string, gaps: string, v: string, rest: string)

  function Text(l: Line): string {
    l.lead + l.key + l.mid + "=" + l.gaps + l.v + l.rest
  }

  function Front(l: Line): string {
    l.lead + l.key + l.mid + "=" + l.gaps
  }

  predicate IsLine(l: Line) {
    && '\n' !in Front(l) + l.v && '=' !in l.key + l.mid
    && forall c | c in l.gaps :: IsGap(c)
  }

  // ----- The key -----

  lemma {:induction false} LastPart(prefix: string, key: string)
    requires '.' !in key
    ensures var parts := Split(prefix + "." + key, '.'); parts[|parts| - 1] == key
  {
    if prefix == "" {
      assert prefix + "." + key == "." + key && ("." + key)[1..] == key;
      SplitOfHead(key, '.', "");
      assert ([""] + [key])[1] == key;
    } else {
      var s, t := prefix + "." + key, prefix[1..] + "." + key;
      assert s[1..] == t && s[0] == prefix[0];
      LastPart(prefix[1..], key);
      MoreParts(prefix[1..], key);
    }
  }

  lemma {:induction false} MoreParts(prefix: string, key: string)
    ensures |Split(prefix + "." + key, '.')| >= 2
  {
    if prefix == "" {
      assert (prefix + "." + key)[1..] == key;
    } else {
      assert (prefix + "." + key)[1..] == prefix[1..] + "." + key;
      MoreParts(prefix[1..], key);
    }
  }

  lemma KeyIs(path: string, key: string)
    requires EndsIn(path, key)
    ensures KeyOf(path) == key
  {
    hide Split;
    if path == key {
      SplitOfHead(key, '.', "");
    } else {
      var prefix :| path == prefix + "." + key;
      LastPart(prefix, key);
    }
  }

  // ----- The value -----

  lemma {:induction false} ClosesBasic(pre: string, t: string, more: string)
    requires Contained(t, '"')
    ensures var s := pre + t + "\"" + more;
      FormatScan.BasicCloses(s, |pre|) && FormatScan.BasicEnd(s, |pre|) == |pre| + |t| + 1
    decreases |t|
  {
    var s := pre + t + "\"" + more;
    if t == "" {
      assert s[|pre|] == '"';
    } else {
      assert s[|pre|] == t[0];
      var n := if t[0] == '\\' then 2 else 1;
      assert pre + t[..n] + t[n..] + "\"" + more == s;
      ClosesBasic(pre + t[..n], t[n..], more);
    }
  }

  lemma BasicFound(pre: string, body: string, rest: string, limit: nat)
    requires Contained(body, '"') && var v := "\"" + body + "\""; |pre + v| <= limit <= |pre + v + rest|
    ensures var v := "\"" + body + "\"";
      BasicAt(pre + v + rest, limit, |pre|) == Some(Span(|pre|, |pre + v|, DecodeBasic(body), Basic))
  {
    hide DecodeBasic, Contained, FormatScan.BasicCloses, FormatScan.BasicEnd;
    var v := "\"" + body + "\"";
    var s := pre + v + rest;
    var more := s[|pre + v|..limit];
    assert s[..limit] == (pre + "\"") + body + "\"" + more;
    ClosesBasic(pre + "\"", body, more);
    assert s[|pre| + 1..|pre + v| - 1] == body;
  }

  lemma LiteralFound(pre: string, body: string, rest: string, limit: nat)
    requires '\'' !in body && var v := "'" + body + "'"; |pre + v| <= limit <= |pre + v + rest|
    ensures var v := "'" + body + "'";
      LiteralAt(pre + v + rest, limit, |pre|) == Some(Span(|pre|, |pre + v|, body, Literal))
  {
    hide Find;
    var v := "'" + body + "'";
    var s := pre + v + rest;
    assert s[|pre| + 1..|pre + v| - 1] == body;
    forall j | |pre| + 1 <= j < |pre + v| - 1 ensures s[j] != '\'' {
      assert s[j] == body[j - |pre| - 1];
    }
    FindChar(s, '\'', |pre| + 1, |pre + v| - 1);
  }

  lemma {:induction false} BareEnds(s: string, limit: nat, i: nat, end: nat)
    requires i <= end <= limit <= |s| && (forall j | i <= j < end :: !IsGap(s[j]) && s[j] != '#')
    requires end == limit || IsGap(s[end]) || s[end] == '#'
    ensures BareEnd(s, limit, i) == end
    decreases end - i
  {
    if i < end { BareEnds(s, limit, i + 1, end); }
  }

  lemma BareFound(pre: string, v: string, rest: string, limit: nat)
    requires IsValue(v, v, rest, Bare) && |pre + v| <= limit <= |pre + v + rest|
    ensures ValueAt(pre + v + rest, limit, |pre|) == Some(Span(|pre|, |pre + v|, v, Bare))
  {
    var s := pre + v + rest;
    assert s[|pre|] == v[0] && s[|pre|..|pre + v|] == v;
    forall j | |pre| <= j < |pre + v| ensures !IsGap(s[j]) && s[j] != '#' {
      assert s[j] == v[j - |pre|] && v[j - |pre|] in v;
    }
    assert |pre + v| < limit ==> s[|pre + v|] == rest[0];
    BareEnds(s, limit, |pre|, |pre + v|);
  }

  /** One quote, or an empty string with another character behind it, opens no triple quote. */
  lemma NoTriple(pre: string, q: char, body: string, rest: string)
    requires q !in body[..if body == "" then 0 else 1] && (body == "" ==> rest == "" || rest[0] != q)
    ensures !At(pre + ([q] + body + [q]) + rest, [q, q, q], |pre|)
  {
    var s := pre + ([q] + body + [q]) + rest;
    if |pre| + 3 <= |s| {
      assert s[|pre|..|pre| + 3] == [s[|pre|], s[|pre| + 1], s[|pre| + 2]];
      if body == "" {
        assert s[|pre| + 2] == rest[0];
      } else {
        assert s[|pre| + 1] == body[0] && body[0] in body[..1];
      }
    }
  }

  lemma ContainedFirst(body: string)
    requires Contained(body, '"')
    ensures '"' !in body[..if body == "" then 0 else 1]
  {
  }

  lemma ValueFound(pre: string, v: string, body: string, rest: string, style: QuoteStyle, limit: nat)
    requires IsValue(v, body, rest, style) && |pre + v| <= limit <= |pre + v + rest|
    ensures v != "" && ValueAt(pre + v + rest, limit, |pre|) == Some(Span(|pre|, |pre + v|, Says(body, style), style))
  {
    hide At, BasicAt, LiteralAt, BareEnd, DecodeBasic, Contained;
    var s := pre + v + rest;
    match style {
      case Basic =>
        ContainedFirst(body);
        NoTriple(pre, '"', body, rest);
        assert v == ['"'] + body + ['"'] && TRIPLE_BASIC == ['"', '"', '"'] && s[|pre|] == '"';
        BasicFound(pre, body, rest, limit);
      case Literal =>
        NoTriple(pre, '\'', body, rest);
        assert v == ['\''] + body + ['\''] && TRIPLE_LITERAL == ['\'', '\'', '\''] && s[|pre|] == '\'';
        LiteralFound(pre, body, rest, limit);
      case Bare =>
        BareFound(pre, v, rest, limit);
    }
  }

  lemma NoGapFirst(v: string, body: string, rest: string, style: QuoteStyle)
    requires IsValue(v, body, rest, style)
    ensures v != "" && !IsGap(v[0])
  {
  }

  lemma {:induction false} GapsSkipped(s: string, limit: nat, i: nat, end: nat)
    requires i <= end < limit <= |s| && (forall j | i <= j < end :: IsGap(s[j])) && !IsGap(s[end])
    ensures SkipGaps(s, limit, i) == end
    decreases end - i
  {
    if i < end { GapsSkipped(s, limit, i + 1, end); }
  }

  // ----- The line -----

  lemma LineIsLong(l: Line)
    requires IsLine(l)
    ensures |Front(l) + l.v| <= LineLength(Text(l)) <= |Text(l)|
  {
    hide LineLength;
    assert Text(l) == (Front(l) + l.v) + l.rest;
    if LineLength(Text(l)) < |Front(l) + l.v| {
      BreakInside(Front(l) + l.v, l.rest);
      assert false;
    }
  }

  lemma BreakInside(s: string, rest: string)
    requires LineLength(s + rest) < |s|
    ensures '\n' in s
  {
    hide LineLength;
    var n := LineLength(s + rest);
    assert n > 0 && s[n - 1] == (s + rest)[n - 1];
  }

  /** The separator and the key in front of it. */
  lemma SeparatorFound(l: Line)
    requires IsLine(l)
    ensures var s, eq := Text(l), |l.lead + l.key + l.mid|;
      && Find(s, "=", |l.lead|) == Some(eq) && s[|l.lead|..eq] == l.key + l.mid
      && Find(s[|l.lead|..eq], l.key, 0).Some?
  {
    hide Find;
    var s, eq := Text(l), |l.lead + l.key + l.mid|;
    var km := l.key + l.mid;
    assert s == l.lead + km + ("=" + l.gaps + l.v + l.rest);
    assert s[|l.lead|..eq] == km && s[eq] == '=';
    forall j | |l.lead| <= j < eq ensures s[j] != '=' {
      assert s[j] == km[j - |l.lead|];
    }
    FindChar(s, '=', |l.lead|, eq);
    assert km[0..|l.key|] == l.key;
    FindFirst(km, l.key, 0, 0);
  }

  lemma ValueReached(l: Line, limit: nat)
    requires IsLine(l) && l.v != "" && !IsGap(l.v[0]) && |Front(l)| < limit <= |Text(l)|
    ensures SkipGaps(Text(l), limit, |l.lead + l.key + l.mid| + 1) == |Front(l)|
  {
    hide SkipGaps;
    var s, eq := Text(l), |l.lead + l.key + l.mid|;
    forall j | eq + 1 <= j < |Front(l)| ensures IsGap(s[j]) {
      assert s[j] == l.gaps[j - eq - 1] && l.gaps[j - eq - 1] in l.gaps;
    }
    assert s[|Front(l)|] == l.v[0];
    GapsSkipped(s, limit, eq + 1, |Front(l)|);
  }

  lemma SpanFound(l: Line, body: string, style: QuoteStyle)
    requires IsLine(l) && IsValue(l.v, body, l.rest, style)
    ensures SpanIn(Text(l), LineLength(Text(l)), |l.lead|, l.key)
         == Some(Span(|Front(l)|, |Front(l) + l.v|, Says(body, style), style))
  {
    hide LineLength, Find, SkipGaps, ValueAt, IsValue, IsLine, Says;
    NoGapFirst(l.v, body, l.rest, style);
    LineIsLong(l);
    SeparatorFound(l);
    ValueReached(l, LineLength(Text(l)));
    assert Text(l) == Front(l) + l.v + l.rest;
    ValueFound(Front(l), l.v, body, l.rest, style, LineLength(Text(l)));
  }

  // ----- Main results -----

  /**
   `valueSpan` finds every value that ends on the line of its key: exactly its range, what it
   says and how it is quoted.
   */
  lemma ValueIsFound(before: string, l: Line, body: string, style: QuoteStyle, position: Position, path: string)
    requires Boundary(before) && position.line == Breaks(before) + 1 && position.column == |l.lead| + 1
    requires EndsIn(path, l.key) && IsLine(l) && IsValue(l.v, body, l.rest, style)
    ensures var start := |before + Front(l)|;
      ValueSpan(before + Text(l), position, path) == Some(Span(start, start + |l.v|, Says(body, style), style))
  {
    hide SpanIn, KeyOf, LineLength, Breaks, Boundary, ValueSpan, IsValue, IsLine, Says, EndsIn;
    KeyIs(path, l.key);
    ValueSpanOnLine(before, Text(l), position, path);
    SpanFound(l, body, style);
  }

  /** The edit that is asked for then. */
  function EditOf(before: string, l: Line, body: string, style: QuoteStyle, path: string, d: Diagnostic): Edit<Note>
    requires d.fix.Some?
  {
    var start := |before + Front(l)|;
    Edit(start, start + |l.v|, EncodeValue(style, d.fix.value), Note(path, d.rule, Says(body, style), d.fix.value))
  }

  /**
   A diagnostic at such a key whose fix differs from the value is carried out: its edit is
   among those returned, unless one of those reaches into its range.
   */
  lemma FixIsMade(before: string, l: Line, body: string, style: QuoteStyle, position: Position, path: string,
                  at: string -> Option<Position>, ds: seq<Diagnostic>, d: Diagnostic)
    requires Boundary(before) && position.line == Breaks(before) + 1 && position.column == |l.lead| + 1
    requires EndsIn(path, l.key) && IsLine(l) && IsValue(l.v, body, l.rest, style)
    requires d in ds && d.path == Some(path) && at(path) == Some(position) && d.fix.Some? && d.fix.value != Says(body, style)
    ensures var edits, e := FixSpec(before + Text(l), at, ds).edits, EditOf(before, l, body, style, path, d);
      e in edits || Clashes(e, edits)
  {
    hide ValueSpan, Kept, Clashes, EncodeValue, IsValue, IsLine, Says, EndsIn, Breaks, Boundary, Replaced;
    var s := before + Text(l);
    ValueIsFound(before, l, body, style, position, path);
    EditListed(s, at, ds, d);
    KeptIsOrdered(EditsFor(s, at, ds), |s|);
  }

  lemma {:induction false} EditListed(s: string, at: string -> Option<Position>, ds: seq<Diagnostic>, d: Diagnostic)
    requires d in ds && EditFor(s, at, d).Some?
    ensures EditFor(s, at, d).value in EditsFor(s, at, ds)
    decreases |ds|
  {
    hide EditFor;
    var front, last := ds[..|ds| - 1], ds[|ds| - 1];
    if d != last {
      assert ds == front + [last];
      EditListed(s, at, front, d);
    }
  }

  /** On its own it is the one edit, and it replaces the value in the source. */
  lemma OnlyFixIsMade(before: string, l: Line, body: string, style: QuoteStyle, position: Position, path: string,
                      at: string -> Option<Position>, d: Diagnostic)
    requires Boundary(before) && position.line == Breaks(before) + 1 && position.column == |l.lead| + 1
    requires EndsIn(path, l.key) && IsLine(l) && IsValue(l.v, body, l.rest, style)
    requires d.path == Some(path) && at(path) == Some(position) && d.fix.Some? && d.fix.value != Says(body, style)
    ensures var fixed := FixSpec(before + Text(l), at, [d]);
      && fixed.edits == [EditOf(before, l, body, style, path, d)]
      && fixed.source == before + Front(l) + EncodeValue(style, d.fix.value) + l.rest
  {
    hide ValueSpan, Kept, EncodeValue, IsValue, IsLine, Says, EndsIn, Breaks, Boundary, Replaced, Ordered;
    var s, e := before + Text(l), EditOf(before, l, body, style, path, d);
    ValueIsFound(before, l, body, style, position, path);
    assert [d][..|[d]| - 1] == [] && EditsFor(s, at, []) == [];
    assert EditsFor(s, at, [d]) == [] + [e] == [e];
    KeptIsOrdered([e], |s|);
    OnlyEditKept(e);
    OnlyEditReplaced(s, e);
    assert s[..e.start] == before + Front(l) && s[e.end..] == l.rest;
  }
}
