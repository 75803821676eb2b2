/**
 A whole run of `fix` against TOML's reading: in the fixed source, at the place of every value
 that was rewritten, stands a string token that says the replacement.
 */
module FixReading {
  import opened JsText
  import opened Wrappers
  import opened BasicStrings
  import opened Splices
  import opened Fix
  import opened FixLines
  import opened FixedLines
  import opened FixIdempotence
  import opened TomlStrings
  import opened FixTokens
  import OffsetFix
  import FormatScan
  import FormatAgree

  /** The first edit from the line of `d` on is that of `d`. */
  lemma FirstOnLine(source: string, at: string -> Option<Position>, ds: seq<Diagnostic>, d: Diagnostic, a: nat, k: nat)
    requires Orderly(source, at, ds) && d in ds && EditFor(source, at, d).Some?
    requires Line(at, d) <= |LineStarts(source)| && a == LineStarts(source)[Line(at, d) - 1]
    requires Breaks(source[..a]) == Line(at, d) - 1
    requires var edits := FixSpec(source, at, ds).edits;
      && k <= |edits| && (forall i | 0 <= i < k :: edits[i].start < a)
      && forall i | k <= i < |edits| :: a <= edits[i].start
    ensures var edits, e := FixSpec(source, at, ds).edits, EditFor(source, at, d).value;
      k < |edits| && edits[k] == e && a <= e.start
  {
    hide LineLength, Breaks, LineStarts, ValueSpan, EditsFor, Kept, Replaced, Tame, Ordered, AllHaveOrigins, Orderly;
    KeptEdits(source, at, ds);
    var edits, e := FixSpec(source, at, ds).edits, EditFor(source, at, d).value;
    var i :| 0 <= i < |ds| && ds[i] == d;
    var a0, eq := WhereFound(source, at(d.path.value).value, d.path.value);
    EditAhead(edits, |source|, k, a, e);
    SameLineBreaks(source, a, edits[k].start, e.start);
    OnlyEditOnLine(source, edits, k, e);
  }

  /** Between two places that as many line breaks stand in front of, there are as many. */
  lemma SameLineBreaks(s: string, a: nat, x: nat, b: nat)
    requires a <= x <= b <= |s| && Breaks(s[..a]) == Breaks(s[..b])
    ensures Breaks(s[..x]) == Breaks(s[..b])
  {
    hide Breaks;
    assert s[..x] == s[..a] + s[a..x] && s[..b] == s[..x] + s[x..b];
    BreaksConcat(s[..a], s[a..x]);
    BreaksConcat(s[..x], s[x..b]);
  }

  lemma OnlyEditOnLine(s: string, edits: seq<Edit<Note>>, k: nat, e: Edit<Note>)
    requires Within(edits, |s|) && OwnLines(s, edits) && k < |edits| && e in edits
    requires Breaks(s[..edits[k].start]) == Breaks(s[..e.start])
    ensures edits[k] == e
  {
    hide Breaks;
    var j :| 0 <= j < |edits| && edits[j] == e;
  }

  /** Behind an edit stands the character of the source, because the next edit is on another line. */
  lemma NextCharacter(source: string, edits: seq<Edit<Note>>, q: char)
    requires edits != [] && Ordered(edits, edits[0].start, |source|) && Within(edits, |source|) && OwnLines(source, edits)
    requires '\n' !in source[edits[0].start..edits[0].end]
    ensures Ordered(edits[1..], edits[0].end, |source|)
    ensures At(Replaced(source, edits[1..], edits[0].end), [q], 0) <==> At(source, [q], edits[0].end)
  {
    hide Replaced, Ordered, At, Breaks;
    var e, rest := edits[0], edits[1..];
    ReplacedHead(source, edits, e.start);
    ReplacedHead(source, rest, e.end);
    var text := Replaced(source, rest, e.end);
    if rest != [] {
      ApartFromNext(source, e, edits[1]);
      assert source[e.end..rest[0].start][0] == source[e.end];
    }
    OneQuote(text, q, 0);
    OneQuote(source, q, e.end);
  }

  lemma ApartFromNext(source: string, e: Edit<Note>, next: Edit<Note>)
    requires e.start <= e.end <= next.start <= |source| && '\n' !in source[e.start..e.end]
    requires Breaks(source[..e.start]) != Breaks(source[..next.start])
    ensures e.end < next.start
  {
    hide Breaks;
    assert source[..e.end] == source[..e.start] + source[e.start..e.end];
    BreaksConcat(source[..e.start], source[e.start..e.end]);
    NoBreaks(source[e.start..e.end]);
  }

  lemma SuffixOwnLines(source: string, edits: seq<Edit<Note>>, k: nat)
    requires Within(edits, |source|) && OwnLines(source, edits) && k <= |edits|
    ensures Within(edits[k..], |source|) && OwnLines(source, edits[k..])
  {
    hide EditLine;
    forall x, y | 0 <= x < y < |edits[k..]| ensures EditLine(source, edits[k..][x]) != EditLine(source, edits[k..][y]) {
      assert edits[k..][x] == edits[k + x] && edits[k..][y] == edits[k + y];
    }
  }

  /** The text from an edit's line on: what stood before the edit, what it wrote, and the rest. */
  lemma LineOfEdit(source: string, edits: seq<Edit<Note>>, a: nat)
    requires edits != [] && a <= edits[0].start && Ordered(edits, a, |source|)
    requires Within(edits, |source|) && OwnLines(source, edits) && Tame(source, edits[0])
    ensures Ordered(edits[1..], edits[0].end, |source|)
    ensures var e, rest := edits[0], Replaced(source, edits[1..], edits[0].end);
      && Replaced(source, edits, a) == source[a..e.start] + e.text + rest
      && (At(rest, "\"", 0) <==> At(source, "\"", e.end)) && (At(rest, "'", 0) <==> At(source, "'", e.end))
  {
    hide Replaced, At, Breaks, OwnLines;
    var e := edits[0];
    ReplacedHead(source, edits, a);
    StartsAtFirst(source, edits, a);
    NextCharacter(source, edits, '"');
    NextCharacter(source, edits, '\'');
    Regroup(source[a..e.start], e.text, Replaced(source, edits[1..], e.end));
  }

  lemma StartsAtFirst(source: string, edits: seq<Edit<Note>>, a: nat)
    requires edits != [] && Ordered(edits, a, |source|)
    ensures Ordered(edits, edits[0].start, |source|)
  {
  }

  /** Where TOML finds the separator of the key/value that starts at `from` on a line that ends at `limit`. */
  function Separator(s: string, from: nat, limit: nat): (eq: Option<nat>)
    requires limit <= |s|
    ensures eq.Some? ==> from <= eq.value < limit && s[eq.value] == '='
  {
    if from > limit then None
    else
      var eq := FormatAgree.TomlLine(s[from..limit], 0, FormatScan.Outside).eq;
      if eq < 0 then None
      else
        FormatAgree.SeparatorColumn(s[from..limit]);
        Some(from + eq)
  }

  /** Where TOML's value of that key starts. */
  function ValueOf(s: string, from: nat, limit: nat): Option<nat>
    requires limit <= |s|
  {
    match Separator(s, from, limit) case None => None case Some(eq) => Some(SkipGaps(s, limit, eq + 1))
  }

  /** No `=` stands in the key. */
  predicate SeparatorFirst(s: string, from: nat, limit: nat)
    requires limit <= |s|
  {
    var eq := Separator(s, from, limit);
    eq.Some? && '=' !in s[from..eq.value]
  }

  /** The value found starts where TOML's does exactly when the first `=` is the separator. */
  lemma FoundIsValue(s: string, limit: nat, from: nat, key: string)
    requires limit <= |s| && SpanIn(s, limit, from, key).Some?
    ensures ValueOf(s, from, limit) == Some(SpanIn(s, limit, from, key).value.start) <==> SeparatorFirst(s, from, limit)
  {
    hide ValueAt, Separator, SkipGaps;
    var eq := Find(s, "=", from).value;
    FirstEquals(s, from, eq);
    var start := SkipGaps(s, limit, eq + 1);
    if Separator(s, from, limit).Some? {
      var sep := Separator(s, from, limit).value;
      EqualsIsNoGap();
      assert sep != eq ==> eq < sep && s[from..sep][eq - from] == '=';
      assert sep == eq ==> forall j | 0 <= j < sep - from :: s[from..sep][j] == s[from + j];
    }
  }

  lemma FirstEquals(s: string, from: nat, eq: nat)
    requires Find(s, "=", from) == Some(eq)
    ensures eq < |s| && s[eq] == '=' && forall j | from <= j < eq :: s[j] != '='
  {
    hide Find;
    assert At(s, "=", eq);
    assert s[eq..eq + 1] == [s[eq]];
    forall j | from <= j < eq ensures s[j] != '=' {
      assert !At(s, "=", j);
      assert s[j..j + 1] == [s[j]];
    }
  }

  lemma EqualsIsNoGap()
    ensures !IsGap('=')
  {
  }

  /**
   The span found for a key is TOML's value of that key exactly when no `=` stands in the key and
   nothing of the value goes on behind the span.
   */
  lemma FoundIsToken(source: string, position: Position, path: string)
    requires ValueSpan(source, position, path).Some?
    ensures position.line <= |LineStarts(source)| && OffsetFix.LineLimit(source, position.line) <= |source|
    ensures var span := ValueSpan(source, position, path).value;
      var from, limit := LineStarts(source)[position.line - 1] + position.column - 1, OffsetFix.LineLimit(source, position.line);
      (ValueOf(source, from, limit) == Some(span.start) && TokenEnd(source, span.start) == Some(span.end))
      <==> SeparatorFirst(source, from, limit) && Exact(source, span)
  {
    hide LineStarts, ValueAt, Find, KeyOf, TokenEnd, Exact, SkipGaps, Separator, SeparatorFirst, ValueOf;
    OffsetFix.LineShape(source, position.line);
    var from, limit := LineStarts(source)[position.line - 1] + position.column - 1, OffsetFix.LineLimit(source, position.line);
    var span := ValueSpan(source, position, path).value;
    assert SpanIn(source, limit, from, KeyOf(path)) == Some(span);
    FoundIsValue(source, limit, from, KeyOf(path));
    SpanIsToken(source, limit, span.start);
  }

  /**
   After a run, at the place of every value that was rewritten, in the column where it
   stood, TOML reads a string that says the replacement and ends where it was written to
   end; and it does so if and only if the replacement reads there.
   */
  lemma FixedTokens(source: string, at: string -> Option<Position>, ds: seq<Diagnostic>, d: Diagnostic)
    requires Orderly(source, at, ds) && d in ds && Fixable(at, d) && Found(source, at, d).Some?
    requires Found(source, at, d).value.value != d.fix.value
    ensures var fixed, span := FixSpec(source, at, ds).source, Found(source, at, d).value;
      && |LineStarts(fixed)| == |LineStarts(source)| && Line(at, d) <= |LineStarts(source)|
      && var a, a1 := LineStarts(source)[Line(at, d) - 1], LineStarts(fixed)[Line(at, d) - 1];
         var p, text := a1 + span.start - a, EncodeValue(span.quote, d.fix.value);
         && a1 <= p && p + |text| <= |fixed| && fixed[p..p + |text|] == text
         && (StringToken(fixed, p) == Some(Token(p + |text|, d.fix.value)) <==>
             Reads(source, span.end, span.quote, d.fix.value))
  {
    hide LineLength, Breaks, LineStarts, ValueSpan, EditsFor, Kept, Replaced, Tame, Ordered, AllHaveOrigins, Orderly,
      OwnLines, EncodeValue, StringToken, At, Boundary, Reads;
    var a0, eq := WhereFound(source, at(d.path.value).value, d.path.value);
    NoSuchLine(source, at, ds);
    KeptEdits(source, at, ds);
    var a, k, a1 := FixedLine(source, at, ds, d);
    FirstOnLine(source, at, ds, d, a, k);
    var fixed, edits, span := FixSpec(source, at, ds).source, FixSpec(source, at, ds).edits, Found(source, at, d).value;
    SuffixOwnLines(source, edits, k);
    LineOfEdit(source, edits[k..], a);
    var rest := Replaced(source, edits[k..][1..], span.end);
    ReadsOnLine(fixed, a1, source[a..span.start], span.quote, d.fix.value, rest);
    SameBehind(source, span.end, rest, span.quote, d.fix.value);
  }

  lemma ReadsOnLine(fixed: string, a: nat, front: string, style: QuoteStyle, replacement: string, rest: string)
    requires a <= |fixed| && fixed[a..] == front + EncodeValue(style, replacement) + rest
    ensures var p, text := a + |front|, EncodeValue(style, replacement);
      && p + |text| <= |fixed| && fixed[p..p + |text|] == text
      && (StringToken(fixed, p) == Some(Token(p + |text|, replacement)) <==> Reads(rest, 0, style, replacement))
  {
    hide StringToken, Reads, EncodeValue;
    var text := EncodeValue(style, replacement);
    var pre := fixed[..a] + front;
    assert fixed == fixed[..a] + fixed[a..];
    assert fixed == pre + text + rest;
    WrittenBetween(pre, style, replacement, rest);
  }

  lemma SameBehind(s: string, end: nat, rest: string, style: QuoteStyle, replacement: string)
    requires (At(rest, "\"", 0) <==> At(s, "\"", end)) && (At(rest, "'", 0) <==> At(s, "'", end))
    ensures Reads(rest, 0, style, replacement) <==> Reads(s, end, style, replacement)
  {
    hide At;
    assert ['"'] == "\"" && ['\''] == "'";
  }
}
