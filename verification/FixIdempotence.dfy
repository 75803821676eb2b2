/**
 Running `fix` twice: after one run every edited key holds its replacement where it
 stood before, and a second run with the same diagnostics has nothing to do.
 */
module FixIdempotence {
  import opened JsText
  import opened Wrappers
  import opened Splices
  import opened BasicStrings
  import opened Fix
  import opened FixLines
  import opened FixRewrite
  import opened FixedLines

  /** What a key reads before the run (`before`) and after it (`after`). */
  ghost predicate ReadsFixed(source: string, d: Diagnostic, before: Option<Span>, after: Option<Span>)
    requires d.fix.Some?
  {
    && (before.None? ==> after.None?)
    && (before.Some? && before.value.value == d.fix.value ==> after.Some? && after.value.value == d.fix.value)
    && (before.Some? && before.value.value != d.fix.value ==>
          (after.Some? && after.value.value == d.fix.value <==>
             EndsClean(source, before.value.end, before.value.quote, d.fix.value)))
  }

  lemma NoSuchLine(source: string, at: string -> Option<Position>, ds: seq<Diagnostic>)
    requires Orderly(source, at, ds)
    ensures |LineStarts(FixSpec(source, at, ds).source)| == |LineStarts(source)|
  {
    hide LineStarts, EditsFor, Kept, Replaced, Breaks, Tame, OwnLines, AllHaveOrigins, Orderly;
    KeptEdits(source, at, ds);
    var fixed := FixSpec(source, at, ds);
    BreaksKept(source, fixed.edits, 0);
    assert source[0..] == source;
    StartsOfPrefix(source, "");
    StartsOfPrefix(fixed.source, "");
  }

  /** The edit of a key that was to be changed is among the kept edits at or after its line. */
  lemma EditAhead(kept: seq<Edit<Note>>, n: nat, k: nat, a: nat, e: Edit<Note>)
    requires Ordered(kept, 0, n) && k <= |kept| && e in kept && a <= e.start
    requires forall i | 0 <= i < k :: kept[i].start < a
    ensures k < |kept| && kept[k].start <= e.start
  {
    hide Ordered;
    OrderedBound(kept, 0, n);
    var x :| 0 <= x < |kept| && kept[x] == e;
  }

  /** Another edit on the same line would have come from the same diagnostic. */
  lemma OneEditOnLine(source: string, kept: seq<Edit<Note>>, k: nat, a: nat)
    requires Within(kept, |source|) && OwnLines(source, kept) && k < |kept| && a <= |source|
    requires a <= kept[k].start < a + LineLength(source[a..])
    requires k + 1 < |kept| ==> a <= kept[k + 1].start
    ensures k + 1 < |kept| ==> a + LineLength(source[a..]) <= kept[k + 1].start
  {
    hide LineLength, Breaks;
    OffsetOnLine(source, a, kept[k].start);
    if k + 1 < |kept| && kept[k + 1].start < a + LineLength(source[a..]) {
      OffsetOnLine(source, a, kept[k + 1].start);
    }
  }

  lemma SuffixTame(s: string, edits: seq<Edit<Note>>, k: nat)
    requires AllTame(s, edits) && k <= |edits|
    ensures AllTame(s, edits[k..])
  {
    hide Tame;
    forall i | 0 <= i < |edits[k..]| ensures Tame(s, edits[k..][i]) {
      assert edits[k..][i] == edits[k + i];
    }
  }

  function Column(at: string -> Option<Position>, d: Diagnostic): nat
    requires Fixable(at, d)
  {
    at(d.path.value).value.column - 1
  }

  /** The diagnostic behind an edit on the line of `d`, and what its key read there. */
  lemma EditOnLineOf(source: string, at: string -> Option<Position>, ds: seq<Diagnostic>, d: Diagnostic, e: Edit<Note>, a: nat)
    returns (j: nat)
    requires Orderly(source, at, ds) && d in ds && Fixable(at, d) && HasOrigin(source, at, ds, e)
    requires Line(at, d) <= |LineStarts(source)| && a == LineStarts(source)[Line(at, d) - 1]
    requires Breaks(source[..a]) == Line(at, d) - 1
    requires a <= e.start < a + LineLength(source[a..])
    ensures j < |ds| && Fixable(at, ds[j]) && Line(at, ds[j]) == Line(at, d) && Column(at, ds[j]) == Column(at, d)
    ensures EditFor(source, at, ds[j]) == Some(e)
    ensures var span := SpanIn(source[a..], LineLength(source[a..]), Column(at, d), KeyOf(ds[j].path.value));
      && span.Some? && a + span.value.start == e.start && a + span.value.end == e.end
      && e.text == EncodeValue(span.value.quote, ds[j].fix.value)
  {
    hide LineLength, Breaks, LineStarts, SpanIn, KeyOf, EncodeValue, Boundary;
    j :| Origin(source, at, ds, e, j);
    assert ds[j] in ds;
    EditIsTame(source, at, ds, ds[j]);
    OffsetOnLine(source, a, e.start);
    LineLookedAt(source, at(ds[j].path.value).value, ds[j].path.value);
  }

  /** Where the line of `d` stands in the fixed source, and the edits from there on. */
  lemma FixedLine(source: string, at: string -> Option<Position>, ds: seq<Diagnostic>, d: Diagnostic)
    returns (a: nat, k: nat, a1: nat)
    requires Orderly(source, at, ds) && Fixable(at, d) && Line(at, d) <= |LineStarts(source)|
    ensures a == LineStarts(source)[Line(at, d) - 1] && Boundary(source[..a]) && Breaks(source[..a]) == Line(at, d) - 1
    ensures var fixed := FixSpec(source, at, ds);
      && k <= |fixed.edits| && Ordered(fixed.edits[k..], a, |source|)
      && (forall i | 0 <= i < k :: fixed.edits[i].start < a)
      && (forall i | k <= i < |fixed.edits| :: a <= fixed.edits[i].start)
      && Line(at, d) <= |LineStarts(fixed.source)| && a1 == LineStarts(fixed.source)[Line(at, d) - 1]
      && fixed.source[a1..] == Replaced(source, fixed.edits[k..], a)
  {
    hide LineLength, Breaks, LineStarts, SpanIn, KeyOf, EditsFor, Kept, Replaced, Tame, Ordered, OwnLines, AllHaveOrigins, Orderly;
    KeptEdits(source, at, ds);
    LineLookedAt(source, at(d.path.value).value, d.path.value);
    var fixed := FixSpec(source, at, ds);
    a := LineStarts(source)[Line(at, d) - 1];
    var head;
    head, k := CutAt(source, fixed.edits, 0, a);
    assert source[0..a] == source[..a];
    var u := Replaced(source, fixed.edits[k..], a);
    LineAfter(head, u);
    a1 := |head|;
    assert fixed.source[a1..] == u;
  }

  /** What one diagnostic's key reads after the run. */
  lemma {:induction false} KeyAfterFix(source: string, at: string -> Option<Position>, ds: seq<Diagnostic>, d: Diagnostic)
    requires Orderly(source, at, ds) && d in ds && Fixable(at, d)
    ensures ReadsFixed(source, d, Found(source, at, d), Found(FixSpec(source, at, ds).source, at, d))
  {
    hide LineLength, Breaks, LineStarts, SpanIn, KeyOf, EditsFor, Kept, Replaced, Tame, Ordered, Orderly, ValueSpan,
      HasOrigin, EditLine, ReadsFixed, Shifted, Boundary, OwnLines;
    var fixed := FixSpec(source, at, ds);
    var position, path := at(d.path.value).value, d.path.value;
    NoSuchLine(source, at, ds);
    LineLookedAt(source, position, path);
    LineLookedAt(fixed.source, position, path);
    if position.line <= |LineStarts(source)| {
      var a, k, a1 := FixedLine(source, at, ds, d);
      KeptEdits(source, at, ds);
      SuffixTame(source, fixed.edits, k);
      var tail, n := fixed.edits[k..], LineLength(source[a..]);
      if tail == [] || a + n <= tail[0].start {
        UntouchedLine(source, tail, a, Column(at, d), KeyOf(path));
        NothingToDo(source, at, ds, d, a, k);
        ReadsAlready(source, d, SpanIn(source[a..], n, Column(at, d), KeyOf(path)), a);
      } else {
        OneEditOnLine(source, fixed.edits, k, a);
        KeyOfEditedLine(source, at, ds, d, tail, a);
      }
      var u := Replaced(source, tail, a);
      ReadsShifted(source, d, Found(source, at, d), SpanIn(u, LineLength(u), Column(at, d), KeyOf(path)), a1);
    } else {
      ReadsNothing(source, d);
    }
  }

  lemma ReadsShifted(source: string, d: Diagnostic, before: Option<Span>, after: Option<Span>, offset: nat)
    requires d.fix.Some? && ReadsFixed(source, d, before, after)
    ensures ReadsFixed(source, d, before, Shifted(after, offset))
  {
  }

  lemma ReadsAlready(source: string, d: Diagnostic, span: Option<Span>, offset: nat)
    requires d.fix.Some?
    requires Shifted(span, offset).Some? ==> Shifted(span, offset).value.value == d.fix.value
    ensures ReadsFixed(source, d, Shifted(span, offset), span)
  {
  }

  lemma ReadsNothing(source: string, d: Diagnostic)
    requires d.fix.Some?
    ensures ReadsFixed(source, d, None, None)
  {
  }

  /** The same on a line with an edit. */
  lemma {:induction false} KeyOfEditedLine(source: string, at: string -> Option<Position>, ds: seq<Diagnostic>,
                                           d: Diagnostic, tail: seq<Edit<Note>>, a: nat)
    requires Orderly(source, at, ds) && d in ds && Fixable(at, d)
    requires Line(at, d) <= |LineStarts(source)| && a == LineStarts(source)[Line(at, d) - 1]
    requires tail != [] && Ordered(tail, a, |source|) && AllTame(source, tail) && HasOrigin(source, at, ds, tail[0])
    requires tail[0].start < a + LineLength(source[a..])
    requires |tail| > 1 ==> a + LineLength(source[a..]) <= tail[1].start
    ensures var u := Replaced(source, tail, a);
      var after := SpanIn(u, LineLength(u), Column(at, d), KeyOf(d.path.value));
      ReadsFixed(source, d, Found(source, at, d), after)
  {
    hide LineLength, Breaks, LineStarts, SpanIn, KeyOf, Replaced, Tame, Orderly, ValueSpan, EndsClean, HasOrigin, EncodeValue;
    LineLookedAt(source, at(d.path.value).value, d.path.value);
    OrderedBound(tail, a, |source|);
    var j := EditOnLineOf(source, at, ds, d, tail[0], a);
    RewrittenLine(source, tail, a, Column(at, d), KeyOf(ds[j].path.value), KeyOf(d.path.value), ds[j].fix.value);
    if Found(source, at, d).Some? {
      SameDiagnostic(source, at, ds, d, j);
    }
  }

  lemma SameDiagnostic(source: string, at: string -> Option<Position>, ds: seq<Diagnostic>, d: Diagnostic, j: nat)
    requires Orderly(source, at, ds) && d in ds && Fixable(at, d) && Found(source, at, d).Some?
    requires j < |ds| && EditFor(source, at, ds[j]).Some? && Line(at, ds[j]) == Line(at, d)
    ensures d == ds[j]
  {
    hide ValueSpan;
    var i :| 0 <= i < |ds| && ds[i] == d;
  }

  /** A key on a line without edits already read its replacement, if it was found. */
  lemma NothingToDo(source: string, at: string -> Option<Position>, ds: seq<Diagnostic>, d: Diagnostic, a: nat, k: nat)
    requires Orderly(source, at, ds) && d in ds && Fixable(at, d) && Line(at, d) <= |LineStarts(source)|
    requires a == LineStarts(source)[Line(at, d) - 1]
    requires var edits := FixSpec(source, at, ds).edits;
      && k <= |edits| && (forall i | 0 <= i < k :: edits[i].start < a)
      && (k < |edits| ==> a + LineLength(source[a..]) <= edits[k].start)
    ensures Found(source, at, d).Some? ==> Found(source, at, d).value.value == d.fix.value
  {
    hide LineLength, Breaks, LineStarts, EditsFor, Kept, Replaced, Tame, Ordered, Orderly, ValueSpan, AllHaveOrigins, OwnLines;
    KeptEdits(source, at, ds);
    var found := Found(source, at, d);
    if found.Some? && found.value.value != d.fix.value {
      var i :| 0 <= i < |ds| && ds[i] == d;
      var e := EditFor(source, at, ds[i]).value;
      var a0, eq := WhereFound(source, at(d.path.value).value, d.path.value);
      EditAhead(FixSpec(source, at, ds).edits, |source|, k, a, e);
    }
  }

  // ----- Main results -----

  /** Every replacement's quotes end clean, where one is written. */
  ghost predicate AllEndClean(source: string, at: string -> Option<Position>, ds: seq<Diagnostic>) {
    forall d | d in ds && Fixable(at, d) && Found(source, at, d).Some? ::
      Found(source, at, d).value.value == d.fix.value ||
      EndsClean(source, Found(source, at, d).value.end, Found(source, at, d).value.quote, d.fix.value)
  }

  /** After one run every key that was found reads its replacement, if and only if the replacements end clean. */
  lemma FixedValues(source: string, at: string -> Option<Position>, ds: seq<Diagnostic>)
    requires Orderly(source, at, ds)
    ensures var fixed := FixSpec(source, at, ds).source;
      (forall d | d in ds && Fixable(at, d) && Found(source, at, d).Some? ::
         Found(fixed, at, d).Some? && Found(fixed, at, d).value.value == d.fix.value)
      <==> AllEndClean(source, at, ds)
  {
    hide Found, FixSpec, EndsClean, Orderly;
    forall d | d in ds && Fixable(at, d)
      ensures ReadsFixed(source, d, Found(source, at, d), Found(FixSpec(source, at, ds).source, at, d))
    {
      KeyAfterFix(source, at, ds, d);
    }
  }

  lemma {:induction false} NoEdits(source: string, at: string -> Option<Position>, ds: seq<Diagnostic>)
    requires forall d | d in ds && Fixable(at, d) ::
      Found(source, at, d).Some? ==> Found(source, at, d).value.value == d.fix.value
    ensures EditsFor(source, at, ds) == []
    decreases |ds|
  {
    hide ValueSpan;
    if ds != [] {
      NoEdits(source, at, ds[..|ds| - 1]);
      assert ds[|ds| - 1] in ds;
    }
  }

  /** A second run with the same diagnostics makes no edit. */
  lemma FixIdempotent(source: string, at: string -> Option<Position>, ds: seq<Diagnostic>)
    requires Orderly(source, at, ds) && AllEndClean(source, at, ds)
    ensures var fixed := FixSpec(source, at, ds).source;
      FixSpec(fixed, at, ds) == FixResult(fixed, [])
  {
    hide Found, EndsClean, Orderly;
    var fixed := FixSpec(source, at, ds).source;
    forall d | d in ds && Fixable(at, d)
      ensures Found(fixed, at, d).Some? ==> Found(fixed, at, d).value.value == d.fix.value
    {
      KeyAfterFix(source, at, ds, d);
    }
    NoEdits(fixed, at, ds);
    assert fixed[0..] == fixed;
  }

  /** The text of a line up to the value of its key is kept, so the key stays where it was. */
  lemma KeysStay(source: string, at: string -> Option<Position>, ds: seq<Diagnostic>, d: Diagnostic)
    requires Orderly(source, at, ds) && d in ds && Fixable(at, d) && Found(source, at, d).Some?
    ensures var fixed := FixSpec(source, at, ds).source;
      && |LineStarts(fixed)| == |LineStarts(source)| && Line(at, d) <= |LineStarts(source)|
      && var a, a1 := LineStarts(source)[Line(at, d) - 1], LineStarts(fixed)[Line(at, d) - 1];
         var n := Found(source, at, d).value.start - a;
         n > Column(at, d) && a1 + n <= |fixed| && fixed[a1..a1 + n] == source[a..a + n]
  {
    hide LineLength, Breaks, LineStarts, EditsFor, Kept, Replaced, Tame, Ordered, Orderly, ValueSpan, HasOrigin, EditLine, SpanIn, KeyOf, EncodeValue;
    var fixed := FixSpec(source, at, ds);
    NoSuchLine(source, at, ds);
    LineLookedAt(source, at(d.path.value).value, d.path.value);
    StartsAfterKey(source[LineStarts(source)[Line(at, d) - 1]..], LineLength(source[LineStarts(source)[Line(at, d) - 1]..]), Column(at, d), KeyOf(d.path.value));
    var a, k, a1 := FixedLine(source, at, ds, d);
    KeptEdits(source, at, ds);
    var tail, n := fixed.edits[k..], Found(source, at, d).value.start - a;
    if tail != [] && tail[0].start < a + LineLength(source[a..]) {
      var j := EditOnLineOf(source, at, ds, d, tail[0], a);
      SameDiagnostic(source, at, ds, d, j);
    }
    Advance(source, tail, a, a + n);
    assert fixed.source[a1..][..n] == source[a..a + n];
  }

  lemma StartsAfterKey(r: string, n: nat, from: nat, key: string)
    requires n <= |r|
    ensures SpanIn(r, n, from, key).Some? ==> from < SpanIn(r, n, from, key).value.start < n
  {
    hide ValueAt;
  }

  // ----- Values that run over the end of their line -----

  function BreaksIn(source: string, edits: seq<Edit<Note>>): nat
    requires forall i | 0 <= i < |edits| :: edits[i].start <= edits[i].end <= |source|
  {
    if edits == [] then 0
    else
      assert forall i | 0 < i < |edits| :: edits[i] == edits[1..][i - 1];
      Breaks(source[edits[0].start..edits[0].end]) + BreaksIn(source, edits[1..])
  }

  lemma {:induction false} LineBalance(s: string, edits: seq<Edit<Note>>, from: nat)
    requires Ordered(edits, from, |s|) && Within(edits, |s|) && from <= |s|
    requires forall i | 0 <= i < |edits| :: '\n' !in edits[i].text
    ensures Breaks(Replaced(s, edits, from)) + BreaksIn(s, edits) == Breaks(s[from..])
    decreases |edits|
  {
    hide Breaks;
    if edits == [] {
    } else {
      OrderedBound(edits, from, |s|);
      var e := edits[0];
      assert forall i | 0 < i < |edits| :: edits[i] == edits[1..][i - 1];
      LineBalance(s, edits[1..], e.end);
      BreaksOfThree(s[from..e.start], e.text, Replaced(s, edits[1..], e.end));
      NoBreaks(e.text);
      assert s[from..] == s[from..e.start] + s[e.start..e.end] + s[e.end..];
      BreaksOfThree(s[from..e.start], s[e.start..e.end], s[e.end..]);
    }
  }

  lemma {:induction false} NoBreaksIn(s: string, edits: seq<Edit<Note>>)
    requires Within(edits, |s|)
    ensures BreaksIn(s, edits) == 0 <==> forall i | 0 <= i < |edits| :: '\n' !in s[edits[i].start..edits[i].end]
    decreases |edits|
  {
    hide Breaks;
    if edits != [] {
      assert forall i | 0 < i < |edits| :: edits[i] == edits[1..][i - 1];
      NoBreaks(s[edits[0].start..edits[0].end]);
      NoBreaksIn(s, edits[1..]);
    }
  }

  lemma {:induction false} TextsOnOneLine(source: string, at: string -> Option<Position>, ds: seq<Diagnostic>)
    requires forall d | d in ds && d.fix.Some? :: '\n' !in d.fix.value
    ensures forall e | e in EditsFor(source, at, ds) :: '\n' !in e.text
    decreases |ds|
  {
    hide ValueSpan, EncodeValue;
    if ds != [] {
      TextsOnOneLine(source, at, ds[..|ds| - 1]);
      assert ds[|ds| - 1] in ds;
      if EditFor(source, at, ds[|ds| - 1]).Some? {
        EncodedStaysOnLine(Found(source, at, ds[|ds| - 1]).value.quote, ds[|ds| - 1].fix.value);
      }
    }
  }

  /**
   The number of lines is kept exactly when no edited value reaches past the end of
   its line, which a triple-quoted value does whose closing quotes open the next line.
   */
  lemma LinesKept(source: string, at: string -> Option<Position>, ds: seq<Diagnostic>)
    requires forall d | d in ds && d.fix.Some? :: '\n' !in d.fix.value
    ensures var fixed := FixSpec(source, at, ds);
      |LineStarts(fixed.source)| == |LineStarts(source)| <==>
      forall e | e in fixed.edits :: e.start <= e.end <= |source| && '\n' !in source[e.start..e.end]
  {
    hide Breaks, LineStarts, EditsFor, Kept, Replaced, Ordered;
    var fixed := FixSpec(source, at, ds);
    var edits := fixed.edits;
    ListedWithin(source, at, ds);
    KeptIsOrdered(EditsFor(source, at, ds), |source|);
    OrderedBound(edits, 0, |source|);
    TextsOnOneLine(source, at, ds);
    forall i | 0 <= i < |edits| ensures '\n' !in edits[i].text {
      assert edits[i] in EditsFor(source, at, ds);
    }
    LineBalance(source, edits, 0);
    NoBreaksIn(source, edits);
    assert source[0..] == source;
    StartsOfPrefix(source, "");
    StartsOfPrefix(fixed.source, "");
  }

  lemma {:induction false} TripleValue(s: string, n: nat, v: nat, close: nat)
    requires v + 3 <= close <= n <= |s| && close + 3 <= |s| && v < n
    requires s[v..v + 3] == TRIPLE_BASIC && s[close..close + 3] == TRIPLE_BASIC
    requires forall i | v + 3 <= i < close :: s[i] != '"'
    ensures ValueAt(s, n, v) == Some(Span(v, close + 3, DecodeBasic(s[v + 3..close]), TripleBasic))
  {
    hide DecodeBasic, Find, BasicAt, LiteralAt, BareEnd;
    assert s[v] == s[v..v + 3][0];
    forall i | v + 3 <= i < close ensures !At(s, TRIPLE_BASIC, i) {
      assert i + 3 <= |s| ==> s[i..i + 3][0] == s[i];
    }
    FindFirst(s, TRIPLE_BASIC, v + 3, close);
  }

  lemma {:induction false} OneLetterKey(s: string, n: nat)
    requires 2 < n <= |s| && s[..2] == "A=" && !IsGap(s[2])
    ensures SpanIn(s, n, 0, "A") == ValueAt(s, n, 2)
  {
    hide ValueAt, Find;
    assert s[0..1] == "A" && s[1..2] == "=";
    assert s[0..1][0..1] == "A";
    FindFirst(s, "=", 0, 1);
    FindFirst(s[0..1], "A", 0, 0);
  }

  lemma {:induction false} TripleOnFirstLine(s: string, close: nat)
    requires 6 <= close <= LineLength(s) && close + 3 <= |s|
    requires s[..2] == "A=" && s[2..5] == TRIPLE_BASIC && s[close..close + 3] == TRIPLE_BASIC
    requires forall i | 5 <= i < close :: s[i] != '"'
    ensures ValueSpan(s, Position(1, 1), "A") == Some(Span(2, close + 3, DecodeBasic(s[5..close]), TripleBasic))
  {
    hide *;
    NothingBefore(s);
    FirstLineSpan(s, "A");
    OneLetterKey(s, LineLength(s));
    TripleValue(s, LineLength(s), 2, close);
  }

  lemma FirstLineSpan(s: string, path: string)
    requires Boundary("") && Breaks("") == 0
    ensures ValueSpan(s, Position(1, 1), path) == SpanIn(s, LineLength(s), 0, KeyOf(path))
  {
    hide *;
    assert "" + s == s;
    ValueSpanOnLine("", s, Position(1, 1), path);
    ShiftByNone(SpanIn(s, LineLength(s), 0, KeyOf(path)));
  }

  lemma NothingBefore(s: string)
    requires |s| >= 5 && s[2..5] == TRIPLE_BASIC
    ensures Boundary("") && Breaks("") == 0 && !IsGap(s[2]) && KeyOf("A") == "A"
  {
    hide Split;
    assert s[2] == s[2..5][0];
    SplitOfHead("A", '.', "");
  }

  lemma ShiftByNone(span: Option<Span>)
    ensures Shifted(span, 0) == span
  {
  }

  /** A value whose closing quotes open the next line is found, line break and all. */
  lemma SwallowsLineBreak()
    ensures var s := "A=\"\"\"x\n\"\"\"";
      ValueSpan(s, Position(1, 1), "A") == Some(Span(2, 10, "x\n", TripleBasic)) && '\n' in s[2..10]
  {
    hide LineLength, ValueSpan;
    var s := "A=\"\"\"x\n\"\"\"";
    assert s == "A=\"\"\"x" + "\n" + "\"\"\"";
    LineLengthOf("A=\"\"\"x", "\"\"\"");
    assert s[2..10][4] == '\n' && s[..2] == "A=" && s[2..5] == TRIPLE_BASIC && s[7..10] == TRIPLE_BASIC;
    TripleOnFirstLine(s, 7);
    assert s[5..7] == "x\n";
    DecodePlain("x\n");
  }

  lemma {:induction false} DecodePlain(s: string)
    requires '\\' !in s
    ensures DecodeBasic(s) == s
  {
    if s != "" {
      DecodePlain(s[1..]);
    }
  }

  /** A fourth closing quote does not belong to the span; an empty replacement runs into it. */
  lemma RunsIntoQuote()
    ensures var s := "A=\"\"\"x\"\"\"\"";
      ValueSpan(s, Position(1, 1), "A") == Some(Span(2, 9, "x", TripleBasic)) && !EndsClean(s, 9, TripleBasic, "")
  {
    hide LineLength, ValueSpan;
    var s := "A=\"\"\"x\"\"\"\"";
    LineLengthOf(s, "");
    assert s[9..10] == "\"" && s[..2] == "A=" && s[2..5] == TRIPLE_BASIC && s[6..9] == TRIPLE_BASIC;
    TripleOnFirstLine(s, 6);
    assert s[5..6] == "x";
    DecodePlain("x");
  }
}
