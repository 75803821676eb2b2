/**
 The lines of a source after `fix` ran: which edits there are, on which lines they
 stand, and what an edited and an untouched line read as afterwards.
 */
module FixedLines {
  import opened JsText
  import opened Wrappers
  import opened Splices
  import opened BasicStrings
  import opened Fix
  import opened FixLines
  import opened FixRewrite

  // ----- Edits that stay inside a line -----

  /** An edit that stands after an `=` on one line and writes no line break. */
  ghost predicate Tame(s: string, e: Edit<Note>) {
    && e.start < |s| && e.start <= e.end <= |s|
    && '\n' !in s[e.start..e.end] && '\n' !in e.text
    && exists eq | 0 <= eq < e.start :: s[eq] == '=' && '\n' !in s[eq..e.start]
  }

  ghost predicate AllTame(s: string, edits: seq<Edit<Note>>) {
    forall i | 0 <= i < |edits| :: Tame(s, edits[i])
  }

  lemma BreakOutside(s: string, i: nat, j: nat, at: nat)
    requires i <= j <= |s| && '\n' !in s[i..j]
    requires at < |s| && s[at] == '\n'
    ensures at < i || j <= at
  {
    assert forall k | i <= k < j :: s[k] == s[i..j][k - i];
  }

  lemma {:induction false} OrderedFrom(edits: seq<Edit<Note>>, from: nat, a: nat, n: nat)
    requires Ordered(edits, from, n) && from <= a <= n
    requires edits == [] || a <= edits[0].start
    ensures Ordered(edits, a, n)
  {
  }

  lemma {:induction false} Advance(s: string, edits: seq<Edit<Note>>, from: nat, a: nat)
    requires Ordered(edits, from, |s|) && from <= a <= |s|
    requires edits == [] || a <= edits[0].start
    ensures Ordered(edits, a, |s|) && Replaced(s, edits, from) == s[from..a] + Replaced(s, edits, a)
  {
    hide Replaced, Ordered;
    OrderedFrom(edits, from, a, |s|);
    ReplacedHead(s, edits, from);
    ReplacedHead(s, edits, a);
    if edits == [] {
      assert s[from..] == s[from..a] + s[a..];
    } else {
      assert s[from..edits[0].start] == s[from..a] + s[a..edits[0].start];
    }
  }

  lemma BreaksAround(s: string, from: nat, start: nat, end: nat, a: nat)
    requires from <= start <= end <= a <= |s| && '\n' !in s[start..end]
    ensures Breaks(s[from..a]) == Breaks(s[from..start]) + Breaks(s[end..a])
  {
    assert s[from..a] == s[from..start] + s[start..end] + s[end..a];
    BreaksConcat(s[from..start] + s[start..end], s[end..a]);
    BreaksConcat(s[from..start], s[start..end]);
    NoBreaks(s[start..end]);
  }

  lemma BreaksOfThree(x: string, y: string, z: string)
    ensures Breaks(x + y + z) == Breaks(x) + Breaks(y) + Breaks(z)
  {
    BreaksConcat(x + y, z);
    BreaksConcat(x, y);
  }

  /** The edited text splits at every line boundary of the original, with as many lines before the split. */
  lemma {:induction false} CutAt(s: string, edits: seq<Edit<Note>>, from: nat, a: nat) returns (head: string, k: nat)
    requires Ordered(edits, from, |s|) && AllTame(s, edits) && from <= a <= |s| && Boundary(s[..a])
    ensures k <= |edits| && Ordered(edits[k..], a, |s|)
    ensures forall i | 0 <= i < k :: edits[i].start < a
    ensures forall i | k <= i < |edits| :: a <= edits[i].start
    ensures Replaced(s, edits, from) == head + Replaced(s, edits[k..], a)
    ensures Breaks(head) == Breaks(s[from..a])
    ensures if from < a then head != "" && head[|head| - 1] == '\n' else head == ""
    decreases |edits|
  {
    hide Breaks;
    OrderedBound(edits, from, |s|);
    if edits == [] || a <= edits[0].start {
      k, head := 0, s[from..a];
      assert edits[0..] == edits;
      Advance(s, edits, from, a);
    } else {
      var e := edits[0];
      assert Tame(s, e);
      assert e.end < a by {
        assert s[..a][a - 1] == s[a - 1];
        BreakOutside(s, e.start, e.end, a - 1);
      }
      forall i | 0 <= i < |edits[1..]| ensures Tame(s, edits[1..][i]) {
        assert edits[1..][i] == edits[i + 1];
      }
      var head1, k1 := CutAt(s, edits[1..], e.end, a);
      assert edits[1..][k1..] == edits[k1 + 1..];
      head, k := s[from..e.start] + e.text + head1, k1 + 1;
      assert forall i | 1 <= i < |edits| :: edits[i] == edits[1..][i - 1];
      BreaksAround(s, from, e.start, e.end, a);
      BreaksOfThree(s[from..e.start], e.text, head1);
      NoBreaks(e.text);
      SplitReplaced(s, edits, from, head1, Replaced(s, edits[k..], a));
    }
  }

  lemma SplitReplaced(s: string, edits: seq<Edit<Note>>, from: nat, head: string, tail: string)
    requires edits != [] && Ordered(edits, from, |s|)
    requires edits[0].end <= |s| && Replaced(s, edits[1..], edits[0].end) == head + tail
    ensures edits[0].start <= |s| &&
      Replaced(s, edits, from) == s[from..edits[0].start] + edits[0].text + head + tail
  {
    OrderedBound(edits, from, |s|);
  }

  lemma {:induction false} BreaksKept(s: string, edits: seq<Edit<Note>>, from: nat)
    requires Ordered(edits, from, |s|) && AllTame(s, edits) && from <= |s|
    ensures Breaks(Replaced(s, edits, from)) == Breaks(s[from..])
    decreases |edits|
  {
    hide Breaks;
    OrderedBound(edits, from, |s|);
    if edits != [] {
      var e := edits[0];
      assert Tame(s, e);
      forall i | 0 <= i < |edits[1..]| ensures Tame(s, edits[1..][i]) {
        assert edits[1..][i] == edits[i + 1];
      }
      BreaksKept(s, edits[1..], e.end);
      BreaksAround(s, from, e.start, e.end, |s|);
      assert s[from..|s|] == s[from..] && s[e.end..|s|] == s[e.end..];
      BreaksOfThree(s[from..e.start], e.text, Replaced(s, edits[1..], e.end));
      NoBreaks(e.text);
    }
  }

  // ----- A line no edit touches -----

  /** The `=` in front of an edit on this line or a later one stands on that line or a later one. */
  lemma EqualsAhead(s: string, e: Edit<Note>, b: nat) returns (eq: nat)
    requires Tame(s, e) && b <= e.start && Boundary(s[..b])
    ensures b <= eq < e.start && s[eq] == '='
  {
    eq :| 0 <= eq < e.start && s[eq] == '=' && '\n' !in s[eq..e.start];
    if b > 0 {
      assert s[..b][b - 1] == s[b - 1];
      BreakOutside(s, eq, e.start, b - 1);
    }
  }

  /** No edit creates or destroys a triple quote at the start of a line. */
  lemma {:induction false} LineOpensAlike(s: string, edits: seq<Edit<Note>>, b: nat, triple: string)
    requires Ordered(edits, b, |s|) && AllTame(s, edits) && b <= |s| && Boundary(s[..b])
    requires |triple| == 3 && '=' !in triple
    ensures At(Replaced(s, edits, b), triple, 0) == At(s[b..], triple, 0)
  {
    hide At, Tame, Boundary, Replaced, Ordered, AllTame;
    ReplacedHead(s, edits, b);
    if edits != [] {
      var e := edits[0];
      HeadIsTame(s, edits);
      var eq := EqualsAhead(s, e, b);
      var lead := s[b..e.start];
      assert lead[eq - b] == '=';
      LeadDecides(lead, e.text + Replaced(s, edits[1..], e.end), s[e.start..], eq - b, triple);
      assert s[b..] == lead + s[e.start..];
    }
  }

  lemma LeadDecides(lead: string, x: string, y: string, i: nat, triple: string)
    requires i < |lead| && lead[i] !in triple && |triple| == 3
    ensures At(lead + x, triple, 0) == At(lead + y, triple, 0)
  {
    assert At(lead + x, triple, 0) ==> forall k | 0 <= k < 3 :: (lead + x)[k] == triple[k];
    assert At(lead + y, triple, 0) ==> forall k | 0 <= k < 3 :: (lead + y)[k] == triple[k];
    assert (lead + x)[i] == lead[i] == (lead + y)[i];
    if i < 3 {
      assert triple[i] in triple;
    } else {
      assert (lead + x)[0..3] == lead[..3] == (lead + y)[0..3];
    }
  }

  lemma LineLengthAlone(s: string, rest: string)
    requires LineLength(s) < |s| || rest == ""
    ensures LineLength(s[..LineLength(s)] + rest) == LineLength(s)
  {
    var n := LineLength(s);
    if n > 0 && s[n - 1] == '\n' {
      LineLengthOf(s[..n - 1], rest);
      assert s[..n] == s[..n - 1] + "\n";
    } else {
      assert s[..n] + "" == s;
    }
  }

  /** What follows an untouched line opens the same triple quotes as before. */
  lemma {:induction false} SameLineAfter(s: string, edits: seq<Edit<Note>>, a: nat, b: nat)
    requires Ordered(edits, b, |s|) && AllTame(s, edits) && a <= b <= |s|
    requires b == |s| || (a < b && s[b - 1] == '\n')
    ensures SameLine(s[a..], s[a..b] + Replaced(s, edits, b), b - a)
    ensures b == |s| ==> Replaced(s, edits, b) == ""
  {
    hide At, Boundary, Replaced, Tame;
    var line, rest := s[a..b], Replaced(s, edits, b);
    assert s[a..] == line + s[b..];
    assert (line + rest)[..b - a] == line == s[a..][..b - a];
    if b == |s| {
      OrderedBound(edits, b, |s|);
      TameStarts(s, edits);
      ReplacedHead(s, edits, b);
    } else {
      assert Boundary(s[..b]) by { BoundaryAt(s, b); }
      LineOpensAlike(s, edits, b, TRIPLE_BASIC);
      LineOpensAlike(s, edits, b, TRIPLE_LITERAL);
      AtShift(line, rest, TRIPLE_BASIC, 0);
      AtShift(line, rest, TRIPLE_LITERAL, 0);
      AtShift(line, s[b..], TRIPLE_BASIC, 0);
      AtShift(line, s[b..], TRIPLE_LITERAL, 0);
    }
  }

  lemma BoundaryAt(s: string, b: nat)
    requires 0 < b <= |s| && s[b - 1] == '\n'
    ensures Boundary(s[..b])
  {
  }

  lemma {:induction false} UntouchedLine(s: string, edits: seq<Edit<Note>>, a: nat, from: nat, key: string)
    requires Ordered(edits, a, |s|) && AllTame(s, edits) && a <= |s|
    requires edits == [] || a + LineLength(s[a..]) <= edits[0].start
    ensures var n := LineLength(s[a..]); var r := Replaced(s, edits, a);
      LineLength(r) == n && SpanIn(r, n, from, key) == SpanIn(s[a..], n, from, key)
  {
    hide LineLength, SpanIn, SameLine, Tame, Replaced, Ordered, AllTame;
    var n := LineLength(s[a..]);
    assert n < |s[a..]| ==> s[a + n - 1] == s[a..][n - 1];
    Advance(s, edits, a, a + n);
    SameLineAfter(s, edits, a, a + n);
    assert s[a..a + n] == s[a..][..n];
    LineLengthAlone(s[a..], Replaced(s, edits, a + n));
    SpanLocal(s[a..], Replaced(s, edits, a), n, from, key);
  }

  // ----- The line of an edit -----

  lemma TextOpensWithQuote(style: QuoteStyle, replacement: string)
    ensures var text := EncodeValue(style, replacement); |text| >= 2 && !IsGap(text[0])
  {
  }

  lemma CleanShift(p: string, r: string, end: nat, style: QuoteStyle, replacement: string)
    ensures EndsClean(p + r, |p| + end, style, replacement) == EndsClean(r, end, style, replacement)
  {
    hide At;
    var q := QuoteOf(style);
    AtShift(p, r, q, end);
    AtShift(p, r, q + q + q + q, end);
  }

  lemma EndOnLine(s: string, e: Edit<Note>, a: nat, b: nat)
    requires Tame(s, e) && a <= e.start < b <= |s|
    requires b == |s| || s[b - 1] == '\n'
    ensures e.end < b || e.end == b == |s|
  {
    if b < |s| {
      BreakOutside(s, e.start, e.end, b - 1);
    }
  }

  lemma {:induction false} RewrittenLength(lead: string, text: string, tail: string, rest: string)
    requires '\n' !in lead && '\n' !in text
    requires tail != "" ==> '\n' !in tail[..|tail| - 1]
    requires rest == "" || (tail != "" && tail[|tail| - 1] == '\n')
    ensures LineLength(lead + text + tail + rest) == |lead| + |text| + |tail|
  {
    hide LineLength;
    if tail != "" && tail[|tail| - 1] == '\n' {
      LineLengthOf(lead + text + tail[..|tail| - 1], rest);
      assert tail == tail[..|tail| - 1] + "\n";
      assert lead + text + tail + rest == lead + text + tail[..|tail| - 1] + "\n" + rest;
    } else {
      assert tail == "" || tail == tail[..|tail| - 1] + [tail[|tail| - 1]];
      LineLengthOf(lead + text + tail, rest);
      assert lead + text + tail + rest == lead + text + tail;
    }
  }

  lemma {:induction false} RestOfLine(s: string, edits: seq<Edit<Note>>, from: nat, b: nat) returns (after: string)
    requires Ordered(edits, from, |s|) && AllTame(s, edits) && from <= b <= |s|
    requires edits == [] || b <= edits[0].start
    ensures Replaced(s, edits, from) == s[from..b] + after && (b == |s| ==> after == "")
  {
    hide Tame;
    Advance(s, edits, from, b);
    after := Replaced(s, edits, b);
    TameStarts(s, edits);
  }

  lemma {:induction false} TailIsTame(s: string, edits: seq<Edit<Note>>, a: nat)
    requires Ordered(edits, a, |s|) && AllTame(s, edits) && edits != []
    ensures a <= edits[0].start <= edits[0].end <= |s|
    ensures Ordered(edits[1..], edits[0].end, |s|) && AllTame(s, edits[1..])
    ensures Replaced(s, edits, a) == s[a..edits[0].start] + edits[0].text + Replaced(s, edits[1..], edits[0].end)
  {
    hide Tame;
    OrderedBound(edits, a, |s|);
    forall i | 0 <= i < |edits[1..]| ensures Tame(s, edits[1..][i]) {
      assert edits[1..][i] == edits[i + 1];
    }
  }

  lemma {:induction false} LengthOfEdited(r: string, n: nat, start: nat, end: nat, text: string, after: string)
    requires n == LineLength(r) && start <= end <= n && start < n && '\n' !in text
    requires end < n || n == |r|
    requires n == |r| ==> after == ""
    ensures LineLength(r[..start] + text + r[end..n] + after) == start + |text| + n - end
  {
    var tail := r[end..n];
    assert r[..n - 1][..start] == r[..start];
    assert end < n ==> tail[..|tail| - 1] == r[..n - 1][end..] && tail[|tail| - 1] == r[n - 1];
    RewrittenLength(r[..start], text, tail, after);
  }

  lemma {:induction false} ContinuesAfter(r: string, n: nat, end: nat, after: string)
    requires n == LineLength(r) && end <= n && (end < n || n == |r|) && (n == |r| ==> after == "")
    ensures Continues(r, n, end, r[end..n] + after)
  {
    var rest := r[end..n] + after;
    assert rest[..n - end] == r[end..n];
    assert end < n ==> rest[n - end - 1] == r[n - 1];
  }

  /** The text of a line with one edit after it was made. */
  lemma {:induction false} EditedText(s: string, edits: seq<Edit<Note>>, a: nat, n: nat) returns (after: string)
    requires Ordered(edits, a, |s|) && AllTame(s, edits) && edits != [] && a + n <= |s|
    requires edits[0].start < a + n && (a + n == |s| || s[a + n - 1] == '\n')
    requires |edits| > 1 ==> a + n <= edits[1].start
    ensures var r, start, end := s[a..], edits[0].start - a, edits[0].end - a;
      && 0 <= start <= end <= n <= |r| && (end < n || n == |r|) && (n == |r| ==> after == "") && '\n' !in edits[0].text
      && Replaced(s, edits, a) == r[..start] + edits[0].text + (r[end..n] + after)
  {
    hide Tame, Ordered, Replaced, AllTame;
    TailIsTame(s, edits, a);
    HeadIsTame(s, edits);
    TextIsTame(s, edits[0]);
    EndOnLine(s, edits[0], a, a + n);
    after := RestOfLine(s, edits[1..], edits[0].end, a + n);
    assert s[a..edits[0].start] == s[a..][..edits[0].start - a];
    assert s[edits[0].end..a + n] == s[a..][edits[0].end - a..n];
  }

  /** How the line of an edit continues after it, and how long it is now. */
  lemma {:induction false} LineOfEdit(s: string, edits: seq<Edit<Note>>, a: nat) returns (rest: string)
    requires Ordered(edits, a, |s|) && AllTame(s, edits) && a <= |s| && edits != []
    requires edits[0].start < a + LineLength(s[a..])
    requires |edits| > 1 ==> a + LineLength(s[a..]) <= edits[1].start
    ensures var r, e, n := s[a..], edits[0], LineLength(s[a..]);
      && a <= e.start <= e.end <= a + n
      && Replaced(s, edits, a) == r[..e.start - a] + e.text + rest
      && Continues(r, n, e.end - a, rest)
      && LineLength(Replaced(s, edits, a)) == e.start - a + |e.text| + n - (e.end - a)
  {
    hide LineLength, Tame, Ordered, Replaced, AllTame, Continues;
    var r, e, n := s[a..], edits[0], LineLength(s[a..]);
    assert n < |r| ==> s[a + n - 1] == r[n - 1];
    var after := EditedText(s, edits, a, n);
    rest := r[e.end - a..n] + after;
    ContinuesAfter(r, n, e.end - a, after);
    LengthOfEdited(r, n, e.start - a, e.end - a, e.text, after);
    Regroup(r[..e.start - a] + e.text, r[e.end - a..n], after);
  }

  lemma HeadIsTame(s: string, edits: seq<Edit<Note>>)
    requires AllTame(s, edits) && edits != []
    ensures Tame(s, edits[0])
  {
  }

  lemma TextIsTame(s: string, e: Edit<Note>)
    requires Tame(s, e)
    ensures '\n' !in e.text
  {
  }

  lemma TameStarts(s: string, edits: seq<Edit<Note>>)
    requires forall i | 0 <= i < |edits| :: Tame(s, edits[i])
    ensures edits != [] ==> edits[0].start < |s|
  {
  }

  /** What the keys of a line with one edit read after it was made. */
  lemma {:induction false} RewrittenLine(s: string, edits: seq<Edit<Note>>, a: nat, from: nat, key: string, other: string, replacement: string)
    requires Ordered(edits, a, |s|) && AllTame(s, edits) && a <= |s| && edits != []
    requires edits[0].start < a + LineLength(s[a..])
    requires |edits| > 1 ==> a + LineLength(s[a..]) <= edits[1].start
    requires var before := SpanIn(s[a..], LineLength(s[a..]), from, key);
      && before.Some? && a + before.value.start == edits[0].start && a + before.value.end == edits[0].end
      && edits[0].text == EncodeValue(before.value.quote, replacement)
    ensures var r, u, n := s[a..], Replaced(s, edits, a), LineLength(s[a..]);
      var before, after := SpanIn(r, n, from, key), SpanIn(u, LineLength(u), from, key);
      && (after.Some? && after.value.value == replacement <==>
            EndsClean(s, edits[0].end, before.value.quote, replacement))
      && (SpanIn(r, n, from, other).Some? ==>
            SpanIn(r, n, from, other) == before && SpanIn(u, LineLength(u), from, other) == after)
      && (SpanIn(r, n, from, other).None? ==> SpanIn(u, LineLength(u), from, other).None?)
  {
    hide LineLength, Tame, Ordered, Replaced, SpanIn, EncodeValue, EndsClean, Continues, ValueAt;
    var r, u, n, e := s[a..], Replaced(s, edits, a), LineLength(s[a..]), edits[0];
    var rest := LineOfEdit(s, edits, a);
    var span := SpanIn(r, n, from, key).value;
    TextOpensWithQuote(span.quote, replacement);
    assert u[span.start] == e.text[0];
    assert u[..span.start] == r[..span.start];
    ValueRewritten(r, n, span.start, span.end, span.quote, replacement, rest);
    KeysOfRewrittenLine(r, u, n, LineLength(u), from, key, other);
    assert s[..a] + r == s;
    CleanShift(s[..a], r, span.end, span.quote, replacement);
  }

  // ----- All diagnostics of a run -----

  ghost predicate Fixable(at: string -> Option<Position>, d: Diagnostic) {
    d.fix.Some? && d.path.Some? && at(d.path.value).Some?
  }

  function Line(at: string -> Option<Position>, d: Diagnostic): nat
    requires Fixable(at, d)
  {
    at(d.path.value).value.line
  }

  function Found(source: string, at: string -> Option<Position>, d: Diagnostic): Option<Span>
    requires Fixable(at, d)
  {
    ValueSpan(source, at(d.path.value).value, d.path.value)
  }

  /** A line holds one key. */
  ghost predicate OneKeyPerLine(at: string -> Option<Position>, ds: seq<Diagnostic>) {
    forall d, e | d in ds && e in ds && Fixable(at, d) && Fixable(at, e) && Line(at, d) == Line(at, e) ::
      at(d.path.value).value.column == at(e.path.value).value.column
  }

  /** A value gets at most one fix. */
  ghost predicate OneFixPerLine(source: string, at: string -> Option<Position>, ds: seq<Diagnostic>) {
    forall i, j | 0 <= i < j < |ds| && Fixable(at, ds[i]) && Fixable(at, ds[j]) &&
        Found(source, at, ds[i]).Some? && Found(source, at, ds[j]).Some? ::
      Line(at, ds[i]) != Line(at, ds[j])
  }

  /** No value to be fixed and no replacement holds a line break. */
  ghost predicate OnOneLine(source: string, at: string -> Option<Position>, ds: seq<Diagnostic>) {
    forall d | d in ds && Fixable(at, d) ::
      && '\n' !in d.fix.value
      && (Found(source, at, d).Some? ==>
            '\n' !in source[Found(source, at, d).value.start..Found(source, at, d).value.end])
  }

  ghost predicate Orderly(source: string, at: string -> Option<Position>, ds: seq<Diagnostic>) {
    OneKeyPerLine(at, ds) && OneFixPerLine(source, at, ds) && OnOneLine(source, at, ds)
  }

  lemma OffsetOnLine(s: string, a: nat, x: nat)
    requires a <= |s| && a <= x < a + LineLength(s[a..])
    ensures Breaks(s[..x]) == Breaks(s[..a])
  {
    hide LineLength;
    var n := LineLength(s[a..]);
    assert s[..x] == s[..a] + s[a..x];
    BreaksConcat(s[..a], s[a..x]);
    assert s[a..x] == s[a..][..n - 1][..x - a];
    NoBreaks(s[a..x]);
  }

  lemma EqualsBefore(r: string, n: nat, from: nat, key: string) returns (eq: nat)
    requires n <= |r| && SpanIn(r, n, from, key).Some?
    ensures eq < SpanIn(r, n, from, key).value.start < n && r[eq] == '='
  {
    hide ValueAt, SkipGaps;
    eq := Find(r, "=", from).value;
    assert r[eq] == r[eq..eq + 1][0];
  }

  /** A value is looked for on the line the index names. */
  lemma LineLookedAt(source: string, position: Position, path: string)
    ensures position.line > |LineStarts(source)| ==> ValueSpan(source, position, path).None?
    ensures position.line <= |LineStarts(source)| ==>
      var a := LineStarts(source)[position.line - 1];
      && Boundary(source[..a]) && Breaks(source[..a]) == position.line - 1
      && ValueSpan(source, position, path) ==
           Shifted(SpanIn(source[a..], LineLength(source[a..]), position.column - 1, KeyOf(path)), a)
  {
    hide LineLength, SpanIn, LineStarts, KeyOf, Breaks, Boundary;
    if position.line <= |LineStarts(source)| {
      var a := LineStarts(source)[position.line - 1];
      StartIsBoundary(source, position.line - 1);
      assert source[..a] + source[a..] == source;
      ValueSpanOnLine(source[..a], source[a..], position, path);
    }
  }

  /** A found value stands on its line after an `=`. */
  lemma WhereFound(source: string, position: Position, path: string) returns (a: nat, eq: nat)
    requires ValueSpan(source, position, path).Some?
    ensures position.line <= |LineStarts(source)| && a == LineStarts(source)[position.line - 1]
    ensures var span := ValueSpan(source, position, path).value;
      && a <= eq < span.start < a + LineLength(source[a..])
      && source[eq] == '=' && '\n' !in source[eq..span.start]
      && Breaks(source[..span.start]) == position.line - 1
  {
    hide LineLength, SpanIn, LineStarts, KeyOf, Breaks, Boundary, ValueSpan;
    LineLookedAt(source, position, path);
    a := LineStarts(source)[position.line - 1];
    var r := source[a..];
    var n := LineLength(r);
    var i := EqualsBefore(r, n, position.column - 1, KeyOf(path));
    eq := a + i;
    var start := ValueSpan(source, position, path).value.start;
    assert source[eq] == r[i];
    SliceOfSlice(source, a, |source|, 0, n - 1);
    SliceOfSlice(source, a, a + n - 1, i, start - a);
    assert source[a..] == r && source[a..|source|] == r && r[..n - 1] == r[0..n - 1];
    assert source[eq..start] == r[..n - 1][i..start - a];
    OffsetOnLine(source, a, start);
  }

  lemma EncodedStaysOnLine(style: QuoteStyle, value: string)
    requires '\n' !in value
    ensures '\n' !in EncodeValue(style, value)
  {
    EncodedIsPlain(value);
  }

  lemma EditIsTame(source: string, at: string -> Option<Position>, ds: seq<Diagnostic>, d: Diagnostic)
    requires OnOneLine(source, at, ds) && d in ds && EditFor(source, at, d).Some?
    ensures Tame(source, EditFor(source, at, d).value)
    ensures Breaks(source[..EditFor(source, at, d).value.start]) == Line(at, d) - 1
  {
    hide LineLength, ValueSpan, EncodeValue, LineStarts, Breaks;
    var a, eq := WhereFound(source, at(d.path.value).value, d.path.value);
    EncodedStaysOnLine(Found(source, at, d).value.quote, d.fix.value);
  }

  ghost predicate Origin(source: string, at: string -> Option<Position>, ds: seq<Diagnostic>, e: Edit<Note>, j: nat) {
    j < |ds| && EditFor(source, at, ds[j]) == Some(e)
  }

  ghost predicate HasOrigin(source: string, at: string -> Option<Position>, ds: seq<Diagnostic>, e: Edit<Note>) {
    exists j: nat :: Origin(source, at, ds, e, j)
  }

  function EditLine(s: string, e: Edit<Note>): nat
    requires e.start <= |s|
  {
    Breaks(s[..e.start])
  }

  ghost predicate OwnLines(s: string, es: seq<Edit<Note>>)
    requires Within(es, |s|)
  {
    forall x, y | 0 <= x < y < |es| :: EditLine(s, es[x]) != EditLine(s, es[y])
  }

  ghost predicate AllHaveOrigins(source: string, at: string -> Option<Position>, ds: seq<Diagnostic>, es: seq<Edit<Note>>) {
    forall x | 0 <= x < |es| :: HasOrigin(source, at, ds, es[x])
  }

  /** Every edit comes from a diagnostic, and two edits stand on two lines. */
  lemma {:induction false} Origins(source: string, at: string -> Option<Position>, ds: seq<Diagnostic>)
    requires Orderly(source, at, ds)
    ensures AllHaveOrigins(source, at, ds, EditsFor(source, at, ds)) && OwnLines(source, EditsFor(source, at, ds))
    decreases |ds|
  {
    hide EditFor, EditLine, ValueSpan, Orderly, HasOrigin;
    if ds != [] {
      var front, last := ds[..|ds| - 1], ds[|ds| - 1];
      OrderlyFront(source, at, ds);
      Origins(source, at, front);
      var before := EditsFor(source, at, front);
      forall x | 0 <= x < |before|
        ensures HasOrigin(source, at, ds, before[x])
        ensures EditFor(source, at, last).Some? ==>
          EditLine(source, before[x]) != EditLine(source, EditFor(source, at, last).value)
      {
        OriginOfFront(source, at, ds, before[x]);
      }
      if EditFor(source, at, last).Some? {
        LastHasOrigin(source, at, ds);
      }
    }
  }

  lemma LastHasOrigin(source: string, at: string -> Option<Position>, ds: seq<Diagnostic>)
    requires ds != [] && EditFor(source, at, ds[|ds| - 1]).Some?
    ensures HasOrigin(source, at, ds, EditFor(source, at, ds[|ds| - 1]).value)
  {
    hide EditFor;
    assert Origin(source, at, ds, EditFor(source, at, ds[|ds| - 1]).value, |ds| - 1);
  }

  lemma OriginOfFront(source: string, at: string -> Option<Position>, ds: seq<Diagnostic>, e: Edit<Note>)
    requires Orderly(source, at, ds) && ds != [] && HasOrigin(source, at, ds[..|ds| - 1], e) && e.start <= |source|
    ensures HasOrigin(source, at, ds, e)
    ensures var last := EditFor(source, at, ds[|ds| - 1]);
      last.Some? ==> EditLine(source, e) != EditLine(source, last.value)
  {
    hide EditFor, Orderly;
    var j: nat :| Origin(source, at, ds[..|ds| - 1], e, j);
    assert Origin(source, at, ds, e, j);
    if EditFor(source, at, ds[|ds| - 1]).Some? {
      LinesDiffer(source, at, ds, j, |ds| - 1);
    }
  }

  lemma OrderlyFront(source: string, at: string -> Option<Position>, ds: seq<Diagnostic>)
    requires Orderly(source, at, ds) && ds != []
    ensures Orderly(source, at, ds[..|ds| - 1])
  {
  }

  lemma LinesDiffer(source: string, at: string -> Option<Position>, ds: seq<Diagnostic>, i: nat, j: nat)
    requires Orderly(source, at, ds) && i < |ds| && j < |ds| && i != j
    requires EditFor(source, at, ds[i]).Some? && EditFor(source, at, ds[j]).Some?
    ensures Breaks(source[..EditFor(source, at, ds[i]).value.start]) !=
      Breaks(source[..EditFor(source, at, ds[j]).value.start])
  {
    hide Breaks, ValueSpan, Tame;
    EditIsTame(source, at, ds, ds[i]);
    EditIsTame(source, at, ds, ds[j]);
  }

  lemma {:induction false} EditIsListed(source: string, at: string -> Option<Position>, ds: seq<Diagnostic>, j: nat)
    requires j < |ds| && EditFor(source, at, ds[j]).Some?
    ensures EditFor(source, at, ds[j]).value in EditsFor(source, at, ds)
    decreases |ds|
  {
    hide EditFor;
    if j < |ds| - 1 {
      EditIsListed(source, at, ds[..|ds| - 1], j);
    }
  }

  lemma ListedWithin(source: string, at: string -> Option<Position>, ds: seq<Diagnostic>)
    ensures Within(EditsFor(source, at, ds), |source|)
  {
  }

  lemma KeptAreTame(source: string, at: string -> Option<Position>, ds: seq<Diagnostic>, es: seq<Edit<Note>>, kept: seq<Edit<Note>>)
    requires Orderly(source, at, ds) && AllHaveOrigins(source, at, ds, es) && forall e | e in kept :: e in es
    ensures AllHaveOrigins(source, at, ds, kept) && AllTame(source, kept)
  {
    hide Orderly, HasOrigin, Tame;
    forall x | 0 <= x < |kept| ensures HasOrigin(source, at, ds, kept[x]) && Tame(source, kept[x]) {
      assert kept[x] in es;
      var k :| 0 <= k < |es| && es[k] == kept[x];
      TameOrigin(source, at, ds, kept[x]);
    }
  }

  lemma KeptOnOwnLines(s: string, es: seq<Edit<Note>>, kept: seq<Edit<Note>>)
    requires Within(es, |s|) && Within(kept, |s|) && OwnLines(s, es) && forall e | e in kept :: e in es
    requires forall x, y | 0 <= x < y < |kept| :: kept[x] != kept[y]
    ensures OwnLines(s, kept)
  {
    hide EditLine;
    forall x, y | 0 <= x < y < |kept| ensures EditLine(s, kept[x]) != EditLine(s, kept[y]) {
      assert kept[x] in es && kept[y] in es;
      var k :| 0 <= k < |es| && es[k] == kept[x];
      var l :| 0 <= l < |es| && es[l] == kept[y];
    }
  }

  /** The edits that are kept: all of them, each on its own line. */
  lemma KeptEdits(source: string, at: string -> Option<Position>, ds: seq<Diagnostic>)
    requires Orderly(source, at, ds)
    ensures var kept := Kept(EditsFor(source, at, ds));
      && Ordered(kept, 0, |source|) && AllTame(source, kept) && Within(kept, |source|)
      && AllHaveOrigins(source, at, ds, kept) && OwnLines(source, kept)
    ensures forall j | 0 <= j < |ds| && EditFor(source, at, ds[j]).Some? ::
      EditFor(source, at, ds[j]).value in Kept(EditsFor(source, at, ds))
  {
    hide EditFor, Kept, EditLine, ValueSpan, EditsFor, Orderly, AllHaveOrigins, AllTame, Ordered, OwnLines, Clashes;
    var es := EditsFor(source, at, ds);
    var kept := Kept(es);
    Origins(source, at, ds);
    ListedWithin(source, at, ds);
    KeptIsOrdered(es, |source|);
    OrderedBound(kept, 0, |source|);
    OwnLinesDiffer(source, es);
    KeptOnce(es);
    KeptAreTame(source, at, ds, es, kept);
    KeptOnOwnLines(source, es, kept);
    forall j | 0 <= j < |ds| && EditFor(source, at, ds[j]).Some?
      ensures EditFor(source, at, ds[j]).value in kept
    {
      EditIsListed(source, at, ds, j);
      EditIsKept(source, at, ds, kept, j);
    }
  }

  lemma OwnLinesDiffer(s: string, es: seq<Edit<Note>>)
    requires Within(es, |s|) && OwnLines(s, es)
    ensures forall x, y | 0 <= x < y < |es| :: es[x] != es[y]
  {
    hide EditLine;
  }

  lemma EditIsKept(source: string, at: string -> Option<Position>, ds: seq<Diagnostic>, kept: seq<Edit<Note>>, j: nat)
    requires Orderly(source, at, ds) && AllHaveOrigins(source, at, ds, kept) && AllTame(source, kept)
    requires j < |ds| && EditFor(source, at, ds[j]).Some?
    requires EditFor(source, at, ds[j]).value in kept || Clashes(EditFor(source, at, ds[j]).value, kept)
    ensures EditFor(source, at, ds[j]).value in kept
  {
    hide EditFor, Orderly, Tame, HasOrigin;
    var e := EditFor(source, at, ds[j]).value;
    if e !in kept {
      var x :| 0 <= x < |kept| && kept[x].start <= e.start < kept[x].end;
      OriginClash(source, at, ds, kept[x], j);
    }
  }

  lemma OriginClash(source: string, at: string -> Option<Position>, ds: seq<Diagnostic>, k: Edit<Note>, j: nat)
    requires Orderly(source, at, ds) && HasOrigin(source, at, ds, k) && Tame(source, k)
    requires j < |ds| && EditFor(source, at, ds[j]).Some?
    requires k.start <= EditFor(source, at, ds[j]).value.start < k.end
    ensures EditFor(source, at, ds[j]).value == k
  {
    hide EditFor, Orderly, Tame, Breaks;
    var i: nat :| Origin(source, at, ds, k, i);
    SameLineEdits(source, k, EditFor(source, at, ds[j]).value);
    if i != j {
      LinesDiffer(source, at, ds, i, j);
    }
  }

  lemma TameOrigin(source: string, at: string -> Option<Position>, ds: seq<Diagnostic>, e: Edit<Note>)
    requires Orderly(source, at, ds) && HasOrigin(source, at, ds, e)
    ensures Tame(source, e)
  {
    hide EditFor, Tame;
    var j: nat :| Origin(source, at, ds, e, j);
    EditIsTame(source, at, ds, ds[j]);
  }

  lemma SameLineEdits(s: string, k: Edit<Note>, e: Edit<Note>)
    requires Tame(s, k) && k.start <= e.start < k.end
    ensures Breaks(s[..k.start]) == Breaks(s[..e.start])
  {
    assert s[..e.start] == s[..k.start] + s[k.start..e.start];
    BreaksConcat(s[..k.start], s[k.start..e.start]);
    SliceOfSlice(s, k.start, k.end, 0, e.start - k.start);
    assert s[k.start..k.end][0..e.start - k.start] == s[k.start..k.end][..e.start - k.start];
    NoBreaks(s[k.start..e.start]);
  }
}
