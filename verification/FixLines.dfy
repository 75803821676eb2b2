/**
 What `valueSpan` answers depends only on the line the key stands on: where the
 line starts does not matter, and neither does anything after the line but a
 triple quote that opens the next one.
 */
module FixLines {
  import opened JsText
  import opened Wrappers
  import opened BasicStrings
  import opened Fix
  import FormatScan

  // ----- Lines -----

  /** The number of line breaks in `s`. */
  function Breaks(s: string): nat {
    if s == "" then 0 else Breaks(s[..|s| - 1]) + if s[|s| - 1] == '\n' then 1 else 0
  }

  /** A text after which a new line starts. */
  predicate Boundary(s: string) {
    s == "" || s[|s| - 1] == '\n'
  }

  /** The length of the first line of `s`, line break included. */
  function LineLength(s: string): (n: nat)
    ensures n <= |s| && '\n' !in s[..if n == 0 then 0 else n - 1]
    ensures n == |s| || (n > 0 && s[n - 1] == '\n')
    ensures s != "" ==> n > 0
  {
    if s == "" then 0
    else if s[0] == '\n' then 1
    else
      var n := LineLength(s[1..]);
      assert n > 0 ==> s[..n] == [s[0]] + s[1..][..n - 1];
      n + 1
  }

  lemma {:induction false} LineLengthOf(line: string, rest: string)
    requires '\n' !in line
    ensures LineLength(line + "\n" + rest) == |line| + 1
    ensures LineLength(line) == |line|
  {
    if line != "" {
      LineLengthOf(line[1..], rest);
      assert (line + "\n" + rest)[1..] == line[1..] + "\n" + rest;
    }
  }

  lemma {:induction false} BreaksConcat(a: string, b: string)
    ensures Breaks(a + b) == Breaks(a) + Breaks(b)
    decreases |b|
  {
    if b == "" {
      assert a + b == a;
    } else {
      assert (a + b)[..|a + b| - 1] == a + b[..|b| - 1];
      BreaksConcat(a, b[..|b| - 1]);
    }
  }

  lemma {:induction false} NoBreaks(s: string)
    ensures Breaks(s) == 0 <==> '\n' !in s
    decreases |s|
  {
    if s != "" {
      NoBreaks(s[..|s| - 1]);
      assert s == s[..|s| - 1] + [s[|s| - 1]];
    }
  }

  lemma {:induction false} StartsOfPrefix(p: string, r: string)
    ensures LineStarts(p) <= LineStarts(p + r) && |LineStarts(p)| == Breaks(p) + 1
    decreases |p|, |r|
  {
    if r == "" {
      assert p + r == p;
      if p != "" {
        StartsOfPrefix(p[..|p| - 1], "");
        assert p[..|p| - 1] + "" == p[..|p| - 1];
      }
    } else {
      assert (p + r)[..|p + r| - 1] == p + r[..|r| - 1];
      StartsOfPrefix(p, r[..|r| - 1]);
    }
  }

  lemma LastStart(p: string)
    requires Boundary(p)
    ensures |LineStarts(p)| == Breaks(p) + 1 && LineStarts(p)[Breaks(p)] == |p|
  {
    StartsOfPrefix(p, "");
    if p != "" {
      StartsOfPrefix(p[..|p| - 1], "");
    }
  }

  lemma SecondStart(p: string, line: string, rest: string)
    requires Boundary(p) && Breaks(line) == 1 && line != "" && line[|line| - 1] == '\n'
    ensures var starts, k := LineStarts(p + (line + rest)), Breaks(p);
      k + 1 < |starts| && starts[k] == |p| && starts[k + 1] == |p + line|
  {
    hide LineStarts, Breaks;
    LastStart(p);
    BreaksConcat(p, line);
    LastStart(p + line);
    StartsOfPrefix(p, line);
    StartsOfPrefix(p + line, rest);
    assert p + line + rest == p + (line + rest);
  }

  lemma NoSecondStart(p: string, r: string)
    requires Boundary(p) && Breaks(r) == 0
    ensures var starts, k := LineStarts(p + r), Breaks(p); |starts| == k + 1 && starts[k] == |p|
  {
    hide LineStarts, Breaks;
    LastStart(p);
    BreaksConcat(p, r);
    StartsOfPrefix(p, r);
    StartsOfPrefix(p + r, "");
  }

  /** The line after a boundary: where `lineStarts` says it starts and ends. */
  lemma {:induction false} LineAfter(p: string, r: string)
    requires Boundary(p)
    ensures var starts, k := LineStarts(p + r), Breaks(p);
      k < |starts| && starts[k] == |p| &&
      (if k + 1 < |starts| then starts[k + 1] else |p + r|) == |p| + LineLength(r)
  {
    hide LineLength, LineStarts, Breaks, Boundary;
    var n := LineLength(r);
    LineBreaks(r);
    if n > 0 && r[n - 1] == '\n' {
      SecondStart(p, r[..n], r[n..]);
      assert r[..n] + r[n..] == r;
    } else {
      assert r[..n] == r;
      NoSecondStart(p, r);
    }
  }

  lemma LineBreaks(r: string)
    ensures var n := LineLength(r); Breaks(r[..n]) == if n > 0 && r[n - 1] == '\n' then 1 else 0
  {
    var n := LineLength(r);
    if n > 0 {
      NoBreaks(r[..n - 1]);
      assert r[..n][..n - 1] == r[..n - 1];
    }
  }

  /** Every line that `lineStarts` lists starts after a boundary. */
  lemma {:induction false} StartIsBoundary(s: string, k: nat)
    requires k < |LineStarts(s)|
    ensures var p := s[..LineStarts(s)[k]]; Boundary(p) && Breaks(p) == k
    decreases |s|
  {
    if s != "" {
      var front := s[..|s| - 1];
      StartsOfPrefix(front, "");
      if k < |LineStarts(front)| {
        StartIsBoundary(front, k);
        assert s[..LineStarts(s)[k]] == front[..LineStarts(front)[k]];
      } else {
        assert s[..|s|] == s;
      }
    }
  }

  // ----- Moving the text -----

  function Shifted(span: Option<Span>, offset: nat): Option<Span> {
    if span.None? then None
    else Some(span.value.(start := span.value.start + offset, end := span.value.end + offset))
  }

  lemma AtShift(p: string, r: string, x: string, i: nat)
    ensures At(p + r, x, |p| + i) == At(r, x, i)
  {
    if i + |x| <= |r| {
      assert (p + r)[|p| + i..|p| + i + |x|] == r[i..i + |x|];
    }
  }

  lemma {:induction false} FindShift(p: string, r: string, x: string, from: nat)
    ensures Find(p + r, x, |p| + from) ==
      match Find(r, x, from) case None => None case Some(i) => Some(|p| + i)
    decreases |r| - from
  {
    hide At;
    AtShift(p, r, x, from);
    if !At(r, x, from) && from < |r| {
      FindShift(p, r, x, from + 1);
    }
  }

  lemma {:induction false} SkipShift(p: string, r: string, limit: nat, i: nat)
    requires limit <= |r|
    ensures SkipGaps(p + r, |p| + limit, |p| + i) == |p| + SkipGaps(r, limit, i)
    decreases limit - i
  {
    if i < limit && IsGap(r[i]) {
      SkipShift(p, r, limit, i + 1);
    }
  }

  lemma {:induction false} BareShift(p: string, r: string, limit: nat, i: nat)
    requires i <= limit <= |r|
    ensures BareEnd(p + r, |p| + limit, |p| + i) == |p| + BareEnd(r, limit, i)
    decreases limit - i
  {
    if i < limit && !IsGap(r[i]) && r[i] != '#' {
      BareShift(p, r, limit, i + 1);
    }
  }

  lemma {:induction false} ClosesShift(p: string, r: string, from: nat)
    requires from <= |r|
    ensures FormatScan.BasicCloses(p + r, |p| + from) == FormatScan.BasicCloses(r, from)
    ensures FormatScan.BasicEnd(p + r, |p| + from) == |p| + FormatScan.BasicEnd(r, from)
    decreases |r| - from
  {
    if from < |r| {
      if r[from] == '\\' {
        if from + 2 <= |r| {
          ClosesShift(p, r, from + 2);
        }
      } else {
        ClosesShift(p, r, from + 1);
      }
    }
  }

  lemma TripleShift(p: string, r: string, limit: nat, v: nat, triple: string, style: QuoteStyle)
    requires v < limit <= |r| && |triple| == 3
    ensures TripleAt(p + r, |p| + limit, |p| + v, triple, style) == Shifted(TripleAt(r, limit, v, triple, style), |p|)
  {
    hide Find, DecodeBasic;
    FindShift(p, r, triple, v + 3);
    match Find(r, triple, v + 3) {
      case None =>
      case Some(close) => assert (p + r)[|p| + v + 3..|p| + close] == r[v + 3..close];
    }
  }

  lemma BasicShift(p: string, r: string, limit: nat, v: nat)
    requires v < limit <= |r|
    ensures BasicAt(p + r, |p| + limit, |p| + v) == Shifted(BasicAt(r, limit, v), |p|)
  {
    hide DecodeBasic, FormatScan.BasicCloses, FormatScan.BasicEnd;
    assert (p + r)[..|p| + limit] == p + r[..limit];
    ClosesShift(p, r[..limit], v + 1);
    if FormatScan.BasicCloses(r[..limit], v + 1) {
      ClosesAfter(r[..limit], v + 1);
      var end := FormatScan.BasicEnd(r[..limit], v + 1);
      assert (p + r)[|p| + v + 1..|p| + end - 1] == r[v + 1..end - 1];
    }
  }

  lemma LiteralShift(p: string, r: string, limit: nat, v: nat)
    requires v < limit <= |r|
    ensures LiteralAt(p + r, |p| + limit, |p| + v) == Shifted(LiteralAt(r, limit, v), |p|)
  {
    hide Find, At;
    FindShift(p, r, "'", v + 1);
    FindBound(r, "'", v + 1);
    match Find(r, "'", v + 1) {
      case None =>
      case Some(end) => assert (p + r)[|p| + v + 1..|p| + end] == r[v + 1..end];
    }
  }

  lemma ValueShift(p: string, r: string, limit: nat, v: nat)
    requires v < limit <= |r|
    ensures ValueAt(p + r, |p| + limit, |p| + v) == Shifted(ValueAt(r, limit, v), |p|)
  {
    hide At, TripleAt, BasicAt, LiteralAt, BareEnd;
    AtShift(p, r, TRIPLE_BASIC, v);
    AtShift(p, r, TRIPLE_LITERAL, v);
    TripleShift(p, r, limit, v, TRIPLE_BASIC, TripleBasic);
    TripleShift(p, r, limit, v, TRIPLE_LITERAL, TripleLiteral);
    BasicShift(p, r, limit, v);
    LiteralShift(p, r, limit, v);
    BareShift(p, r, limit, v);
    assert (p + r)[|p| + v..|p| + BareEnd(r, limit, v)] == r[v..BareEnd(r, limit, v)];
  }

  lemma SpanShift(p: string, r: string, limit: nat, from: nat, key: string)
    requires limit <= |r|
    ensures SpanIn(p + r, |p| + limit, |p| + from, key) == Shifted(SpanIn(r, limit, from, key), |p|)
  {
    hide ValueAt, Find, At, SkipGaps;
    FindShift(p, r, "=", from);
    match Find(r, "=", from) {
      case None =>
      case Some(eq) =>
        assert eq <= |r| by { FindBound(r, "=", from); }
        assert (p + r)[|p| + from..|p| + eq] == r[from..eq];
        SkipShift(p, r, limit, eq + 1);
        if SkipGaps(r, limit, eq + 1) < limit {
          ValueShift(p, r, limit, SkipGaps(r, limit, eq + 1));
        }
    }
  }

  lemma FindBound(s: string, x: string, from: nat)
    ensures Find(s, x, from).Some? ==> At(s, x, Find(s, x, from).value) && Find(s, x, from).value + |x| <= |s|
  {
    hide Find;
  }

  /** The span of a value, read off the text that starts with its line. */
  lemma ValueSpanOnLine(p: string, r: string, position: Position, path: string)
    requires Boundary(p) && Breaks(p) == position.line - 1
    ensures ValueSpan(p + r, position, path) ==
      Shifted(SpanIn(r, LineLength(r), position.column - 1, KeyOf(path)), |p|)
  {
    hide SpanIn, LineStarts, KeyOf, LineLength, Breaks, Boundary, Shifted;
    LineAfter(p, r);
    SpanShift(p, r, LineLength(r), position.column - 1, KeyOf(path));
  }

  // ----- Changing what follows the line -----

  /** `n` is the end of the first line of `s`, or of all of it. */
  predicate LineEnd(s: string, n: nat) {
    n <= |s| && (n == |s| || (n > 0 && s[n - 1] == '\n'))
  }

  /** Two texts with the same first line, of which the next lines open with the same triple quotes if any. */
  ghost predicate SameLine(r: string, u: string, n: nat) {
    && LineEnd(r, n) && LineEnd(u, n) && r[..n] == u[..n]
    && At(r, TRIPLE_BASIC, n) == At(u, TRIPLE_BASIC, n)
    && At(r, TRIPLE_LITERAL, n) == At(u, TRIPLE_LITERAL, n)
  }

  lemma AtLocal(r: string, u: string, x: string, i: nat, n: nat)
    requires n <= |r| && n <= |u| && r[..n] == u[..n] && i + |x| <= n
    ensures At(r, x, i) == At(u, x, i)
  {
    SliceOfPrefix(r, u, n, i, i + |x|);
  }

  /** A first occurrence inside the common part is the first occurrence in both. */
  lemma {:induction false} FindLocal(r: string, u: string, x: string, from: nat, n: nat)
    requires n <= |r| && n <= |u| && r[..n] == u[..n]
    requires Find(r, x, from).Some? && Find(r, x, from).value + |x| <= n
    ensures Find(u, x, from) == Find(r, x, from)
  {
    hide At;
    var i := Find(r, x, from).value;
    forall j | from <= j <= i ensures At(r, x, j) == At(u, x, j) {
      AtLocal(r, u, x, j, n);
    }
    assert At(u, x, i);
    assert Find(u, x, from).Some?;
  }

  /** A triple quote that is found on the line, or right after it. */
  lemma TripleInLine(r: string, n: nat, triple: string, i: nat)
    requires LineEnd(r, n) && At(r, triple, i) && i <= n && '\n' !in triple && |triple| == 3
    ensures i + 3 <= n || i == n
  {
    assert forall k | i <= k < i + 3 :: r[k] == triple[k - i];
  }

  lemma TripleLocal(r: string, u: string, n: nat, v: nat, triple: string, style: QuoteStyle)
    requires LineEnd(r, n) && LineEnd(u, n) && r[..n] == u[..n] && v < n
    requires |triple| == 3 && '\n' !in triple && At(r, triple, n) == At(u, triple, n)
    requires TripleAt(r, n, v, triple, style).Some?
    ensures TripleAt(u, n, v, triple, style) == TripleAt(r, n, v, triple, style)
  {
    hide At, DecodeBasic;
    var i := Find(r, triple, v + 3).value;
    TripleInLine(r, n, triple, i);
    if i + 3 <= n {
      FindLocal(r, u, triple, v + 3, n);
    } else {
      assert Find(u, triple, v + 3).Some?;
      var j := Find(u, triple, v + 3).value;
      if j < i {
        TripleInLine(u, n, triple, j);
        AtLocal(r, u, triple, j, n);
      }
    }
    SliceOfPrefix(r, u, n, v + 3, i);
  }

  lemma {:induction false} BareLocal(r: string, u: string, n: nat, i: nat)
    requires n <= |r| && n <= |u| && r[..n] == u[..n] && i <= n
    ensures BareEnd(r, n, i) == BareEnd(u, n, i)
    decreases n - i
  {
    if i < n {
      SliceOfPrefix(r, u, n, i, i + 1);
      BareLocal(r, u, n, i + 1);
    }
  }

  lemma {:induction false} SkipLocal(r: string, u: string, n: nat, i: nat)
    requires n <= |r| && n <= |u| && r[..n] == u[..n]
    ensures SkipGaps(r, n, i) == SkipGaps(u, n, i)
    decreases n - i
  {
    if i < n {
      SliceOfPrefix(r, u, n, i, i + 1);
      SkipLocal(r, u, n, i + 1);
    }
  }

  lemma LiteralLocal(r: string, u: string, n: nat, v: nat)
    requires n <= |r| && n <= |u| && r[..n] == u[..n] && v < n
    requires LiteralAt(r, n, v).Some?
    ensures LiteralAt(u, n, v) == LiteralAt(r, n, v)
  {
    hide At;
    FindLocal(r, u, "'", v + 1, n);
    var i := Find(r, "'", v + 1).value;
    SliceOfPrefix(r, u, n, v + 1, i);
  }

  lemma BasicLocal(r: string, u: string, n: nat, v: nat)
    requires n <= |r| && n <= |u| && r[..n] == u[..n] && v < n
    ensures BasicAt(u, n, v) == BasicAt(r, n, v)
  {
    hide DecodeBasic, FormatScan.BasicCloses, FormatScan.BasicEnd;
    if FormatScan.BasicCloses(r[..n], v + 1) {
      ClosesAfter(r[..n], v + 1);
      var end := FormatScan.BasicEnd(r[..n], v + 1);
      SliceOfPrefix(r, u, n, v + 1, end - 1);
    }
  }

  /** A triple quote cannot start on a line and end on the next. */
  lemma OpensLocal(r: string, u: string, n: nat, v: nat, triple: string)
    requires LineEnd(r, n) && LineEnd(u, n) && r[..n] == u[..n] && v < n
    requires |triple| == 3 && '\n' !in triple
    ensures At(r, triple, v) == At(u, triple, v)
  {
    if v + 3 <= n {
      AtLocal(r, u, triple, v, n);
    } else {
      if At(r, triple, v) { TripleInLine(r, n, triple, v); }
      if At(u, triple, v) { TripleInLine(u, n, triple, v); }
    }
  }

  lemma ValueLocal(r: string, u: string, n: nat, v: nat)
    requires SameLine(r, u, n) && v < n
    requires ValueAt(r, n, v).Some?
    ensures ValueAt(u, n, v) == ValueAt(r, n, v)
  {
    hide At, DecodeBasic, BareEnd, TripleAt, BasicAt, LiteralAt;
    SliceOfPrefix(r, u, n, v, v + 1);
    OpensLocal(r, u, n, v, TRIPLE_BASIC);
    OpensLocal(r, u, n, v, TRIPLE_LITERAL);
    BareLocal(r, u, n, v);
    SliceOfPrefix(r, u, n, v, BareEnd(r, n, v));
    if r[v] == '"' {
      if At(r, TRIPLE_BASIC, v) {
        TripleLocal(r, u, n, v, TRIPLE_BASIC, TripleBasic);
      } else {
        BasicLocal(r, u, n, v);
      }
    } else if r[v] == '\'' {
      if At(r, TRIPLE_LITERAL, v) {
        TripleLocal(r, u, n, v, TRIPLE_LITERAL, TripleLiteral);
      } else {
        LiteralLocal(r, u, n, v);
      }
    }
  }

  lemma SpanLocalOneWay(r: string, u: string, n: nat, from: nat, key: string)
    requires SameLine(r, u, n)
    requires SpanIn(r, n, from, key).Some?
    ensures SpanIn(u, n, from, key) == SpanIn(r, n, from, key)
  {
    hide ValueAt, At, SkipGaps;
    FindLocal(r, u, "=", from, n);
    var eq := Find(r, "=", from).value;
    SliceOfPrefix(r, u, n, from, eq);
    SkipLocal(r, u, n, eq + 1);
    ValueLocal(r, u, n, SkipGaps(r, n, eq + 1));
  }

  lemma SpanLocal(r: string, u: string, n: nat, from: nat, key: string)
    requires SameLine(r, u, n)
    ensures SpanIn(u, n, from, key) == SpanIn(r, n, from, key)
  {
    hide SpanIn;
    if SpanIn(r, n, from, key).Some? {
      SpanLocalOneWay(r, u, n, from, key);
    } else if SpanIn(u, n, from, key).Some? {
      SpanLocalOneWay(u, r, n, from, key);
    }
  }
}
