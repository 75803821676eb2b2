/**
 One line after its value was rewritten: reading it again finds what was written,
 exactly when an empty replacement's quotes do not run into a third one.
 */
module FixRewrite {
  import opened JsText
  import opened Wrappers
  import opened BasicStrings
  import opened Fix
  import opened FixLines
  import FormatScan

  function QuoteOf(style: QuoteStyle): string {
    if style == Literal then "'" else "\""
  }

  /**
   An empty replacement is written as two quotes. A third one after them would make
   them open a triple quote, which is harmless only if that closes at once.
   */
  ghost predicate EndsClean(s: string, end: nat, style: QuoteStyle, replacement: string) {
    var q := QuoteOf(style);
    replacement == "" && At(s, q, end) ==> At(s, q + q + q + q, end)
  }

  /** `rest` continues like the line of `r` does from `end` on. */
  ghost predicate Continues(r: string, n: nat, end: nat, rest: string) {
    && LineEnd(r, n) && end <= n && LineEnd(rest, n - end) && rest[..n - end] == r[end..n]
    && (end == n ==> n == |r|)
  }

  lemma TailAt(r: string, n: nat, end: nat, rest: string, x: string)
    requires Continues(r, n, end, rest) && '\n' !in x && x != ""
    ensures At(r, x, end) == At(rest, x, 0)
  {
    assert At(r, x, end) ==> forall k | 0 <= k < |x| :: r[end + k] == x[k];
    assert At(rest, x, 0) ==> forall k | 0 <= k < |x| :: rest[k] == x[k];
    if end + |x| <= n {
      assert r[end..end + |x|] == r[end..n][..|x|] == rest[..n - end][..|x|] == rest[0..|x|];
    } else if n > end {
      assert r[n - 1] == r[end..n][n - 1 - end] == rest[n - 1 - end];
    }
  }

  lemma OpensTriple(pre: string, q: char, body: string, rest: string)
    requires body != "" ==> body[0] != q
    ensures At(pre + [q] + body + [q] + rest, [q, q, q], |pre|) <==> body == "" && At(rest, [q], 0)
  {
    var s := pre + [q] + body + [q] + rest;
    var v := |pre|;
    assert s[v] == q && s[v + 1] == if body == "" then q else body[0];
    if body == "" && rest != "" {
      assert s[v + 2] == rest[0];
    }
    assert v + 3 <= |s| ==> s[v..v + 3] == [s[v], s[v + 1], s[v + 2]];
    assert rest != "" ==> rest[0..1] == [rest[0]];
  }

  /** A triple quote opened by two quotes and a third encloses no text exactly when three more follow at once. */
  lemma EmptyTriple(pre: string, q: char, rest: string, m: nat, style: QuoteStyle)
    requires |pre| + 2 <= m <= |pre + [q, q] + rest| && LineEnd(pre + [q, q] + rest, m) && q != '\n'
    requires At(rest, [q], 0)
    ensures var r := TripleAt(pre + [q, q] + rest, m, |pre|, [q, q, q], style);
      r.Some? && r.value.value == "" <==> At(rest, [q, q, q, q], 0)
  {
    hide DecodeBasic;
    var s, v := pre + [q, q] + rest, |pre|;
    assert s[v + 2] == rest[0] == rest[0..1][0] == q;
    assert m != v + 2 by { assert s[v + 1] == q; }
    assert At(s, [q, q, q], v + 3) <==> At(rest, [q, q, q, q], 0) by {
      if |rest| >= 4 {
        assert s[v + 3..v + 6] == [rest[1], rest[2], rest[3]];
        assert rest[0..4] == [rest[0], rest[1], rest[2], rest[3]];
      }
    }
    match Find(s, [q, q, q], v + 3) {
      case None =>
      case Some(close) =>
        DecodeKeepsText(s[v + 3..close]);
        assert s[v + 3..close] == "" <==> close == v + 3;
    }
  }

  lemma BasicReads(pre: string, body: string, rest: string, m: nat)
    requires |pre| + |body| + 2 <= m <= |pre + "\"" + body + "\"" + rest|
    requires var t := pre + "\"" + body + "\"";
      FormatScan.BasicCloses(t, |pre| + 1) && FormatScan.BasicEnd(t, |pre| + 1) == |t|
    ensures var r := BasicAt(pre + "\"" + body + "\"" + rest, m, |pre|);
      r.Some? && r.value.value == DecodeBasic(body)
  {
    hide DecodeBasic, FormatScan.BasicCloses, FormatScan.BasicEnd;
    var t := pre + "\"" + body + "\"";
    var s := t + rest;
    assert t <= s[..m];
    FormatScan.BasicPrefix(t, s[..m], |pre| + 1);
    assert s[|pre| + 1..|t| - 1] == body;
  }

  lemma BasicRewritten(pre: string, replacement: string, rest: string, m: nat)
    requires var s := pre + "\"" + EncodeBody(replacement) + "\"" + rest;
      |pre| + |EncodeBody(replacement)| + 2 <= m <= |s| && LineEnd(s, m)
    ensures var r := ValueAt(pre + "\"" + EncodeBody(replacement) + "\"" + rest, m, |pre|);
      r.Some? && r.value.value == replacement <==>
        (replacement == "" && At(rest, "\"", 0) ==> At(rest, "\"\"\"\"", 0))
  {
    hide EncodeBody, DecodeBasic, At, TripleAt, BasicAt, LiteralAt, BareEnd;
    var body := EncodeBody(replacement);
    var s := pre + "\"" + body + "\"" + rest;
    EncodedIsPlain(replacement);
    OpensTriple(pre, '"', body, rest);
    assert s[|pre|] == '"';
    if At(s, TRIPLE_BASIC, |pre|) {
      assert s == pre + "\"\"" + rest;
      EmptyTriple(pre, '"', rest, m, TripleBasic);
    } else {
      assert pre + "\"" + body + "\"" == (pre + "\"") + body + "\"";
      EncodedCloses(pre + "\"", replacement);
      BasicReads(pre, body, rest, m);
      DecodeOfEncode(replacement);
    }
  }

  lemma LiteralReads(pre: string, body: string, rest: string, m: nat)
    requires |pre| + |body| + 2 <= m <= |pre + "'" + body + "'" + rest| && '\'' !in body
    ensures var r := LiteralAt(pre + "'" + body + "'" + rest, m, |pre|);
      r.Some? && r.value.value == body
  {
    var s, v := pre + "'" + body + "'" + rest, |pre|;
    forall j | v + 1 <= j < v + 1 + |body| ensures !At(s, "'", j) {
      assert s[j] == body[j - v - 1] && s[j..j + 1] == [s[j]];
    }
    assert s[v + 1 + |body|..v + 2 + |body|] == "'";
    FindFirst(s, "'", v + 1, v + 1 + |body|);
    assert s[v + 1..v + 1 + |body|] == body;
  }

  lemma LiteralRewritten(pre: string, replacement: string, rest: string, m: nat)
    requires var s := pre + "'" + replacement + "'" + rest;
      |pre| + |replacement| + 2 <= m <= |s| && LineEnd(s, m)
    requires '\'' !in replacement
    ensures var r := ValueAt(pre + "'" + replacement + "'" + rest, m, |pre|);
      r.Some? && r.value.value == replacement <==>
        (replacement == "" && At(rest, "'", 0) ==> At(rest, "''''", 0))
  {
    hide DecodeBasic, At, TripleAt, BasicAt, LiteralAt, BareEnd;
    var s := pre + "'" + replacement + "'" + rest;
    OpensTriple(pre, '\'', replacement, rest);
    assert s[|pre|] == '\'';
    if At(s, TRIPLE_LITERAL, |pre|) {
      assert s == pre + "''" + rest;
      EmptyTriple(pre, '\'', rest, m, TripleLiteral);
    } else {
      LiteralReads(pre, replacement, rest, m);
    }
  }

  /** The value of a rewritten span reads as the replacement exactly when its quotes end clean. */
  lemma ValueRewritten(r: string, n: nat, v: nat, end: nat, style: QuoteStyle, replacement: string, rest: string)
    requires v < n && v <= end && Continues(r, n, end, rest)
    requires LineEnd(r[..v] + EncodeValue(style, replacement) + rest, v + |EncodeValue(style, replacement)| + n - end)
    ensures var text := EncodeValue(style, replacement);
      var s := r[..v] + text + rest;
      var found := ValueAt(s, v + |text| + n - end, v);
      found.Some? && found.value.value == replacement <==> EndsClean(r, end, style, replacement)
  {
    hide ValueAt, At, EncodeBody;
    var text := EncodeValue(style, replacement);
    var m := v + |text| + n - end;
    assert "\"" + "\"" + "\"" + "\"" == "\"\"\"\"" && "'" + "'" + "'" + "'" == "''''";
    TailAt(r, n, end, rest, "\"");
    TailAt(r, n, end, rest, "\"\"\"\"");
    TailAt(r, n, end, rest, "'");
    TailAt(r, n, end, rest, "''''");
    if style == Literal && '\'' !in replacement {
      assert r[..v] + text + rest == r[..v] + "'" + replacement + "'" + rest;
      LiteralRewritten(r[..v], replacement, rest, m);
    } else {
      assert style == Literal ==> replacement != "";
      assert r[..v] + text + rest == r[..v] + "\"" + EncodeBody(replacement) + "\"" + rest;
      BasicRewritten(r[..v], replacement, rest, m);
    }
  }

  lemma {:induction false} SkipUpTo(r: string, u: string, n: nat, m: nat, i: nat, v: nat)
    requires n <= |r| && v < m <= |u| && v < n && r[..v] == u[..v] && !IsGap(u[v])
    requires i <= v && SkipGaps(r, n, i) == v
    ensures SkipGaps(u, m, i) == v
    decreases v - i
  {
    if i < v {
      SliceOfPrefix(r, u, v, i, i + 1);
      SkipUpTo(r, u, n, m, i + 1, v);
    }
  }

  /**
   A line that keeps its text up to the value at `v`: a key that had that value has
   whatever stands at `v` now, and a key that had none still has none.
   */
  lemma KeysOfRewrittenLine(r: string, u: string, n: nat, m: nat, from: nat, key: string, other: string)
    requires n <= |r| && m <= |u| && SpanIn(r, n, from, key).Some?
    requires var v := SpanIn(r, n, from, key).value.start;
      v < m && r[..v] == u[..v] && !IsGap(u[v])
    ensures var v := SpanIn(r, n, from, key).value.start;
      && SpanIn(u, m, from, key) == ValueAt(u, m, v)
      && (SpanIn(r, n, from, other).Some? ==>
            SpanIn(u, m, from, other) == ValueAt(u, m, v) && SpanIn(r, n, from, other) == SpanIn(r, n, from, key))
      && (SpanIn(r, n, from, other).None? ==> SpanIn(u, m, from, other).None?)
  {
    hide ValueAt, At, SkipGaps;
    var v := SpanIn(r, n, from, key).value.start;
    var eq := Find(r, "=", from).value;
    assert eq + 1 <= v;
    FindLocal(r, u, "=", from, v);
    SliceOfPrefix(r, u, v, from, eq);
    SkipUpTo(r, u, n, m, eq + 1, v);
  }
}
