/**
 Scanning rendered lines gives the rendered blocks back: the constructs a scan
 produces are fixed points of the scan.
 */
module FormatRescan {
  import opened JsText
  import opened Wrappers
  import opened FormatScan
  import opened FormatDoc
  import opened FormatLines

  /** Lines of a source whose only line terminator is the line feed. */
  ghost predicate PlainLines(lines: seq<string>) {
    forall l | l in lines :: '\r' !in l && '\n' !in l
  }

  /** No byte order mark in front, where only white space would hide it. */
  predicate NoMark(line: string) {
    line == "" || line[0] != BOM
  }

  // ----- Continuation lines -----

  /** Every text `Continue` hands to the quote rewriter is tidy. */
  ghost predicate TidyRest(rest: seq<string>, depth: nat, multiline: Multiline) {
    (depth == 0 && multiline == Outside) || rest == []
    || var after := ScanLine(rest[0], depth, multiline);
       && (multiline == Outside && after.multiline == Outside ==> Tidy(RstripWs(rest[0])))
       && TidyRest(rest[1..], after.depth, after.multiline)
  }

  /** A rewritten continuation line is left by a scan of either rule as the line was. */
  lemma ContinuationScan(line: string, depth: nat, rule: ClosingRule)
    requires '\r' !in line && Tidy(RstripWs(line))
    requires Walk(line, 0, Start(rule).(depth := depth)).multiline == Outside
    ensures var l, st := NormaliseContinuation(line), Start(rule).(depth := depth);
      && Walk(l, 0, st).depth == Walk(line, 0, st).depth
      && Walk(l, 0, st).multiline == Walk(line, 0, st).multiline && NormaliseContinuation(l) == l
  {
    hide Walk, NormalizeQuotes, Tidy, IsSpace;
    var st := Start(rule).(depth := depth);
    var x := RstripWs(line);
    StripBlanksSplit(line);
    StripIdempotent(line);
    assert x == StripBlanks(line);
    WalkTrailingSpace(x, line[|x|..], 0, st);
    NormalizeCommutes(x, 0, st, 0, st);
    NormalizeIdempotent(x);
    NormalizeTrimmed(x);
    NormalizeKeepsOut(x, '\r');
    StripFixed(NormalizeQuotes(x));
  }

  lemma ContinuationStable(line: string, depth: nat)
    requires '\r' !in line && Tidy(RstripWs(line)) && ScanLine(line, depth, Outside).multiline == Outside
    ensures var l := NormaliseContinuation(line);
      var s, t := ScanLine(line, depth, Outside), ScanLine(l, depth, Outside);
      t.depth == s.depth && t.multiline == s.multiline && NormaliseContinuation(l) == l
  {
    hide Walk, NormaliseContinuation, Tidy, RstripWs;
    ContinuationScan(line, depth, Three);
  }

  lemma ContinuationPlain(line: string)
    requires '\r' !in line && '\n' !in line && Tidy(RstripWs(line))
    ensures '\r' !in NormaliseContinuation(line) && '\n' !in NormaliseContinuation(line)
  {
    hide Tidy, RstripWs, NormalizeQuotes;
    StripKeepsOut(line, '\r');
    StripKeepsOut(line, '\n');
    NormalizeKeepsOut(RstripWs(line), '\r');
    NormalizeKeepsOut(RstripWs(line), '\n');
  }

  lemma {:induction false} ContinueStable(rest: seq<string>, depth: nat, multiline: Multiline)
    requires PlainLines(rest) && TidyRest(rest, depth, multiline)
    requires Continue(rest, depth, multiline).Some?
    ensures var lines := Continue(rest, depth, multiline).value;
      Continue(lines, depth, multiline) == Some(lines) && PlainLines(lines)
  {
    hide ScanLine, NormaliseContinuation, Tidy, RstripWs;
    if !(depth == 0 && multiline == Outside) {
      var after := ScanLine(rest[0], depth, multiline);
      var lines := Continue(rest, depth, multiline).value;
      if multiline == Outside && after.multiline == Outside {
        ContinuationStable(rest[0], depth);
        ContinuationPlain(rest[0]);
      }
      ContinueStable(rest[1..], after.depth, after.multiline);
      assert lines[1..] == Continue(rest[1..], after.depth, after.multiline).value;
    }
  }

  /** Lines behind the end of a value are not read. */
  lemma {:induction false} ContinueMore(lines: seq<string>, more: seq<string>, depth: nat, multiline: Multiline)
    requires Continue(lines, depth, multiline) == Some(lines)
    ensures Continue(lines + more, depth, multiline) == Some(lines)
  {
    hide ScanLine, NormaliseContinuation;
    if !(depth == 0 && multiline == Outside) {
      var after := ScanLine(lines[0], depth, multiline);
      assert (lines + more)[1..] == lines[1..] + more;
      var tail := Continue(lines[1..], after.depth, after.multiline);
      assert tail.Some? && lines[1..] == tail.value;
      ContinueMore(lines[1..], more, after.depth, after.multiline);
    }
  }

  // ----- Key/value constructs -----

  ghost predicate TidyKv(lines: seq<string>)
    requires lines != []
  {
    var scan := ScanLine(lines[0], 0, Outside);
    TidyFirstLine(lines[0]) && TidyRest(lines[1..], scan.depth, scan.multiline)
  }

  /** `lines` are exactly one key/value construct, already in normal form. */
  ghost predicate KvFixed(key: string, lines: seq<string>) {
    && lines != [] && !IsFiller(lines[0]) && ScanLine(lines[0], 0, Outside).eq >= 0
    && ConsumeKv(lines, 0) == Ok(Consumed(key, lines))
  }

  lemma ConsumeShape(lines: seq<string>, line: nat)
    requires lines != [] && ScanLine(lines[0], 0, Outside).eq >= 0
    ensures var scan := ScanLine(lines[0], 0, Outside);
      ConsumeKv(lines, line) ==
        match Continue(lines[1..], scan.depth, scan.multiline)
        case None => Err(Unterminated(line))
        case Some(rest) => Ok(Consumed(KeyOf(lines[0]), [FirstLine(lines[0])] + rest))
  {
    hide Walk, NormaliseFirstLine, NormaliseKey, Continue;
  }

  lemma ConsumeMore(key: string, lines: seq<string>, more: seq<string>, line: nat)
    requires KvFixed(key, lines)
    ensures ConsumeKv(lines + more, line) == Ok(Consumed(key, lines))
  {
    hide ScanLine, FirstLine, KeyOf, ConsumeKv, Continue, IsFiller;
    var scan := ScanLine(lines[0], 0, Outside);
    ConsumeShape(lines, 0);
    ConsumeShape(lines + more, line);
    var rest := Continue(lines[1..], scan.depth, scan.multiline).value;
    assert lines[1..] == ([FirstLine(lines[0])] + rest)[1..] == rest;
    ContinueMore(lines[1..], more, scan.depth, scan.multiline);
    assert (lines + more)[1..] == lines[1..] + more;
  }

  lemma TrimHead(a: string, b: string)
    requires Trim(a) != ""
    ensures Trim(a + b) != "" && Trim(a + b)[0] == Trim(a)[0]
  {
    TrimStartHead(a, b);
    TrimEndHead(TrimStart(a));
    TrimEndHead(TrimStart(a + b));
  }

  lemma {:induction false} TrimStartHead(a: string, b: string)
    requires TrimStart(a) != ""
    ensures TrimStart(a + b) == TrimStart(a) + b
  {
    hide IsSpace;
    assert (a + b)[0] == a[0];
    if IsSpace(a[0]) {
      assert (a + b)[1..] == a[1..] + b;
      TrimStartHead(a[1..], b);
    }
  }

  lemma {:induction false} TrimEndHead(s: string)
    ensures s != "" && !IsSpace(s[0]) ==> TrimEnd(s) != "" && TrimEnd(s)[0] == s[0]
    decreases |s|
  {
    if s != "" && IsSpace(s[|s| - 1]) { TrimEndHead(s[..|s| - 1]); }
  }

  /** A rewritten first line is still neither blank nor a comment. */
  lemma FirstLineNotFiller(raw: string)
    requires TidyFirstLine(raw) && !IsFiller(raw)
    ensures !IsFiller(FirstLine(raw)) && NoMark(FirstLine(raw))
  {
    hide Walk, NormaliseKey, NormalizeQuotes, Tidy, ValueText, RstripWs, IsSpace, Trim;
    var s := ScanLine(raw, 0, Outside);
    AfterSeparator(raw);
    KeyStable(raw[..s.eq], Three);
    FirstLineShape(raw);
    var k := KeyOf(raw);
    var rest := FirstLine(raw)[|k|..];
    assert FirstLine(raw) == k + rest && rest[..2] == " =";
    if k == "" {
      SeparatorTrim(rest);
      assert k + rest == rest;
    } else {
      if Trim(raw[..s.eq]) != "" {
        TrimHead(raw[..s.eq], raw[s.eq..]);
        assert raw == raw[..s.eq] + raw[s.eq..];
      }
      HeadTrim(k, rest);
    }
  }

  lemma SpaceAndEquals()
    ensures IsSpace(' ') && !IsSpace('=')
  {
  }

  lemma {:induction false} SeparatorTrim(rest: string)
    requires |rest| >= 2 && rest[..2] == " ="
    ensures Trim(rest) != "" && Trim(rest)[0] == '='
  {
    hide TrimEnd, IsSpace;
    assert rest[0] == rest[..2][0] == ' ' && rest[1] == rest[..2][1] == '=';
    SpaceAndEquals();
    assert TrimStart(rest[1..]) == rest[1..];
    TrimEndHead(rest[1..]);
  }

  lemma HeadTrim(k: string, rest: string)
    requires k != "" && !IsSpace(k[0])
    ensures Trim(k + rest) != "" && Trim(k + rest)[0] == k[0] && k[0] != BOM
  {
    assert TrimStart(k + rest) == k + rest;
    TrimEndHead(k + rest);
  }

  /** What a scan stores for a key/value construct is a fixed point of the scan. */
  lemma KvStable(lines: seq<string>, line: nat)
    requires lines != [] && !IsFiller(lines[0]) && PlainLines(lines)
    requires ScanLine(lines[0], 0, Outside).eq >= 0 && ConsumeKv(lines, line).Ok? && TidyKv(lines)
    ensures var c := ConsumeKv(lines, line).value; KvFixed(c.key, c.lines) && PlainLines(c.lines) && NoMark(c.lines[0])
  {
    hide Walk, FirstLine, KeyOf, ConsumeKv, Continue, IsFiller, TidyFirstLine, TidyRest;
    var scan := ScanLine(lines[0], 0, Outside);
    ConsumeShape(lines, line);
    FirstLineStable(lines[0]);
    FirstLineNotFiller(lines[0]);
    FirstLineKeepsOut(lines[0], '\r');
    FirstLineKeepsOut(lines[0], '\n');
    ContinueStable(lines[1..], scan.depth, scan.multiline);
    var c := ConsumeKv(lines, line).value;
    ConsumeShape(c.lines, 0);
    assert c.lines[1..] == Continue(lines[1..], scan.depth, scan.multiline).value;
  }

  // ----- Headers -----

  /** `[ [a] ]` would turn into an array header; no valid document has one. */
  predicate HeaderPlain(trimmed: string) {
    IsArrayHeader(trimmed) || HeaderName(trimmed) == "" || HeaderName(trimmed)[0] != '['
  }

  ghost predicate HeaderFixed(name: string, line: string) {
    && !IsFiller(line) && ScanLine(line, 0, Outside).eq < 0 && Trim(line)[0] == '['
    && HeaderName(Trim(line)) == name
    && NormaliseHeader(Trim(line)) + EndOfLine(line) == line
  }

  lemma HeaderText(trimmed: string)
    requires HeaderPlain(trimmed)
    ensures var l := NormaliseHeader(trimmed);
      && Trim(l) == l && l != "" && l[0] == '[' && l[|l| - 1] == ']'
      && HeaderName(l) == HeaderName(trimmed) && NormaliseHeader(l) == l
  {
    hide Trim, IsSpace;
    var t, l := HeaderName(trimmed), NormaliseHeader(trimmed);
    BracketsTrimmed(l);
    TrimFixed(l);
    TrimFixed(t);
    if IsArrayHeader(trimmed) {
      assert l[..2] == "[[" && Middle(l, 2, 2) == t;
    } else {
      assert l[1] == if t == "" then ']' else t[0];
      assert Middle(l, 1, 1) == t;
    }
  }

  lemma BracketsTrimmed(l: string)
    requires l != "" && l[0] == '[' && l[|l| - 1] == ']'
    ensures !IsSpace(l[0]) && !IsSpace(l[|l| - 1])
  {
  }

  /** Wherever a separator shows up after `t`, it shows up with more text behind `t` as well. */
  lemma EqBefore(t: string, r: string, u: string, pos: nat, st: Walked)
    requires st.clean && st.eq < 0 && '=' !in r
    requires Walk(t + r, pos, st).eq >= 0
    ensures Walk(t + u, pos, st).eq >= 0
  {
    hide Walk, StepAt;
    CutAtEq(t + r, pos, st);
    var k := Walk(t + r, pos, st).eq - pos;
    assert k < |t|;
    assert (t + r)[..k] == t[..k] && t + u == t[..k] + (t[k..] + u);
    WalkAppend(t[..k], t[k..] + u, pos, st);
    EqAtOnce(t[k..] + u, pos + k, st.(depth := 0, multiline := Outside));
  }

  lemma EqAtOnce(s: string, pos: nat, st: Walked)
    requires s != "" && s[0] == '=' && st.depth == 0 && st.multiline == Outside && st.eq < 0
    ensures Walk(s, pos, st).eq >= 0
  {
    hide StepAt;
    EqStepAt(s, pos, st);
    EqStable(s[1..], pos + 1, st.(eq := pos));
  }

  lemma EqStepAt(s: string, pos: nat, st: Walked)
    requires s != "" && s[0] == '=' && st.depth == 0 && st.multiline == Outside && st.eq < 0
    ensures StepAt(s, pos, st) == Go(1, st.(eq := pos))
  {
  }

  lemma BracketWalk(s: string, pos: nat, st: Walked)
    requires s != "" && s[0] == '[' && st.multiline == Outside
    ensures Walk(s, pos, st) == Walk(s[1..], pos + 1, st.(depth := st.depth + 1))
  {
  }

  /** Tightening the space inside the brackets exposes no separator. */
  lemma InnerEq(inner: string, last: string, tail: string, pos: nat, st: Walked, pos2: nat)
    requires st.clean && st.eq < 0 && st.multiline == Outside && '=' !in last && st.comment < 0
    requires Walk(inner + tail, pos, st).eq < 0
    ensures Walk(Trim(inner) + last, pos2, st).eq < 0
  {
    hide Walk, StepAt, Trim;
    if Walk(Trim(inner) + last, pos2, st).eq >= 0 {
      var w1, w2 := TrimParts(inner);
      var t := Trim(inner);
      EqBefore(t, last, w2 + tail, pos2, st);
      assert inner + tail == w1 + (t + (w2 + tail));
      WalkLeadingSpace(w1, t + (w2 + tail), pos, st);
      WalkShift(t + (w2 + tail), pos2, st, pos + |w1|, st);
    }
  }

  lemma {:induction false} HeaderEq(trimmed: string, rule: ClosingRule)
    requires trimmed != "" && trimmed[0] == '[' && Walk(trimmed, 0, Start(rule)).eq < 0
    ensures Walk(NormaliseHeader(trimmed), 0, Start(rule)).eq < 0
  {
    hide Walk, StepAt, Trim;
    var l := NormaliseHeader(trimmed);
    var st := Start(rule);
    var one := st.(depth := 1);
    BracketWalk(trimmed, 0, st);
    if IsArrayHeader(trimmed) {
      BracketWalk(trimmed[1..], 1, one);
      var inner := Middle(trimmed, 2, 2);
      assert trimmed[1..][1..] == inner + trimmed[2 + |inner|..];
      InnerEq(inner, "]]", trimmed[2 + |inner|..], 2, one.(depth := 2), 2);
      BracketWalk(l, 0, st);
      BracketWalk(l[1..], 1, one);
      assert l[1..][1..] == Trim(inner) + "]]";
    } else {
      var inner := Middle(trimmed, 1, 1);
      assert trimmed[1..] == inner + trimmed[1 + |inner|..];
      InnerEq(inner, "]", trimmed[1 + |inner|..], 1, one, 1);
      BracketWalk(l, 0, st);
      assert l[1..] == Trim(inner) + "]";
    }
  }

  lemma TrimEq(raw: string, rule: ClosingRule)
    requires Walk(raw, 0, Start(rule)).eq < 0
    ensures Walk(Trim(raw), 0, Start(rule)).eq < 0
  {
    hide Walk, Trim;
    var st := Start(rule);
    var w1, w2 := TrimParts(raw);
    var t := Trim(raw);
    assert raw == w1 + (t + w2);
    WalkLeadingSpace(w1, t + w2, 0, st);
    WalkTrailingSpace(t, w2, |w1|, st);
    WalkShift(t, |w1|, st, 0, st);
  }

  /** What a scan stores for a header is a fixed point of the scan. */
  lemma HeaderStable(raw: string)
    requires '\r' !in raw && '\n' !in raw && !IsFiller(raw) && Trim(raw)[0] == '['
    requires ScanLine(raw, 0, Outside).eq < 0 && HeaderPlain(Trim(raw))
    ensures var l := NormaliseHeader(Trim(raw)) + EndOfLine(raw);
      HeaderFixed(HeaderName(Trim(raw)), l) && PlainLines([l]) && NoMark(l)
  {
    hide Walk, Trim, NormaliseHeader, HeaderName, HeaderPlain;
    var l := NormaliseHeader(Trim(raw));
    assert EndOfLine(raw) == "" by {
      if raw != "" { assert raw[|raw| - 1] in raw; }
    }
    assert l + EndOfLine(raw) == l;
    TrimEq(raw, Three);
    HeaderEq(Trim(raw), Three);
    HeaderText(Trim(raw));
    HeaderKeepsOut(raw, '\r');
    HeaderKeepsOut(raw, '\n');
  }

  lemma MiddleKeepsOut(t: string, n: nat, x: char)
    requires x !in t
    ensures x !in Trim(Middle(t, n, n))
  {
    hide Trim;
    if 2 * n <= |t| { SliceKeepsOut(t, n, |t| - n, x); }
    TrimKeepsOut(Middle(t, n, n), x);
  }

  lemma BracketsKeepOut(name: string, x: char)
    requires x !in name && x != '[' && x != ']'
    ensures x !in "[" + name + "]" && x !in "[[" + name + "]]"
  {
  }

  lemma NameKeepsOut(t: string, x: char)
    requires x !in t
    ensures x !in HeaderName(t)
  {
    hide Trim, Middle, IsArrayHeader;
    MiddleKeepsOut(t, 1, x);
    MiddleKeepsOut(t, 2, x);
  }

  lemma HeaderKeepsOut(raw: string, x: char)
    requires x !in raw && x != '[' && x != ']'
    ensures x !in NormaliseHeader(Trim(raw))
  {
    hide Trim, HeaderName, IsArrayHeader;
    TrimKeepsOut(raw, x);
    NameKeepsOut(Trim(raw), x);
    BracketsKeepOut(HeaderName(Trim(raw)), x);
  }
}
