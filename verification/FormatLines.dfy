/**
 What the formatter does to the lines of one construct is stable: the rewritten
 lines scan like the originals and rewrite to themselves.
 */
module FormatLines {
  import opened JsText
  import opened Wrappers
  import opened FormatScan
  import opened FormatDoc

  // ----- White space around tokens -----

  lemma {:induction false} WalkLeadingSpace(w: string, s: string, pos: nat, st: Walked)
    requires AllSpace(w) && st.multiline == Outside
    ensures Walk(w + s, pos, st) == Walk(s, pos + |w|, st)
    decreases |w|
  {
    if w == "" {
      assert w + s == s;
    } else {
      SpaceStep(w + s, pos, st);
      assert (w + s)[1..] == w[1..] + s;
      WalkLeadingSpace(w[1..], s, pos + 1, st);
    }
  }

  lemma SpaceStep(s: string, pos: nat, st: Walked)
    requires s != "" && IsSpace(s[0]) && st.multiline == Outside
    ensures StepAt(s, pos, st) == Go(1, st)
  {
  }

  lemma {:induction false} BasicEndsAtQuote(s: string, from: nat)
    requires from <= |s| && BasicCloses(s, from)
    ensures from < BasicEnd(s, from) && s[BasicEnd(s, from) - 1] == '"'
    decreases |s| - from
  {
    if s[from] == '\\' { BasicEndsAtQuote(s, from + 2); }
    else if s[from] != '"' { BasicEndsAtQuote(s, from + 1); }
  }

  lemma {:induction false} LiteralEndsAtQuote(s: string, from: nat)
    requires from <= |s| && LiteralCloses(s, from)
    ensures from < LiteralEnd(s, from) && s[LiteralEnd(s, from) - 1] == '\''
    decreases |s| - from
  {
    if s[from] != '\'' { LiteralEndsAtQuote(s, from + 1); }
  }

  lemma StringEndsAtQuote(s: string)
    requires s != "" && IsQuote(s[0]) && StringCloses(s)
    ensures StringEnd(s) >= 2 && s[StringEnd(s) - 1] == s[0]
  {
    if s[0] == '"' { BasicEndsAtQuote(s, 1); } else { LiteralEndsAtQuote(s, 1); }
  }

  /** One white space character more at the end changes at most where the last token stops. */
  lemma StepTrailing(a: string, c: char, pos: nat, st: Walked)
    requires a != "" && IsSpace(c) && st.clean
    ensures var x, y := StepAt(a, pos, st), StepAt(a + [c], pos, st);
      && x.Go? == y.Go?
      && (x == y || (x.Go? && x.n == |a| && y.n == |a| + 1 && !x.st.clean && x.st == y.st.(clean := false)))
      && (x != y ==> !y.st.clean || y.st.multiline == InBasic)
  {
    assert (a + [c])[0] == a[0];
    assert forall q | IsQuote(q) :: Triple(a + [c], q) == Triple(a, q);
    if st.multiline == Outside && IsQuote(a[0]) && !Triple(a, a[0]) {
      if StringCloses(a + [c]) {
        StringEndsAtQuote(a + [c]);
        StringPrefix(a, [c]);
      } else if StringCloses(a) {
        StringPrefix(a, [c]);
      } else {
        Unclosed(a);
        Unclosed(a + [c]);
      }
    }
  }

  predicate SameButClean(r: Walked, q: Walked) {
    r.(clean := true) == q.(clean := true)
  }

  lemma {:induction false} WalkTrailingChar(a: string, c: char, pos: nat, st: Walked)
    requires IsSpace(c) && st.clean
    ensures var r, q := Walk(a + [c], pos, st), Walk(a, pos, st);
      SameButClean(r, q) && (r.clean && r.multiline == Outside ==> q.clean)
    decreases |a|
  {
    hide StepAt;
    if a == "" {
      assert a + [c] == [c];
      LastSpace(c, pos, st);
    } else {
      StepTrailing(a, c, pos, st);
      var x := StepAt(a, pos, st);
      if x.Go? {
        assert (a + [c])[x.n..] == a[x.n..] + [c];
        if x.st.clean {
          WalkTrailingChar(a[x.n..], c, pos + x.n, x.st);
        } else if StepAt(a + [c], pos, st) == x {
          SpaceAfterUnclean(a, c, pos, st);
        }
      }
    }
  }

  lemma LastSpace(c: char, pos: nat, st: Walked)
    requires IsSpace(c)
    ensures Walk([c], pos, st) == st
  {
    assert [c][1..] == "";
  }

  lemma SpaceAfterUnclean(a: string, c: char, pos: nat, st: Walked)
    requires a != "" && IsSpace(c) && st.clean
    requires var x := StepAt(a, pos, st); x.Go? && !x.st.clean
    ensures StepAt(a + [c], pos, st) != StepAt(a, pos, st)
  {
    assert (a + [c])[0] == a[0];
    if st.multiline == Outside && StringCloses(a + [c]) {
      StringEndsAtQuote(a + [c]);
      StringPrefix(a, [c]);
    }
  }

  lemma {:induction false} WalkTrailingSpace(a: string, w: string, pos: nat, st: Walked)
    requires AllSpace(w) && st.clean
    ensures var r, q := Walk(a + w, pos, st), Walk(a, pos, st);
      SameButClean(r, q) && (r.clean && r.multiline == Outside ==> q.clean)
    decreases |w|
  {
    hide Walk;
    if w == "" {
      assert a + w == a;
    } else {
      var front := w[..|w| - 1];
      assert a + w == (a + front) + [w[|w| - 1]];
      WalkTrailingChar(a + front, w[|w| - 1], pos, st);
      WalkTrailingSpace(a, front, pos, st);
    }
  }

  lemma {:induction false} StripBlanksSplit(s: string)
    ensures s == StripBlanks(s) + s[|StripBlanks(s)|..] && AllSpace(s[|StripBlanks(s)|..])
    decreases |s|
  {
    if s != "" && IsBlank(s[|s| - 1]) {
      var front := s[..|s| - 1];
      StripBlanksSplit(front);
      assert s[|StripBlanks(s)|..] == front[|StripBlanks(s)|..] + [s[|s| - 1]];
    }
  }

  // ----- Ends of rewritten texts -----

  lemma {:induction false} NormalizeLast(s: string)
    requires Tidy(s) && s != ""
    ensures var t := NormalizeQuotes(s);
      t != "" && (t[|t| - 1] == s[|s| - 1] || t[|t| - 1] == '"')
    decreases |s|
  {
    hide BasicString;
    NormalizeFirst(s);
    if s[0] == '#' || Triple(s, '"') || Triple(s, '\'') {
    } else if IsQuote(s[0]) {
      TidyToken(s);
      var e := StringEnd(s);
      TokenRewrite(s[..e], s[e..]);
      if s[e..] == "" {
        BasicStringLast(LiteralText(s[..e]));
      } else {
        NormalizeLast(s[e..]);
      }
    } else {
      NormalizePlain(s);
      if s[1..] != "" { NormalizeLast(s[1..]); }
    }
  }

  function LiteralText(a: string): string {
    if a != "" && a[0] == '\'' then LiteralContent(a) else ""
  }

  lemma BasicStringLast(content: string)
    ensures var b := BasicString(content); b != "" && b[|b| - 1] == '"'
  {
  }

  /** A rewritten text needs no trimming where the text needed none. */
  lemma NormalizeTrimmed(s: string)
    requires Tidy(s)
    ensures (s == "" || !IsSpace(s[0])) ==> NormalizeQuotes(s) == "" || !IsSpace(NormalizeQuotes(s)[0])
    ensures (s == "" || !IsSpace(s[|s| - 1])) ==>
      NormalizeQuotes(s) == "" || !IsSpace(NormalizeQuotes(s)[|NormalizeQuotes(s)| - 1])
    ensures (s == "" || !IsBlank(s[|s| - 1])) ==>
      NormalizeQuotes(s) == "" || !IsBlank(NormalizeQuotes(s)[|NormalizeQuotes(s)| - 1])
  {
    if s != "" {
      NormalizeFirst(s);
      NormalizeLast(s);
    }
  }

  /** The rewriter writes no character that was not there, but for quotes and backslashes. */
  lemma {:induction false} NormalizeKeepsOut(s: string, x: char)
    requires Tidy(s) && x !in s && x != '"' && x != '\\'
    ensures x !in NormalizeQuotes(s)
    decreases |s|
  {
    hide BasicString;
    if s == "" || s[0] == '#' || Triple(s, '"') || Triple(s, '\'') {
    } else if IsQuote(s[0]) {
      TidyToken(s);
      var e := StringEnd(s);
      TokenRewrite(s[..e], s[e..]);
      NormalizeKeepsOut(s[e..], x);
      if s[0] == '\'' { BasicStringKeepsOut(LiteralContent(s[..e]), x); }
    } else {
      NormalizePlain(s);
      NormalizeKeepsOut(s[1..], x);
    }
  }

  lemma {:induction false} ReplaceKeepsOut(s: string, c: char, text: string, x: char)
    requires x !in s && x !in text
    ensures x !in ReplaceAll(s, c, text)
  {
    if s != "" { ReplaceKeepsOut(s[1..], c, text, x); }
  }

  lemma BasicStringKeepsOut(content: string, x: char)
    requires x !in content && x != '"' && x != '\\'
    ensures x !in BasicString(content)
  {
    ReplaceKeepsOut(content, '\\', "\\\\", x);
    ReplaceKeepsOut(ReplaceAll(content, '\\', "\\\\"), '"', "\\\"", x);
  }

  // ----- Keys -----

  lemma {:induction false} WalkBare(s: string, pos: nat, st: Walked)
    requires (forall c | c in s :: IsBareChar(c)) && st.multiline == Outside
    ensures Walk(s, pos, st) == st
    decreases |s|
  {
    if s != "" {
      assert IsBareChar(s[0]);
      WalkBare(s[1..], pos + 1, st);
    }
  }

  lemma {:induction false} NormalizeBare(s: string)
    requires forall c | c in s :: IsBareChar(c)
    ensures NormalizeQuotes(s) == s
    decreases |s|
  {
    if s != "" {
      assert IsBareChar(s[0]);
      NormalizePlain(s);
      NormalizeBare(s[1..]);
    }
  }

  /** Trimming keeps a text that scans to nothing one that scans to nothing. */
  lemma WalkTrim(a: string, rule: ClosingRule)
    requires Walk(a, 0, Start(rule)) == Start(rule)
    ensures Walk(Trim(a), 0, Start(rule)) == Start(rule)
  {
    hide *;
    var w1, w2 := TrimParts(a);
    assert a == w1 + (Trim(a) + w2);
    WalkUnpadded(w1, Trim(a), w2, rule);
  }

  lemma WalkUnpadded(w1: string, t: string, w2: string, rule: ClosingRule)
    requires AllSpace(w1) && AllSpace(w2) && Walk(w1 + (t + w2), 0, Start(rule)) == Start(rule)
    ensures Walk(t, 0, Start(rule)) == Start(rule)
  {
    hide Walk, AllSpace;
    var st := Start(rule);
    WalkLeadingSpace(w1, t + w2, 0, st);
    WalkTrailingSpace(t, w2, |w1|, st);
    WalkShift(t, |w1|, st, 0, st);
    EqStable(t, 0, st);
  }

  /** A normalised key scans to nothing and normalises to itself, with or without the space behind it. */
  lemma {:induction false} KeyStable(a: string, rule: ClosingRule)
    requires Walk(a, 0, Start(rule)) == Start(rule) && Tidy(Trim(a))
    ensures var k := NormaliseKey(a);
      && Walk(k, 0, Start(rule)) == Start(rule)
      && NormaliseKey(k + " ") == k
      && (Trim(a) == "" ==> k == "")
      && (Trim(a) != "" ==> k != "" && !IsSpace(k[0]) && (Trim(a)[0] != '#' ==> k[0] != '#'))
  {
    hide Walk, StepAt, Tidy, NormalizeQuotes, Trim, Unquoted, IsSpace, IsBare;
    var t, k := Trim(a), NormaliseKey(a);
    var y := NormalizeQuotes(t);
    var st := Start(rule);
    WalkTrim(a, rule);
    NormalizeCommutes(t, 0, st, 0, st);
    EqStable(y, 0, st);
    NormalizeTrimmed(t);
    NormalizeIdempotent(t);
    NormalizeNothing();
    if t != "" { NormalizeFirst(t); }
    UnquotedCases(y);
    if k == y {
      TrimWithSpace(y);
    } else {
      BareTrimmed(k);
      WalkBareKey(k, rule);
      UnquotedCases(k);
      TrimWithSpace(k);
    }
  }

  lemma NormalizeNothing()
    ensures NormalizeQuotes("") == ""
  {
  }

  lemma UnquotedCases(y: string)
    ensures Unquoted(y) == y || IsBare(Unquoted(y))
    ensures IsBare(y) || y == "" ==> Unquoted(y) == y
  {
    if IsBare(y) {
      assert y[0] in y;
    }
  }

  lemma WalkBareKey(k: string, rule: ClosingRule)
    requires IsBare(k)
    ensures Walk(k, 0, Start(rule)) == Start(rule) && NormalizeQuotes(k) == k
  {
    hide Walk, NormalizeQuotes;
    WalkBare(k, 0, Start(rule));
    NormalizeBare(k);
  }

  lemma BareTrimmed(k: string)
    requires IsBare(k)
    ensures k != "" && !IsSpace(k[0]) && !IsSpace(k[|k| - 1]) && k[0] != '"' && k[0] != '#'
  {
    assert k[0] in k && k[|k| - 1] in k;
  }

  lemma TrimWithSpace(k: string)
    requires k == "" || (!IsSpace(k[0]) && !IsSpace(k[|k| - 1]))
    ensures Trim(k + " ") == k
  {
    assert (k + " ")[..|k|] == k;
    if k == "" {
      assert k + " " == " " && " "[1..] == "";
      assert TrimStart(" ") == TrimStart("") == "";
    } else {
      assert TrimStart(k + " ") == k + " ";
      assert TrimEnd(k) == k;
      assert (k + " ")[|k|] == ' ';
    }
  }

  // ----- First lines -----

  /** The line assembled from a key, a value and a comment part. */
  function Assembled(k: string, v: string, comment: string): string {
    k + " = " + v + comment
  }

  ghost function AfterEq(k: string, rule: ClosingRule): Walked {
    Start(rule).(eq := |k| + 1)
  }

  lemma SeparatorWalk(x: string, pos: nat, rule: ClosingRule)
    ensures Walk(" = " + x, pos, Start(rule)) == Walk(x, pos + 3, Start(rule).(eq := pos + 1))
  {
    hide StepAt;
    var st, s1, s2 := Start(rule), "= " + x, " " + x;
    assert (" = " + x)[1..] == s1 && s1[1..] == s2 && s2[1..] == x;
    SpaceStep(" = " + x, pos, st);
    EqualsStep(s1, pos + 1, rule);
    SpaceStep(s2, pos + 2, st.(eq := pos + 1));
    assert Walk(s1, pos + 1, st) == Walk(s2, pos + 2, st.(eq := pos + 1));
  }

  lemma EqualsStep(s: string, pos: nat, rule: ClosingRule)
    requires s != "" && s[0] == '='
    ensures StepAt(s, pos, Start(rule)) == Go(1, Start(rule).(eq := pos))
  {
  }

  lemma {:induction false} AssembledWalk(k: string, v: string, comment: string, rule: ClosingRule)
    requires Walk(k, 0, Start(rule)) == Start(rule)
    ensures Walk(Assembled(k, v, comment), 0, Start(rule)) == Walk(v + comment, |k| + 3, AfterEq(k, rule))
  {
    hide Walk;
    assert Assembled(k, v, comment) == k + (" = " + (v + comment));
    WalkAppend(k, " = " + (v + comment), 0, Start(rule));
    SeparatorWalk(v + comment, |k|, rule);
  }

  lemma StartsTrimmed(v: string, w: string)
    requires v == "" || !IsSpace(v[0])
    requires AllSpace(w)
    ensures TrimStart(" " + v + w) == if v == "" then "" else v + w
  {
    assert (" " + v + w)[1..] == v + w;
    if v == "" {
      assert v + w == w;
      TrimStartOfSpace(w);
    }
  }

  lemma TrimStartOfSpace(w: string)
    requires AllSpace(w)
    ensures TrimStart(w) == ""
  {
  }

  lemma StripFixed(v: string)
    requires (v == "" || !IsBlank(v[|v| - 1])) && '\r' !in v
    ensures RstripWs(v) == v && RstripWs(v + " ") == v
  {
    assert (v + " ")[..|v|] == v;
  }

  lemma StripIdempotent(s: string)
    requires '\r' !in s
    ensures var r := RstripWs(s); RstripWs(r) == r && '\r' !in r && r <= s && (r == "" || !IsBlank(r[|r| - 1]))
  {
    StripFixed(StripBlanks(s));
  }

  /** The shape the formatter gives a first line, and everything it re-reads from one. */
  lemma {:induction false} PlainLineStable(k: string, v: string, open: bool)
    requires Walk(k, 0, FRESH) == FRESH && NormaliseKey(k + " ") == k
    requires (v == "" || !IsSpace(v[0])) && NormalizeQuotes(v) == v && '\r' !in v
    requires open || v == "" || !IsBlank(v[|v| - 1])
    requires var r := Walk(v, |k| + 3, AfterEq(k, Three)); r.comment < 0 && open == (r.multiline != Outside)
    ensures var l := Assembled(k, v, ""); var t := ScanLine(l, 0, Outside);
      && t == Walk(v, |k| + 3, AfterEq(k, Three)) && t.eq == |k| + 1
      && NormaliseKey(l[..t.eq]) == k
      && NormaliseFirstLine(l, t.eq, t.comment, open) == l
  {
    hide Walk, StepAt, NormaliseKey;
    var l := Assembled(k, v, "");
    AssembledWalk(k, v, "", Three);
    assert v + "" == v;
    EqStable(v, |k| + 3, AfterEq(k, Three));
    assert l[..|k| + 1] == k + " " && l[|k| + 2..] == " " + v + "";
    StartsTrimmed(v, "");
    assert v + "" == v;
    if !open { StripFixed(v); }
  }

  lemma CommentStep(c: string, pos: nat, st: Walked)
    requires c != "" && c[0] == '#' && st.multiline == Outside && st.depth == 0
    ensures Walk(" " + c, pos, st) == st.(comment := pos + 1, clean := false)
  {
    assert (" " + c)[1..] == c;
  }

  lemma {:induction false} CommentLineScan(k: string, v: string, c: string, rule: ClosingRule)
    requires Walk(k, 0, Start(rule)) == Start(rule) && Walk(v, |k| + 3, AfterEq(k, rule)) == AfterEq(k, rule)
    requires c != "" && c[0] == '#'
    ensures Walk(Assembled(k, v, " " + c), 0, Start(rule))
         == AfterEq(k, rule).(comment := |k| + 4 + |v|, clean := false)
  {
    hide Walk, Assembled;
    AssembledWalk(k, v, " " + c, rule);
    WalkAppend(v, " " + c, |k| + 3, AfterEq(k, rule));
    CommentStep(c, |k| + 3 + |v|, AfterEq(k, rule));
  }

  lemma {:induction false} CommentLineText(k: string, v: string, c: string)
    requires NormaliseKey(k + " ") == k
    requires (v == "" || !IsSpace(v[0])) && NormalizeQuotes(v) == v && '\r' !in v
    requires v == "" || !IsBlank(v[|v| - 1])
    requires c != "" && RstripWs(c) == c
    ensures var l := Assembled(k, v, " " + c); var at := |k| + 4 + |v|;
      at < |l| && NormaliseKey(l[..|k| + 1]) == k && NormaliseFirstLine(l, |k| + 1, at, false) == l
  {
    hide NormaliseKey, NormalizeQuotes, RstripWs, TrimStart, IsSpace;
    var l, at := Assembled(k, v, " " + c), |k| + 4 + |v|;
    assert l[..|k| + 1] == k + " ";
    assert l[|k| + 2..at] == " " + v + " ";
    assert l[at..] == c;
    assert AllSpace(" ") by { SpaceIsSpace(); }
    StartsTrimmed(v, " ");
    StripFixed(v);
    StripFixed("");
    assert ValueText(l, |k| + 1, at, false) == v;
  }

  lemma SpaceIsSpace()
    ensures IsSpace(' ')
  {
  }

  lemma CommentLineStable(k: string, v: string, c: string)
    requires Walk(k, 0, FRESH) == FRESH && NormaliseKey(k + " ") == k
    requires (v == "" || !IsSpace(v[0])) && NormalizeQuotes(v) == v && '\r' !in v
    requires v == "" || !IsBlank(v[|v| - 1])
    requires Walk(v, |k| + 3, AfterEq(k, Three)) == AfterEq(k, Three)
    requires c != "" && c[0] == '#' && RstripWs(c) == c
    ensures var l := Assembled(k, v, " " + c); var t := ScanLine(l, 0, Outside);
      && t.depth == 0 && t.multiline == Outside && t.eq == |k| + 1 && t.comment == |k| + 4 + |v| < |l|
      && NormaliseKey(l[..t.eq]) == k
      && NormaliseFirstLine(l, t.eq, t.comment, false) == l
  {
    hide Walk, NormaliseKey, NormalizeQuotes, NormaliseFirstLine, Assembled;
    CommentLineScan(k, v, c, Three);
    CommentLineText(k, v, c);
  }

  // ----- From a source line to its rewritten form -----

  /** The separator that a scan by either rule finds. */
  lemma SeparatorAt(raw: string, rule: ClosingRule)
    requires Walk(raw, 0, Start(rule)).eq >= 0
    ensures var s := Walk(raw, 0, Start(rule));
      && s.eq < |raw| && raw[s.eq] == '='
      && Walk(raw[..s.eq], 0, Start(rule)) == Start(rule)
      && s == Walk(raw[s.eq + 1..], s.eq + 1, Start(rule).(eq := s.eq))
  {
    hide Walk, StepAt;
    var st := Start(rule);
    var k := Walk(raw, 0, st).eq;
    CutAtEq(raw, 0, st);
    assert raw == raw[..k] + raw[k..];
    WalkAppend(raw[..k], raw[k..], 0, st);
    EqualsWalk(raw[k..], k, rule);
    assert raw[k..][1..] == raw[k + 1..];
  }

  lemma AfterSeparator(raw: string)
    requires ScanLine(raw, 0, Outside).eq >= 0
    ensures var s := ScanLine(raw, 0, Outside);
      && s.eq < |raw| && raw[s.eq] == '='
      && Walk(raw[..s.eq], 0, FRESH) == FRESH
      && s == Walk(raw[s.eq + 1..], s.eq + 1, FRESH.(eq := s.eq))
  {
    hide Walk;
    SeparatorAt(raw, Three);
  }

  lemma EqualsWalk(s: string, pos: nat, rule: ClosingRule)
    requires s != "" && s[0] == '='
    ensures Walk(s, pos, Start(rule)) == Walk(s[1..], pos + 1, Start(rule).(eq := pos))
  {
    hide StepAt;
    EqualsStep(s, pos, rule);
  }

  lemma {:induction false} TrimmedStart(tail: string)
    requires '\r' !in tail
    ensures var h := TrimStart(tail);
      |h| <= |tail| && tail == tail[..|tail| - |h|] + h && AllSpace(tail[..|tail| - |h|]) && '\r' !in h
  {
    hide AllSpace, IsSpace, TrimStart;
    var h := TrimStart(tail);
    TrimStartShape(tail);
    CutIn(tail, |tail| - |h|);
  }

  lemma {:induction false} StripsBlanksOnly(h: string)
    requires '\r' !in h
    ensures RstripWs(h) == StripBlanks(h)
  {
  }

  lemma SameAsItself(r: Walked)
    ensures SameButClean(r, r)
  {
  }

  /** Layout around a value (leading space, trailing blanks) does not change how it scans. */
  lemma {:induction false} ValueLayout(tail: string, open: bool, pos: nat, st: Walked) returns (at: nat)
    requires '\r' !in tail && st.clean && st.multiline == Outside
    ensures var x := if open then TrimStart(tail) else RstripWs(TrimStart(tail));
      var r, q := Walk(tail, pos, st), Walk(x, at, st);
      && SameButClean(r, q)
      && (r.clean && r.multiline == Outside ==> q.clean)
      && '\r' !in x && (x == "" || !IsSpace(x[0])) && (open || x == "" || !IsBlank(x[|x| - 1]))
  {
    hide Walk, IsSpace, AllSpace, TrimStart, RstripWs, StripBlanks, SameButClean;
    var h := TrimStart(tail);
    TrimmedStart(tail);
    var w := tail[..|tail| - |h|];
    WalkLeadingSpace(w, h, pos, st);
    at := pos + |w|;
    if !open {
      StripBlanksSplit(h);
      StripIdempotent(h);
      StripsBlanksOnly(h);
      WalkTrailingSpace(StripBlanks(h), h[|StripBlanks(h)|..], at, st);
    } else {
      SameAsItself(Walk(h, at, st));
    }
  }

  /** The rewritten value scans like the tail of the line it came from. */
  lemma ValueScan(tail: string, open: bool, pos: nat, st: Walked, pos2: nat, st2: Walked)
    requires '\r' !in tail && st.clean && st.multiline == Outside && st.comment == st2.comment == -1
    requires st.eq >= 0 && st2 == st.(eq := st2.eq) && st2.eq >= 0
    requires Tidy(if open then TrimStart(tail) else RstripWs(TrimStart(tail)))
    ensures var v := NormalizeQuotes(if open then TrimStart(tail) else RstripWs(TrimStart(tail)));
      var r, q := Walk(tail, pos, st), Walk(v, pos2, st2);
      && q.depth == r.depth && q.multiline == r.multiline && q.eq == st2.eq && q.closing == st2.closing
      && (r.comment < 0 ==> q.comment == -1)
      && (r.clean && r.multiline == Outside ==> q.clean)
      && NormalizeQuotes(v) == v && '\r' !in v
      && (v == "" || !IsSpace(v[0])) && (open || v == "" || !IsBlank(v[|v| - 1]))
  {
    hide Walk, IsSpace, Tidy, NormalizeQuotes;
    var x := if open then TrimStart(tail) else RstripWs(TrimStart(tail));
    var at := ValueLayout(tail, open, pos, st);
    NormalizeCommutes(x, at, st, pos2, st2);
    EqStable(x, at, st);
    EqStable(NormalizeQuotes(x), pos2, st2);
    NormalizeIdempotent(x);
    NormalizeTrimmed(x);
    NormalizeKeepsOut(x, '\r');
  }

  ghost predicate TidyFirstLine(raw: string) {
    var s := ScanLine(raw, 0, Outside);
    ScanColumns(raw);
    s.eq >= 0 && Tidy(Trim(raw[..s.eq])) && Tidy(ValueText(raw, s.eq, s.comment, s.multiline != Outside))
  }

  function FirstLine(raw: string): string
    requires ScanLine(raw, 0, Outside).eq >= 0
  {
    var s := ScanLine(raw, 0, Outside);
    ScanColumns(raw);
    NormaliseFirstLine(raw, s.eq, s.comment, s.multiline != Outside)
  }

  function KeyOf(raw: string): string
    requires ScanLine(raw, 0, Outside).eq >= 0
  {
    var s := ScanLine(raw, 0, Outside);
    ScanColumns(raw);
    NormaliseKey(raw[..s.eq])
  }

  ghost predicate FirstLineSame(raw: string, l: string)
    requires ScanLine(raw, 0, Outside).eq >= 0
  {
    var s, t := ScanLine(raw, 0, Outside), ScanLine(l, 0, Outside);
    && t.eq >= 0 && t.depth == s.depth && t.multiline == s.multiline
    && KeyOf(l) == KeyOf(raw) && FirstLine(l) == l
  }

  lemma FirstLineShape(raw: string)
    requires ScanLine(raw, 0, Outside).eq >= 0
    ensures var s := ScanLine(raw, 0, Outside);
      (ScanColumns(raw);
       FirstLine(raw) == Assembled(KeyOf(raw),
                                   NormalizeQuotes(ValueText(raw, s.eq, s.comment, s.multiline != Outside)),
                                   if s.comment >= 0 then " " + RstripWs(raw[s.comment..]) else ""))
  {
    hide Walk, NormaliseKey, NormalizeQuotes, RstripWs, ValueText;
  }

  ghost predicate KeyPart(k: string) {
    Walk(k, 0, FRESH) == FRESH && NormaliseKey(k + " ") == k
  }

  ghost predicate ValuePart(v: string, open: bool) {
    && NormalizeQuotes(v) == v && '\r' !in v
    && (v == "" || !IsSpace(v[0])) && (open || v == "" || !IsBlank(v[|v| - 1]))
  }

  lemma KeyOfTidy(raw: string)
    requires TidyFirstLine(raw)
    ensures KeyPart(KeyOf(raw))
  {
    hide Walk, NormaliseKey, NormalizeQuotes, Tidy;
    AfterSeparator(raw);
    KeyStable(raw[..ScanLine(raw, 0, Outside).eq], Three);
  }

  lemma PlainValue(raw: string) returns (v: string)
    requires TidyFirstLine(raw) && '\r' !in raw && ScanLine(raw, 0, Outside).comment < 0
    ensures FirstLine(raw) == Assembled(KeyOf(raw), v, "")
    ensures var s := ScanLine(raw, 0, Outside);
      var q := Walk(v, |KeyOf(raw)| + 3, AfterEq(KeyOf(raw), Three));
      && ValuePart(v, s.multiline != Outside)
      && q.depth == s.depth && q.multiline == s.multiline && q.comment < 0
  {
    hide Walk, NormaliseKey, NormalizeQuotes, Tidy, NormaliseFirstLine, IsSpace, KeyOf, RstripWs, TrimStart, Assembled, IsBlank, FirstLine;
    var s := ScanLine(raw, 0, Outside);
    AfterSeparator(raw);
    ScanColumns(raw);
    var open, k, tail := s.multiline != Outside, KeyOf(raw), raw[s.eq + 1..];
    v := NormalizeQuotes(ValueText(raw, s.eq, s.comment, open));
    FirstLineShape(raw);
    ValueScan(tail, open, s.eq + 1, FRESH.(eq := s.eq), |k| + 3, AfterEq(k, Three));
  }

  lemma PlainFirstLine(raw: string)
    requires TidyFirstLine(raw) && '\r' !in raw && ScanLine(raw, 0, Outside).comment < 0
    ensures FirstLineSame(raw, FirstLine(raw))
  {
    hide Walk, NormaliseKey, NormalizeQuotes, Tidy, NormaliseFirstLine, IsSpace, Assembled;
    KeyOfTidy(raw);
    var v := PlainValue(raw);
    PlainLineStable(KeyOf(raw), v, ScanLine(raw, 0, Outside).multiline != Outside);
  }

  lemma {:induction false} CommentedValue(raw: string) returns (v: string, c: string)
    requires TidyFirstLine(raw) && '\r' !in raw && ScanLine(raw, 0, Outside).comment >= 0
    ensures FirstLine(raw) == Assembled(KeyOf(raw), v, " " + c)
    ensures ValuePart(v, false) && c != "" && c[0] == '#' && RstripWs(c) == c
    ensures Walk(v, |KeyOf(raw)| + 3, AfterEq(KeyOf(raw), Three)) == AfterEq(KeyOf(raw), Three)
    ensures ScanLine(raw, 0, Outside).depth == 0 && ScanLine(raw, 0, Outside).multiline == Outside
  {
    hide Walk, NormaliseKey, NormalizeQuotes, Tidy, NormaliseFirstLine, IsSpace, RstripWs, KeyOf;
    var s := ScanLine(raw, 0, Outside);
    var e, k := FRESH.(eq := s.eq), KeyOf(raw);
    AfterSeparator(raw);
    CutAtComment(raw[s.eq + 1..], s.eq + 1, e);
    EqStable(raw[s.eq + 1..], s.eq + 1, e);
    ScanColumns(raw);
    var tail := raw[s.eq + 1..s.comment];
    assert raw[s.eq + 1..][..s.comment - s.eq - 1] == tail;
    CommentEndsScan(raw[s.eq + 1..], s.eq + 1, e);
    ValueScan(tail, false, s.eq + 1, e, |k| + 3, AfterEq(k, Three));
    v, c := NormalizeQuotes(RstripWs(TrimStart(tail))), RstripWs(raw[s.comment..]);
    CommentText(raw[s.comment..]);
    FirstLineShape(raw);
  }

  lemma CommentedFirstLine(raw: string)
    requires TidyFirstLine(raw) && '\r' !in raw && ScanLine(raw, 0, Outside).comment >= 0
    ensures FirstLineSame(raw, FirstLine(raw))
  {
    hide Walk, NormaliseKey, NormalizeQuotes, Tidy, NormaliseFirstLine, IsSpace, Assembled, RstripWs, FirstLine, KeyOf, ScanLine, FirstLineSame, NoQuoteFirst, IsBlank;
    KeyOfTidy(raw);
    var v, c := CommentedValue(raw);
    CommentLineStable(KeyOf(raw), v, c);
    SameFromParts(raw, FirstLine(raw));
  }

  lemma SameFromParts(raw: string, l: string)
    requires ScanLine(raw, 0, Outside).eq >= 0
    requires var s, t := ScanLine(raw, 0, Outside), ScanLine(l, 0, Outside);
      && 0 <= t.eq < |l| && t.comment < |l| && (t.comment >= 0 ==> t.eq < t.comment)
      && t.depth == s.depth && t.multiline == s.multiline
      && NormaliseKey(l[..t.eq]) == KeyOf(raw)
      && NormaliseFirstLine(l, t.eq, t.comment, t.multiline != Outside) == l
    ensures FirstLineSame(raw, l)
  {
    hide Walk, NormaliseKey, NormaliseFirstLine;
  }

  lemma CommentText(c: string)
    requires c != "" && c[0] == '#' && '\r' !in c
    ensures var t := RstripWs(c); t != "" && t[0] == '#' && RstripWs(t) == t
  {
    StripIdempotent(c);
    HashStays(c);
  }

  lemma {:induction false} HashStays(c: string)
    requires c != "" && c[0] == '#'
    ensures StripBlanks(c) != ""
    decreases |c|
  {
    if IsBlank(c[|c| - 1]) { HashStays(c[..|c| - 1]); }
  }

  /** A comment is only reported at depth 0 outside strings, where scanning stops. */
  lemma {:induction false} CommentEndsScan(s: string, pos: nat, st: Walked)
    requires st.clean && st.comment < 0 && Walk(s, pos, st).comment >= 0
    ensures Walk(s, pos, st).depth == 0 && Walk(s, pos, st).multiline == Outside
    decreases |s|
  {
    hide StepAt;
    StepColumns(s, pos, st);
    StopKeeps(s, pos, st);
    var step := StepAt(s, pos, st);
    if step.Go? {
      if step.st.clean { CommentEndsScan(s[step.n..], pos + step.n, step.st); }
    }
  }

  lemma StopKeeps(s: string, pos: nat, st: Walked)
    requires s != ""
    ensures var step := StepAt(s, pos, st);
      step.Stop? ==> step.st == st.(comment := step.st.comment, clean := false)
  {
  }

  /** The rewritten first line of a construct is a fixed point that opens the same value. */
  lemma FirstLineStable(raw: string)
    requires TidyFirstLine(raw) && '\r' !in raw
    ensures FirstLineSame(raw, FirstLine(raw))
  {
    hide *;
    if ScanLine(raw, 0, Outside).comment < 0 { PlainFirstLine(raw); } else { CommentedFirstLine(raw); }
  }

  lemma TrimKeepsOut(s: string, x: char)
    requires x !in s
    ensures x !in Trim(s) && x !in TrimStart(s)
  {
    var t := TrimStart(s);
    TrimStartShape(s);
    TrimEndShape(t);
    assert forall c | c in t :: c in s;
    assert forall c | c in TrimEnd(t) :: c in t;
  }

  lemma {:induction false} StripKeepsOut(s: string, x: char)
    requires x !in s
    ensures x !in RstripWs(s)
  {
    if s != "" && s[|s| - 1] == '\r' { assert s[|s| - 1] in s; }
  }

  lemma KeyKeepsOut(a: string, x: char)
    requires Tidy(Trim(a)) && x !in a && x != '"' && x != '\\'
    ensures x !in NormaliseKey(a)
  {
    hide Tidy, Trim, NormalizeQuotes;
    TrimKeepsOut(a, x);
    NormalizeKeepsOut(Trim(a), x);
    var y := NormalizeQuotes(Trim(a));
    if |y| >= 2 { SliceKeepsOut(y, 1, |y| - 1, x); }
    hide IsBare;
  }

  lemma SliceKeepsOut(s: string, i: nat, j: nat, x: char)
    requires i <= j <= |s| && x !in s
    ensures x !in s[i..j]
  {
  }

  lemma ValueKeepsOut(raw: string, eq: nat, comment: int, open: bool, x: char)
    requires eq < |raw| && comment < |raw| && (comment >= 0 ==> eq < comment)
    requires x !in raw
    ensures x !in ValueText(raw, eq, comment, open)
  {
    hide RstripWs, TrimStart;
    var tail := if comment >= 0 then raw[eq + 1..comment] else raw[eq + 1..];
    TrimKeepsOut(tail, x);
    StripKeepsOut(TrimStart(tail), x);
  }

  lemma FirstLineKeepsOut(raw: string, x: char)
    requires TidyFirstLine(raw) && x !in raw && x != '"' && x != '\\' && x != ' ' && x != '='
    ensures x !in FirstLine(raw)
  {
    hide Walk, Tidy, NormalizeQuotes, NormaliseKey, RstripWs, ValueText, Trim;
    var s := ScanLine(raw, 0, Outside);
    ScanColumns(raw);
    FirstLineShape(raw);
    KeyKeepsOut(raw[..s.eq], x);
    ValueKeepsOut(raw, s.eq, s.comment, s.multiline != Outside, x);
    NormalizeKeepsOut(ValueText(raw, s.eq, s.comment, s.multiline != Outside), x);
    if s.comment >= 0 { StripKeepsOut(raw[s.comment..], x); }
  }
}
