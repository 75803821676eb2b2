/**
 Where the scanner and TOML v1.0.0 agree on the end of a construct. They part only at a
 multi-line string that ends in a quote of its own; lines on which they agree are rewritten
 to lines on which they agree.
 */
module FormatAgree {
  import opened JsText
  import opened Wrappers
  import opened FormatScan
  import opened FormatDoc
  import opened FormatLines
  import opened FormatRescan

  /** The walk over a line by TOML's rule for closing quotes. */
  function TomlLine(line: string, depth: nat, multiline: Multiline): Walked {
    Walk(line, 0, TOML.(depth := depth, multiline := multiline))
  }

  lemma TomlColumns(line: string)
    ensures TomlLine(line, 0, Outside).eq < |line|
  {
    hide Walk;
    EqStable(line, 0, TOML);
  }

  lemma SeparatorColumn(line: string)
    requires TomlLine(line, 0, Outside).eq >= 0
    ensures var eq := TomlLine(line, 0, Outside).eq; eq < |line| && line[eq] == '='
  {
    hide Walk;
    SeparatorAt(line, UpToFive);
  }

  /** The separator is found by the text up to it. */
  lemma SeparatorKept(l: string, more: string, eq: nat)
    requires TomlLine(l, 0, Outside).eq == eq && eq < |l| && eq < |more| && more[..eq + 1] == l[..eq + 1]
    ensures TomlLine(more, 0, Outside).eq == eq
  {
    hide Walk;
    SeparatorAt(l, UpToFive);
    assert more[..eq] == more[..eq + 1][..eq] == l[..eq] && more[eq] == more[..eq + 1][eq] == l[eq];
    assert more == more[..eq] + more[eq..];
    WalkAppend(more[..eq], more[eq..], 0, TOML);
    EqualsWalk(more[eq..], eq, UpToFive);
    EqStable(more[eq..][1..], eq + 1, TOML.(eq := eq));
  }

  lemma {:induction false} ClosesAt(l: string, from: nat, end: nat)
    requires from <= end < |l| && l[end] == '"' && forall j | from <= j < end :: l[j] != '"' && l[j] != '\\'
    ensures BasicCloses(l, from) && BasicEnd(l, from) == end + 1
    decreases end - from
  {
    if from < end {
      ClosesAt(l, from + 1, end);
    }
  }

  /** A line that starts with a plain quoted key and a separator. */
  lemma BehindQuotedKey(l: string, end: nat)
    requires 1 < end && end + 1 < |l| && l[0] == '"' && l[end] == '"' && l[end + 1] == '='
    requires forall j | 1 <= j < end :: l[j] != '"' && l[j] != '\\'
    ensures TomlLine(l, 0, Outside).eq == end + 1
  {
    hide Walk;
    ClosesAt(l, 1, end);
    assert StepAt(l, 0, TOML) == Go(end + 1, TOML);
    WalkGo(l, 0, TOML, end + 1, TOML);
    EqualsWalk(l[end + 1..], end + 1, UpToFive);
    EqStable(l[end + 1..][1..], end + 2, TOML.(eq := end + 1));
  }

  /** How many of the lines behind its first a construct takes, by TOML's rule; `None` if it does not end. */
  function Extent(rest: seq<string>, depth: nat, multiline: Multiline): (n: Option<nat>)
    ensures n.Some? ==> n.value <= |rest|
  {
    if depth == 0 && multiline == Outside then Some(0)
    else if rest == [] then None
    else
      var after := TomlLine(rest[0], depth, multiline);
      match Extent(rest[1..], after.depth, after.multiline)
      case None => None
      case Some(n) => Some(n + 1)
  }

  // ----- Agreement -----

  /** Both walks leave a line at the same depth and in the same kind of string. */
  predicate SameState(a: Walked, b: Walked) {
    a.depth == b.depth && a.multiline == b.multiline
  }

  /**
   On the first line they find the same separator, too, and a comment that the scanner finds is
   TOML's: the rewriting moves it.
   */
  predicate FirstAgrees(raw: string) {
    var s, t := ScanLine(raw, 0, Outside), TomlLine(raw, 0, Outside);
    SameState(s, t) && s.eq == t.eq && (s.comment < 0 || s.comment == t.comment)
  }

  predicate RestAgrees(rest: seq<string>, depth: nat, multiline: Multiline) {
    (depth == 0 && multiline == Outside) || rest == []
    || var after := ScanLine(rest[0], depth, multiline);
       SameState(after, TomlLine(rest[0], depth, multiline)) && RestAgrees(rest[1..], after.depth, after.multiline)
  }

  predicate ConstructAgrees(lines: seq<string>)
    requires lines != []
  {
    var scan := ScanLine(lines[0], 0, Outside);
    FirstAgrees(lines[0]) && RestAgrees(lines[1..], scan.depth, scan.multiline)
  }

  /** The scanner ends a construct where TOML does, when each line leaves both in the same state. */
  lemma {:induction false} ExtentAgrees(rest: seq<string>, depth: nat, multiline: Multiline)
    requires RestAgrees(rest, depth, multiline)
    ensures match Continue(rest, depth, multiline)
      case None => Extent(rest, depth, multiline) == None
      case Some(lines) => Extent(rest, depth, multiline) == Some(|lines|)
  {
    hide ScanLine, TomlLine, NormaliseContinuation;
    if !(depth == 0 && multiline == Outside) && rest != [] {
      var after := ScanLine(rest[0], depth, multiline);
      ExtentAgrees(rest[1..], after.depth, after.multiline);
    }
  }

  // ----- Rewritten lines -----

  /** How a scan by either rule leaves a rewritten first line, when it agrees with the scanner on the line itself. */
  lemma RewrittenScan(raw: string, rule: ClosingRule)
    requires TidyFirstLine(raw) && '\r' !in raw
    requires var s, t := ScanLine(raw, 0, Outside), Walk(raw, 0, Start(rule));
      SameState(s, t) && s.eq == t.eq && (s.comment < 0 || s.comment == t.comment)
    ensures var s, t, r := ScanLine(raw, 0, Outside), Walk(raw, 0, Start(rule)), Walk(FirstLine(raw), 0, Start(rule));
      && Walk(KeyOf(raw), 0, Start(rule)) == Start(rule)
      && SameState(r, t) && r.eq == |KeyOf(raw)| + 1
      && (t.comment < 0 ==> r.comment < 0)
      && (ScanColumns(raw);
          s.comment >= 0 ==> r.comment == |KeyOf(raw)| + 4 + |NormalizeQuotes(ValueText(raw, s.eq, s.comment, false))|)
  {
    hide Walk, NormaliseKey, NormalizeQuotes, Tidy, NormaliseFirstLine, IsSpace, RstripWs, TrimStart, KeyOf, FirstLine, Assembled;
    var s := ScanLine(raw, 0, Outside);
    SeparatorAt(raw, rule);
    ScanColumns(raw);
    KeyOfRaw(raw);
    KeyStable(raw[..s.eq], rule);
    FirstLineShape(raw);
    if s.comment < 0 {
      PlainScan(raw, rule);
    } else {
      CommentedScan(raw, rule);
    }
  }

  lemma KeyOfRaw(raw: string)
    requires ScanLine(raw, 0, Outside).eq >= 0
    ensures ScanLine(raw, 0, Outside).eq < |raw| && KeyOf(raw) == NormaliseKey(raw[..ScanLine(raw, 0, Outside).eq])
  {
    hide Walk, NormaliseKey;
    ScanColumns(raw);
  }

  lemma PlainScan(raw: string, rule: ClosingRule)
    requires TidyFirstLine(raw) && '\r' !in raw && ScanLine(raw, 0, Outside).comment < 0
    requires var s, t := ScanLine(raw, 0, Outside), Walk(raw, 0, Start(rule)); SameState(s, t) && s.eq == t.eq
    requires Walk(KeyOf(raw), 0, Start(rule)) == Start(rule)
    ensures var t, r := Walk(raw, 0, Start(rule)), Walk(FirstLine(raw), 0, Start(rule));
      SameState(r, t) && r.eq == |KeyOf(raw)| + 1 && (t.comment < 0 ==> r.comment < 0)
  {
    hide Walk, NormaliseKey, NormalizeQuotes, Tidy, NormaliseFirstLine, IsSpace, RstripWs, TrimStart, KeyOf, FirstLine, Assembled;
    var s := ScanLine(raw, 0, Outside);
    SeparatorAt(raw, rule);
    ScanColumns(raw);
    var open, k, tail := s.multiline != Outside, KeyOf(raw), raw[s.eq + 1..];
    FirstLineShape(raw);
    var v := NormalizeQuotes(ValueText(raw, s.eq, s.comment, open));
    ValueScan(tail, open, s.eq + 1, Start(rule).(eq := s.eq), |k| + 3, AfterEq(k, rule));
    AssembledWalk(k, v, "", rule);
    assert v + "" == v;
  }

  lemma CommentedScan(raw: string, rule: ClosingRule)
    requires TidyFirstLine(raw) && '\r' !in raw && ScanLine(raw, 0, Outside).comment >= 0
    requires var s, t := ScanLine(raw, 0, Outside), Walk(raw, 0, Start(rule)); SameState(s, t) && s.eq == t.eq && s.comment == t.comment
    requires Walk(KeyOf(raw), 0, Start(rule)) == Start(rule)
    ensures var s, t, r := ScanLine(raw, 0, Outside), Walk(raw, 0, Start(rule)), Walk(FirstLine(raw), 0, Start(rule));
      && SameState(r, t) && r.eq == |KeyOf(raw)| + 1
      && (ScanColumns(raw);
          r.comment == |KeyOf(raw)| + 4 + |NormalizeQuotes(ValueText(raw, s.eq, s.comment, false))|)
  {
    hide Walk, NormaliseKey, NormalizeQuotes, Tidy, NormaliseFirstLine, IsSpace, RstripWs, TrimStart, KeyOf, FirstLine, Assembled;
    var s := ScanLine(raw, 0, Outside);
    ScanColumns(raw);
    var e, k := Start(rule).(eq := s.eq), KeyOf(raw);
    CutComment(raw, rule);
    var tail := raw[s.eq + 1..s.comment];
    var v, c := NormalizeQuotes(ValueText(raw, s.eq, s.comment, false)), RstripWs(raw[s.comment..]);
    ValueScan(tail, false, s.eq + 1, e, |k| + 3, AfterEq(k, rule));
    CommentText(raw[s.comment..]);
    FirstLineShape(raw);
    CommentLineScan(k, v, c, rule);
  }

  /** The tail in front of the comment ends between tokens, outside strings, at depth 0. */
  lemma CutComment(raw: string, rule: ClosingRule)
    requires var t := Walk(raw, 0, Start(rule)); t.eq >= 0 && t.comment >= 0
    ensures var t := Walk(raw, 0, Start(rule)); var e := Start(rule).(eq := t.eq);
      && t.eq < t.comment < |raw| && raw[t.comment] == '#' && t.depth == 0 && t.multiline == Outside
      && Walk(raw[t.eq + 1..t.comment], t.eq + 1, e) == e
      && raw[t.eq + 1..] == raw[t.eq + 1..t.comment] + raw[t.comment..]
  {
    hide Walk;
    var t := Walk(raw, 0, Start(rule));
    var e := Start(rule).(eq := t.eq);
    SeparatorAt(raw, rule);
    var tail := raw[t.eq + 1..];
    EqStable(tail, t.eq + 1, e);
    CutAtComment(tail, t.eq + 1, e);
    CommentEndsScan(tail, t.eq + 1, e);
    InTwo(raw, t.eq + 1, t.comment);
  }

  lemma InTwo(s: string, i: nat, j: nat)
    requires i <= j < |s|
    ensures s[i..][..j - i] == s[i..j] && s[i..][j - i] == s[j] && s[i..] == s[i..j] + s[j..]
  {
  }

  /** What TOML's walk makes of a rewritten first line; the scanner agrees on it again. */
  lemma FirstStable(raw: string)
    requires TidyFirstLine(raw) && '\r' !in raw && FirstAgrees(raw)
    ensures FirstAgrees(FirstLine(raw)) && Walk(KeyOf(raw), 0, TOML) == TOML
    ensures var r := TomlLine(FirstLine(raw), 0, Outside);
      SameState(r, TomlLine(raw, 0, Outside)) && r.eq == |KeyOf(raw)| + 1
  {
    hide Walk, KeyOf, FirstLine, TidyFirstLine, ValueText, NormalizeQuotes;
    RewrittenScan(raw, Three);
    RewrittenScan(raw, UpToFive);
  }

  /** The scanner and TOML agree on rewritten continuation lines. */
  lemma {:induction false} RestStable(rest: seq<string>, depth: nat, multiline: Multiline)
    requires PlainLines(rest) && TidyRest(rest, depth, multiline) && RestAgrees(rest, depth, multiline)
    requires Continue(rest, depth, multiline).Some?
    ensures RestAgrees(Continue(rest, depth, multiline).value, depth, multiline)
  {
    hide ScanLine, TomlLine, NormaliseContinuation, Tidy, RstripWs;
    if !(depth == 0 && multiline == Outside) {
      var after := ScanLine(rest[0], depth, multiline);
      var lines := Continue(rest, depth, multiline).value;
      if multiline == Outside && after.multiline == Outside {
        ContinuationStable(rest[0], depth);
        TomlContinuation(rest[0], depth);
      }
      RestStable(rest[1..], after.depth, after.multiline);
      assert lines[1..] == Continue(rest[1..], after.depth, after.multiline).value;
    }
  }

  lemma TomlContinuation(line: string, depth: nat)
    requires '\r' !in line && Tidy(RstripWs(line)) && TomlLine(line, depth, Outside).multiline == Outside
    ensures SameState(TomlLine(NormaliseContinuation(line), depth, Outside), TomlLine(line, depth, Outside))
  {
    hide Walk, NormaliseContinuation, Tidy, RstripWs;
    ContinuationScan(line, depth, UpToFive);
  }

  lemma ConstructStable(lines: seq<string>, line: nat)
    requires lines != [] && PlainLines(lines) && ScanLine(lines[0], 0, Outside).eq >= 0
    requires ConsumeKv(lines, line).Ok? && TidyKv(lines) && ConstructAgrees(lines)
    ensures ConsumeKv(lines, line).value.lines != [] && ConstructAgrees(ConsumeKv(lines, line).value.lines)
  {
    hide Walk, FirstLine, KeyOf, ConsumeKv, Continue, TidyFirstLine, TidyRest, RestAgrees, FirstAgrees;
    var scan := ScanLine(lines[0], 0, Outside);
    ConsumeShape(lines, line);
    FirstLineStable(lines[0]);
    FirstStable(lines[0]);
    RestStable(lines[1..], scan.depth, scan.multiline);
    var c := ConsumeKv(lines, line).value;
    assert c.lines[1..] == Continue(lines[1..], scan.depth, scan.multiline).value;
  }

  /** Lines behind the end of a value do not matter. */
  lemma {:induction false} RestAgreesMore(lines: seq<string>, more: seq<string>, depth: nat, multiline: Multiline)
    requires Continue(lines, depth, multiline) == Some(lines) && RestAgrees(lines, depth, multiline)
    ensures RestAgrees(lines + more, depth, multiline)
  {
    hide ScanLine, TomlLine, NormaliseContinuation;
    if !(depth == 0 && multiline == Outside) {
      var after := ScanLine(lines[0], depth, multiline);
      assert (lines + more)[1..] == lines[1..] + more;
      var tail := Continue(lines[1..], after.depth, after.multiline);
      assert tail.Some? && lines[1..] == tail.value;
      RestAgreesMore(lines[1..], more, after.depth, after.multiline);
    }
  }

  /** A rewritten header is one to TOML, too. */
  lemma HeaderAgrees(raw: string)
    requires !IsFiller(raw) && Trim(raw)[0] == '[' && TomlLine(raw, 0, Outside).eq < 0
    ensures TomlLine(NormaliseHeader(Trim(raw)), 0, Outside).eq < 0
  {
    hide Walk, Trim, NormaliseHeader;
    TrimEq(raw, UpToFive);
    HeaderEq(Trim(raw), UpToFive);
  }

  // ----- Documents -----

  /** How many lines the construct at the front takes, by TOML's rule. */
  function ConstructLength(lines: seq<string>): (n: Option<nat>)
    requires lines != []
    ensures n.Some? ==> 0 < n.value <= |lines|
  {
    var t := TomlLine(lines[0], 0, Outside);
    match Extent(lines[1..], t.depth, t.multiline)
    case None => None
    case Some(n) => Some(n + 1)
  }

  /** The scanner and TOML agree on every line of a document. */
  predicate LinesAgree(lines: seq<string>)
    decreases |lines|
  {
    if lines == [] then true
    else if IsFiller(lines[0]) then LinesAgree(lines[1..])
    else if TomlLine(lines[0], 0, Outside).eq < 0 then ScanLine(lines[0], 0, Outside).eq < 0 && LinesAgree(lines[1..])
    else
      ConstructAgrees(lines) &&
      match ConstructLength(lines) case None => true case Some(n) => LinesAgree(lines[n..])
  }

  /** Where they agree, the scanner consumes as many lines as TOML. */
  lemma SameLength(lines: seq<string>, line: nat)
    requires lines != [] && ScanLine(lines[0], 0, Outside).eq >= 0 && ConstructAgrees(lines)
    ensures ConsumeKv(lines, line).Ok? <==> ConstructLength(lines).Some?
    ensures ConsumeKv(lines, line).Ok? ==> ConstructLength(lines) == Some(|ConsumeKv(lines, line).value.lines|)
  {
    hide Walk, FirstLine, KeyOf, ConsumeKv, Continue, RestAgrees;
    var scan := ScanLine(lines[0], 0, Outside);
    ConsumeShape(lines, line);
    ExtentAgrees(lines[1..], scan.depth, scan.multiline);
  }

  // ----- When they agree -----

  /** Behind three closing quotes `q` stands none of its kind, or exactly two. */
  predicate NoneOrTwo(s: string, q: char)
    requires Triple(s, q)
  {
    var n := UpToTwo(s, q, 3);
    n == 3 || (n == 5 && (|s| == 5 || s[5] != q))
  }

  predicate ClosesAlike(s: string, multiline: Multiline) {
    match multiline
    case Outside => true
    case InBasic => Triple(s, '"') ==> NoneOrTwo(s, '"')
    case InLiteral => Triple(s, '\'') ==> NoneOrTwo(s, '\'')
  }

  /** Behind no closing quotes of a multi-line string stands a single quote, or more than two. */
  predicate CleanClosings(s: string, pos: nat, st: Walked)
    decreases |s|
  {
    s == "" ||
    (&& ClosesAlike(s, st.multiline)
     && match StepAt(s, pos, st) case Stop(_) => true case Go(n, next) => CleanClosings(s[n..], pos + n, next))
  }

  /** A step that closes no string is the same by either rule. */
  lemma StepAlike(s: string, pos: nat, st: Walked)
    requires s != "" && st.closing == Three
    requires (st.multiline == InBasic ==> !Triple(s, '"')) && (st.multiline == InLiteral ==> !Triple(s, '\''))
    ensures var a, b := StepAt(s, pos, st), StepAt(s, pos, st.(closing := UpToFive));
      a.Go? == b.Go? && (a.Go? ==> a.n == b.n) && b.st == a.st.(closing := UpToFive) && a.st.closing == Three
      && (a.Go? && !a.st.clean && st.clean ==> a.n == |s|)
  {
  }

  /** One step by TOML's rule over closing quotes is one or two of the scanner's. */
  lemma ClosingSteps(s: string, q: char, pos: nat, st: Walked)
    requires Triple(s, q) && NoneOrTwo(s, q) && st.closing == Three
    requires (st.multiline == InBasic && q == '"') || (st.multiline == InLiteral && q == '\'')
    ensures var n, out := UpToTwo(s, q, 3), st.(multiline := Outside);
      && StepAt(s, pos, st.(closing := UpToFive)) == Go(n, out.(closing := UpToFive)) && n <= |s|
      && Walk(s, pos, st) == Walk(s[n..], pos + n, out)
  {
    hide Walk;
    var out, r := st.(multiline := Outside), s[3..];
    WalkGo(s, pos, st, 3, out);
    if UpToTwo(s, q, 3) == 5 {
      assert r[0] == q && r[1] == q && (|r| == 2 || r[2] == s[5]);
      EmptyString(r, q, pos + 3, out);
      WalkGo(r, pos + 3, out, 2, out);
      assert r[2..] == s[5..];
    }
  }

  lemma EmptyString(r: string, q: char, pos: nat, st: Walked)
    requires |r| >= 2 && IsQuote(q) && r[0] == q && r[1] == q && (|r| == 2 || r[2] != q) && st.multiline == Outside
    ensures StepAt(r, pos, st) == Go(2, st)
  {
  }

  lemma {:induction false} SameWalk(s: string, pos: nat, st: Walked)
    requires st.closing == Three && CleanClosings(s, pos, st.(closing := UpToFive))
    ensures Walk(s, pos, st.(closing := UpToFive)) == Walk(s, pos, st).(closing := UpToFive)
    decreases |s|
  {
    hide StepAt;
    if s != "" {
      var toml := st.(closing := UpToFive);
      var q := if st.multiline == InBasic then '"' else '\'';
      if st.multiline != Outside && Triple(s, q) {
        ClosingSteps(s, q, pos, st);
        var n := UpToTwo(s, q, 3);
        SameWalk(s[n..], pos + n, st.(multiline := Outside));
      } else {
        StepAlike(s, pos, st);
        var x := StepAt(s, pos, st);
        if x.Go? {
          SameWalk(s[x.n..], pos + x.n, x.st);
        }
      }
    }
  }

  predicate CleanRest(rest: seq<string>, depth: nat, multiline: Multiline) {
    (depth == 0 && multiline == Outside) || rest == []
    || var after := TomlLine(rest[0], depth, multiline);
       CleanClosings(rest[0], 0, TOML.(depth := depth, multiline := multiline))
       && CleanRest(rest[1..], after.depth, after.multiline)
  }

  /** No line of a document closes a multi-line string with one further quote behind it, or more than two. */
  predicate CleanLines(lines: seq<string>)
    decreases |lines|
  {
    if lines == [] then true
    else if IsFiller(lines[0]) then CleanLines(lines[1..])
    else
      CleanClosings(lines[0], 0, TOML) &&
      if TomlLine(lines[0], 0, Outside).eq < 0 then CleanLines(lines[1..])
      else
        var t := TomlLine(lines[0], 0, Outside);
        CleanRest(lines[1..], t.depth, t.multiline) &&
        match ConstructLength(lines) case None => true case Some(n) => CleanLines(lines[n..])
  }

  lemma CleanLine(line: string, depth: nat, multiline: Multiline)
    requires CleanClosings(line, 0, TOML.(depth := depth, multiline := multiline))
    ensures TomlLine(line, depth, multiline) == ScanLine(line, depth, multiline).(closing := UpToFive)
  {
    hide Walk, CleanClosings;
    SameWalk(line, 0, FRESH.(depth := depth, multiline := multiline));
  }

  lemma {:induction false} CleanRestAgrees(rest: seq<string>, depth: nat, multiline: Multiline)
    requires CleanRest(rest, depth, multiline)
    ensures RestAgrees(rest, depth, multiline)
  {
    hide ScanLine, TomlLine, CleanClosings;
    if !(depth == 0 && multiline == Outside) && rest != [] {
      CleanLine(rest[0], depth, multiline);
      var after := TomlLine(rest[0], depth, multiline);
      CleanRestAgrees(rest[1..], after.depth, after.multiline);
    }
  }

  /** Without such closing quotes the scanner agrees with TOML on every line. */
  lemma {:induction false} CleanLinesAgree(lines: seq<string>)
    requires CleanLines(lines)
    ensures LinesAgree(lines)
    decreases |lines|
  {
    hide ScanLine, TomlLine, CleanClosings, CleanRest, RestAgrees, ConstructLength, IsFiller;
    if lines != [] {
      if IsFiller(lines[0]) {
        CleanLinesAgree(lines[1..]);
      } else {
        CleanLine(lines[0], 0, Outside);
        var t := TomlLine(lines[0], 0, Outside);
        if t.eq < 0 {
          CleanLinesAgree(lines[1..]);
        } else {
          CleanRestAgrees(lines[1..], t.depth, t.multiline);
          if ConstructLength(lines).Some? {
            CleanLinesAgree(lines[ConstructLength(lines).value..]);
          }
        }
      }
    }
  }

  // ----- The state is what matters -----

  function Brackets(n: nat): string {
    seq(n, _ => ']')
  }

  /** A line that closes a value at this state. */
  function ClosingLine(depth: nat, multiline: Multiline): string {
    (match multiline case Outside => "" case InBasic => "\"\"\"" case InLiteral => "'''") + Brackets(depth)
  }

  lemma {:induction false} BracketsWalk(n: nat, pos: nat, st: Walked)
    ensures Walk(Brackets(n), pos, st)
         == if st.multiline == Outside then st.(depth := if st.depth < n then 0 else st.depth - n) else st
  {
    if n > 0 {
      assert Brackets(n)[1..] == Brackets(n - 1) && Brackets(n)[0] == ']';
      var next := StepAt(Brackets(n), pos, st).st;
      BracketStep(n, pos, st);
      BracketsWalk(n - 1, pos + 1, next);
    }
  }

  lemma BracketStep(n: nat, pos: nat, st: Walked)
    requires n > 0
    ensures StepAt(Brackets(n), pos, st)
         == Go(1, if st.multiline == Outside then st.(depth := if st.depth == 0 then 0 else st.depth - 1) else st)
  {
    assert Brackets(n)[0] == ']';
  }

  lemma ClosingLineWalk(d: nat, m: Multiline, depth: nat, multiline: Multiline)
    requires m == Outside || multiline != Outside
    ensures var t := TomlLine(ClosingLine(d, m), depth, multiline);
      if m == multiline then t.multiline == Outside && t.depth == (if depth < d then 0 else depth - d)
      else t.multiline == multiline
  {
    hide Walk, StepAt;
    var st := TOML.(depth := depth, multiline := multiline);
    var b := Brackets(d);
    if m == Outside {
      assert "" + b == b;
      BracketsWalk(d, 0, st);
    } else if m == multiline {
      var q := if m == InBasic then "\"\"\"" else "'''";
      QuotesClose(q, b, st);
      assert (q + b)[3..] == b;
      WalkGo(q + b, 0, st, 3, st.(multiline := Outside));
      BracketsWalk(d, 3, st.(multiline := Outside));
    } else {
      OtherQuotes(d, m, st);
    }
  }

  lemma QuotesClose(q: string, b: string, st: Walked)
    requires st.closing == UpToFive && (b == "" || b[0] == ']')
    requires (q == "\"\"\"" && st.multiline == InBasic) || (q == "'''" && st.multiline == InLiteral)
    ensures StepAt(q + b, 0, st) == Go(3, st.(multiline := Outside))
  {
    var s := q + b;
    assert s[0] == q[0] && s[1] == q[0] && s[2] == q[0] && (|s| > 3 ==> s[3] == ']');
  }

  /** Quotes of the other kind and brackets are text in a multi-line string. */
  lemma {:induction false} OtherQuotes(d: nat, m: Multiline, st: Walked)
    requires m != Outside && st.multiline != Outside && st.multiline != m
    ensures Walk(ClosingLine(d, m), 0, st) == st
  {
    hide Walk;
    var q := if m == InBasic then '"' else '\'';
    var l, b := ClosingLine(d, m), Brackets(d);
    assert l == [q, q, q] + b;
    var x, y := [q, q] + b, [q] + b;
    assert l[1..] == x && x[1..] == y && y[1..] == b;
    TextStep(l, 0, st);
    TextStep(x, 1, st);
    TextStep(y, 2, st);
    WalkGo(l, 0, st, 1, st);
    WalkGo(x, 1, st, 1, st);
    WalkGo(y, 2, st, 1, st);
    BracketsWalk(d, 3, st);
  }

  lemma TextStep(s: string, pos: nat, st: Walked)
    requires s != "" && IsQuote(s[0])
    requires (st.multiline == InBasic && s[0] != '"') || (st.multiline == InLiteral && s[0] != '\'')
    ensures StepAt(s, pos, st) == Go(1, st)
  {
  }

  /** Some lines end a construct in one of two states and not in the other. */
  lemma EndsApart(d: nat, m: Multiline, e: nat, n: Multiline) returns (rest: seq<string>)
    requires !(d == 0 && m == Outside) && !(e == 0 && n == Outside)
    requires (m == n && d < e) || (m != n && (m == Outside || n != Outside))
    ensures Extent(rest, d, m) != Extent(rest, e, n)
  {
    hide TomlLine, ClosingLine;
    var l := ClosingLine(d, m);
    rest := [l];
    ClosingLineWalk(d, m, d, m);
    ClosingLineWalk(d, m, e, n);
    assert rest[1..] == [];
  }

  /**
   Two states of the walk end a construct behind the same line, whatever lines follow, exactly
   when they are at the same depth and in the same kind of string.
   */
  lemma StateDecidesEnd(d: nat, m: Multiline, e: nat, n: Multiline)
    ensures (forall rest: seq<string> :: Extent(rest, d, m) == Extent(rest, e, n)) <==> d == e && m == n
  {
    hide Extent;
    if d != e || m != n {
      Closed(d, m);
      Closed(e, n);
      if (d == 0 && m == Outside) || (e == 0 && n == Outside) {
        assert Extent([], d, m) != Extent([], e, n);
      } else if (m == n && d < e) || (m != n && (m == Outside || n != Outside)) {
        var rest := EndsApart(d, m, e, n);
      } else {
        var rest := EndsApart(e, n, d, m);
      }
    }
  }

  lemma Closed(depth: nat, multiline: Multiline)
    ensures Extent([], depth, multiline) == if depth == 0 && multiline == Outside then Some(0) else None
  {
  }
}
