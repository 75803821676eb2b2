/**
 The string-aware line scanner and the quote rewriter of `src/format-file.ts`.
 `Walk` and `NormalizeQuotes` say what the two loops compute; the methods in
 FormatMethods are the loops themselves.
 */
module FormatScan {
  import opened JsText

  /** What `walker.multiline` holds: null, 'basic' or 'literal'. */
  datatype Multiline = Outside | InBasic | InLiteral

  /** How many quotes close a multi-line string: three, or all there are up to five. */
  datatype ClosingRule = Three | UpToFive

  /**
   The scanner's state. `clean` and `closing` record something the code has no variable for:
   the text read so far ended between two tokens, not in the middle of one; and whose rule
   for closing quotes applies.
   */
  datatype Walked = Walked(depth: nat, multiline: Multiline, eq: int, comment: int, clean: bool, closing: ClosingRule)

  /** Where a scan by either rule starts. */
  function Start(rule: ClosingRule): Walked {
    Walked(0, Outside, -1, -1, true, rule)
  }

  /** The scanner of the source takes three quotes. */
  const FRESH := Start(Three)

  /** TOML v1.0.0 lets a multi-line string end in one or two quotes of its own. */
  const TOML := Start(UpToFive)

  predicate IsQuote(c: char) {
    c == '"' || c == '\''
  }

  predicate Triple(s: string, q: char) {
    |s| >= 3 && s[0] == q && s[1] == q && s[2] == q
  }

  /** Index just past the quote closing the basic string whose content starts at `from`. */
  function BasicEnd(s: string, from: nat): (e: nat)
    requires from <= |s|
    ensures from <= e <= |s|
    decreases |s| - from
  {
    if from == |s| then |s|
    else if s[from] == '\\' then if from + 2 <= |s| then BasicEnd(s, from + 2) else |s|
    else if s[from] == '"' then from + 1
    else BasicEnd(s, from + 1)
  }

  predicate BasicCloses(s: string, from: nat)
    requires from <= |s|
    decreases |s| - from
  {
    if from == |s| then false
    else if s[from] == '\\' then from + 2 <= |s| && BasicCloses(s, from + 2)
    else s[from] == '"' || BasicCloses(s, from + 1)
  }

  function LiteralEnd(s: string, from: nat): (e: nat)
    requires from <= |s|
    ensures from <= e <= |s|
    decreases |s| - from
  {
    if from == |s| then |s|
    else if s[from] == '\'' then from + 1
    else LiteralEnd(s, from + 1)
  }

  predicate LiteralCloses(s: string, from: nat)
    requires from <= |s|
    decreases |s| - from
  {
    from < |s| && (s[from] == '\'' || LiteralCloses(s, from + 1))
  }

  /** Length of the one-line string token that starts `s`. */
  function StringEnd(s: string): (e: nat)
    requires s != "" && IsQuote(s[0])
    ensures 0 < e <= |s|
  {
    if s[0] == '"' then BasicEnd(s, 1) else LiteralEnd(s, 1)
  }

  predicate StringCloses(s: string)
    requires s != "" && IsQuote(s[0])
  {
    if s[0] == '"' then BasicCloses(s, 1) else LiteralCloses(s, 1)
  }

  // ----- The scanner -----

  /** Where the run of `q` that starts at `i` ends, at most two of them. */
  function UpToTwo(s: string, q: char, i: nat): (r: nat)
    ensures i <= r <= i + 2 && (r == i || r <= |s|)
  {
    if i < |s| && s[i] == q then if i + 1 < |s| && s[i + 1] == q then i + 2 else i + 1 else i
  }

  /** How many quotes in front of `s` close a multi-line string. */
  function ClosingQuotes(s: string, q: char, rule: ClosingRule): (n: nat)
    requires Triple(s, q)
    ensures 3 <= n <= |s|
  {
    match rule case Three => 3 case UpToFive => UpToTwo(s, q, 3)
  }

  datatype Step = Stop(st: Walked) | Go(n: nat, st: Walked)

  /** One turn of the scanner's loop on the remaining text `s`, which starts at column `pos`. */
  function StepAt(s: string, pos: nat, st: Walked): (r: Step)
    requires s != ""
    ensures r.Go? ==> 0 < r.n <= |s|
    ensures r.Go? && st.clean && !r.st.clean ==> r.n == |s|
  {
    match st.multiline
    case InBasic =>
      if s[0] == '\\' then if |s| >= 2 then Go(2, st) else Go(1, st.(clean := false))
      else if Triple(s, '"') then Go(ClosingQuotes(s, '"', st.closing), st.(multiline := Outside))
      else Go(1, st)
    case InLiteral =>
      if Triple(s, '\'') then Go(ClosingQuotes(s, '\'', st.closing), st.(multiline := Outside)) else Go(1, st)
    case Outside =>
      if s[0] == '#' then Stop(st.(comment := if st.depth == 0 then pos else st.comment, clean := false))
      else if s[0] == '=' then Go(1, if st.depth == 0 && st.eq < 0 then st.(eq := pos) else st)
      else if IsQuote(s[0]) then
        if Triple(s, s[0]) then Go(3, st.(multiline := if s[0] == '"' then InBasic else InLiteral))
        else if StringCloses(s) then Go(StringEnd(s), st)
        else Unclosed(s); Go(StringEnd(s), st.(clean := false))
      else if s[0] == '[' || s[0] == '{' then Go(1, st.(depth := st.depth + 1))
      else if s[0] == ']' || s[0] == '}' then Go(1, st.(depth := if st.depth == 0 then 0 else st.depth - 1))
      else Go(1, st)
  }

  /** The state after scanning the rest `s` of a line from state `st`. */
  function Walk(s: string, pos: nat, st: Walked): Walked
    decreases |s|
  {
    if s == "" then st
    else
      match StepAt(s, pos, st)
      case Stop(st') => st'
      case Go(n, st') => Walk(s[n..], pos + n, st')
  }

  // ----- The quote rewriter -----

  function ReplaceAll(s: string, c: char, text: string): string {
    if s == "" then "" else (if s[0] == c then text else [s[0]]) + ReplaceAll(s[1..], c, text)
  }

  /** `basicString`: the text between `'` quotes, escaped to stand between `"` quotes. */
  function BasicString(content: string): string {
    "\"" + ReplaceAll(ReplaceAll(content, '\\', "\\\\"), '"', "\\\"") + "\""
  }

  /** The content of the literal string that starts `s`; an unclosed one loses its last character. */
  function LiteralContent(s: string): string
    requires s != "" && s[0] == '\''
  {
    if LiteralEnd(s, 1) >= 2 then s[1..LiteralEnd(s, 1) - 1] else ""
  }

  function NormalizeQuotes(s: string): string
    decreases |s|
  {
    if s == "" || s[0] == '#' || Triple(s, '"') || Triple(s, '\'') then s
    else if s[0] == '"' then s[..BasicEnd(s, 1)] + NormalizeQuotes(s[BasicEnd(s, 1)..])
    else if s[0] == '\'' then BasicString(LiteralContent(s)) + NormalizeQuotes(s[LiteralEnd(s, 1)..])
    else [s[0]] + NormalizeQuotes(s[1..])
  }

  /**
   Up to its first `#` or triple quote, every string token of `s` is closed and
   is not followed by another quote. TOML v1.0.0 has no other texts here: a
   separator stands between any two strings.
   */
  predicate Tidy(s: string)
    decreases |s|
  {
    if s == "" || s[0] == '#' || Triple(s, '"') || Triple(s, '\'') then true
    else if IsQuote(s[0]) then
      var e := StringEnd(s);
      StringCloses(s) && (e == |s| || !IsQuote(s[e])) && Tidy(s[e..])
    else Tidy(s[1..])
  }

  // ----- String tokens are local -----

  lemma Unclosed(s: string)
    requires s != "" && IsQuote(s[0]) && !StringCloses(s)
    ensures StringEnd(s) == |s|
  {
    if s[0] == '"' { UnclosedBasic(s, 1); } else { UnclosedLiteral(s, 1); }
  }

  lemma UnclosedBasic(s: string, from: nat)
    requires from <= |s| && !BasicCloses(s, from)
    ensures BasicEnd(s, from) == |s|
    decreases |s| - from
  {
  }

  lemma UnclosedLiteral(s: string, from: nat)
    requires from <= |s| && !LiteralCloses(s, from)
    ensures LiteralEnd(s, from) == |s|
    decreases |s| - from
  {
  }

  lemma {:induction false} BasicPrefix(s: string, t: string, from: nat)
    requires from <= |s| && s <= t && BasicCloses(s, from)
    ensures BasicCloses(t, from) && BasicEnd(t, from) == BasicEnd(s, from)
    decreases |s| - from
  {
    if s[from] == '\\' { BasicPrefix(s, t, from + 2); }
    else if s[from] != '"' { BasicPrefix(s, t, from + 1); }
  }

  lemma {:induction false} BasicPrefixBack(s: string, t: string, from: nat)
    requires from <= |s| && s <= t && BasicCloses(t, from) && BasicEnd(t, from) <= |s|
    ensures BasicCloses(s, from)
    decreases |s| - from
  {
    if from < |s| {
      if s[from] == '\\' { BasicPrefixBack(s, t, from + 2); }
      else if s[from] != '"' { BasicPrefixBack(s, t, from + 1); }
    }
  }

  lemma {:induction false} LiteralPrefix(s: string, t: string, from: nat)
    requires from <= |s| && s <= t && LiteralCloses(s, from)
    ensures LiteralCloses(t, from) && LiteralEnd(t, from) == LiteralEnd(s, from)
    decreases |s| - from
  {
    if s[from] != '\'' { LiteralPrefix(s, t, from + 1); }
  }

  lemma {:induction false} LiteralPrefixBack(s: string, t: string, from: nat)
    requires from <= |s| && s <= t && LiteralCloses(t, from) && LiteralEnd(t, from) <= |s|
    ensures LiteralCloses(s, from)
    decreases |s| - from
  {
    if from < |s| && s[from] != '\'' { LiteralPrefixBack(s, t, from + 1); }
  }

  /** A closed string token is found the same way whatever text follows it. */
  lemma StringPrefix(a: string, r: string)
    requires a != "" && IsQuote(a[0])
    requires StringCloses(a) || (StringCloses(a + r) && StringEnd(a + r) <= |a|)
    ensures StringCloses(a) && StringCloses(a + r) && StringEnd(a + r) == StringEnd(a)
  {
    if a[0] == '"' {
      if !BasicCloses(a, 1) { BasicPrefixBack(a, a + r, 1); }
      BasicPrefix(a, a + r, 1);
    } else {
      if !LiteralCloses(a, 1) { LiteralPrefixBack(a, a + r, 1); }
      LiteralPrefix(a, a + r, 1);
    }
  }

  // ----- Scanning in pieces -----

  predicate NoQuoteFirst(s: string) {
    s == "" || !IsQuote(s[0])
  }

  /** A step that stays inside `a` does not look at the text behind `a`. */
  lemma StepLocal(a: string, r: string, pos: nat, st: Walked)
    requires a != "" && NoQuoteFirst(r) && st.clean
    requires
      || (StepAt(a, pos, st).Go? && StepAt(a, pos, st).st.clean)
      || (var g := StepAt(a + r, pos, st); g.Go? && g.st.clean && g.n <= |a|)
    ensures StepAt(a + r, pos, st) == StepAt(a, pos, st)
  {
    assert forall q | IsQuote(q) :: Triple(a + r, q) == Triple(a, q);
    if st.multiline == Outside && IsQuote(a[0]) && !Triple(a, a[0]) {
      StringPrefix(a, r);
    }
  }

  /** What one step may do to the two reported columns. */
  lemma StepColumns(s: string, pos: nat, st: Walked)
    requires s != ""
    ensures match StepAt(s, pos, st)
      case Stop(r) =>
        && s[0] == '#' && r.eq == st.eq && !r.clean && st.multiline == Outside && r.closing == st.closing
        && r.comment == (if st.depth == 0 then pos else st.comment)
      case Go(n, r) =>
        && r.comment == st.comment && r.closing == st.closing
        && (r.eq == st.eq
            || (st.eq < 0 && st.depth == 0 && st.multiline == Outside && s[0] == '=' && r.eq == pos))
  {
  }

  /** Scanning `a + r` is scanning `a` and then `r`, when `a` ends between tokens. */
  lemma {:induction false} WalkAppend(a: string, r: string, pos: nat, st: Walked)
    requires NoQuoteFirst(r) && st.clean && Walk(a, pos, st).clean
    ensures Walk(a + r, pos, st) == Walk(r, pos + |a|, Walk(a, pos, st))
    decreases |a|
  {
    hide StepAt;
    if a == "" {
      assert a + r == r;
    } else {
      var step := StepAt(a, pos, st);
      StepColumns(a, pos, st);
      StepLocal(a, r, pos, st);
      WalkAppend(a[step.n..], r, pos + step.n, step.st);
      assert (a + r)[step.n..] == a[step.n..] + r;
    }
  }

  lemma {:induction false} EqStable(s: string, pos: nat, st: Walked)
    ensures var r := Walk(s, pos, st);
      && (st.eq >= 0 ==> r.eq == st.eq)
      && (st.eq < 0 ==> r.eq == st.eq || pos <= r.eq < pos + |s|)
      && (r.comment == st.comment || pos <= r.comment < pos + |s|)
      && r.closing == st.closing
    decreases |s|
  {
    hide StepAt;
    if s != "" {
      var step := StepAt(s, pos, st);
      StepColumns(s, pos, st);
      if step.Go? {
        EqStable(s[step.n..], pos + step.n, step.st);
      }
    }
  }

  /** The text before the `=` the scanner reports ends between tokens, at depth 0, outside strings. */
  lemma {:induction false} CutAtEq(s: string, pos: nat, st: Walked)
    requires st.clean && st.eq < 0
    requires Walk(s, pos, st).eq >= 0
    ensures var k := Walk(s, pos, st).eq - pos;
      0 <= k < |s| && s[k] == '=' && Walk(s[..k], pos, st) == st.(depth := 0, multiline := Outside)
    decreases |s|
  {
    hide StepAt;
    EqStable(s, pos, st);
    StepColumns(s, pos, st);
    var k := Walk(s, pos, st).eq - pos;
    var step := StepAt(s, pos, st);
    EqStable(s[step.n..], pos + step.n, step.st);
    if step.st.eq >= 0 {
      assert s[..0] == "";
    } else {
      CutAtEq(s[step.n..], pos + step.n, step.st);
      CutStep(s, k, pos, st);
    }
  }

  /** The same for the `#` of a trailing comment. */
  lemma {:induction false} CutAtComment(s: string, pos: nat, st: Walked)
    requires st.clean && st.comment < 0
    requires Walk(s, pos, st).comment >= 0
    ensures var r := Walk(s, pos, st); var k := r.comment - pos;
      && 0 <= k < |s| && s[k] == '#'
      && Walk(s[..k], pos, st) == st.(depth := 0, multiline := Outside, eq := r.eq)
    decreases |s|
  {
    hide StepAt;
    EqStable(s, pos, st);
    StepColumns(s, pos, st);
    var k := Walk(s, pos, st).comment - pos;
    var step := StepAt(s, pos, st);
    if step.Stop? {
      assert s[..0] == "";
    } else {
      EqStable(s[step.n..], pos + step.n, step.st);
      CutAtComment(s[step.n..], pos + step.n, step.st);
      CutStep(s, k, pos, st);
    }
  }

  lemma CutStep(s: string, k: nat, pos: nat, st: Walked)
    requires 0 < k < |s| && !IsQuote(s[k]) && st.clean
    requires var g := StepAt(s, pos, st); g.Go? && g.st.clean && g.n <= k
    ensures var g := StepAt(s, pos, st);
      Walk(s[..k], pos, st) == Walk(s[g.n..][..k - g.n], pos + g.n, g.st)
  {
    assert s == s[..k] + s[k..];
    StepLocal(s[..k], s[k..], pos, st);
    var n := StepAt(s, pos, st).n;
    assert s[..k][n..] == s[n..][..k - n];
  }

  // ----- Where a text starts does not matter -----

  /** The same outcome, for texts that end at columns `e` and `e2`. */
  predicate Alike(r: Walked, e: int, r2: Walked, e2: int) {
    && r.depth == r2.depth && r.multiline == r2.multiline && r.clean == r2.clean && r.closing == r2.closing
    && (r.eq < 0 <==> r2.eq < 0)
    && (r.comment < 0 <==> r2.comment < 0)
    && (r.comment >= 0 ==> e - r.comment == e2 - r2.comment)
  }

  lemma StepShift(s: string, pos: nat, st: Walked, pos2: nat, st2: Walked)
    requires s != "" && Alike(st, pos + |s|, st2, pos2 + |s|)
    ensures var a, b := StepAt(s, pos, st), StepAt(s, pos2, st2);
      && a.Go? == b.Go?
      && (a.Go? ==> a.n == b.n)
      && Alike(a.st, pos + |s|, b.st, pos2 + |s|)
  {
  }

  lemma {:induction false} WalkShift(s: string, pos: nat, st: Walked, pos2: nat, st2: Walked)
    requires Alike(st, pos + |s|, st2, pos2 + |s|)
    ensures Alike(Walk(s, pos, st), pos + |s|, Walk(s, pos2, st2), pos2 + |s|)
    decreases |s|
  {
    hide StepAt;
    if s != "" {
      StepShift(s, pos, st, pos2, st2);
      var a, b := StepAt(s, pos, st), StepAt(s, pos2, st2);
      if a.Go? {
        WalkShift(s[a.n..], pos + a.n, a.st, pos2 + a.n, b.st);
      }
    }
  }

  // ----- One string token -----

  /** `a` is one closed string token that reads the same in front of `r`. */
  predicate TokenBefore(a: string, r: string) {
    && a != "" && IsQuote(a[0]) && StringCloses(a) && StringEnd(a) == |a|
    && NoQuoteFirst(r)
    && !Triple(a + r, '"') && !Triple(a + r, '\'')
  }

  lemma TokenStep(a: string, r: string, pos: nat, st: Walked)
    requires TokenBefore(a, r) && st.multiline == Outside
    ensures StepAt(a + r, pos, st) == Go(|a|, st)
  {
    StringPrefix(a, r);
  }

  lemma TokenRewrite(a: string, r: string)
    requires TokenBefore(a, r)
    ensures Tidy(a + r) == Tidy(r)
    ensures a[0] == '"' ==> NormalizeQuotes(a + r) == a + NormalizeQuotes(r)
    ensures a[0] == '\'' ==> NormalizeQuotes(a + r) == BasicString(LiteralContent(a)) + NormalizeQuotes(r)
  {
    StringPrefix(a, r);
    assert (a + r)[|a|..] == r && (a + r)[..|a|] == a;
    if a[0] == '\'' {
      assert LiteralContent(a + r) == LiteralContent(a);
    }
  }

  /** Splits the string token off the front of a tidy text. */
  lemma TidyToken(s: string)
    requires s != "" && IsQuote(s[0]) && Tidy(s) && !Triple(s, s[0])
    ensures var e := StringEnd(s);
      TokenBefore(s[..e], s[e..]) && s == s[..e] + s[e..] && Tidy(s[e..])
  {
    var e := StringEnd(s);
    assert s == s[..e] + s[e..];
    StringPrefix(s[..e], s[e..]);
  }

  // ----- A rewritten literal is one basic token -----

  function Escaped(content: string): string {
    ReplaceAll(ReplaceAll(content, '\\', "\\\\"), '"', "\\\"")
  }

  lemma {:induction false} ReplaceAllConcat(a: string, b: string, c: char, text: string)
    ensures ReplaceAll(a + b, c, text) == ReplaceAll(a, c, text) + ReplaceAll(b, c, text)
  {
    if a == "" {
      assert a + b == b;
    } else {
      ReplaceAllConcat(a[1..], b, c, text);
      assert (a + b)[1..] == a[1..] + b && (a + b)[0] == a[0];
      var head := if a[0] == c then text else [a[0]];
      var x, y := ReplaceAll(a[1..], c, text), ReplaceAll(b, c, text);
      assert head + (x + y) == (head + x) + y;
    }
  }

  lemma EscapedHead(content: string)
    requires content != ""
    ensures Escaped(content) ==
      (match content[0] case '\\' => "\\\\" case '"' => "\\\"" case x => [x]) + Escaped(content[1..])
  {
    var head := if content[0] == '\\' then "\\\\" else [content[0]];
    var tail := ReplaceAll(content[1..], '\\', "\\\\");
    ReplaceAllConcat(head, tail, '"', "\\\"");
    if content[0] == '\\' {
      assert ReplaceAll("\\\\"[1..], '"', "\\\"") == "\\";
    } else {
      assert [content[0]][1..] == "";
    }
  }

  lemma {:induction false} EscapedCloses(pre: string, content: string)
    ensures var t := pre + Escaped(content) + "\"";
      BasicCloses(t, |pre|) && BasicEnd(t, |pre|) == |t|
    decreases |content|
  {
    var t := pre + Escaped(content) + "\"";
    if content == "" {
      assert t[|pre|] == '"';
    } else {
      EscapedHead(content);
      var n := |Escaped(content)| - |Escaped(content[1..])|;
      var pre2 := pre + Escaped(content)[..n];
      EscapedCloses(pre2, content[1..]);
      assert t == pre2 + Escaped(content[1..]) + "\"";
      assert t[|pre|] == Escaped(content)[0];
    }
  }

  lemma BasicStringToken(content: string, r: string)
    requires NoQuoteFirst(r)
    ensures TokenBefore(BasicString(content), r)
  {
    var a := BasicString(content);
    assert a == "\"" + Escaped(content) + "\"";
    EscapedCloses("\"", content);
    if content != "" {
      EscapedHead(content);
      assert a[1] == Escaped(content)[0] && a[1] != '"';
    }
  }

  // ----- Quote rewriting commutes with scanning -----

  lemma NormalizeFirst(s: string)
    requires s != ""
    ensures NormalizeQuotes(s) != ""
    ensures NormalizeQuotes(s)[0] == s[0] || (s[0] == '\'' && NormalizeQuotes(s)[0] == '"')
  {
  }

  lemma NormalizePlain(s: string)
    requires s != "" && !IsQuote(s[0]) && s[0] != '#'
    ensures NormalizeQuotes(s) == [s[0]] + NormalizeQuotes(s[1..]) && NormalizeQuotes(s)[1..] == NormalizeQuotes(s[1..])
    ensures Tidy(s) == Tidy(s[1..])
  {
  }

  lemma StepPlain(s: string, t: string, pos: nat, st: Walked, pos2: nat, st2: Walked)
    requires s != "" && t != "" && s[0] == t[0] && !IsQuote(s[0]) && s[0] != '#'
    requires Alike(st, pos + |s|, st2, pos2 + |t|) && st.multiline == Outside && st.comment < 0
    ensures var a, b := StepAt(s, pos, st), StepAt(t, pos2, st2);
      && a.Go? && b.Go? && a.n == b.n == 1 && a.st.multiline == Outside && a.st.comment < 0
      && Alike(a.st, pos + |s|, b.st, pos2 + |t|)
  {
  }

  lemma NormalizeStops(s: string)
    requires s == "" || s[0] == '#' || Triple(s, '"') || Triple(s, '\'')
    ensures NormalizeQuotes(s) == s
  {
  }

  /**
   Scanning the rewritten text ends in the same bracket depth and multi-line
   state as scanning the text, finds a separator exactly when the text has one,
   and finds the same comment.
   */
  lemma {:induction false} NormalizeCommutes(s: string, pos: nat, st: Walked, pos2: nat, st2: Walked)
    requires Tidy(s) && st.multiline == Outside && st.comment < 0
    requires Alike(st, pos + |s|, st2, pos2 + |NormalizeQuotes(s)|)
    ensures Alike(Walk(s, pos, st), pos + |s|, Walk(NormalizeQuotes(s), pos2, st2), pos2 + |NormalizeQuotes(s)|)
    decreases |s|
  {
    hide StepAt, BasicString, NormalizeQuotes, Triple;
    var t := NormalizeQuotes(s);
    if s == "" || s[0] == '#' || Triple(s, '"') || Triple(s, '\'') {
      NormalizeStops(s);
      WalkShift(s, pos, st, pos2, st2);
    } else if IsQuote(s[0]) {
      TidyToken(s);
      var e := StringEnd(s);
      var a, r := s[..e], s[e..];
      TokenRewrite(a, r);
      if r != "" { NormalizeFirst(r); }
      var b := if a[0] == '"' then a else BasicString(LiteralContent(a));
      RewrittenToken(a, r);
      TokenStep(a, r, pos, st);
      TokenStep(b, NormalizeQuotes(r), pos2, st2);
      assert (a + r)[|a|..] == r && (b + NormalizeQuotes(r))[|b|..] == NormalizeQuotes(r);
      NormalizeCommutes(r, pos + |a|, st, pos2 + |b|, st2);
    } else {
      NormalizePlain(s);
      StepPlain(s, t, pos, st, pos2, st2);
      NormalizeCommutes(s[1..], pos + 1, StepAt(s, pos, st).st, pos2 + 1, StepAt(t, pos2, st2).st);
    }
  }

  lemma RewrittenToken(a: string, r: string)
    requires TokenBefore(a, r)
    ensures TokenBefore(if a[0] == '"' then a else BasicString(LiteralContent(a)), NormalizeQuotes(r))
  {
    if r != "" { NormalizeFirst(r); }
    if a[0] == '\'' {
      BasicStringToken(LiteralContent(a), NormalizeQuotes(r));
    } else {
      assert forall q :: Triple(a + r, q) == Triple(a + NormalizeQuotes(r), q);
    }
  }

  /** Only one direction is ever taken: rewriting a rewritten text changes nothing. */
  lemma {:induction false} NormalizeIdempotent(s: string)
    requires Tidy(s)
    ensures Tidy(NormalizeQuotes(s))
    ensures NormalizeQuotes(NormalizeQuotes(s)) == NormalizeQuotes(s)
    decreases |s|
  {
    hide BasicString;
    var t := NormalizeQuotes(s);
    if s == "" || s[0] == '#' || Triple(s, '"') || Triple(s, '\'') {
    } else if IsQuote(s[0]) {
      TidyToken(s);
      var e := StringEnd(s);
      var a, r := s[..e], s[e..];
      TokenRewrite(a, r);
      RewrittenToken(a, r);
      var b := if a[0] == '"' then a else BasicString(LiteralContent(a));
      if a[0] == '\'' { BasicStringHead(LiteralContent(a)); }
      NormalizeIdempotent(r);
      TokenRewrite(b, NormalizeQuotes(r));
    } else {
      NormalizePlain(s);
      NormalizeIdempotent(s[1..]);
      NormalizePlain(t);
    }
  }

  lemma BasicStringHead(content: string)
    ensures BasicString(content) != "" && BasicString(content)[0] == '"'
  {
  }

  lemma {:induction false} WalkGo(s: string, pos: nat, st: Walked, n: nat, next: Walked)
    requires s != "" && StepAt(s, pos, st) == Go(n, next)
    ensures n <= |s| && Walk(s, pos, st) == Walk(s[n..], pos + n, next)
  {
    hide StepAt;
  }

  /**
   Why string tokens must not touch: an empty literal string in front of a basic one
   is rewritten into an opening triple quote.
   */
  lemma {:induction false} TouchingTokensOpenTriple()
    ensures var s := "''\"b\"";
      Walk(s, 0, FRESH) == FRESH && Walk(NormalizeQuotes(s), 0, FRESH).multiline == InBasic
  {
    hide Walk, StepAt, NormalizeQuotes;
    var s := "''\"b\"";
    TwoTokens();
    assert s[2..] == "\"b\"" && "\"b\""[3..] == "";
    WalkGo(s, 0, FRESH, 2, FRESH);
    WalkGo("\"b\"", 2, FRESH, 3, FRESH);
    WalkNothing(5, FRESH);
    NormalizeTouching();
    OpenTriple();
  }

  lemma {:induction false} TwoTokens()
    ensures StepAt("''\"b\"", 0, FRESH) == Go(2, FRESH) && StepAt("\"b\"", 2, FRESH) == Go(3, FRESH)
  {
    var s, b := "''\"b\"", "\"b\"";
    assert LiteralEnd(s, 1) == 2 && LiteralCloses(s, 1);
    assert BasicEnd(b, 1) == BasicEnd(b, 2) == 3 && BasicCloses(b, 2) && BasicCloses(b, 1);
  }

  lemma WalkNothing(pos: nat, st: Walked)
    ensures Walk("", pos, st) == st
  {
  }

  lemma {:induction false} NormalizeTouching()
    ensures NormalizeQuotes("''\"b\"") == "\"\"\"b\""
  {
    var s := "''\"b\"";
    assert s[2..] == "\"b\"" && LiteralEnd(s, 1) == 2;
    assert LiteralContent(s) == "" && BasicString("") == "\"\"";
    assert BasicEnd("\"b\"", 1) == BasicEnd("\"b\"", 2) == 3;
    assert "\"b\""[..3] == "\"b\"" && "\"b\""[3..] == "";
    assert NormalizeQuotes("\"b\"") == "\"b\"";
  }

  lemma {:induction false} OpenTriple()
    ensures Walk("\"\"\"b\"", 0, FRESH).multiline == InBasic
  {
    hide Walk;
    var t, st := "\"\"\"b\"", FRESH.(multiline := InBasic);
    assert t[3..] == "b\"" && "b\""[1..] == "\"" && "\""[1..] == "";
    WalkGo(t, 0, FRESH, 3, st);
    WalkGo("b\"", 3, st, 1, st);
    WalkGo("\"", 4, st, 1, st);
    WalkNothing(5, st);
  }
}
