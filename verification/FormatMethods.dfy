/**
 The loops of `src/format-file.ts`, each proved to compute the function that
 specifies it in FormatScan or FormatDoc.
 */
module FormatMethods {
  import opened JsText
  import opened Wrappers
  import opened FormatScan
  import opened FormatDoc
  import FormatLines

  /** Mutable state carried across the lines of a multi-line value. */
  class Walker {
    var depth: nat
    var multiline: Multiline

    constructor ()
      ensures depth == 0 && multiline == Outside
    {
      depth, multiline := 0, Outside;
    }

    function State(eq: int, comment: int): Walked
      reads this
    {
      Walked(depth, multiline, eq, comment, true, Three)
    }
  }

  // ----- Tokens -----

  method ScanBasic(text: string, from: nat) returns (i: nat)
    requires from <= |text|
    ensures i == BasicEnd(text, from)
  {
    i := from;
    while i < |text|
      invariant from <= i <= |text| + 1
      invariant BasicEnd(text, from) == if i <= |text| then BasicEnd(text, i) else |text|
      decreases |text| - i
    {
      var ch := text[i];
      if ch == '\\' {
        i := i + 2;
        continue;
      }
      if ch == '"' {
        return i + 1;
      }
      i := i + 1;
    }
    return |text|;
  }

  method ScanLiteral(text: string, from: nat) returns (i: nat)
    requires from <= |text|
    ensures i == LiteralEnd(text, from)
  {
    i := from;
    while i < |text| && text[i] != '\''
      invariant from <= i <= |text|
      invariant LiteralEnd(text, from) == LiteralEnd(text, i)
    {
      i := i + 1;
    }
    return if i < |text| then i + 1 else |text|;
  }

  lemma {:induction false} BasicEndShift(s: string, k: nat, from: nat)
    requires k + from <= |s|
    ensures BasicEnd(s, k + from) == k + BasicEnd(s[k..], from)
    decreases |s| - from
  {
    var t := s[k..];
    if from < |t| {
      assert t[from] == s[k + from];
      if t[from] == '\\' {
        if from + 2 <= |t| { BasicEndShift(s, k, from + 2); }
      } else if t[from] != '"' {
        BasicEndShift(s, k, from + 1);
      }
    }
  }

  lemma {:induction false} LiteralEndShift(s: string, k: nat, from: nat)
    requires k + from <= |s|
    ensures LiteralEnd(s, k + from) == k + LiteralEnd(s[k..], from)
    decreases |s| - from
  {
    var t := s[k..];
    if from < |t| && t[from] != '\'' {
      assert t[from] == s[k + from];
      LiteralEndShift(s, k, from + 1);
    }
  }

  predicate TripleAt(text: string, i: nat, q: char) {
    i + 3 <= |text| && text[i] == q && text[i + 1] == q && text[i + 2] == q
  }

  // One turn of the rewriter's loop, by the character at `i`.

  lemma RewriteStop(text: string, i: nat)
    requires i < |text| && (text[i] == '#' || TripleAt(text, i, '"') || TripleAt(text, i, '\''))
    ensures FormatScan.NormalizeQuotes(text[i..]) == text[i..]
  {
  }

  lemma RewriteBasic(text: string, i: nat)
    requires i < |text| && text[i] == '"' && !TripleAt(text, i, '"')
    ensures var end := BasicEnd(text, i + 1);
      FormatScan.NormalizeQuotes(text[i..]) == text[i..end] + FormatScan.NormalizeQuotes(text[end..])
  {
    BasicEndShift(text, i, 1);
    var s, end := text[i..], BasicEnd(text, i + 1);
    assert s[..end - i] == text[i..end] && s[end - i..] == text[end..];
  }

  lemma RewriteLiteral(text: string, i: nat)
    requires i < |text| && text[i] == '\'' && !TripleAt(text, i, '\'')
    ensures var end := LiteralEnd(text, i + 1);
      FormatScan.NormalizeQuotes(text[i..])
        == BasicString(if i + 1 <= end - 1 then text[i + 1..end - 1] else "") + FormatScan.NormalizeQuotes(text[end..])
  {
    hide BasicString, FormatScan.NormalizeQuotes;
    LiteralEndShift(text, i, 1);
    var s, end := text[i..], LiteralEnd(text, i + 1);
    assert s[end - i..] == text[end..];
    LiteralAt(text, i);
    LiteralFirst(s);
  }

  lemma LiteralFirst(s: string)
    requires s != "" && s[0] == '\'' && !Triple(s, '\'')
    ensures FormatScan.NormalizeQuotes(s) == BasicString(LiteralContent(s)) + FormatScan.NormalizeQuotes(s[LiteralEnd(s, 1)..])
  {
    hide BasicString, LiteralContent;
  }

  lemma {:induction false} LiteralAt(text: string, i: nat)
    requires i < |text| && text[i] == '\''
    ensures var end := LiteralEnd(text, i + 1);
      LiteralContent(text[i..]) == if i + 1 <= end - 1 then text[i + 1..end - 1] else ""
  {
    LiteralEndShift(text, i, 1);
  }

  lemma RewritePlain(text: string, i: nat)
    requires i < |text| && text[i] != '#' && text[i] != '"' && text[i] != '\''
    ensures FormatScan.NormalizeQuotes(text[i..]) == [text[i]] + FormatScan.NormalizeQuotes(text[i + 1..])
  {
    assert text[i..][1..] == text[i + 1..];
  }

  method NormalizeQuotes(text: string) returns (out: string)
    ensures out == FormatScan.NormalizeQuotes(text)
  {
    hide *;
    out := "";
    var i := 0;
    assert text[0..] == text;
    while i < |text|
      invariant 0 <= i <= |text|
      invariant out + FormatScan.NormalizeQuotes(text[i..]) == FormatScan.NormalizeQuotes(text)
    {
      var ch := text[i];
      if ch == '#' || TripleAt(text, i, '"') || TripleAt(text, i, '\'') {
        RewriteStop(text, i);
        return out + text[i..];
      }
      if ch == '"' {
        RewriteBasic(text, i);
        var end := ScanBasic(text, i + 1);
        Regroup(out, text[i..end], FormatScan.NormalizeQuotes(text[end..]));
        out := out + text[i..end];
        i := end;
        continue;
      }
      if ch == '\'' {
        var end := ScanLiteral(text, i + 1);
        RewriteLiteral(text, i);
        var quoted := BasicString(if i + 1 <= end - 1 then text[i + 1..end - 1] else "");
        Regroup(out, quoted, FormatScan.NormalizeQuotes(text[end..]));
        out := out + quoted;
        i := end;
        continue;
      }
      RewritePlain(text, i);
      Regroup(out, [ch], FormatScan.NormalizeQuotes(text[i + 1..]));
      out := out + [ch];
      i := i + 1;
    }
    NothingToRewrite(text[i..]);
  }

  lemma NothingToRewrite(s: string)
    requires s == ""
    ensures FormatScan.NormalizeQuotes(s) == ""
  {
  }

  // ----- The line scanner -----

  lemma WalkStep(line: string, i: nat, st: Walked, total: Walked)
    requires i < |line| && FormatLines.SameButClean(Walk(line[i..], i, st), total)
    requires StepAt(line[i..], i, st).Go?
    ensures var g := StepAt(line[i..], i, st);
      FormatLines.SameButClean(Walk(line[i + g.n..], i + g.n, g.st), total)
  {
    hide StepAt;
    var g := StepAt(line[i..], i, st);
    assert line[i..][g.n..] == line[i + g.n..];
  }

  lemma TokenAt(line: string, i: nat)
    requires i < |line| && IsQuote(line[i])
    ensures i + StringEnd(line[i..])
         == if line[i] == '"' then BasicEnd(line, i + 1) else LiteralEnd(line, i + 1)
  {
    if line[i] == '"' { BasicEndShift(line, i, 1); } else { LiteralEndShift(line, i, 1); }
  }

  /** An unclosed token ends the line; forgetting that it was unclosed changes nothing else. */
  lemma AtEnd(line: string, i: nat, st: Walked, total: Walked)
    requires i == |line| && FormatLines.SameButClean(Walk(line[i..], i, st), total)
    ensures FormatLines.SameButClean(st, total)
  {
    assert line[i..] == "";
  }

  /** One turn inside a multi-line string; `n` characters are consumed. */
  method StepInside(line: string, i: nat, walker: Walker, ghost eq: int, ghost comment: int) returns (n: nat)
    requires i < |line| && walker.multiline != Outside
    modifies walker
    ensures var g := StepAt(line[i..], i, old(walker.State(eq, comment)));
      && g.Go? && g.st.(clean := true) == walker.State(eq, comment)
      && (n == g.n || (n == 2 && g.n == 1 == |line| - i))
  {
    if walker.multiline == InBasic {
      if line[i] == '\\' {
        return 2;
      }
      if TripleAt(line, i, '"') {
        walker.multiline := Outside;
        return 3;
      }
    } else if TripleAt(line, i, '\'') {
      walker.multiline := Outside;
      return 3;
    }
    return 1;
  }

  /** One turn outside strings, at a character that does not start a comment. */
  method StepOutside(line: string, i: nat, walker: Walker, eq: int, ghost comment: int) returns (n: nat, eq': int)
    requires i < |line| && walker.multiline == Outside && line[i] != '#'
    modifies walker
    ensures var g := StepAt(line[i..], i, old(walker.State(eq, comment)));
      g.Go? && g.st.(clean := true) == walker.State(eq', comment) && n == g.n
  {
    var ch := line[i];
    n, eq' := 1, eq;
    if ch == '=' {
      if walker.depth == 0 && eq < 0 {
        eq' := i;
      }
    } else if ch == '"' {
      TokenAt(line, i);
      if TripleAt(line, i, '"') {
        walker.multiline := InBasic;
        n := 3;
      } else {
        var end := ScanBasic(line, i + 1);
        n := end - i;
      }
    } else if ch == '\'' {
      TokenAt(line, i);
      if TripleAt(line, i, '\'') {
        walker.multiline := InLiteral;
        n := 3;
      } else {
        var end := ScanLiteral(line, i + 1);
        n := end - i;
      }
    } else if ch == '[' || ch == '{' {
      walker.depth := walker.depth + 1;
    } else if ch == ']' || ch == '}' {
      walker.depth := if walker.depth == 0 then 0 else walker.depth - 1;
    }
  }

  method ScanLine(line: string, walker: Walker) returns (eq: int, comment: int)
    modifies walker
    ensures var r := FormatDoc.ScanLine(line, old(walker.depth), old(walker.multiline));
      eq == r.eq && comment == r.comment && walker.depth == r.depth && walker.multiline == r.multiline
  {
    hide Walk, StepAt;
    eq, comment := -1, -1;
    var i := 0;
    ghost var total := FormatDoc.ScanLine(line, walker.depth, walker.multiline);
    assert line[0..] == line;
    while i < |line|
      invariant 0 <= i <= |line|
      invariant FormatLines.SameButClean(Walk(line[i..], i, walker.State(eq, comment)), total)
    {
      ghost var st := walker.State(eq, comment);
      if walker.multiline == Outside && line[i] == '#' {
        if walker.depth == 0 {
          comment := i;
        }
        StopHere(line, i, st, total);
        return;
      }
      var n;
      if walker.multiline != Outside {
        n := StepInside(line, i, walker, eq, comment);
      } else {
        n, eq := StepOutside(line, i, walker, eq, comment);
      }
      ghost var g := StepAt(line[i..], i, st);
      WalkStep(line, i, st, total);
      i := if i + n <= |line| then i + n else |line|;
      if !g.st.clean {
        UncleanEnd(line, i, g.st, total);
      }
    }
    AtEnd(line, i, walker.State(eq, comment), total);
  }

  lemma UncleanEnd(line: string, i: nat, st: Walked, total: Walked)
    requires i == |line| && FormatLines.SameButClean(Walk(line[i..], i, st), total)
    ensures FormatLines.SameButClean(Walk(line[i..], i, st.(clean := true)), total)
  {
    assert line[i..] == "";
  }

  lemma StopHere(line: string, i: nat, st: Walked, total: Walked)
    requires i < |line| && line[i] == '#' && st.multiline == Outside
    requires FormatLines.SameButClean(Walk(line[i..], i, st), total)
    ensures FormatLines.SameButClean(st.(comment := if st.depth == 0 then i else st.comment), total)
  {
  }

  // ----- Constructs and documents -----

  /** `consumeKv`: the construct that starts at `lines[start]`, and the index of its last line. */
  method ConsumeKv(lines: seq<string>, start: nat) returns (r: Result<Consumed, ScanError>, end: nat)
    requires start < |lines|
    ensures r == FormatDoc.ConsumeKv(lines[start..], start + 1)
    ensures r.Ok? ==> start <= end < |lines| && end + 1 - start == |r.value.lines|
  {
    hide FormatDoc.ScanLine, FormatDoc.ConsumeKv, Continue, Prepended, NormaliseKey, NormaliseFirstLine,
      NormaliseContinuation;
    var walker := new Walker();
    var raw := lines[start];
    var eq, comment := ScanLine(raw, walker);
    end := start;
    ScanColumns(raw);
    Consumes(lines[start..], start + 1, FormatDoc.ScanLine(raw, 0, Outside));
    if eq < 0 {
      return Err(Unsupported(start + 1)), end;
    }
    var open := walker.multiline != Outside;
    var output := [NormaliseFirstLine(raw, eq, comment, open)];
    ghost var whole := Continue(lines[start..][1..], walker.depth, walker.multiline);
    assert lines[start..][1..] == lines[start + 1..];
    assert output[1..] == [];
    PrependedNothing(whole);
    while walker.depth != 0 || walker.multiline != Outside
      invariant start <= end < |lines|
      invariant |output| == end + 1 - start
      invariant fresh(walker)
      invariant whole == Prepended(output[1..], Continue(lines[end + 1..], walker.depth, walker.multiline))
      invariant output[0] == NormaliseFirstLine(raw, eq, comment, open)
      decreases |lines| - end
    {
      end := end + 1;
      if end == |lines| {
        assert lines[end..] == [];
        Unended(output[1..], walker.depth, walker.multiline);
        return Err(Unterminated(start + 1)), end;
      }
      var line := lines[end];
      ContinueTurn(lines, end, walker.depth, walker.multiline);
      var insideBefore := walker.multiline != Outside;
      var _, _ := ScanLine(line, walker);
      var insideAfter := walker.multiline != Outside;
      var next := if insideBefore || insideAfter then line else NormaliseContinuation(line);
      ghost var before := output;
      output := output + [next];
      assert output[1..] == before[1..] + [next];
      PrependedAgain(before[1..], next, Continue(lines[end + 1..], walker.depth, walker.multiline));
    }
    Ended(output[1..], lines[end + 1..]);
    assert output == [output[0]] + output[1..];
    r := Ok(Consumed(NormaliseKey(raw[..eq]), output));
  }

  function Prepended(front: seq<string>, rest: Option<seq<string>>): Option<seq<string>> {
    match rest
    case None => None
    case Some(lines) => Some(front + lines)
  }

  lemma Consumes(lines: seq<string>, line: nat, scan: Walked)
    requires lines != [] && scan == FormatDoc.ScanLine(lines[0], 0, Outside)
    requires scan.eq < |lines[0]| && scan.comment < |lines[0]|
    requires scan.eq >= 0 && scan.comment >= 0 ==> scan.eq < scan.comment
    ensures var rest := Continue(lines[1..], scan.depth, scan.multiline);
      FormatDoc.ConsumeKv(lines, line)
        == if scan.eq < 0 then Err(Unsupported(line))
           else if rest.None? then Err(Unterminated(line))
           else Ok(Consumed(NormaliseKey(lines[0][..scan.eq]),
             [NormaliseFirstLine(lines[0], scan.eq, scan.comment, scan.multiline != Outside)] + rest.value))
  {
    hide FormatDoc.ScanLine, Continue, NormaliseKey, NormaliseFirstLine;
  }

  /** One line more of a construct that goes on. */
  lemma ContinueTurn(lines: seq<string>, k: nat, depth: nat, multiline: Multiline)
    requires k < |lines| && (depth != 0 || multiline != Outside)
    ensures var after := FormatDoc.ScanLine(lines[k], depth, multiline);
      var next :=
        if multiline != Outside || after.multiline != Outside then lines[k] else NormaliseContinuation(lines[k]);
      Continue(lines[k..], depth, multiline)
        == Prepended([next], Continue(lines[k + 1..], after.depth, after.multiline))
  {
    hide FormatDoc.ScanLine, NormaliseContinuation;
    assert lines[k..][0] == lines[k] && lines[k..][1..] == lines[k + 1..];
  }

  lemma Unended(front: seq<string>, depth: nat, multiline: Multiline)
    requires depth != 0 || multiline != Outside
    ensures Prepended(front, Continue([], depth, multiline)) == None
  {
  }

  lemma Ended(front: seq<string>, rest: seq<string>)
    ensures Prepended(front, Continue(rest, 0, Outside)) == Some(front)
  {
    assert front + [] == front;
  }

  lemma PrependedNothing(rest: Option<seq<string>>)
    ensures Prepended([], rest) == rest
  {
    if rest.Some? {
      assert [] + rest.value == rest.value;
    }
  }

  lemma PrependedAgain(front: seq<string>, line: string, rest: Option<seq<string>>)
    ensures Prepended(front + [line], rest) == Prepended(front, Prepended([line], rest))
  {
    if rest.Some? {
      assert front + [line] + rest.value == front + ([line] + rest.value);
    }
  }

  method ScanDocument(source: string) returns (r: Result<Document, ScanError>)
    ensures r == FormatDoc.ScanDocument(source)
  {
    hide ScanFrom, IsFiller, Walk, IsBlankLine, AddKv, NormaliseHeader, HeaderName, FormatDoc.ConsumeKv, Trim;
    var lines := Split(source, '\n');
    var blocks, pending, order := [ROOT], [], 0;
    var i := 0;
    assert lines[0..] == lines;
    while i < |lines|
      invariant 0 <= i <= |lines| && blocks != [] && order >= 0
      invariant ScanFrom(lines, 1, [ROOT], [], 0) == ScanFrom(lines[i..], i + 1, blocks, pending, order)
      decreases |lines| - i
    {
      var raw := lines[i];
      ghost var rest := lines[i..];
      assert rest[0] == raw && rest[1..] == lines[i + 1..];
      if IsFiller(raw) {
        FillerStep(rest, i + 1, blocks, pending, order);
        pending := pending + [raw];
        i := i + 1;
        continue;
      }
      var leading := pending;
      var spaced := exists line | line in pending :: IsBlankLine(line);
      pending := [];
      var walker := new Walker();
      var eq, _ := ScanLine(raw, walker);
      if eq < 0 {
        assert Trim(raw) != "" by { NotBlank(raw); }
        if Trim(raw)[0] != '[' {
          Refused(rest, i + 1, blocks, leading, order);
          return Err(Unsupported(i + 1));
        }
        HeaderStep(rest, i + 1, blocks, leading, order);
        var header := Header(NormaliseHeader(Trim(raw)) + EndOfLine(raw), leading);
        blocks := blocks + [Block(HeaderName(Trim(raw)), Some(header), [])];
        i := i + 1;
        continue;
      }
      var consumed, end := ConsumeKv(lines, i);
      if consumed.Err? {
        Refused(rest, i + 1, blocks, leading, order);
        return Err(consumed.error);
      }
      var kv := Kv(consumed.value.key, consumed.value.lines, leading, spaced, order);
      KvStep(rest, |kv.lines|, i + 1, blocks, leading, order, kv);
      assert rest[|kv.lines|..] == lines[end + 1..];
      AddKvNonempty(blocks, kv);
      blocks := AddKv(blocks, kv);
      order := order + 1;
      i := end + 1;
    }
    assert lines[i..] == [];
    ScanEnd(i + 1, blocks, pending, order);
    r := Ok(Document(blocks, pending));
  }

  lemma NotBlank(raw: string)
    requires !IsFiller(raw)
    ensures Trim(raw) != ""
  {
  }

  lemma AddKvNonempty(blocks: seq<Block>, kv: Kv)
    requires blocks != []
    ensures AddKv(blocks, kv) != []
  {
  }

  lemma Refused(lines: seq<string>, line: nat, blocks: seq<Block>, pending: seq<string>, order: nat)
    requires blocks != [] && lines != [] && !IsFiller(lines[0])
    ensures FormatDoc.ScanLine(lines[0], 0, Outside).eq < 0 && Trim(lines[0])[0] != '[' ==>
      ScanFrom(lines, line, blocks, pending, order) == Err(Unsupported(line))
    ensures FormatDoc.ScanLine(lines[0], 0, Outside).eq >= 0 && FormatDoc.ConsumeKv(lines, line).Err? ==>
      ScanFrom(lines, line, blocks, pending, order) == Err(FormatDoc.ConsumeKv(lines, line).error)
  {
    hide Walk, FormatDoc.ConsumeKv, Trim, HeaderName, NormaliseHeader;
  }

  /** `render`: writes the ordered blocks and the trailer line by line. */
  method Render(blocks: seq<Block>, trailer: seq<string>, eol: string) returns (r: string)
    ensures r == FormatDoc.Render(blocks, trailer, eol)
  {
    hide Join, OrderKvs, KvLines, HeaderLines, KvsLines, RstripWs;
    var out: seq<string> := [];
    for i := 0 to |blocks|
      invariant BlocksLines(blocks, true, eol) == out + BlocksLines(blocks[i..], out == [], eol)
    {
      var block := blocks[i];
      assert blocks[i..][0] == block && blocks[i..][1..] == blocks[i + 1..];
      ghost var before := out;
      var kvs := OrderKvs(block);
      if block.header.Some? {
        out := PushHeader(out, block.header.value, eol);
      }
      HeaderPart(block, before == [], eol);
      assert out == before + HeaderLines(block.header, before == [], eol);
      out := PushKvs(out, kvs, eol);
      assert out == before + BlockLines(block, before == [], eol);
      assert before + (BlockLines(block, before == [], eol) + BlocksLines(blocks[i + 1..], out == [], eol))
          == out + BlocksLines(blocks[i + 1..], out == [], eol);
    }
    assert blocks[|blocks|..] == [];
    ghost var body := out;
    assert body + [] == body && BlocksLines(blocks, true, eol) == body;
    assert trailer[0..] == trailer;
    for i := 0 to |trailer|
      invariant body + TrailerLines(trailer) == out + TrailerLines(trailer[i..])
    {
      assert trailer[i..][0] == trailer[i] && trailer[i..][1..] == trailer[i + 1..];
      ghost var before := out;
      out := out + [RstripWs(trailer[i])];
      assert before + ([RstripWs(trailer[i])] + TrailerLines(trailer[i + 1..])) == out + TrailerLines(trailer[i + 1..]);
    }
    assert trailer[|trailer|..] == [] && out + [] == out;
    assert out == RenderLines(blocks, trailer, eol);
    r := Join(out, '\n');
  }

  lemma HeaderPart(block: Block, bare: bool, eol: string)
    ensures HeaderLines(block.header, bare, eol) == [] <==> block.header.None?
  {
    hide Lead;
  }

  /** `pushLeading`: comment lines lose trailing blanks, blank lines are not written. */
  method PushLeading(out: seq<string>, leading: seq<string>) returns (r: seq<string>)
    ensures r == out + Lead(leading)
  {
    hide RstripWs, IsBlankLine;
    r := out;
    assert leading[0..] == leading;
    for i := 0 to |leading|
      invariant r + Lead(leading[i..]) == out + Lead(leading)
    {
      assert leading[i..][0] == leading[i] && leading[i..][1..] == leading[i + 1..];
      ghost var before := r;
      var text := RstripWs(leading[i]);
      if !IsBlankLine(text) {
        r := r + [text];
        assert before + ([text] + Lead(leading[i + 1..])) == r + Lead(leading[i + 1..]);
      } else {
        assert [] + Lead(leading[i + 1..]) == Lead(leading[i + 1..]);
      }
    }
    assert leading[|leading|..] == [];
  }

  method PushHeader(out: seq<string>, header: Header, eol: string) returns (r: seq<string>)
    ensures r == out + HeaderLines(Some(header), out == [], eol)
  {
    hide Lead;
    r := out;
    if |out| > 0 {
      r := r + [eol];
    }
    r := PushLeading(r, header.leading);
    r := r + [header.line];
  }

  method PushKvs(out: seq<string>, kvs: seq<Kv>, eol: string) returns (r: seq<string>)
    ensures r == out + KvsLines(kvs, out == [], eol)
  {
    hide Lead, KvLines, KvsLines;
    r := out;
    assert kvs[0..] == kvs;
    for i := 0 to |kvs|
      invariant r + KvsLines(kvs[i..], r == [], eol) == out + KvsLines(kvs, out == [], eol)
    {
      var kv := kvs[i];
      KvsStep(kvs, i, r == [], eol);
      ghost var before := r;
      if kv.spaced && |r| > 0 {
        r := r + [eol];
      }
      r := PushLeading(r, kv.leading);
      r := r + kv.lines;
      KvPart(before, kv, eol);
      assert before + (KvLines(kv, before == [], eol) + KvsLines(kvs[i + 1..], r == [], eol))
          == r + KvsLines(kvs[i + 1..], r == [], eol);
    }
    NoKvs(kvs[|kvs|..], r == [], eol);
  }

  lemma KvsStep(kvs: seq<Kv>, i: nat, bare: bool, eol: string)
    requires i < |kvs|
    ensures KvsLines(kvs[i..], bare, eol)
         == KvLines(kvs[i], bare, eol) + KvsLines(kvs[i + 1..], bare && KvLines(kvs[i], bare, eol) == [], eol)
  {
    hide KvLines;
    assert kvs[i..][0] == kvs[i] && kvs[i..][1..] == kvs[i + 1..];
  }

  lemma KvPart(before: seq<string>, kv: Kv, eol: string)
    ensures before + KvLines(kv, before == [], eol)
         == (if kv.spaced && |before| > 0 then before + [eol] else before) + Lead(kv.leading) + kv.lines
  {
    hide Lead;
    if kv.spaced && |before| > 0 {
      assert before + ([eol] + Lead(kv.leading) + kv.lines) == before + [eol] + Lead(kv.leading) + kv.lines;
    } else {
      assert before + ([] + Lead(kv.leading) + kv.lines) == before + Lead(kv.leading) + kv.lines;
    }
  }

  lemma NoKvs(kvs: seq<Kv>, bare: bool, eol: string)
    requires kvs == []
    ensures KvsLines(kvs, bare, eol) == []
  {
  }

  /** `formatToml`, with the parser and the document comparison passed in. */
  method FormatToml<D>(parse: string -> Option<D>, deepEqual: (D, D) -> bool, source: string)
    returns (r: Result<Formatted, FormatError>)
    ensures r == FormatDoc.FormatToml(parse, deepEqual, source)
  {
    hide FormatDoc.ScanDocument, FormatDoc.Render, OrderBlocks, Split;
    var hasBom := source != "" && source[0] == BOM;
    var body := if hasBom then source[1..] else source;
    var before := parse(body);
    if before.None? {
      return Err(ParseFailed);
    }
    var scanned := ScanDocument(body);
    if scanned.Err? {
      return Err(ScanFailed(scanned.error));
    }
    var output := Render(OrderBlocks(scanned.value.blocks), scanned.value.trailer, Eol(body));
    if hasBom {
      output := [BOM] + output;
    }
    if output == source {
      return Ok(Formatted(output, false));
    }
    var after := parse(if hasBom then output[1..] else output);
    if after.None? {
      return Err(EmitsInvalid);
    }
    if !deepEqual(before.value, after.value) {
      return Err(ChangesMeaning);
    }
    return Ok(Formatted(output, true));
  }
}
